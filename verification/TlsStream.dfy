/**
 The TLS handshake byte stream (s3_both.cc, section 6.2.1 of RFC 5246): messages with a 4-byte
 header, cut anywhere into records, and read back from a buffer that records are appended to.
 */
module TlsStream {
  import opened Basics
  import opened Wire

  const HEADER_LENGTH := 4

  /** ssl3_init_message and ssl3_finish_message; a body of 2^24 bytes or more is refused. */
  function Encode(m: Message): Option<seq<Byte>> {
    if |m.body| >= TWO24 then None else Some([m.typ] + U24(|m.body|) + m.body)
  }

  datatype Parsed = Parsed(msg: Message, raw: seq<Byte>) | NeedBytes(n: nat)

  /** parse_message: the first message of the buffer, or how many bytes it takes. */
  function Parse(buf: Option<seq<Byte>>): Parsed {
    if buf.None? || |buf.value| < HEADER_LENGTH then NeedBytes(HEADER_LENGTH)
    else
      var s := buf.value;
      var len := GetU24(s[1..]);
      if |s| - HEADER_LENGTH < len then NeedBytes(HEADER_LENGTH + len)
      else Parsed(Message(s[0], s[HEADER_LENGTH..HEADER_LENGTH + len]), s[..HEADER_LENGTH + len])
  }

  /** A complete message is parsed back, whatever follows it. */
  lemma ParseEncoded(m: Message, rest: seq<Byte>)
    requires |m.body| < TWO24
    ensures Parse(Some(Encode(m).value + rest)) == Parsed(m, Encode(m).value)
  {
    var s := Encode(m).value + rest;
    assert s[1..] == U24(|m.body|) + (m.body + rest);
    U24RoundTrip(|m.body|, m.body + rest);
    assert s[HEADER_LENGTH..HEADER_LENGTH + |m.body|] == m.body;
    assert s[..HEADER_LENGTH + |m.body|] == Encode(m).value;
  }

  /** Where the type, the length (its most significant byte first) and the body stand. */
  lemma EncodedLayout(m: Message)
    requires |m.body| < TWO24
    ensures var s := Encode(m).value;
            && |s| == 4 + |m.body| && s[0] == m.typ && s[4..] == m.body
            && (s[1] as int) * 0x1_0000 + (s[2] as int) * 0x100 + s[3] == |m.body|
  {
    hide U24;
    var s := Encode(m).value;
    assert s[1..] == U24(|m.body|) + m.body;
    U24RoundTrip(|m.body|, m.body);
  }

  /** A proper prefix of a message is never taken for a message. */
  lemma ParsePartial(m: Message, part: seq<Byte>)
    requires |m.body| < TWO24 && part < Encode(m).value
    ensures Parse(Some(part)).NeedBytes?
    ensures |part| < Parse(Some(part)).n <= |Encode(m).value|
  {
    if |part| >= HEADER_LENGTH {
      assert part[1..] == U24(|m.body|) + part[HEADER_LENGTH..];
      U24RoundTrip(|m.body|, part[HEADER_LENGTH..]);
    }
  }

  /** The reading half: hs_buf and has_message. */
  class Stream {
    /** hs_buf, when it is there. */
    var hasBuf: bool
    var data: seq<Byte>
    var hasMessage: bool

    function Buffer(): Option<seq<Byte>>
      reads this
    {
      if hasBuf then Some(data) else None
    }

    function Unread(): seq<Byte>
      reads this
    {
      if hasBuf then data else []
    }

    constructor ()
      ensures Unread() == [] && !hasMessage
    {
      hasBuf, data, hasMessage := false, [], false;
    }

    /** ssl3_open_handshake, once a handshake record is open. */
    method Append(body: seq<Byte>)
      modifies this
      ensures Unread() == old(Unread()) + body && hasMessage == old(hasMessage)
    {
      if !hasBuf {
        hasBuf, data := true, [];
      }
      data := data + body;
    }

    /** tls_can_accept_handshake_data: no complete message is waiting, and the one being read is not
        too long. */
    method CanAccept(maxLen: nat) returns (ok: bool)
      ensures ok == (Parse(Buffer()).NeedBytes? && Parse(Buffer()).n <= HEADER_LENGTH + maxLen)
    {
      var p := Parse(Buffer());
      return p.NeedBytes? && p.n <= HEADER_LENGTH + maxLen;
    }

    /** ssl3_get_message */
    method Get() returns (p: Parsed)
      modifies this`hasMessage
      ensures p == Parse(Buffer())
      ensures hasMessage == (old(hasMessage) || p.Parsed?)
    {
      p := Parse(Buffer());
      if p.Parsed? && !hasMessage {
        hasMessage := true;
      }
    }

    /** ssl3_next_message; `inInit` is SSL_in_init. */
    method Next(inInit: bool)
      requires Parse(Buffer()).Parsed?
      modifies this
      ensures Unread() == old(Unread())[|old(Parse(Buffer())).raw|..] && !hasMessage
    {
      var p := Get();
      data := data[|p.raw|..];
      hasMessage := false;
      if !inInit && |data| == 0 {
        hasBuf := false;
      }
    }

    /** tls_has_unprocessed_handshake_data */
    method HasUnprocessed() returns (pending: bool)
      ensures pending <==> |Unread()| > if hasMessage && Parse(Buffer()).Parsed? then |Parse(Buffer()).raw| else 0
    {
      var msgLen := 0;
      if hasMessage {
        var p := Parse(Buffer());
        if p.Parsed? {
          msgLen := |p.raw|;
        }
      }
      return hasBuf && |data| > msgLen;
    }

    /** ssl3_set_read_state: whether the keys may change. */
    method SetRead() returns (ok: bool)
      ensures ok <==> |Unread()| <= if hasMessage && Parse(Buffer()).Parsed? then |Parse(Buffer()).raw| else 0
    {
      var pending := HasUnprocessed();
      return !pending;
    }
  }

  // ----- Round trip -----

  ghost predicate Sendable(ms: seq<Message>) {
    forall m | m in ms :: |m.body| < TWO24
  }

  /** The byte stream that carries a list of messages. */
  function Bytes(ms: seq<Message>): seq<Byte>
    requires Sendable(ms)
  {
    if ms == [] then [] else Encode(ms[0]).value + Bytes(ms[1..])
  }

  /** A reader: what is unread, and what was taken. */
  datatype Reader = Reader(unread: seq<Byte>, taken: seq<Message>)

  datatype Event = Deliver(body: seq<Byte>) | Take

  /** One record's body arrives, or the next message is taken if it is complete. */
  function Apply(r: Reader, e: Event): Reader {
    match e
    case Deliver(body) => r.(unread := r.unread + body)
    case Take =>
      var p := Parse(Some(r.unread));
      if p.NeedBytes? then r else Reader(r.unread[|p.raw|..], r.taken + [p.msg])
  }

  function Run(events: seq<Event>): Reader {
    if events == [] then Reader([], []) else Apply(Run(events[..|events| - 1]), events[|events| - 1])
  }

  /** The record bodies delivered, one after the other. */
  function Delivered(events: seq<Event>): seq<Byte> {
    if events == [] then []
    else
      var e := events[|events| - 1];
      Delivered(events[..|events| - 1]) + if e.Deliver? then e.body else []
  }

  lemma {:induction false} BytesAppend(a: seq<Message>, b: seq<Message>)
    requires Sendable(a + b)
    ensures Sendable(a) && Sendable(b) && Bytes(a + b) == Bytes(a) + Bytes(b)
  {
    assert forall m | m in a :: m in a + b;
    assert forall m | m in b :: m in a + b;
    if a == [] {
      assert a + b == b;
    } else {
      assert (a + b)[1..] == a[1..] + b && (a + b)[0] == a[0];
      BytesAppend(a[1..], b);
      Associative(Encode(a[0]).value, Bytes(a[1..]), Bytes(b));
    }
  }

  /** What a prefix of the stream that starts with unread messages parses to. */
  lemma ParseStream(ms: seq<Message>, unread: seq<Byte>)
    requires Sendable(ms) && unread <= Bytes(ms)
    ensures var p := Parse(Some(unread));
            if p.Parsed? then
              ms != [] && p.msg == ms[0] && p.raw == Encode(ms[0]).value && p.raw <= unread
            else ms == [] || unread < Encode(ms[0]).value
  {
    if ms == [] {
      assert unread == [];
    } else {
      var first := Encode(ms[0]).value;
      if |unread| >= |first| {
        assert unread == first + unread[|first|..];
        ParseEncoded(ms[0], unread[|first|..]);
      } else {
        assert unread == first[..|unread|];
        ParsePartial(ms[0], unread);
      }
    }
  }

  /** The reader took a prefix of the messages, and what is unread is the rest of what came. */
  ghost predicate InStep(r: Reader, ms: seq<Message>, delivered: seq<Byte>)
    requires Sendable(ms)
  {
    && r.taken <= ms
    && (assert forall m | m in r.taken :: m in ms; Sendable(r.taken))
    && delivered == Bytes(r.taken) + r.unread
  }

  lemma PrefixCancel(a: seq<Byte>, x: seq<Byte>, y: seq<Byte>)
    requires a + x <= a + y
    ensures x <= y
  {
    assert x == (a + x)[|a|..];
    assert forall i | 0 <= i < |x| :: x[i] == (a + x)[|a| + i] == (a + y)[|a| + i] == y[i];
  }

  /** What is unread is the start of the messages not taken yet. */
  lemma UnreadIsRest(r: Reader, ms: seq<Message>, delivered: seq<Byte>) returns (left: seq<Message>)
    requires Sendable(ms) && InStep(r, ms, delivered) && delivered <= Bytes(ms)
    ensures ms == r.taken + left && Sendable(left) && Sendable(r.taken) && Bytes(ms) == Bytes(r.taken) + Bytes(left)
    ensures r.unread <= Bytes(left)
  {
    left := ms[|r.taken|..];
    assert ms == r.taken + left;
    BytesAppend(r.taken, left);
    PrefixCancel(Bytes(r.taken), r.unread, Bytes(left));
  }

  lemma TakeInStep(r: Reader, ms: seq<Message>, delivered: seq<Byte>)
    requires Sendable(ms) && InStep(r, ms, delivered) && delivered <= Bytes(ms)
    ensures InStep(Apply(r, Take), ms, delivered)
  {
    hide Parse, Encode;
    var left := UnreadIsRest(r, ms, delivered);
    ParseStream(left, r.unread);
    var p := Parse(Some(r.unread));
    if p.Parsed? {
      BytesAppend(r.taken, [left[0]]);
      assert Bytes([left[0]]) == p.raw + Bytes([left[0]][1..]);
      assert r.unread == p.raw + r.unread[|p.raw|..];
      Associative(Bytes(r.taken), p.raw, r.unread[|p.raw|..]);
    }
  }

  /**
   For any list of messages and any cutting of their bytes into records, the messages taken are a
   prefix of the list, and what is unread is always what came of the rest.
   */
  lemma {:induction false} StreamRoundTrip(ms: seq<Message>, events: seq<Event>)
    requires Sendable(ms) && Delivered(events) <= Bytes(ms)
    ensures InStep(Run(events), ms, Delivered(events))
  {
    if events != [] {
      var before, e := events[..|events| - 1], events[|events| - 1];
      assert Delivered(before) <= Delivered(events);
      StreamRoundTrip(ms, before);
      if e.Take? {
        assert Delivered(events) == Delivered(before);
        TakeInStep(Run(before), ms, Delivered(before));
      } else {
        Associative(Bytes(Run(before).taken), Run(before).unread, e.body);
      }
    }
  }

  /** Once everything has come and no message can be taken, all were taken. */
  lemma StreamComplete(ms: seq<Message>, events: seq<Event>)
    requires Sendable(ms) && Delivered(events) == Bytes(ms)
    requires Apply(Run(events), Take) == Run(events)
    ensures Run(events) == Reader([], ms)
  {
    var r := Run(events);
    StreamRoundTrip(ms, events);
    var left := UnreadIsRest(r, ms, Bytes(ms));
    ParseStream(left, r.unread);
    assert r.unread == Bytes(left) by {
      assert |Bytes(r.taken) + r.unread| == |Bytes(r.taken) + Bytes(left)|;
    }
  }
}
