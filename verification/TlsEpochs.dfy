/** No TLS handshake message mixes bytes that came under different keys (tls_method.cc). */
module TlsEpochs {
  import opened Basics
  import opened TlsStream
  import opened Wire

  /** The reading half with, for every unread byte, the number of key changes before it came; and the same
      for the messages taken. */
  datatype KeyedReader = KeyedReader(
    unread: seq<Byte>,
    marks: seq<nat>,
    hasMessage: bool,
    epoch: nat,
    taken: seq<Message>,
    takenMarks: seq<seq<nat>>)

  datatype Call = Open(body: seq<Byte>) | Get | Next | SetReadState

  const FIRST := KeyedReader([], [], false, 0, [], [])

  /** The length of the message being looked at. */
  function CurrentLength(r: KeyedReader): nat {
    if r.hasMessage && Parse(Some(r.unread)).Parsed? then |Parse(Some(r.unread)).raw| else 0
  }

  function Do(r: KeyedReader, call: Call): KeyedReader {
    match call
    case Open(body) => r.(unread := r.unread + body, marks := r.marks + seq(|body|, _ => r.epoch))
    case Get => r.(hasMessage := r.hasMessage || Parse(Some(r.unread)).Parsed?)
    case Next => TakeCurrent(r)
    case SetReadState => if |r.unread| > CurrentLength(r) then r else r.(epoch := r.epoch + 1)
  }

  /** ssl3_next_message, which only follows a message that was looked at. */
  function TakeCurrent(r: KeyedReader): KeyedReader {
    var p := Parse(Some(r.unread));
    if !r.hasMessage || p.NeedBytes? || |r.marks| != |r.unread| then r
    else
      KeyedReader(r.unread[|p.raw|..], r.marks[|p.raw|..], false, r.epoch, r.taken + [p.msg],
                  r.takenMarks + [r.marks[..|p.raw|]])
  }

  function Calls(calls: seq<Call>): KeyedReader {
    if calls == [] then FIRST else Do(Calls(calls[..|calls| - 1]), calls[|calls| - 1])
  }

  ghost predicate AllAre(marks: seq<nat>, from: nat, to: nat, epoch: nat) {
    to <= |marks| && forall i | from <= i < to :: marks[i] == epoch
  }

  ghost predicate OneMark(marks: seq<nat>) {
    forall i, j | 0 <= i < |marks| && 0 <= j < |marks| :: marks[i] == marks[j]
  }

  /** The message being looked at is of one epoch, and what comes after it of the present one. */
  ghost predicate InOrder(r: KeyedReader) {
    && |r.marks| == |r.unread| && |r.takenMarks| == |r.taken|
    && (r.hasMessage ==> Parse(Some(r.unread)).Parsed?)
    && CurrentLength(r) <= |r.unread|
    && OneMark(r.marks[..CurrentLength(r)])
    && AllAre(r.marks, CurrentLength(r), |r.marks|, r.epoch)
    && forall k | 0 <= k < |r.takenMarks| :: OneMark(r.takenMarks[k])
  }

  /** More bytes do not change a message that is complete. */
  lemma ParsedStays(unread: seq<Byte>, body: seq<Byte>)
    requires Parse(Some(unread)).Parsed?
    ensures Parse(Some(unread + body)) == Parse(Some(unread))
    ensures |Parse(Some(unread)).raw| <= |unread|
  {
    assert (unread + body)[1..] == unread[1..] + body;
    var n := |Parse(Some(unread)).raw|;
    assert (unread + body)[..n] == unread[..n];
    assert (unread + body)[HEADER_LENGTH..n] == unread[HEADER_LENGTH..n];
  }

  lemma DoKeeps(r: KeyedReader, call: Call)
    requires InOrder(r)
    ensures InOrder(Do(r, call))
  {
    hide Parse;
    var r' := Do(r, call);
    match call
    case Open(body) =>
      if r.hasMessage {
        ParsedStays(r.unread, body);
        assert r'.marks[..CurrentLength(r)] == r.marks[..CurrentLength(r)];
      }
    case Get =>
      if Parse(Some(r.unread)).Parsed? {
        ParsedStays(r.unread, []);
      }
    case Next =>
    case SetReadState =>
  }

  /** Whatever is read, looked at and taken between changes of keys, each message taken came under the same
      keys from its first byte to its last. */
  lemma {:induction false} TakenUnderOneEpoch(calls: seq<Call>)
    ensures InOrder(Calls(calls))
    ensures |Calls(calls).takenMarks| == |Calls(calls).taken|
    ensures forall k | 0 <= k < |Calls(calls).takenMarks| :: OneMark(Calls(calls).takenMarks[k])
  {
    hide Parse, Do;
    if calls != [] {
      TakenUnderOneEpoch(calls[..|calls| - 1]);
      DoKeeps(Calls(calls[..|calls| - 1]), calls[|calls| - 1]);
    }
  }
}
