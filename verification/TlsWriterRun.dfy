/** Whole runs of the TLS writer: what application data and handshake messages become of the log. */
module TlsWriterRun {
  import opened Basics
  import opened TlsWriter
  import opened TlsWriterLaws

  /** The plaintext of the sealed records of one type. */
  function Plain(log: seq<Sealed>, typ: Byte): seq<Byte> {
    if log == [] then []
    else
      var last := log[|log| - 1];
      Plain(log[..|log| - 1], typ) + if last.typ == typ then last.plain else []
  }

  lemma PlainAppend(log: seq<Sealed>, s: Sealed, typ: Byte)
    ensures Plain(log + [s], typ) == Plain(log, typ) + if s.typ == typ then s.plain else []
  {
    assert (log + [s])[..|log|] == log;
  }

  // ----- Application data -----

  /** How much of the data being written is sealed in the record that is not flushed yet. */
  function PendingLen(w: Writer): nat {
    if w.pending.Some? && w.pending.value.typ == APPLICATION_DATA then w.pending.value.len else 0
  }

  /** How much of the caller's data is sealed but not yet reported as written. */
  function Held(w: Writer): nat {
    w.wnum + PendingLen(w)
  }

  /** The application data sealed is `base` and the first `n` bytes of `data`. */
  ghost predicate SealedTo(w: Writer, base: seq<Byte>, data: seq<Byte>, n: int) {
    0 <= n <= |data| && Plain(w.log, APPLICATION_DATA) == base + data[..n]
  }

  /** What do_ssl3_write does to the log and to the pending write: it seals the record, or reports
      the one that was pending, or neither. */
  ghost predicate Effect(w: Writer, typ: Byte, plain: seq<Byte>, r: Written) {
    && r.writer == w.(transport := r.writer.transport, buffer := r.writer.buffer, flight := r.writer.flight,
                      seqNum := r.writer.seqNum, pending := r.writer.pending, log := r.writer.log)
    && if r.writer.log == w.log then
         if r.ret > 0 then
           && w.pending.Some? && w.pending.value.typ == typ && r.ret == w.pending.value.len
           && r.writer.pending == None
         else r.writer.pending == w.pending
       else
         && w.pending == None
         && |r.writer.log| == |w.log| + 1
         && r.writer.log == w.log + [r.writer.log[|w.log|]]
         && r.writer.log[|w.log|].typ == typ && r.writer.log[|w.log|].plain == plain
         && if r.ret > 0 then r.ret == |plain| && r.writer.pending == None
            else r.writer.pending.Some? && r.writer.pending.value.typ == typ && r.writer.pending.value.len == |plain|
  }

  lemma DoWriteEffect(w: Writer, c: Cipher, mode: Mode, addr: int, typ: Byte, plain: seq<Byte>, r: Written)
    requires r == DoWrite(w, c, mode, addr, typ, plain)
    ensures Effect(w, typ, plain, r)
  {
    if w.pending.None? && |plain| <= MAX_PLAIN_LENGTH && w.buffer == [] && plain != [] {
      var sealed := SealIntoBuffer(w, c, addr, typ, plain);
      assert sealed.ret > 0 ==> sealed.writer.log != w.log;
    }
  }

  /** One call of do_ssl3_write for the piece of `data` at `tot`: what it reports is sealed once,
      whether now or by an earlier call. */
  lemma DoWriteOnce(w: Writer, base: seq<Byte>, data: seq<Byte>, tot: nat, len: nat, r: Written)
    requires tot + len <= |data| && SealedTo(w, base, data, tot + PendingLen(w))
    requires Effect(w, APPLICATION_DATA, data[tot..tot + len], r)
    ensures SealedTo(r.writer, base, data, tot + if r.ret > 0 then r.ret else PendingLen(r.writer))
    ensures r.ret > 0 ==> r.writer.pending == None
    ensures r.writer.wnum == w.wnum
  {
    var piece := data[tot..tot + len];
    if r.writer.log != w.log {
      assert data[..tot] + piece == data[..tot + len];
      PlainAppend(w.log, r.writer.log[|w.log|], APPLICATION_DATA);
      Associative(base, data[..tot], piece);
    }
  }

  ghost predicate PieceDone(one: Written, base: seq<Byte>, data: seq<Byte>, tot: nat) {
    && one.writer.wnum == 0 && (one.ret > 0 ==> one.writer.pending == None)
    && SealedTo(one.writer, base, data, tot + if one.ret > 0 then one.ret else PendingLen(one.writer))
  }

  lemma PieceOnce(w: Writer, c: Cipher, mode: Mode, addr: int, base: seq<Byte>, data: seq<Byte>, tot: nat,
                  len: nat, one: Written)
    requires tot + len <= |data| && w.wnum == 0 && SealedTo(w, base, data, tot + PendingLen(w))
    requires one == DoWrite(w, c, mode, addr, APPLICATION_DATA, data[tot..tot + len])
    ensures PieceDone(one, base, data, tot)
  {
    DoWriteEffect(w, c, mode, addr, APPLICATION_DATA, data[tot..tot + len], one);
    DoWriteOnce(w, base, data, tot, len, one);
  }

  ghost predicate CallDone(r: Written, base: seq<Byte>, data: seq<Byte>) {
    && SealedTo(r.writer, base, data, if r.ret > 0 then r.ret else Held(r.writer))
    && (r.ret > 0 ==> Held(r.writer) == 0)
  }

  lemma {:induction false} WriteFromOnce(w: Writer, c: Cipher, mode: Mode, addr: int, base: seq<Byte>,
                                         data: seq<Byte>, tot: nat, r: Written)
    requires w.wnum == 0 && SealedTo(w, base, data, tot + PendingLen(w))
    requires r == WriteFrom(w, c, mode, addr, data, tot)
    ensures CallDone(r, base, data)
    decreases |data| - tot, 1
  {
    var len := Min(|data| - tot, mode.maxFragment);
    var one := DoWrite(w, c, mode, addr + tot, APPLICATION_DATA, data[tot..tot + len]);
    PieceOnce(w, c, mode, addr + tot, base, data, tot, len, one);
    AfterPieceOnce(one, c, mode, addr, base, data, tot, r);
  }

  lemma {:induction false} AfterPieceOnce(one: Written, c: Cipher, mode: Mode, addr: int, base: seq<Byte>,
                                          data: seq<Byte>, tot: nat, r: Written)
    requires tot <= |data| && one.ret <= |data| - tot && PieceDone(one, base, data, tot)
    requires r == AfterPiece(one, c, mode, addr, data, tot)
    ensures CallDone(r, base, data)
    decreases |data| - tot, 0
  {
    if one.ret > 0 && one.ret != |data| - tot && !mode.partialWrite {
      WriteFromOnce(one.writer, c, mode, addr, base, data, tot + one.ret, r);
    }
  }

  /**
   ssl3_write_app_data seals each byte of the caller's data once: if the caller comes back with the
   data that it was given the first time, what was sealed then is not sealed again.
   */
  lemma WriteAppDataOnce(w: Writer, c: Cipher, mode: Mode, addr: int, base: seq<Byte>, data: seq<Byte>, r: Written)
    requires SealedTo(w, base, data, Held(w))
    requires r == WriteAppData(w, c, mode, addr, data)
    ensures CallDone(r, base, data)
  {
    if !w.shutdown {
      WriteFromOnce(w.(wnum := 0), c, mode, addr, base, data, w.wnum, r);
    }
  }

  // ----- Everything else leaves application data alone -----

  ghost predicate SameApp(w: Writer, w': Writer) {
    && Plain(w'.log, APPLICATION_DATA) == Plain(w.log, APPLICATION_DATA)
    && w'.wnum == w.wnum && PendingLen(w') == PendingLen(w)
  }

  ghost predicate SameHandshake(w: Writer, w': Writer) {
    Plain(w'.log, HANDSHAKE) == Plain(w.log, HANDSHAKE)
  }

  lemma AlertEffect(w: Writer, c: Cipher, mode: Mode, r: Written)
    requires w.alert.Some? && r == DispatchAlert(w, c, mode)
    ensures SameApp(w, r.writer) && SameHandshake(w, r.writer)
  {
    var one := DoWrite(w, c, mode, ALERT_BUFFER, ALERT, w.alert.value);
    DoWriteEffect(w, c, mode, ALERT_BUFFER, ALERT, w.alert.value, one);
    if one.writer.log != w.log {
      PlainAppend(w.log, one.writer.log[|w.log|], APPLICATION_DATA);
      PlainAppend(w.log, one.writer.log[|w.log|], HANDSHAKE);
    }
  }

  lemma FlushFlightFrame(w: Writer, flushed: bool, r: Written)
    requires r == FlushFlight(w, flushed)
    ensures SameApp(w, r.writer) && r.writer.log == w.log
  {
  }

  lemma AddRecordEffect(w: Writer, c: Cipher, typ: Byte, plain: seq<Byte>, r: Added)
    requires typ != APPLICATION_DATA && r == AddRecord(w, c, typ, plain)
    ensures SameApp(w, r.writer)
    ensures Plain(r.writer.log, HANDSHAKE)
         == Plain(w.log, HANDSHAKE) + if r.ok && typ == HANDSHAKE then plain else []
  {
    if r.ok {
      PlainAppend(w.log, r.writer.log[|w.log|], APPLICATION_DATA);
      PlainAppend(w.log, r.writer.log[|w.log|], HANDSHAKE);
    } else {
      assert Plain(w.log, HANDSHAKE) + [] == Plain(w.log, HANDSHAKE);
    }
  }

  /** A message's records carry its bytes, however it is cut. */
  lemma {:induction false} AddMessageEffect(w: Writer, c: Cipher, mode: Mode, msg: seq<Byte>, r: Added)
    requires r == AddMessage(w, c, mode, msg)
    ensures SameApp(w, r.writer)
    ensures r.ok ==> Plain(r.writer.log, HANDSHAKE) == Plain(w.log, HANDSHAKE) + msg
    decreases |msg|
  {
    var n := Min(mode.maxFragment, |msg|);
    var one := AddRecord(w, c, HANDSHAKE, msg[..n]);
    AddRecordEffect(w, c, HANDSHAKE, msg[..n], one);
    if one.ok && n < |msg| {
      AddMessageEffect(one.writer, c, mode, msg[n..], r);
      Associative(Plain(w.log, HANDSHAKE), msg[..n], msg[n..]);
      assert msg[..n] + msg[n..] == msg;
    } else {
      assert n == |msg| ==> msg[..n] == msg;
    }
  }

  // ----- Runs -----

  /** A caller writes `stream`, of which `acked` bytes were reported as written; after a write that
      was not, the next one must offer at least `owed` bytes. `messages` are the handshake messages
      added; `broken` says that adding one failed. */
  datatype World = World(
    writer: Writer,
    stream: seq<Byte>,
    acked: nat,
    owed: nat,
    messages: seq<seq<Byte>>,
    broken: bool)

  function Start(stream: seq<Byte>): World {
    World(Writer(0, None, [], None, 0, false, None, Transport([], []), []), stream, 0, 0, [], false)
  }

  datatype Event =
    | Ready(script: seq<int>)
    | WriteApp(addr: int, len: nat, c: Cipher, mode: Mode)
    | Message(msg: seq<Byte>, c: Cipher, mode: Mode)
    | ChangeCipherSpec(c: Cipher)
    | Flush(flushed: bool)
    | Alert(level: Byte, desc: Byte, c: Cipher, mode: Mode)
    | Dispatch(c: Cipher, mode: Mode)
    | NewKeys

  /** A call of ssl3_write_app_data that follows the rule for retries. */
  function CallWrite(w: World, e: Event): World
    requires e.WriteApp?
  {
    if e.len < w.owed || w.acked + e.len > |w.stream| then w
    else
      var r := WriteAppData(w.writer, e.c, e.mode, e.addr, w.stream[w.acked..w.acked + e.len]);
      if r.ret > 0 then w.(writer := r.writer, acked := w.acked + r.ret, owed := 0)
      else w.(writer := r.writer, owed := e.len)
  }

  function Apply(w: World, e: Event): World {
    match e
    case Ready(script) => w.(writer := w.writer.(transport := w.writer.transport.(script := script)))
    case WriteApp(_, _, _, _) => CallWrite(w, e)
    case Message(msg, c, mode) =>
      var added := AddMessage(w.writer, c, mode, msg);
      w.(writer := added.writer, messages := w.messages + [msg], broken := w.broken || !added.ok)
    case ChangeCipherSpec(c) => w.(writer := AddRecord(w.writer, c, CHANGE_CIPHER_SPEC, [1]).writer)
    case Flush(flushed) => w.(writer := FlushFlight(w.writer, flushed).writer)
    case Alert(level, desc, c, mode) => w.(writer := SendAlert(w.writer, c, mode, level, desc).writer)
    case Dispatch(c, mode) =>
      if w.writer.alert.None? then w else w.(writer := DispatchAlert(w.writer, c, mode).writer)
    case NewKeys => w.(writer := w.writer.(seqNum := 0))
  }

  ghost predicate Inv(w: World) {
    && Conserved(w.writer)
    && w.acked <= |w.stream|
    && SealedTo(w.writer, w.stream[..w.acked], w.stream[w.acked..], Held(w.writer))
    && Held(w.writer) <= w.owed
    && (!w.broken ==> Plain(w.writer.log, HANDSHAKE) == Flatten(w.messages))
  }

  lemma CallWriteKeeps(w: World, e: Event)
    requires Inv(w) && e.WriteApp?
    ensures Inv(CallWrite(w, e))
  {
    if w.owed <= e.len && w.acked + e.len <= |w.stream| {
      var base, rest := w.stream[..w.acked], w.stream[w.acked..];
      var data := w.stream[w.acked..w.acked + e.len];
      var r := WriteAppData(w.writer, e.c, e.mode, e.addr, data);
      SamePrefix(rest, data, Held(w.writer));
      WriteAppDataConserves(w.writer, e.c, e.mode, e.addr, data, r);
      WriteAppDataOnce(w.writer, e.c, e.mode, e.addr, base, data, r);
      WriteAppDataHandshake(w.writer, e.c, e.mode, e.addr, data, r);
      if r.ret > 0 {
        assert w.stream[..w.acked + r.ret] == base + data[..r.ret];
        assert w.stream[..w.acked + r.ret] + w.stream[w.acked + r.ret..][..0] == w.stream[..w.acked + r.ret];
      } else {
        SamePrefix(rest, data, Held(r.writer));
      }
    }
  }

  lemma SamePrefix(rest: seq<Byte>, data: seq<Byte>, n: nat)
    requires data <= rest && n <= |data|
    ensures rest[..n] == data[..n]
  {
  }

  lemma {:induction false} WriteFromHandshake(w: Writer, c: Cipher, mode: Mode, addr: int, data: seq<Byte>,
                                              tot: nat, r: Written)
    requires tot <= |data| && r == WriteFrom(w, c, mode, addr, data, tot)
    ensures SameHandshake(w, r.writer)
    decreases |data| - tot, 1
  {
    hide DoWrite, Plain;
    var piece := data[tot..tot + Min(|data| - tot, mode.maxFragment)];
    var one := DoWrite(w, c, mode, addr + tot, APPLICATION_DATA, piece);
    DoWriteEffect(w, c, mode, addr + tot, APPLICATION_DATA, piece, one);
    if one.writer.log != w.log {
      PlainAppend(w.log, one.writer.log[|w.log|], HANDSHAKE);
    }
    AfterPieceHandshake(one, c, mode, addr, data, tot, r);
  }

  lemma {:induction false} AfterPieceHandshake(one: Written, c: Cipher, mode: Mode, addr: int, data: seq<Byte>,
                                               tot: nat, r: Written)
    requires tot <= |data| && one.ret <= |data| - tot && r == AfterPiece(one, c, mode, addr, data, tot)
    ensures SameHandshake(one.writer, r.writer)
    decreases |data| - tot, 0
  {
    if one.ret > 0 && one.ret != |data| - tot && !mode.partialWrite {
      WriteFromHandshake(one.writer, c, mode, addr, data, tot + one.ret, r);
    }
  }

  lemma WriteAppDataHandshake(w: Writer, c: Cipher, mode: Mode, addr: int, data: seq<Byte>, r: Written)
    requires r == WriteAppData(w, c, mode, addr, data)
    ensures SameHandshake(w, r.writer)
  {
    if !w.shutdown && w.wnum <= |data| {
      WriteFromHandshake(w.(wnum := 0), c, mode, addr, data, w.wnum, r);
    }
  }

  /** A step of the writer alone that leaves application data and handshake messages as they are. */
  lemma QuietKeeps(w: World, writer: Writer)
    requires Inv(w) && Conserved(writer) && SameApp(w.writer, writer) && SameHandshake(w.writer, writer)
    ensures Inv(w.(writer := writer))
  {
  }

  lemma MessageKeeps(w: World, msg: seq<Byte>, c: Cipher, mode: Mode)
    requires Inv(w)
    ensures Inv(Apply(w, Message(msg, c, mode)))
  {
    var added := AddMessage(w.writer, c, mode, msg);
    AddMessageConserves(w.writer, c, mode, msg, added);
    AddMessageEffect(w.writer, c, mode, msg, added);
    FlattenAppend(w.messages, [msg]);
    FlattenOne(msg);
  }

  lemma StepKeeps(w: World, e: Event)
    requires Inv(w)
    ensures Inv(Apply(w, e))
  {
    match e
    case Ready(_) => QuietKeeps(w, Apply(w, e).writer);
    case WriteApp(_, _, _, _) => CallWriteKeeps(w, e);
    case Message(msg, c, mode) => MessageKeeps(w, msg, c, mode);
    case ChangeCipherSpec(c) =>
      var r := AddRecord(w.writer, c, CHANGE_CIPHER_SPEC, [1]);
      AddRecordConserves(w.writer, c, CHANGE_CIPHER_SPEC, [1], r);
      AddRecordEffect(w.writer, c, CHANGE_CIPHER_SPEC, [1], r);
      QuietKeeps(w, r.writer);
    case Flush(flushed) =>
      FlushFlightConserves(w.writer, flushed, FlushFlight(w.writer, flushed));
      FlushFlightFrame(w.writer, flushed, FlushFlight(w.writer, flushed));
      QuietKeeps(w, FlushFlight(w.writer, flushed).writer);
    case Alert(level, desc, c, mode) => AlertKeeps(w, c, mode, level, desc);
    case Dispatch(c, mode) => DispatchKeeps(w, c, mode);
    case NewKeys => QuietKeeps(w, Apply(w, e).writer);
  }

  lemma DispatchKeeps(w: World, c: Cipher, mode: Mode)
    requires Inv(w)
    ensures Inv(Apply(w, Dispatch(c, mode)))
  {
    if w.writer.alert.Some? {
      AlertConserves(w.writer, c, mode);
      AlertEffect(w.writer, c, mode, DispatchAlert(w.writer, c, mode));
      QuietKeeps(w, DispatchAlert(w.writer, c, mode).writer);
    }
  }

  lemma AlertKeeps(w: World, c: Cipher, mode: Mode, level: Byte, desc: Byte)
    requires Inv(w)
    ensures Inv(Apply(w, Alert(level, desc, c, mode)))
  {
    if !w.writer.shutdown {
      var w' := w.(writer := w.writer.(shutdown := true, alert := Some([level, desc])));
      QuietKeeps(w, w'.writer);
      DispatchKeeps(w', c, mode);
    }
  }

  function Run(stream: seq<Byte>, events: seq<Event>): World {
    if events == [] then Start(stream)
    else Apply(Run(stream, events[..|events| - 1]), events[|events| - 1])
  }

  lemma {:induction false} RunKeeps(stream: seq<Byte>, events: seq<Event>)
    ensures Inv(Run(stream, events)) && Run(stream, events).stream == stream
  {
    if events == [] {
      assert stream[..0] + stream[0..][..0] == [];
    } else {
      RunKeeps(stream, events[..|events| - 1]);
      StepKeeps(Run(stream, events[..|events| - 1]), events[|events| - 1]);
    }
  }

  /**
   In every reachable state, what the transport took, then the write buffer, then what is left of
   the flight, is the sealed records in sealing order.
   */
  lemma BytesConserved(stream: seq<Byte>, events: seq<Event>)
    ensures var w := Run(stream, events).writer;
            w.transport.out + w.buffer + FlightRest(w) == Wire(w.log)
  {
    RunKeeps(stream, events);
  }

  /**
   Across short writes and retries that follow the rule, the application data sealed is a prefix of
   the caller's data: each byte once and in order, everything reported as written, and beyond it
   just what is held for the retry.
   */
  lemma ApplicationDataOnce(stream: seq<Byte>, events: seq<Event>)
    ensures var w := Run(stream, events);
            && w.acked + Held(w.writer) <= |stream|
            && Plain(w.writer.log, APPLICATION_DATA) == stream[..w.acked + Held(w.writer)]
  {
    RunKeeps(stream, events);
    var w := Run(stream, events);
    assert stream[..w.acked] + stream[w.acked..][..Held(w.writer)] == stream[..w.acked + Held(w.writer)];
  }

  /** The handshake records carry the messages added, one after the other. */
  lemma HandshakeBytes(stream: seq<Byte>, events: seq<Event>)
    requires !Run(stream, events).broken
    ensures Plain(Run(stream, events).writer.log, HANDSHAKE) == Flatten(Run(stream, events).messages)
  {
    RunKeeps(stream, events);
  }
}
