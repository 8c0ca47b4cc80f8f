/** Under which sequence numbers the TLS writer seals its records. */
module TlsWriterNumbers {
  import opened Basics
  import opened TlsWriter
  import opened TlsWriterRun

  /** How many records one set of keys seals before the 8-byte number wraps; the attempt to seal one
      more fails, and numbering then starts again. */
  const PERIOD := TWO64 - 1

  /** The number that comes next when `n` records were sealed since the keys were set. */
  ghost predicate Due(seqNum: nat, n: nat) {
    seqNum == n % PERIOD || (n > 0 && n % PERIOD == 0 && seqNum == PERIOD)
  }

  /** From `w` to `w'` records were sealed with `c` only, under the numbers that come after `n` records. */
  ghost predicate Numbered(w: Writer, n: nat, c: Cipher, w': Writer) {
    && w.log <= w'.log
    && Due(w'.seqNum, n + (|w'.log| - |w.log|))
    && forall j | |w.log| <= j < |w'.log| :: SealedAs(w'.log[j], c, (n + (j - |w.log|)) % PERIOD)
  }

  ghost predicate SealedAs(s: Sealed, c: Cipher, number: nat) {
    s.bytes == c.seal(number, s.typ, s.plain)
  }

  /** A step that seals nothing. */
  ghost predicate Quiet(w: Writer, w': Writer) {
    w'.log == w.log && w'.seqNum == w.seqNum
  }

  lemma QuietNumbered(w: Writer, n: nat, c: Cipher, w': Writer)
    requires Due(w.seqNum, n) && Quiet(w, w')
    ensures Numbered(w, n, c, w')
  {
  }

  lemma NumberedJoin(w: Writer, n: nat, c: Cipher, mid: Writer, w': Writer)
    requires Numbered(w, n, c, mid) && Numbered(mid, n + (|mid.log| - |w.log|), c, w')
    ensures Numbered(w, n, c, w')
  {
    forall j | |w.log| <= j < |w'.log|
      ensures SealedAs(w'.log[j], c, (n + (j - |w.log|)) % PERIOD)
    {
      if j < |mid.log| {
        assert w'.log[j] == mid.log[j];
      }
    }
  }

  /** Sealing one record. */
  ghost predicate SealStep(w: Writer, c: Cipher, typ: Byte, plain: seq<Byte>, w': Writer) {
    var sealed := SealRecord(c, w.seqNum, |plain| + c.overhead, typ, plain);
    && w'.seqNum == sealed.seqNum
    && w'.log == if sealed.bytes.None? then w.log else w.log + [Sealed(typ, plain, sealed.bytes.value)]
  }

  lemma SealNumbered(w: Writer, n: nat, c: Cipher, typ: Byte, plain: seq<Byte>, w': Writer)
    requires Due(w.seqNum, n) && SealStep(w, c, typ, plain, w')
    ensures Numbered(w, n, c, w')
  {
    NextDue(w.seqNum, n);
  }

  lemma NextDue(seqNum: nat, n: nat)
    requires Due(seqNum, n)
    ensures seqNum == PERIOD ==> Due(0, n)
    ensures seqNum < PERIOD ==> seqNum == n % PERIOD && Due(seqNum + 1, n + 1)
  {
    var k := n / PERIOD;
    assert n == k * PERIOD + n % PERIOD;
    if n % PERIOD == PERIOD - 1 {
      assert n + 1 == (k + 1) * PERIOD;
    } else {
      assert n + 1 == k * PERIOD + (n % PERIOD + 1);
    }
  }

  lemma DoWriteNumbered(w: Writer, n: nat, c: Cipher, mode: Mode, addr: int, typ: Byte, plain: seq<Byte>, r: Written)
    requires Due(w.seqNum, n) && r == DoWrite(w, c, mode, addr, typ, plain)
    ensures Numbered(w, n, c, r.writer)
  {
    hide Due, Numbered, SealRecord, TlsWriter.Flush;
    if w.pending.None? && |plain| <= MAX_PLAIN_LENGTH && w.buffer == [] && plain != [] && Merge(w, c, |plain|).Some? {
      assert SealStep(w, c, typ, plain, r.writer);
      SealNumbered(w, n, c, typ, plain, r.writer);
    } else {
      QuietNumbered(w, n, c, r.writer);
    }
  }

  lemma {:induction false} WriteFromNumbered(w: Writer, n: nat, c: Cipher, mode: Mode, addr: int, data: seq<Byte>,
                                             tot: nat, r: Written)
    requires Due(w.seqNum, n) && tot <= |data| && r == WriteFrom(w, c, mode, addr, data, tot)
    ensures Numbered(w, n, c, r.writer)
    decreases |data| - tot, 1
  {
    hide Due, DoWrite, SealedAs, AfterPiece;
    var piece := data[tot..tot + Min(|data| - tot, mode.maxFragment)];
    var one := DoWrite(w, c, mode, addr + tot, APPLICATION_DATA, piece);
    DoWriteNumbered(w, n, c, mode, addr + tot, APPLICATION_DATA, piece, one);
    var k := n + (|one.writer.log| - |w.log|);
    AfterPieceNumbered(one, k, c, mode, addr, data, tot, r);
    NumberedJoin(w, n, c, one.writer, r.writer);
  }

  lemma {:induction false} AfterPieceNumbered(one: Written, n: nat, c: Cipher, mode: Mode, addr: int, data: seq<Byte>,
                                              tot: nat, r: Written)
    requires Due(one.writer.seqNum, n) && tot <= |data| && one.ret <= |data| - tot
    requires r == AfterPiece(one, c, mode, addr, data, tot)
    ensures Numbered(one.writer, n, c, r.writer)
    decreases |data| - tot, 0
  {
    if one.ret > 0 && one.ret != |data| - tot && !mode.partialWrite {
      WriteFromNumbered(one.writer, n, c, mode, addr, data, tot + one.ret, r);
    } else {
      QuietNumbered(one.writer, n, c, r.writer);
    }
  }

  lemma WriteAppDataNumbered(w: Writer, n: nat, c: Cipher, mode: Mode, addr: int, data: seq<Byte>, r: Written)
    requires Due(w.seqNum, n) && r == WriteAppData(w, c, mode, addr, data)
    ensures Numbered(w, n, c, r.writer)
  {
    if w.shutdown || |data| < w.wnum {
      QuietNumbered(w, n, c, r.writer);
    } else {
      WriteFromNumbered(w.(wnum := 0), n, c, mode, addr, data, w.wnum, r);
    }
  }

  lemma AddRecordNumbered(w: Writer, n: nat, c: Cipher, typ: Byte, plain: seq<Byte>, r: Added)
    requires Due(w.seqNum, n) && r == AddRecord(w, c, typ, plain)
    ensures Numbered(w, n, c, r.writer)
  {
    SealNumbered(w, n, c, typ, plain, r.writer);
  }

  lemma {:induction false} AddMessageNumbered(w: Writer, n: nat, c: Cipher, mode: Mode, msg: seq<Byte>, r: Added)
    requires Due(w.seqNum, n) && r == AddMessage(w, c, mode, msg)
    ensures Numbered(w, n, c, r.writer)
    decreases |msg|
  {
    var m := Min(mode.maxFragment, |msg|);
    var one := AddRecord(w, c, HANDSHAKE, msg[..m]);
    AddRecordNumbered(w, n, c, HANDSHAKE, msg[..m], one);
    if one.ok && m < |msg| {
      AddMessageNumbered(one.writer, n + (|one.writer.log| - |w.log|), c, mode, msg[m..], r);
      NumberedJoin(w, n, c, one.writer, r.writer);
    }
  }

  lemma FlushFlightQuiet(w: Writer, flushed: bool)
    ensures Quiet(w, FlushFlight(w, flushed).writer)
  {
  }

  // ----- Runs -----

  predicate Seals(e: Event) {
    e.WriteApp? || e.Message? || e.ChangeCipherSpec? || e.Alert? || e.Dispatch?
  }

  /** How many records were sealed when the keys were last set. */
  function KeysSetAt(stream: seq<Byte>, events: seq<Event>): nat {
    if events == [] then 0
    else
      var before := events[..|events| - 1];
      if events[|events| - 1].NewKeys? then |Run(stream, before).writer.log| else KeysSetAt(stream, before)
  }

  lemma StepNumbered(w: World, e: Event, n: nat)
    requires Due(w.writer.seqNum, n)
    ensures Seals(e) ==> Numbered(w.writer, n, e.c, Apply(w, e).writer)
    ensures !Seals(e) ==> Apply(w, e).writer.log == w.writer.log
    ensures !Seals(e) ==> Due(Apply(w, e).writer.seqNum, if e.NewKeys? then 0 else n)
  {
    hide Due, Numbered, AddMessage, AddRecord, WriteAppData, SendAlert, FlushFlight, DoWrite;
    match e
    case Ready(_) =>
    case WriteApp(_, _, _, _) => CallNumbered(w, e, n);
    case Message(msg, c, mode) => AddMessageNumbered(w.writer, n, c, mode, msg, AddMessage(w.writer, c, mode, msg));
    case ChangeCipherSpec(c) =>
      AddRecordNumbered(w.writer, n, c, CHANGE_CIPHER_SPEC, [1], AddRecord(w.writer, c, CHANGE_CIPHER_SPEC, [1]));
    case Flush(flushed) => FlushFlightQuiet(w.writer, flushed);
    case Alert(level, desc, c, mode) => SendAlertNumbered(w.writer, n, c, mode, level, desc);
    case Dispatch(c, mode) =>
      if w.writer.alert.None? { QuietNumbered(w.writer, n, c, w.writer); } else { DispatchNumbered(w.writer, n, c, mode); }
    case NewKeys => FirstDue();
  }

  lemma FirstDue()
    ensures Due(0, 0)
  {
  }

  lemma CallNumbered(w: World, e: Event, n: nat)
    requires Due(w.writer.seqNum, n) && e.WriteApp?
    ensures Numbered(w.writer, n, e.c, CallWrite(w, e).writer)
  {
    hide Due, Numbered, WriteAppData;
    if e.len < w.owed || w.acked + e.len > |w.stream| {
      QuietNumbered(w.writer, n, e.c, w.writer);
    } else {
      var data := w.stream[w.acked..w.acked + e.len];
      WriteAppDataNumbered(w.writer, n, e.c, e.mode, e.addr, data, WriteAppData(w.writer, e.c, e.mode, e.addr, data));
    }
  }

  lemma DispatchNumbered(w: Writer, n: nat, c: Cipher, mode: Mode)
    requires Due(w.seqNum, n) && w.alert.Some?
    ensures Numbered(w, n, c, DispatchAlert(w, c, mode).writer)
  {
    hide Due, SealedAs, DoWrite;
    var r := DoWrite(w, c, mode, ALERT_BUFFER, ALERT, w.alert.value);
    DoWriteNumbered(w, n, c, mode, ALERT_BUFFER, ALERT, w.alert.value, r);
  }

  lemma SendAlertNumbered(w: Writer, n: nat, c: Cipher, mode: Mode, level: Byte, desc: Byte)
    requires Due(w.seqNum, n)
    ensures Numbered(w, n, c, SendAlert(w, c, mode, level, desc).writer)
  {
    hide Due, SealedAs, DoWrite;
    var noted := w.(shutdown := true, alert := Some([level, desc]));
    if w.shutdown || w.buffer != [] {
      QuietNumbered(w, n, c, SendAlert(w, c, mode, level, desc).writer);
    } else {
      DispatchNumbered(noted, n, c, mode);
    }
  }

  /** In every run the next number is the count of records sealed since the keys were set. */
  lemma {:induction false} RunNumbered(stream: seq<Byte>, events: seq<Event>)
    ensures KeysSetAt(stream, events) <= |Run(stream, events).writer.log|
    ensures Due(Run(stream, events).writer.seqNum, |Run(stream, events).writer.log| - KeysSetAt(stream, events))
  {
    hide Due, Apply;
    if events == [] {
      FirstDue();
    } else {
      var before, e := events[..|events| - 1], events[|events| - 1];
      var w := Run(stream, before);
      RunNumbered(stream, before);
      StepNumbered(w, e, |w.writer.log| - KeysSetAt(stream, before));
    }
  }

  /**
   In every run the `k`th record sealed since the keys were set, counting from none, is sealed under number
   `k` with the cipher of the call that seals it: no number is left out and, up to the wrap after 2^64 - 1
   records, none is used twice. After the wrap numbering starts again.
   */
  lemma SealedInOrder(stream: seq<Byte>, events: seq<Event>, e: Event)
    ensures var w, w' := Run(stream, events).writer, Run(stream, events + [e]).writer;
            var first := KeysSetAt(stream, events);
            && first <= |w.log| && w.log <= w'.log
            && (|w'.log| > |w.log| ==> Seals(e))
            && forall j | |w.log| <= j < |w'.log| ::
                 w'.log[j].bytes == e.c.seal((j - first) % PERIOD, w'.log[j].typ, w'.log[j].plain)
  {
    hide Apply, Due;
    var w, first := Run(stream, events), KeysSetAt(stream, events);
    assert (events + [e])[..|events|] == events;
    RunNumbered(stream, events);
    StepNumbered(w, e, |w.writer.log| - first);
    var w' := Apply(w, e).writer;
    forall j | |w.writer.log| <= j < |w'.log|
      ensures w'.log[j].bytes == e.c.seal((j - first) % PERIOD, w'.log[j].typ, w'.log[j].plain)
    {
      assert SealedAs(w'.log[j], e.c, (j - first) % PERIOD);
    }
  }
}
