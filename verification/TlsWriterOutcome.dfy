/** When TLS writes succeed. */
module TlsWriterOutcome {
  import opened Basics
  import opened TlsWriter
  import opened TlsWriterLaws

  // ----- A transport that takes all it is offered -----

  /** The next `n` writes at least are taken whole, whatever a buffer may hold. */
  ghost predicate Willing(t: Transport, n: nat) {
    n <= |t.script| && forall i | 0 <= i < |t.script| :: t.script[i] >= MAX_BUFFER
  }

  /** A buffer costs one write at most, and is sent. */
  lemma WillingFlush(t: Transport, buffer: seq<Byte>, n: nat)
    requires Willing(t, n + 1) && |buffer| <= MAX_BUFFER
    ensures Willing(Flush(t, buffer).transport, n)
    ensures Flush(t, buffer).buffer == [] && Flush(t, buffer).ret == 1
    ensures Flush(t, buffer).transport.out == t.out + buffer
  {
    if buffer != [] {
      var r := BioWrite(t, buffer);
      assert r.ret == |buffer| && buffer[..r.ret] == buffer && buffer[r.ret..] == [];
      assert Flush(r.transport, []) == Flushed(r.transport, [], 1);
    } else {
      assert t.out + buffer == t.out;
    }
  }

  // ----- Application data -----

  /** The pieces of a write and all it may have to put before them fit the buffer. */
  ghost predicate Roomy(c: Cipher, mode: Mode, rest: nat) {
    mode.maxFragment <= MAX_PLAIN_LENGTH && mode.maxFragment + c.overhead + rest <= MAX_BUFFER
  }

  /** A write of `plain` can go ahead: nothing is left of an earlier one, or it repeats that one. */
  ghost predicate Resumes(w: Writer, mode: Mode, addr: int, typ: Byte, len: nat) {
    match w.pending
    case None => w.buffer == []
    case Some(p) => p.typ == typ && p.len <= len && (mode.movingBuffer || p.addr == addr) && |w.buffer| <= MAX_BUFFER
  }

  lemma PendingCompletes(w: Writer, p: Pending, mode: Mode, addr: int, typ: Byte, len: nat, n: nat)
    requires p.typ == typ && p.len <= len && (mode.movingBuffer || p.addr == addr) && |w.buffer| <= MAX_BUFFER
    requires Willing(w.transport, n + 1)
    ensures var r := WritePending(w, p, mode, addr, typ, len);
            && r.ret == p.len && r.writer.pending == None && r.writer.buffer == [] && Willing(r.writer.transport, n)
            && r.writer == w.(transport := r.writer.transport, buffer := [], pending := None)
  {
    hide Willing, Flush;
    WillingFlush(w.transport, w.buffer, n);
  }

  lemma RecordCompletes(w: Writer, c: Cipher, mode: Mode, addr: int, typ: Byte, plain: seq<Byte>, n: nat)
    requires Bounded(c) && 0 < |plain| <= mode.maxFragment && Roomy(c, mode, |FlightRest(w)|)
    requires Resumes(w, mode, addr, typ, |plain|) && w.seqNum + 1 < TWO64 && Willing(w.transport, n + 1)
    ensures var r := DoWrite(w, c, mode, addr, typ, plain);
            && 0 < r.ret <= |plain| && (w.pending.None? ==> r.ret == |plain|)
            && r.writer.pending == None && r.writer.buffer == [] && Willing(r.writer.transport, n)
            && r.writer.seqNum <= w.seqNum + 1 && |FlightRest(r.writer)| <= |FlightRest(w)|
            && r.writer.shutdown == w.shutdown
  {
    hide Willing, Flush;
    match w.pending
    case Some(p) =>
      PendingCompletes(w, p, mode, addr, typ, |plain|, n);
    case None =>
      assert |c.seal(w.seqNum, typ, plain)| <= |plain| + c.overhead;
      var sealed := SealIntoBuffer(w, c, addr, typ, plain);
      PendingCompletes(sealed.writer, Pending(addr, typ, |plain|), mode, addr, typ, |plain|, n);
  }

  /** The part of the data that comes after `tot` bytes is written to its end, one record and one write
      of the transport for every piece. */
  lemma {:induction false} RestCompletes(w: Writer, c: Cipher, mode: Mode, addr: int, data: seq<Byte>, tot: nat)
    requires Bounded(c) && tot < |data| && !mode.partialWrite && Roomy(c, mode, |FlightRest(w)|)
    requires Resumes(w, mode, addr + tot, APPLICATION_DATA, Min(|data| - tot, mode.maxFragment))
    requires w.seqNum + (|data| - tot) < TWO64 && Willing(w.transport, |data| - tot)
    ensures WriteFrom(w, c, mode, addr, data, tot).ret == |data|
    decreases |data| - tot
  {
    hide Willing, DoWrite, Bounded, FlightRest;
    var piece := data[tot..tot + Min(|data| - tot, mode.maxFragment)];
    var one := DoWrite(w, c, mode, addr + tot, APPLICATION_DATA, piece);
    RecordCompletes(w, c, mode, addr + tot, APPLICATION_DATA, piece, |data| - tot - 1);
    if one.ret < |data| - tot {
      WillingLess(one.writer.transport, |data| - tot - 1, |data| - tot - one.ret);
      RestCompletes(one.writer, c, mode, addr, data, tot + one.ret);
    }
  }

  lemma WillingLess(t: Transport, n: nat, m: nat)
    requires Willing(t, n) && m <= n
    ensures Willing(t, m)
  {
  }

  /**
   A write of application data to a willing transport reports all of it, when what an earlier write left
   over is not refused: no shutdown, the same type, at least the length and, unless the buffer may move,
   the address of the first time.
   */
  lemma WriteCompletes(w: Writer, c: Cipher, mode: Mode, addr: int, data: seq<Byte>)
    requires Bounded(c) && !mode.partialWrite && Roomy(c, mode, |FlightRest(w)|)
    requires !w.shutdown && w.wnum < |data|
    requires Resumes(w, mode, addr + w.wnum, APPLICATION_DATA, Min(|data| - w.wnum, mode.maxFragment))
    requires w.seqNum + |data| < TWO64 && Willing(w.transport, |data|)
    ensures WriteAppData(w, c, mode, addr, data).ret == |data|
  {
    hide Willing;
    WillingLess(w.transport, |data|, |data| - w.wnum);
    RestCompletes(w.(wnum := 0), c, mode, addr, data, w.wnum);
  }

  /** A call that offers less than was reported as written fails, and the count is forgotten, so that the next
      call starts from the front of its data. */
  lemma ShortRetryForgets(w: Writer, c: Cipher, mode: Mode, addr: int, data: seq<Byte>, next: seq<Byte>)
    requires !w.shutdown && |data| < w.wnum
    ensures WriteAppData(w, c, mode, addr, data).ret == -1
    ensures WriteAppData(WriteAppData(w, c, mode, addr, data).writer, c, mode, addr, next)
         == WriteFrom(w.(wnum := 0), c, mode, addr, next, 0)
  {
  }

  /** The only retries refused are those that do not repeat the call, and they change nothing. */
  lemma BadRetry(w: Writer, c: Cipher, mode: Mode, addr: int, typ: Byte, plain: seq<Byte>)
    requires w.pending.Some? && |w.buffer| <= MAX_BUFFER && !Resumes(w, mode, addr, typ, |plain|)
    ensures DoWrite(w, c, mode, addr, typ, plain) == Written(w, -1)
  {
  }

  /** A record that is sealed for the buffer is within the limit of the protocol, and the buffer holds it
      and what it puts before it. */
  lemma RecordWithinLimits(w: Writer, c: Cipher, mode: Mode, addr: int, typ: Byte, plain: seq<Byte>)
    requires Bounded(c)
    ensures var log := DoWrite(w, c, mode, addr, typ, plain).writer.log;
            log != w.log ==>
              && |log| == |w.log| + 1 && 0 < |log[|w.log|].plain| <= 16384
              && |FlightRest(w)| + |log[|w.log|].bytes| <= 65535
  {
    hide Flush;
    assert |c.seal(w.seqNum, typ, plain)| <= |plain| + c.overhead;
  }

  lemma RecordSent(w: Writer, c: Cipher, mode: Mode, addr: int, typ: Byte, plain: seq<Byte>)
    ensures DoWrite(w, c, mode, addr, typ, plain).ret > 0 ==> DoWrite(w, c, mode, addr, typ, plain).writer.buffer == []
  {
    hide Flush;
  }

  lemma {:induction false} RestSent(w: Writer, c: Cipher, mode: Mode, addr: int, data: seq<Byte>, tot: nat)
    requires tot <= |data|
    ensures WriteFrom(w, c, mode, addr, data, tot).ret > 0 ==> WriteFrom(w, c, mode, addr, data, tot).writer.buffer == []
    decreases |data| - tot
  {
    hide DoWrite;
    var piece := data[tot..tot + Min(|data| - tot, mode.maxFragment)];
    var one := DoWrite(w, c, mode, addr + tot, APPLICATION_DATA, piece);
    RecordSent(w, c, mode, addr + tot, APPLICATION_DATA, piece);
    if one.ret > 0 && one.ret != |data| - tot && !mode.partialWrite {
      RestSent(one.writer, c, mode, addr, data, tot + one.ret);
    }
  }

  /** What a write reports as written, the transport took: every record sealed by then went to it, or is in the
      flight. */
  lemma ReportedMeansSent(w: Writer, c: Cipher, mode: Mode, addr: int, data: seq<Byte>)
    requires Conserved(w) && WriteAppData(w, c, mode, addr, data).ret > 0
    ensures var w' := WriteAppData(w, c, mode, addr, data).writer;
            w'.buffer == [] && w'.transport.out + FlightRest(w') == Wire(w'.log)
  {
    hide WriteFrom, Wire, FlightRest;
    RestSent(w.(wnum := 0), c, mode, addr, data, w.wnum);
    var r := WriteAppData(w, c, mode, addr, data);
    WriteAppDataConserves(w, c, mode, addr, data, r);
    assert r.writer.transport.out + [] == r.writer.transport.out;
  }

  // ----- How data is cut -----

  /** From the `from`th on, every record but the last has as much as a record may have. */
  ghost predicate CutFull(log: seq<Sealed>, from: nat, max: nat) {
    && (forall j | from <= j < |log| :: |log[j].plain| <= max)
    && (forall j | from <= j < |log| - 1 :: |log[j].plain| == max)
  }

  /** One call's record, and whether it went out, before the rest. */
  lemma OneCut(w: Writer, c: Cipher, mode: Mode, addr: int, plain: seq<Byte>)
    requires |plain| <= mode.maxFragment
    ensures var r := DoWrite(w, c, mode, addr, APPLICATION_DATA, plain);
            && w.log <= r.writer.log && |r.writer.log| <= |w.log| + 1 && CutFull(r.writer.log, |w.log|, mode.maxFragment)
            && (|r.writer.log| > |w.log| ==> r.writer.log[|w.log|].plain == plain && (r.ret > 0 ==> r.ret == |plain|))
  {
    hide Flush;
  }

  lemma {:induction false} RestCut(w: Writer, c: Cipher, mode: Mode, addr: int, data: seq<Byte>, tot: nat)
    requires tot <= |data|
    ensures var log := WriteFrom(w, c, mode, addr, data, tot).writer.log;
            w.log <= log && CutFull(log, |w.log|, mode.maxFragment)
    decreases |data| - tot
  {
    hide DoWrite;
    var piece := data[tot..tot + Min(|data| - tot, mode.maxFragment)];
    var one := DoWrite(w, c, mode, addr + tot, APPLICATION_DATA, piece);
    OneCut(w, c, mode, addr + tot, piece);
    if one.ret > 0 && one.ret != |data| - tot && !mode.partialWrite {
      RestCut(one.writer, c, mode, addr, data, tot + one.ret);
    }
  }

  /** A write cuts its data into records that are full, but for the last. */
  lemma WriteCutsFull(w: Writer, c: Cipher, mode: Mode, addr: int, data: seq<Byte>)
    ensures var log := WriteAppData(w, c, mode, addr, data).writer.log;
            w.log <= log && CutFull(log, |w.log|, mode.maxFragment)
  {
    hide WriteFrom;
    if w.wnum <= |data| {
      RestCut(w.(wnum := 0), c, mode, addr, data, w.wnum);
    }
  }

  /** So does adding a handshake message. */
  lemma {:induction false} MessageCutsFull(w: Writer, c: Cipher, mode: Mode, msg: seq<Byte>)
    ensures var log := AddMessage(w, c, mode, msg).writer.log;
            w.log <= log && CutFull(log, |w.log|, mode.maxFragment)
    decreases |msg|
  {
    var n := Min(mode.maxFragment, |msg|);
    var one := AddRecord(w, c, HANDSHAKE, msg[..n]);
    if one.ok && n < |msg| {
      MessageCutsFull(one.writer, c, mode, msg[n..]);
    }
  }

  // ----- Handshake messages -----

  /** Adding a message fails only when the sequence number wraps. */
  lemma {:induction false} MessageCompletes(w: Writer, c: Cipher, mode: Mode, msg: seq<Byte>)
    requires Bounded(c) && w.seqNum + |msg| + 1 < TWO64
    ensures AddMessage(w, c, mode, msg).ok
    decreases |msg|
  {
    var n := Min(mode.maxFragment, |msg|);
    var one := AddRecord(w, c, HANDSHAKE, msg[..n]);
    assert |c.seal(w.seqNum, HANDSHAKE, msg[..n])| <= n + c.overhead;
    if n < |msg| {
      MessageCompletes(one.writer, c, mode, msg[n..]);
    }
  }

  lemma {:induction false} SendCompletes(t: Transport, data: seq<Byte>, offset: nat)
    requires offset <= |data| && Willing(t, |data| - offset)
    ensures SendFlight(t, data, offset).ret == 1 && SendFlight(t, data, offset).transport.out == t.out + data[offset..]
    decreases |data| - offset
  {
    if offset < |data| {
      var r := BioWrite(t, data[offset..]);
      assert r.transport.out == t.out + data[offset..][..r.ret];
      SendCompletes(r.transport, data, offset + r.ret);
      assert data[offset..][..r.ret] + data[offset + r.ret..] == data[offset..];
    } else {
      assert data[offset..] == [] && t.out + data[offset..] == t.out;
    }
  }

  /** Flushing a flight over a willing transport sends what was buffered and what was left of the flight. */
  lemma FlushCompletes(w: Writer)
    requires w.flight.Some? && w.flight.value.offset <= |w.flight.value.data| <= 0x7fff_ffff
    requires !w.shutdown && |w.buffer| <= MAX_BUFFER && Willing(w.transport, |w.flight.value.data| + 1)
    ensures FlushFlight(w, true).ret == 1
    ensures FlushFlight(w, true).writer
         == w.(transport := FlushFlight(w, true).writer.transport, buffer := [], flight := None)
    ensures FlushFlight(w, true).writer.transport.out == w.transport.out + w.buffer + FlightRest(w)
  {
    hide Willing, Flush, SendFlight;
    var f := w.flight.value;
    WillingFlush(w.transport, w.buffer, |f.data|);
    var t := Flush(w.transport, w.buffer).transport;
    WillingLess(t, |f.data|, |f.data| - f.offset);
    SendCompletes(t, f.data, f.offset);
  }

  /** A flight is reported as flushed only when the transport took all of it, what was buffered before it too,
      and was flushed itself. */
  lemma FlushedMeansSent(w: Writer, flushed: bool)
    requires FlightOk(w) && w.flight.Some? && FlushFlight(w, flushed).ret > 0
    ensures flushed && !w.shutdown
    ensures var w' := FlushFlight(w, flushed).writer;
            && w'.buffer == [] && w'.flight == None
            && w'.transport.out == w.transport.out + w.buffer + FlightRest(w)
  {
    hide Flush, SendFlight;
    var f := w.flight.value;
    var b := Flush(w.transport, w.buffer);
    var sent := SendFlight(b.transport, f.data, f.offset);
    FlushMoves(w.transport, w.buffer, [], b);
    SendMoves(b.transport, f.data, f.offset, sent);
    assert b.transport.out + [] + [] == b.transport.out && sent.transport.out + [] + [] == sent.transport.out;
    assert f.data[sent.offset..] == [];
  }

  /** After a shutdown nothing of a flight is sent. */
  lemma FlushRefused(w: Writer, flushed: bool)
    requires w.flight.Some? && (w.shutdown || |w.flight.value.data| >= 0x8000_0000)
    ensures FlushFlight(w, flushed) == Written(w, -1)
  {
  }
}
