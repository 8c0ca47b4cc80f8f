/** Conservation on the TLS write path, for any behaviour of the transport. */
module TlsWriterLaws {
  import opened Basics
  import opened TlsWriter

  // ----- Every byte sealed is somewhere -----

  /** The bytes of the sealed records, in sealing order. */
  function Wire(log: seq<Sealed>): seq<Byte> {
    if log == [] then [] else Wire(log[..|log| - 1]) + log[|log| - 1].bytes
  }

  predicate FlightOk(w: Writer) {
    w.flight.Some? ==> w.flight.value.offset <= |w.flight.value.data|
  }

  /** What the transport took, then what the write buffer holds, then what is left of the flight,
      is what was sealed. */
  ghost predicate Conserved(w: Writer) {
    FlightOk(w) && Total(w.transport.out, w.buffer, FlightRest(w)) == Wire(w.log)
  }

  function Total(out: seq<Byte>, buffer: seq<Byte>, rest: seq<Byte>): seq<Byte> {
    out + buffer + rest
  }

  lemma TotalFlush(out: seq<Byte>, buffer: seq<Byte>, rest: seq<Byte>, n: nat)
    requires n <= |buffer|
    ensures Total(out + buffer[..n], buffer[n..], rest) == Total(out, buffer, rest)
  {
    assert out + buffer[..n] + buffer[n..] == out + buffer;
  }

  lemma TotalSend(out: seq<Byte>, rest: seq<Byte>, n: nat)
    requires n <= |rest|
    ensures Total(out + rest[..n], [], rest[n..]) == Total(out, [], rest)
  {
    assert out + rest[..n] + [] + rest[n..] == out + [] + rest;
  }

  lemma TotalMerge(out: seq<Byte>, rest: seq<Byte>, bytes: seq<Byte>)
    ensures Total(out, rest + bytes, []) == Total(out, [], rest) + bytes
  {
  }

  lemma TotalAdd(out: seq<Byte>, buffer: seq<Byte>, rest: seq<Byte>, bytes: seq<Byte>)
    ensures Total(out, buffer, rest + bytes) == Total(out, buffer, rest) + bytes
  {
  }

  lemma WireAppend(log: seq<Sealed>, s: Sealed)
    ensures Wire(log + [s]) == Wire(log) + s.bytes
  {
    assert (log + [s])[..|log|] == log;
  }

  lemma {:induction false} FlushMoves(t: Transport, buffer: seq<Byte>, rest: seq<Byte>, r: Flushed)
    requires r == Flush(t, buffer)
    ensures Total(r.transport.out, r.buffer, rest) == Total(t.out, buffer, rest)
    decreases |t.script|
  {
    if buffer != [] {
      var taken := BioWrite(t, buffer);
      if taken.ret > 0 {
        TotalFlush(t.out, buffer, rest, taken.ret);
        FlushMoves(taken.transport, buffer[taken.ret..], rest, r);
      }
    }
  }

  lemma FlushBufferConserves(w: Writer, r: Written)
    requires Conserved(w) && r == FlushBuffer(w)
    ensures Conserved(r.writer)
  {
    FlushMoves(w.transport, w.buffer, FlightRest(w), Flush(w.transport, w.buffer));
  }

  /** Neither the log nor the flight nor what is being written matters to the flush of a pending
      write. */
  lemma WritePendingConserves(w: Writer, p: Pending, mode: Mode, addr: int, typ: Byte, len: nat, r: Written)
    requires Conserved(w) && r == WritePending(w, p, mode, addr, typ, len)
    ensures Conserved(r.writer)
  {
    FlushBufferConserves(w, FlushBuffer(w));
  }

  lemma SealConserves(w: Writer, c: Cipher, addr: int, typ: Byte, plain: seq<Byte>, r: Written)
    requires Conserved(w) && plain != [] && w.buffer == []
    requires r == SealIntoBuffer(w, c, addr, typ, plain)
    ensures Conserved(r.writer)
  {
    TotalMerge(w.transport.out, FlightRest(w), []);
    if r.ret > 0 {
      var s := r.writer.log[|w.log|];
      WireAppend(w.log, s);
      TotalMerge(w.transport.out, FlightRest(w), s.bytes);
    }
  }

  lemma DoWriteConserves(w: Writer, c: Cipher, mode: Mode, addr: int, typ: Byte, plain: seq<Byte>, r: Written)
    requires Conserved(w) && r == DoWrite(w, c, mode, addr, typ, plain)
    ensures Conserved(r.writer)
  {
    if w.pending.Some? {
      WritePendingConserves(w, w.pending.value, mode, addr, typ, |plain|, r);
    } else if |plain| <= MAX_PLAIN_LENGTH && w.buffer == [] && plain != [] {
      var sealed := SealIntoBuffer(w, c, addr, typ, plain);
      SealConserves(w, c, addr, typ, plain, sealed);
      if sealed.ret > 0 {
        WritePendingConserves(sealed.writer, sealed.writer.pending.value, mode, addr, typ, |plain|, r);
      }
    }
  }

  lemma {:induction false} WriteFromConserves(w: Writer, c: Cipher, mode: Mode, addr: int, data: seq<Byte>,
                                              tot: nat, r: Written)
    requires Conserved(w) && tot <= |data| && r == WriteFrom(w, c, mode, addr, data, tot)
    ensures Conserved(r.writer)
    decreases |data| - tot, 1
  {
    var piece := data[tot..tot + Min(|data| - tot, mode.maxFragment)];
    var one := DoWrite(w, c, mode, addr + tot, APPLICATION_DATA, piece);
    DoWriteConserves(w, c, mode, addr + tot, APPLICATION_DATA, piece, one);
    AfterPieceConserves(one, c, mode, addr, data, tot, r);
  }

  lemma {:induction false} AfterPieceConserves(one: Written, c: Cipher, mode: Mode, addr: int, data: seq<Byte>,
                                               tot: nat, r: Written)
    requires Conserved(one.writer) && tot <= |data| && one.ret <= |data| - tot
    requires r == AfterPiece(one, c, mode, addr, data, tot)
    ensures Conserved(r.writer)
    decreases |data| - tot, 0
  {
    if one.ret > 0 && one.ret != |data| - tot && !mode.partialWrite {
      WriteFromConserves(one.writer, c, mode, addr, data, tot + one.ret, r);
    }
  }

  lemma WriteAppDataConserves(w: Writer, c: Cipher, mode: Mode, addr: int, data: seq<Byte>, r: Written)
    requires Conserved(w) && r == WriteAppData(w, c, mode, addr, data)
    ensures Conserved(r.writer)
  {
    if !w.shutdown && w.wnum <= |data| {
      WriteFromConserves(w.(wnum := 0), c, mode, addr, data, w.wnum, r);
    }
  }

  lemma AddRecordConserves(w: Writer, c: Cipher, typ: Byte, plain: seq<Byte>, r: Added)
    requires Conserved(w) && r == AddRecord(w, c, typ, plain)
    ensures Conserved(r.writer)
  {
    var f := if w.flight.None? then Flight([], 0) else w.flight.value;
    assert FlightRest(w) == f.data[f.offset..];
    if r.ok {
      var s := r.writer.log[|w.log|];
      WireAppend(w.log, s);
      assert (f.data + s.bytes)[f.offset..] == f.data[f.offset..] + s.bytes;
      TotalAdd(w.transport.out, w.buffer, FlightRest(w), s.bytes);
    }
  }

  lemma {:induction false} AddMessageConserves(w: Writer, c: Cipher, mode: Mode, msg: seq<Byte>, r: Added)
    requires Conserved(w) && r == AddMessage(w, c, mode, msg)
    ensures Conserved(r.writer)
    decreases |msg|
  {
    var n := Min(mode.maxFragment, |msg|);
    var one := AddRecord(w, c, HANDSHAKE, msg[..n]);
    AddRecordConserves(w, c, HANDSHAKE, msg[..n], one);
    if one.ok && n < |msg| {
      AddMessageConserves(one.writer, c, mode, msg[n..], r);
    }
  }

  lemma {:induction false} SendMoves(t: Transport, data: seq<Byte>, offset: nat, r: FlightSent)
    requires offset <= |data| && r == SendFlight(t, data, offset)
    ensures r.offset <= |data|
    ensures Total(r.transport.out, [], data[r.offset..]) == Total(t.out, [], data[offset..])
    decreases |t.script|
  {
    if offset < |data| {
      var taken := BioWrite(t, data[offset..]);
      if taken.ret > 0 {
        assert data[offset..][taken.ret..] == data[offset + taken.ret..];
        TotalSend(t.out, data[offset..], taken.ret);
        SendMoves(taken.transport, data, offset + taken.ret, r);
      }
    }
  }

  lemma WriteFlightConserves(w: Writer, f: Flight, r: Written)
    requires Conserved(w) && w.flight == Some(f) && w.buffer == [] && r == WriteFlight(w, f)
    ensures Conserved(r.writer) && r.writer.buffer == []
    ensures r.ret > 0 ==> FlightRest(r.writer) == []
  {
    SendMoves(w.transport, f.data, f.offset, SendFlight(w.transport, f.data, f.offset));
  }

  lemma FlushFlightConserves(w: Writer, flushed: bool, r: Written)
    requires Conserved(w) && r == FlushFlight(w, flushed)
    ensures Conserved(r.writer)
  {
    if w.flight.Some? && !w.shutdown && |w.flight.value.data| <= 0x7fff_ffff {
      FlushBufferConserves(w, FlushBuffer(w));
      var b := FlushBuffer(w);
      if b.ret > 0 {
        WriteFlightConserves(b.writer, w.flight.value, WriteFlight(b.writer, w.flight.value));
      }
    }
  }

  lemma AlertConserves(w: Writer, c: Cipher, mode: Mode)
    requires Conserved(w) && w.alert.Some?
    ensures Conserved(DispatchAlert(w, c, mode).writer)
  {
    DoWriteConserves(w, c, mode, ALERT_BUFFER, ALERT, w.alert.value,
                     DoWrite(w, c, mode, ALERT_BUFFER, ALERT, w.alert.value));
  }
}
