/** The write side of SSL3_STATE as an object whose buffer, flight and counters change in place. */
module TlsConnection {
  import opened Basics
  import opened TlsBuffer
  import opened TlsWriter

  /** The transport takes part of the buffer so that its offset wraps around with bytes left: which
      writes of a flush lose bytes. */
  predicate FlushWraps(script: seq<int>, size: nat, offset: nat)
    decreases |script|, 0
  {
    size > 0 && script != [] && script[0] > 0 && WrapsAfter(script[1..], size, offset, Min(script[0], size))
  }

  /** The same when the transport took `n` bytes first. */
  predicate WrapsAfter(script: seq<int>, size: nat, offset: nat, n: nat)
    requires n <= size
    decreases |script|, 1
  {
    n < size && (offset + n >= TWO16 || FlushWraps(script, size - n, offset + n))
  }

  /** Whether the buffer will have wrapped once it is flushed; what happens after a wrap is not followed. */
  predicate WrapsIn(script: seq<int>, size: nat, offset: nat, wrapped: bool) {
    wrapped || FlushWraps(script, size, offset)
  }

  /** One write of a flush. */
  lemma FlushStep(t: Transport, data: seq<Byte>)
    requires data != []
    ensures var r := TlsWriter.BioWrite(t, data);
            && r.ret <= |data|
            && Flush(t, data) == if r.ret <= 0 then Flushed(r.transport, data, r.ret) else Flush(r.transport, data[r.ret..])
  {
  }

  lemma WrapsStep(script: seq<int>, size: nat, offset: nat)
    requires size > 0
    ensures script == [] || script[0] <= 0 ==> !FlushWraps(script, size, offset)
    ensures script != [] && script[0] > 0 ==>
              FlushWraps(script, size, offset) == WrapsAfter(script[1..], size, offset, Min(script[0], size))
  {
  }

  lemma FlushEnd(t: Transport, script: seq<int>, offset: nat)
    ensures Flush(t, []) == Flushed(t, [], 1) && !FlushWraps(script, 0, offset)
  {
  }

  /** None does while the block ends where 16 bits reach. */
  lemma {:induction false} FlushInReach(script: seq<int>, size: nat, offset: nat)
    requires offset + size <= TWO16
    ensures !FlushWraps(script, size, offset)
    decreases script
  {
    if size > 0 && script != [] && 0 < script[0] < size {
      FlushInReach(script[1..], size - script[0], offset + script[0]);
    }
  }

  /** A block for this much may end where 16 bits do not reach. */
  predicate Large(room: nat) {
    room + ALIGNMENT > TWO16
  }

  class Connection {
    var wnum: nat
    var wpendPending: bool
    var wpendTot: nat
    var wpendBuf: int
    var wpendType: Byte
    var wpendRet: nat
    const buffer: SslBuffer
    /** pending_flight, and whether it is there at all. */
    var hasFlight: bool
    var flightData: seq<Byte>
    var flightOffset: nat
    var seqNum: nat
    var shutdown: bool
    var alertDispatch: bool
    var sendAlert: seq<Byte>
    /** The results of the transport's next writes. */
    var script: seq<int>
    ghost var out: seq<Byte>
    ghost var log: seq<Sealed>

    ghost predicate Valid()
      reads this, buffer, buffer.buf
    {
      && buffer.Valid()
      && (wpendPending ==> wpendTot > 0 && wpendRet == wpendTot)
      && (hasFlight ==> flightOffset <= |flightData|)
    }

    ghost function View(): Writer
      requires Valid()
      reads this, buffer, buffer.buf
    {
      Writer(wnum, PendingView(), buffer.contents, FlightView(), seqNum, shutdown,
             if alertDispatch then Some(sendAlert) else None, Transport(script, out), log)
    }

    ghost function PendingView(): Option<Pending>
      requires Valid()
      reads this, buffer, buffer.buf
    {
      if wpendPending then Some(Pending(wpendBuf, wpendType, wpendTot)) else None
    }

    ghost function FlightView(): Option<Flight>
      reads this
    {
      if hasFlight then Some(Flight(flightData, flightOffset)) else None
    }

    /** Unless the buffer's offset wrapped around with bytes left in it, the object does what the
        specification says. */
    ghost predicate Does(r: Written, ret: int)
      requires Valid()
      reads this, buffer, buffer.buf
    {
      buffer.wrapped || Written(View(), ret) == r
    }

    ghost function Footprint(): set<object>
      reads this, buffer
    {
      {this, buffer} + if buffer.buf == null then {} else {buffer.buf}
    }

    constructor ()
      ensures Valid() && fresh(Footprint())
      ensures !buffer.wrapRisk
      ensures View() == Writer(0, None, [], None, 0, false, None, Transport([], []), [])
    {
      wnum, wpendPending, wpendTot, wpendBuf, wpendType, wpendRet := 0, false, 0, 0, 0, 0;
      buffer := new SslBuffer();
      hasFlight, flightData, flightOffset := false, [], 0;
      seqNum, shutdown, alertDispatch, sendAlert := 0, false, false, [0, 0];
      script, out, log := [], [], [];
    }

    /** BIO_write */
    method BioWrite(data: seq<Byte>) returns (ret: int)
      requires data != []
      modifies this`script, this`out
      ensures Taken(Transport(script, out), ret) == TlsWriter.BioWrite(old(Transport(script, out)), data)
      ensures if old(script) == [] then ret < 0
              else script == old(script)[1..] && ret == if old(script)[0] > 0 then Min(old(script)[0], |data|) else old(script)[0]
    {
      if |script| == 0 {
        return -1;
      }
      ret := script[0];
      script := script[1..];
      if ret > 0 {
        ret := Min(ret, |data|);
        out := out + data[..ret];
      }
    }

    /** tls_write_buffer_flush */
    method FlushWriteBuffer() returns (ret: int)
      requires buffer.Valid()
      modifies this`script, this`out, buffer
      ensures buffer.Valid() && buffer.wrapRisk == old(buffer.wrapRisk) && (old(buffer.wrapped) ==> buffer.wrapped)
      ensures buffer.buf == null || buffer.buf == old(buffer.buf)
      ensures buffer.wrapped
           || Flushed(Transport(script, out), buffer.contents, ret)
              == Flush(old(Transport(script, out)), old(buffer.contents))
      ensures !old(buffer.wrapped) ==> buffer.wrapped == FlushWraps(old(script), old(buffer.size), old(buffer.offset))
    {
      hide Flush, TlsWriter.BioWrite, FlushWraps, SslBuffer.Slice, SslBuffer.Valid;
      ghost var goal := Flush(Transport(script, out), buffer.contents);
      ghost var wraps := WrapsIn(script, buffer.size, buffer.offset, buffer.wrapped);
      while buffer.size > 0
        invariant buffer.Valid() && buffer.wrapRisk == old(buffer.wrapRisk) && (old(buffer.wrapped) ==> buffer.wrapped)
        invariant buffer.buf == old(buffer.buf)
        invariant buffer.wrapped || Flush(Transport(script, out), buffer.contents) == goal
        invariant WrapsIn(script, buffer.size, buffer.offset, buffer.wrapped) == wraps
        decreases buffer.size
      {
        var data := buffer.Data();
        FlushStep(Transport(script, out), data);
        WrapsStep(script, buffer.size, buffer.offset);
        ret := BioWrite(data);
        if ret <= 0 {
          return;
        }
        buffer.Consume(ret);
        FlushEnd(Transport(script, out), script, buffer.offset);
      }
      FlushEnd(Transport(script, out), script, buffer.offset);
      buffer.Empty();
      buffer.Clear();
      return 1;
    }

    /** ssl3_write_pending */
    method FlushPending(mode: Mode, addr: int, typ: Byte, len: nat) returns (ret: int)
      requires Valid() && wpendPending
      modifies this`script, this`out, this`wpendPending, buffer
      ensures Valid() && buffer.wrapRisk == old(buffer.wrapRisk) && (old(buffer.wrapped) ==> buffer.wrapped)
      ensures buffer.buf == null || buffer.buf == old(buffer.buf)
      ensures ret <= len
      ensures buffer.wrapped ==> old(buffer.wrapped) || FlushWraps(old(script), old(buffer.size), old(buffer.offset))
      ensures Does(WritePending(old(View()), old(PendingView()).value, mode, addr, typ, len), ret)
    {
      if wpendTot > len || (!mode.movingBuffer && wpendBuf != addr) || wpendType != typ {
        return -1;
      }
      ret := FlushWriteBuffer();
      if ret <= 0 {
        return;
      }
      wpendPending := false;
      return wpendRet;
    }

    /** tls_seal_record, for a cipher whose overhead is accounted for. */
    method Seal(c: Cipher, typ: Byte, plain: seq<Byte>) returns (bytes: Option<seq<Byte>>)
      requires Bounded(c)
      modifies this`seqNum
      ensures bytes.Some? ==> |bytes.value| <= |plain| + c.overhead
      ensures bytes == if seqNum == 0 then None else Some(c.seal(old(seqNum), typ, plain))
      ensures seqNum == NextSequence(old(seqNum))
    {
      var sealed := c.seal(seqNum, typ, plain);
      seqNum := NextSequence(seqNum);
      return if seqNum == 0 then None else Some(sealed);
    }

    /** What is left to write of the flight. */
    function Rest(): seq<Byte>
      requires hasFlight ==> flightOffset <= |flightData|
      reads this
    {
      if hasFlight then flightData[flightOffset..] else []
    }

    /** Makes room for a record, and puts any unflushed handshake data before it. */
    method MergeFlight(c: Cipher, len: nat) returns (ok: bool)
      requires Valid() && buffer.size == 0
      modifies this`hasFlight, this`flightData, this`flightOffset, buffer, buffer.buf
      ensures buffer.Valid() && (buffer.buf == old(buffer.buf) || fresh(buffer.buf))
      ensures old(buffer.wrapped) ==> buffer.wrapped
      ensures buffer.wrapRisk ==> old(buffer.wrapRisk) || Large(len + c.overhead + |old(Rest())|)
      ensures ok == (len + c.overhead + |old(Rest())| <= MAX_BUFFER)
      ensures if ok then
                && buffer.contents == old(buffer.contents) + old(Rest()) && !hasFlight
                && buffer.cap - buffer.size >= len + c.overhead
              else buffer.contents == old(buffer.contents) && unchanged(this)
    {
      hide SslBuffer.Valid, SslBuffer.AlignmentOffset;
      var rest := Rest();
      var address: nat := *;
      ok := buffer.EnsureCap(|rest| + c.prefix, len + c.overhead + |rest|, address);
      if ok {
        buffer.Append(rest);
        hasFlight, flightData, flightOffset := false, [], 0;
      }
    }

    /** Seals a record into the buffer, and remembers the arguments so that a bad retry can be
        detected. */
    method SealBuffered(c: Cipher, addr: int, typ: Byte, plain: seq<Byte>) returns (ok: bool)
      requires buffer.Valid() && Bounded(c) && buffer.cap - buffer.size >= |plain| + c.overhead
      modifies this`seqNum, this`log, this`wpendTot, this`wpendBuf, this`wpendType, this`wpendRet, this`wpendPending
      modifies buffer`size, buffer`contents, buffer.buf
      ensures buffer.Valid()
      ensures var sealed := SealRecord(c, old(seqNum), |plain| + c.overhead, typ, plain);
              && seqNum == sealed.seqNum && ok == sealed.bytes.Some?
              && (ok ==>
                    && buffer.contents == old(buffer.contents) + sealed.bytes.value
                    && log == old(log) + [Sealed(typ, plain, sealed.bytes.value)])
      ensures if ok then Remembers(addr, typ, |plain|)
              else unchanged(buffer) && unchanged(`log) && wpendPending == old(wpendPending)
    {
      var bytes := Seal(c, typ, plain);
      if bytes.None? {
        return false;
      }
      buffer.Append(bytes.value);
      log := log + [Sealed(typ, plain, bytes.value)];
      wpendTot, wpendBuf, wpendType, wpendRet := |plain|, addr, typ, |plain|;
      wpendPending := true;
      return true;
    }

    predicate Remembers(addr: int, typ: Byte, len: nat)
      reads this
    {
      wpendPending && wpendTot == len && wpendRet == len && wpendBuf == addr && wpendType == typ
    }

    /** The second half of do_ssl3_write: nothing is pending and the buffer is empty. */
    method SealRecordNow(c: Cipher, addr: int, typ: Byte, plain: seq<Byte>) returns (ok: bool)
      requires Valid() && Bounded(c) && !wpendPending && buffer.size == 0 && plain != []
      modifies this, buffer, buffer.buf
      ensures Valid() && (buffer.buf == old(buffer.buf) || fresh(buffer.buf))
      ensures old(buffer.wrapped) ==> buffer.wrapped
      ensures buffer.wrapRisk ==> old(buffer.wrapRisk) || Large(|plain| + c.overhead + |old(Rest())|)
      ensures ok ==> wpendPending
      ensures Written(View(), if ok then 1 else -1) == SealIntoBuffer(old(View()), c, addr, typ, plain)
    {
      ghost var was := View();
      assert Rest() == FlightRest(was);
      ok := MergeFlight(c, |plain|);
      if ok {
        ghost var merged := View();
        assert Merge(was, c, |plain|) == Some(merged);
        ok := SealAfterMerge(c, addr, typ, plain);
      }
    }

    method SealAfterMerge(c: Cipher, addr: int, typ: Byte, plain: seq<Byte>) returns (ok: bool)
      requires Valid() && Bounded(c) && !wpendPending && plain != []
      requires buffer.cap - buffer.size >= |plain| + c.overhead
      modifies this`seqNum, this`log, this`wpendTot, this`wpendBuf, this`wpendType, this`wpendRet, this`wpendPending
      modifies buffer`size, buffer`contents, buffer.buf
      ensures Valid() && (ok ==> wpendPending)
      ensures Written(View(), if ok then 1 else -1) == SealMerged(old(View()), c, addr, typ, plain)
    {
      ok := SealBuffered(c, addr, typ, plain);
      assert PendingView() == if ok then Some(Pending(addr, typ, |plain|)) else None;
    }

    /** do_ssl3_write */
    method DoWriteRecord(c: Cipher, mode: Mode, addr: int, typ: Byte, plain: seq<Byte>) returns (ret: int)
      requires Valid() && Bounded(c)
      modifies this, buffer, buffer.buf
      ensures Valid() && (buffer.buf == null || buffer.buf == old(buffer.buf) || fresh(buffer.buf))
      ensures old(buffer.wrapped) ==> buffer.wrapped
      ensures buffer.wrapRisk ==> old(buffer.wrapRisk) || Large(|plain| + c.overhead + |old(Rest())|)
      ensures |Rest()| <= |old(Rest())|
      ensures ret <= |plain|
      ensures Does(DoWrite(old(View()), c, mode, addr, typ, plain), ret)
    {
      if wpendPending {
        ret := FlushPending(mode, addr, typ, |plain|);
        return;
      }
      if |plain| > MAX_PLAIN_LENGTH || buffer.size > 0 {
        return -1;
      }
      if |plain| == 0 {
        return 0;
      }
      var ok := SealRecordNow(c, addr, typ, plain);
      if !ok {
        return -1;
      }
      ret := FlushPending(mode, addr, typ, |plain|);
    }

    /** ssl3_write_app_data */
    method WriteApplicationData(c: Cipher, mode: Mode, addr: int, data: seq<Byte>) returns (ret: int)
      requires Valid() && Bounded(c)
      modifies this, buffer, buffer.buf
      ensures Valid() && (buffer.buf == null || buffer.buf == old(buffer.buf) || fresh(buffer.buf))
      ensures old(buffer.wrapped) ==> buffer.wrapped
      ensures buffer.wrapRisk ==> old(buffer.wrapRisk) || Large(mode.maxFragment + c.overhead + |old(Rest())|)
      ensures Does(WriteAppData(old(View()), c, mode, addr, data), ret)
    {
      if shutdown {
        return -1;
      }
      var tot := wnum;
      wnum := 0;
      if |data| < tot {
        return -1;
      }
      ret := WriteRest(c, mode, addr, data, tot);
    }

    /** The end of a turn of that loop: whether to go on. */
    method Settle(c: Cipher, mode: Mode, addr: int, data: seq<Byte>, tot: nat, wrote: int) returns (ret: int, more: bool)
      requires Valid() && tot <= |data| && wrote <= |data| - tot
      modifies this`wnum
      ensures Valid() && (more ==> wrote > 0)
      ensures var after := AfterPiece(Written(old(View()), wrote), c, mode, addr, data, tot);
              if more then View() == old(View()) && after == WriteFrom(View(), c, mode, addr, data, tot + wrote)
              else Written(View(), ret) == after
    {
      if wrote <= 0 {
        wnum := tot;
        return wrote, false;
      }
      if wrote == |data| - tot || mode.partialWrite {
        return tot + wrote, false;
      }
      return 0, true;
    }

    /** One turn of the loop of ssl3_write_app_data. */
    method WritePiece(c: Cipher, mode: Mode, addr: int, data: seq<Byte>, tot: nat)
      returns (wrote: int, ret: int, more: bool)
      requires Valid() && Bounded(c) && tot <= |data|
      modifies this, buffer, buffer.buf
      ensures Valid() && (buffer.buf == null || buffer.buf == old(buffer.buf) || fresh(buffer.buf))
      ensures old(buffer.wrapped) ==> buffer.wrapped
      ensures buffer.wrapRisk ==> old(buffer.wrapRisk) || Large(mode.maxFragment + c.overhead + |old(Rest())|)
      ensures |Rest()| <= |old(Rest())|
      ensures more ==> 0 < wrote <= |data| - tot
      ensures buffer.wrapped
           || WriteFrom(old(View()), c, mode, addr, data, tot)
              == if more then WriteFrom(View(), c, mode, addr, data, tot + wrote) else Written(View(), ret)
    {
      ghost var was := View();
      var piece := data[tot..tot + Min(|data| - tot, mode.maxFragment)];
      wrote := DoWriteRecord(c, mode, addr + tot, APPLICATION_DATA, piece);
      if !buffer.wrapped {
        WriteFromStep(was, c, mode, addr, data, tot, Written(View(), wrote));
      }
      ret, more := Settle(c, mode, addr, data, tot, wrote);
    }

    /** The loop of ssl3_write_app_data. */
    method WriteRest(c: Cipher, mode: Mode, addr: int, data: seq<Byte>, start: nat) returns (ret: int)
      requires Valid() && Bounded(c) && start <= |data|
      modifies this, buffer, buffer.buf
      ensures Valid() && (buffer.buf == null || buffer.buf == old(buffer.buf) || fresh(buffer.buf))
      ensures old(buffer.wrapped) ==> buffer.wrapped
      ensures buffer.wrapRisk ==> old(buffer.wrapRisk) || Large(mode.maxFragment + c.overhead + |old(Rest())|)
      ensures Does(WriteFrom(old(View()), c, mode, addr, data, start), ret)
    {
      hide WriteFrom;
      var tot := start;
      while true
        invariant Valid() && tot <= |data|
        invariant buffer.buf == null || buffer.buf == old(buffer.buf) || fresh(buffer.buf)
        invariant old(buffer.wrapped) ==> buffer.wrapped
        invariant |Rest()| <= |old(Rest())|
        invariant buffer.wrapRisk ==> old(buffer.wrapRisk) || Large(mode.maxFragment + c.overhead + |old(Rest())|)
        invariant buffer.wrapped
               || WriteFrom(View(), c, mode, addr, data, tot) == WriteFrom(old(View()), c, mode, addr, data, start)
        decreases |data| - tot
      {
        var wrote, done, more := WritePiece(c, mode, addr, data, tot);
        if !more {
          return done;
        }
        tot := tot + wrote;
      }
    }

    /** add_record_to_flight, which is never called while a flight is being written. */
    method AddRecordToFlight(c: Cipher, typ: Byte, plain: seq<Byte>) returns (ok: bool)
      requires Valid() && Bounded(c) && (hasFlight ==> flightOffset == 0)
      modifies this`hasFlight, this`flightData, this`flightOffset, this`seqNum, this`log
      ensures Valid() && (hasFlight ==> flightOffset == 0)
      ensures Added(View(), ok) == AddRecord(old(View()), c, typ, plain)
    {
      if !hasFlight {
        hasFlight, flightData, flightOffset := true, [], 0;
      }
      var bytes := Seal(c, typ, plain);
      if bytes.None? {
        return false;
      }
      flightData := flightData + bytes.value;
      log := log + [Sealed(typ, plain, bytes.value)];
      return true;
    }

    /** ssl3_add_message: a do-while loop, so that even nothing makes one record. */
    method AddHandshakeMessage(c: Cipher, mode: Mode, msg: seq<Byte>) returns (ok: bool)
      requires Valid() && Bounded(c) && (hasFlight ==> flightOffset == 0)
      modifies this`hasFlight, this`flightData, this`flightOffset, this`seqNum, this`log
      ensures Valid() && (hasFlight ==> flightOffset == 0)
      ensures Added(View(), ok) == AddMessage(old(View()), c, mode, msg)
    {
      var rest := msg;
      while true
        invariant Valid() && (hasFlight ==> flightOffset == 0)
        invariant AddMessage(View(), c, mode, rest) == AddMessage(old(View()), c, mode, msg)
        decreases |rest|
      {
        var n := Min(mode.maxFragment, |rest|);
        ok := AddRecordToFlight(c, HANDSHAKE, rest[..n]);
        if !ok || n == |rest| {
          return;
        }
        rest := rest[n..];
      }
    }

    /** The loop of ssl3_flush_flight. */
    method SendPendingFlight() returns (ret: int)
      modifies this`script, this`out, this`flightOffset
      ensures FlightSent(Transport(script, out), flightOffset, ret)
           == SendFlight(old(Transport(script, out)), flightData, old(flightOffset))
      ensures old(flightOffset) <= |flightData| ==> flightOffset <= |flightData|
    {
      while flightOffset < |flightData|
        invariant SendFlight(Transport(script, out), flightData, flightOffset)
               == SendFlight(old(Transport(script, out)), flightData, old(flightOffset))
        invariant old(flightOffset) <= |flightData| ==> flightOffset <= |flightData|
        decreases |flightData| - flightOffset
      {
        ret := BioWrite(flightData[flightOffset..]);
        if ret <= 0 {
          return;
        }
        flightOffset := flightOffset + ret;
      }
      return 1;
    }

    /** ssl3_flush_flight; `flushed` is whether BIO_flush succeeds. */
    method FlushPendingFlight(flushed: bool) returns (ret: int)
      requires Valid()
      modifies this, buffer
      ensures Valid() && buffer.wrapRisk == old(buffer.wrapRisk) && (old(buffer.wrapped) ==> buffer.wrapped)
      ensures buffer.buf == null || buffer.buf == old(buffer.buf)
      ensures buffer.wrapped ==> old(buffer.wrapped) || FlushWraps(old(script), old(buffer.size), old(buffer.offset))
      ensures Does(FlushFlight(old(View()), flushed), ret)
    {
      if !hasFlight {
        return 1;
      }
      if shutdown || |flightData| > 0x7fff_ffff {
        return -1;
      }
      if buffer.size > 0 {
        ret := FlushWriteBuffer();
        if ret <= 0 {
          return;
        }
      }
      ret := FinishPendingFlight(flushed);
    }

    method FinishPendingFlight(flushed: bool) returns (ret: int)
      requires Valid() && hasFlight
      modifies this`script, this`out, this`hasFlight, this`flightData, this`flightOffset
      ensures Valid()
      ensures Written(View(), ret) == FinishFlight(old(View()), Flight(old(flightData), old(flightOffset)), flushed)
    {
      ret := SendPendingFlight();
      if ret <= 0 {
        return;
      }
      if !flushed {
        return -1;
      }
      hasFlight, flightData, flightOffset := false, [], 0;
      return 1;
    }

    /** ssl3_dispatch_alert */
    method DispatchPendingAlert(c: Cipher, mode: Mode) returns (ret: int)
      requires Valid() && Bounded(c) && alertDispatch
      modifies this, buffer, buffer.buf
      ensures Valid() && (buffer.buf == null || buffer.buf == old(buffer.buf) || fresh(buffer.buf))
      ensures old(buffer.wrapped) ==> buffer.wrapped
      ensures buffer.wrapRisk ==> old(buffer.wrapRisk) || Large(|old(sendAlert)| + c.overhead + |old(Rest())|)
      ensures Does(DispatchAlert(old(View()), c, mode), ret)
    {
      ret := DoWriteRecord(c, mode, ALERT_BUFFER, ALERT, sendAlert);
      if ret <= 0 {
        return;
      }
      alertDispatch := false;
      return 1;
    }

    /** ssl_send_alert */
    method SendAlertNow(c: Cipher, mode: Mode, level: Byte, desc: Byte) returns (ret: int)
      requires Valid() && Bounded(c)
      modifies this, buffer, buffer.buf
      ensures Valid() && (buffer.buf == null || buffer.buf == old(buffer.buf) || fresh(buffer.buf))
      ensures old(buffer.wrapped) ==> buffer.wrapped
      ensures buffer.wrapRisk ==> old(buffer.wrapRisk) || Large(2 + c.overhead + |old(Rest())|)
      ensures Does(SendAlert(old(View()), c, mode, level, desc), ret)
    {
      if shutdown {
        return -1;
      }
      shutdown := true;
      alertDispatch := true;
      sendAlert := [level, desc];
      if buffer.size > 0 {
        return -1;
      }
      ret := DispatchPendingAlert(c, mode);
    }
  }
}
