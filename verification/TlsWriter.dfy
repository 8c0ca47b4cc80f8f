/**
 The TLS write path (s3_pkt.cc, s3_both.cc, ssl_buffer.cc): records go through a write buffer or a
 pending flight to a transport that may take less than it is offered, or nothing. Everything here is
 a value; TlsConnection is the object that updates it in place.
 */
module TlsWriter {
  import opened Basics

  const CHANGE_CIPHER_SPEC: Byte := 20
  const ALERT: Byte := 21
  const HANDSHAKE: Byte := 22
  const APPLICATION_DATA: Byte := 23

  const MAX_PLAIN_LENGTH := 16384
  const MAX_BUFFER := 0xffff

  function Min(a: nat, b: nat): nat {
    if a <= b then a else b
  }

  // ----- State -----

  /** What tls_seal_record makes of a record: its bytes, for a sequence number, type and plaintext.
      `overhead` is SSL_max_seal_overhead, `prefix` is ssl_seal_align_prefix_len. */
  datatype Cipher = Cipher(seal: (nat, Byte, seq<Byte>) -> seq<Byte>, overhead: nat, prefix: nat)

  ghost predicate Bounded(c: Cipher) {
    forall n: nat, typ: Byte, plain: seq<Byte> :: |c.seal(n, typ, plain)| <= |plain| + c.overhead
  }

  /** A record that was sealed and handed on to the buffer or the flight. */
  datatype Sealed = Sealed(typ: Byte, plain: seq<Byte>, bytes: seq<Byte>)

  type Positive = n: int | n > 0 witness 1

  /** The arguments of a write that was sealed but whose bytes are not all flushed: wpend_buf,
      wpend_type, and wpend_tot, which always equals wpend_ret. */
  datatype Pending = Pending(addr: int, typ: Byte, len: Positive)

  /** pending_flight and pending_flight_offset */
  datatype Flight = Flight(data: seq<Byte>, offset: nat)

  /** The results of the transport's next writes, and the bytes it took. */
  datatype Transport = Transport(script: seq<int>, out: seq<Byte>)

  datatype Mode = Mode(maxFragment: Positive, partialWrite: bool, movingBuffer: bool)

  datatype Writer = Writer(
    wnum: nat,
    pending: Option<Pending>,
    buffer: seq<Byte>,
    flight: Option<Flight>,
    seqNum: nat,
    shutdown: bool,
    alert: Option<seq<Byte>>,
    transport: Transport,
    log: seq<Sealed>)

  datatype Written = Written(writer: Writer, ret: int)

  // ----- The transport and the buffer -----

  datatype Taken = Taken(transport: Transport, ret: int)

  /** BIO_write */
  function BioWrite(t: Transport, data: seq<Byte>): (r: Taken)
    requires data != []
    ensures r.ret <= |data|
    ensures r.ret > 0 ==> |r.transport.script| < |t.script|
  {
    if t.script == [] then Taken(t, -1)
    else if t.script[0] <= 0 then Taken(t.(script := t.script[1..]), t.script[0])
    else
      var n := Min(t.script[0], |data|);
      Taken(Transport(t.script[1..], t.out + data[..n]), n)
  }

  datatype Flushed = Flushed(transport: Transport, buffer: seq<Byte>, ret: int)

  /** tls_write_buffer_flush */
  function Flush(t: Transport, buffer: seq<Byte>): (r: Flushed)
    ensures r.ret > 0 ==> r.buffer == []
    decreases |t.script|
  {
    if buffer == [] then Flushed(t, buffer, 1)
    else
      var r := BioWrite(t, buffer);
      if r.ret <= 0 then Flushed(r.transport, buffer, r.ret) else Flush(r.transport, buffer[r.ret..])
  }

  function FlushBuffer(w: Writer): Written {
    var r := Flush(w.transport, w.buffer);
    Written(w.(transport := r.transport, buffer := r.buffer), r.ret)
  }

  // ----- Records -----

  datatype Seal = Seal(seqNum: nat, bytes: Option<seq<Byte>>)

  /** tls_seal_record into `maxOut` bytes of room. */
  function SealRecord(c: Cipher, seqNum: nat, maxOut: nat, typ: Byte, plain: seq<Byte>): Seal {
    var bytes := c.seal(seqNum, typ, plain);
    if |bytes| > maxOut then Seal(seqNum, None)
    else
      var next := NextSequence(seqNum);
      Seal(next, if next == 0 then None else Some(bytes))
  }

  /** ssl_record_sequence_update on 8 bytes. */
  function NextSequence(n: nat): nat {
    if n + 1 >= TWO64 then 0 else n + 1
  }

  function FlightRest(w: Writer): seq<Byte> {
    match w.flight
    case None => []
    case Some(f) => f.data[Min(f.offset, |f.data|)..]
  }

  /** ssl3_write_pending */
  function WritePending(w: Writer, p: Pending, mode: Mode, addr: int, typ: Byte, len: nat): Written {
    if p.len > len || (!mode.movingBuffer && p.addr != addr) || p.typ != typ then Written(w, -1)
    else
      var r := FlushBuffer(w);
      if r.ret <= 0 then r else Written(r.writer.(pending := None), p.len)
  }

  /** The part of do_ssl3_write that makes room and puts any unflushed handshake data first. */
  function Merge(w: Writer, c: Cipher, len: nat): Option<Writer> {
    var rest := FlightRest(w);
    if len + c.overhead + |rest| > MAX_BUFFER then None
    else Some(w.(buffer := w.buffer + rest, flight := None))
  }

  /** The part that seals the record into the buffer and remembers the arguments. */
  function SealMerged(w: Writer, c: Cipher, addr: int, typ: Byte, plain: seq<Byte>): (r: Written)
    requires plain != []
    ensures r.ret > 0 ==> r.writer.pending.Some?
  {
    var sealed := SealRecord(c, w.seqNum, |plain| + c.overhead, typ, plain);
    match sealed.bytes
    case None => Written(w.(seqNum := sealed.seqNum), -1)
    case Some(bytes) =>
      Written(w.(
              seqNum := sealed.seqNum,
              buffer := w.buffer + bytes,
              pending := Some(Pending(addr, typ, |plain|)),
              log := w.log + [Sealed(typ, plain, bytes)]), 1)
  }

  function SealIntoBuffer(w: Writer, c: Cipher, addr: int, typ: Byte, plain: seq<Byte>): (r: Written)
    requires plain != []
    ensures r.ret > 0 ==> r.writer.pending.Some?
  {
    match Merge(w, c, |plain|)
    case None => Written(w, -1)
    case Some(merged) => SealMerged(merged, c, addr, typ, plain)
  }

  /** do_ssl3_write */
  function DoWrite(w: Writer, c: Cipher, mode: Mode, addr: int, typ: Byte, plain: seq<Byte>): (r: Written)
    ensures r.ret <= |plain|
  {
    match w.pending
    case Some(p) => WritePending(w, p, mode, addr, typ, |plain|)
    case None =>
      if |plain| > MAX_PLAIN_LENGTH || w.buffer != [] then Written(w, -1)
      else if plain == [] then Written(w, 0)
      else
        var r := SealIntoBuffer(w, c, addr, typ, plain);
        if r.ret <= 0 then r else WritePending(r.writer, r.writer.pending.value, mode, addr, typ, |plain|)
  }

  /** The loop of ssl3_write_app_data, with `tot` bytes of `data` already written. */
  function WriteFrom(w: Writer, c: Cipher, mode: Mode, addr: int, data: seq<Byte>, tot: nat): Written
    requires tot <= |data|
    decreases |data| - tot, 1
  {
    var piece := data[tot..tot + Min(|data| - tot, mode.maxFragment)];
    AfterPiece(DoWrite(w, c, mode, addr + tot, APPLICATION_DATA, piece), c, mode, addr, data, tot)
  }

  /** The rest of a turn of the loop, after the result of do_ssl3_write. */
  function AfterPiece(r: Written, c: Cipher, mode: Mode, addr: int, data: seq<Byte>, tot: nat): Written
    requires tot <= |data| && r.ret <= |data| - tot
    decreases |data| - tot, 0
  {
    if r.ret <= 0 then Written(r.writer.(wnum := tot), r.ret)
    else if r.ret == |data| - tot || mode.partialWrite then Written(r.writer, tot + r.ret)
    else WriteFrom(r.writer, c, mode, addr, data, tot + r.ret)
  }

  lemma WriteFromStep(w: Writer, c: Cipher, mode: Mode, addr: int, data: seq<Byte>, tot: nat, one: Written)
    requires tot <= |data|
    requires one == DoWrite(w, c, mode, addr + tot, APPLICATION_DATA,
                            data[tot..tot + Min(|data| - tot, mode.maxFragment)])
    ensures WriteFrom(w, c, mode, addr, data, tot) == AfterPiece(one, c, mode, addr, data, tot)
  {
  }

  /** ssl3_write_app_data: `wnum` is forgotten even when the length is found too small. */
  function WriteAppData(w: Writer, c: Cipher, mode: Mode, addr: int, data: seq<Byte>): Written {
    if w.shutdown then Written(w, -1)
    else if |data| < w.wnum then Written(w.(wnum := 0), -1)
    else WriteFrom(w.(wnum := 0), c, mode, addr, data, w.wnum)
  }

  // ----- Flights -----

  datatype Added = Added(writer: Writer, ok: bool)

  /** add_record_to_flight */
  function AddRecord(w: Writer, c: Cipher, typ: Byte, plain: seq<Byte>): Added {
    var f := if w.flight.None? then Flight([], 0) else w.flight.value;
    var sealed := SealRecord(c, w.seqNum, |plain| + c.overhead, typ, plain);
    match sealed.bytes
    case None => Added(w.(seqNum := sealed.seqNum, flight := Some(f)), false)
    case Some(bytes) =>
      Added(w.(
            seqNum := sealed.seqNum,
            flight := Some(f.(data := f.data + bytes)),
            log := w.log + [Sealed(typ, plain, bytes)]), true)
  }

  /** ssl3_add_message: at least one record, even for nothing. */
  function AddMessage(w: Writer, c: Cipher, mode: Mode, msg: seq<Byte>): Added
    decreases |msg|
  {
    var n := Min(mode.maxFragment, |msg|);
    var added := AddRecord(w, c, HANDSHAKE, msg[..n]);
    if !added.ok || n == |msg| then added else AddMessage(added.writer, c, mode, msg[n..])
  }

  datatype FlightSent = FlightSent(transport: Transport, offset: nat, ret: int)

  /** The loop of ssl3_flush_flight over the transport. */
  function SendFlight(t: Transport, data: seq<Byte>, offset: nat): (r: FlightSent)
    ensures r.ret > 0 ==> r.offset >= |data|
    decreases |t.script|
  {
    if offset >= |data| then FlightSent(t, offset, 1)
    else
      var r := BioWrite(t, data[offset..]);
      if r.ret <= 0 then FlightSent(r.transport, offset, r.ret)
      else SendFlight(r.transport, data, offset + r.ret)
  }

  function WriteFlight(w: Writer, f: Flight): Written {
    var r := SendFlight(w.transport, f.data, f.offset);
    Written(w.(transport := r.transport, flight := Some(f.(offset := r.offset))), r.ret)
  }

  /** ssl3_flush_flight: what the write buffer holds goes first. `flushed` is whether BIO_flush
      succeeds. */
  function FlushFlight(w: Writer, flushed: bool): Written {
    match w.flight
    case None => Written(w, 1)
    case Some(f) =>
      if w.shutdown || |f.data| > 0x7fff_ffff then Written(w, -1)
      else
        var r := FlushBuffer(w);
        if r.ret <= 0 then r else FinishFlight(r.writer, f, flushed)
  }

  function FinishFlight(w: Writer, f: Flight, flushed: bool): Written {
    var sent := WriteFlight(w, f);
    if sent.ret <= 0 then sent
    else if !flushed then Written(sent.writer, -1)
    else Written(sent.writer.(flight := None), 1)
  }

  // ----- Alerts -----

  /** The address of the connection's own alert buffer, which is no caller's. */
  const ALERT_BUFFER := -1

  /** ssl3_dispatch_alert */
  function DispatchAlert(w: Writer, c: Cipher, mode: Mode): Written
    requires w.alert.Some?
  {
    var r := DoWrite(w, c, mode, ALERT_BUFFER, ALERT, w.alert.value);
    if r.ret <= 0 then r else Written(r.writer.(alert := None), 1)
  }

  /** ssl_send_alert: after it, nothing more may be written. */
  function SendAlert(w: Writer, c: Cipher, mode: Mode, level: Byte, desc: Byte): Written {
    if w.shutdown then Written(w, -1)
    else
      var w' := w.(shutdown := true, alert := Some([level, desc]));
      if w.buffer == [] then DispatchAlert(w', c, mode) else Written(w', -1)
  }
}
