/**
 The DTLS sender (d1_both.cc, dtls_record.cc, dtls_method.cc): a flight of messages, cut into
 fragments that fit the MTU, that can be rewound and sent again. Everything here is a value;
 DtlsWriter is the object that updates it in place.
 */
module DtlsSender {
  import opened Basics
  import opened DtlsFragment
  import opened DtlsRecord
  import opened Wire

  /** SSL_MAX_HANDSHAKE_FLIGHT */
  const MAX_FLIGHT := 7

  function Min(a: nat, b: nat): nat {
    if a <= b then a else b
  }

  /** What sealing adds to a record: an explicit nonce, and a suffix whose length depends on that
      of the record but has a known maximum. `suffixes` lists the lengths that are below it. */
  datatype Aead = Aead(nonceLen: nat, maxSuffix: nat, suffixes: seq<nat>)

  const NULL_AEAD := Aead(0, 0, [])

  function MaxOverhead(a: Aead): nat {
    a.nonceLen + a.maxSuffix
  }

  function SuffixLen(a: Aead, n: nat): (len: nat)
    ensures len <= a.maxSuffix
  {
    if n < |a.suffixes| then Min(a.suffixes[n], a.maxSuffix) else a.maxSuffix
  }

  function CipherLen(a: Aead, n: nat): (len: nat)
    ensures a.nonceLen + n <= len <= n + MaxOverhead(a)
  {
    a.nonceLen + n + SuffixLen(a, n)
  }

  // ----- State -----

  /** DTLS_OUTGOING_MESSAGE */
  datatype OutMsg = OutMsg(isCcs: bool, data: seq<Byte>, epoch: nat)

  /** outgoing_written and outgoing_offset: the next message to send, and how much of it is sent. */
  datatype Pos = Pos(msg: nat, offset: nat)

  /** The write state of an epoch. */
  datatype Keys = Keys(seqNum: nat, aead: Aead)

  /** The write states of the current epoch and of the one before it; `sealed` records every record
      ever sealed, and `changes` how often the keys were changed. */
  datatype Writer = Writer(epoch: nat, current: Keys, last: Keys, sealed: seq<Record>, changes: nat)

  /** `sent` records the datagrams that the transport took. */
  datatype Sender = Sender(
    msgs: seq<OutMsg>,
    pos: Pos,
    complete: bool,
    hasReply: bool,
    writeSeq: nat,
    writer: Writer,
    sent: seq<seq<Record>>)

  const START :=
    Sender([], Pos(0, 0), false, false, 0, Writer(0, Keys(0, NULL_AEAD), Keys(0, NULL_AEAD), [], 0), [])

  // ----- Adding to a flight -----

  /** dtls_clear_outgoing_messages */
  function Clear(s: Sender): Sender {
    s.(msgs := [], pos := Pos(0, 0), complete := false, hasReply := false)
  }

  datatype Added = Added(sender: Sender, ok: bool)

  /** add_outgoing: a complete flight is dropped before a new one begins. */
  function AddOutgoing(s: Sender, isCcs: bool, data: seq<Byte>): Added {
    var base := if s.complete then Clear(s) else s;
    if |base.msgs| >= MAX_FLIGHT || |data| > 0xffff_ffff then Added(base, false)
    else
      Added(base.(msgs := base.msgs + [OutMsg(isCcs, data, base.writer.epoch)],
                  writeSeq := if isCcs then base.writeSeq else (base.writeSeq + 1) % TWO16),
            true)
  }

  /** dtls1_init_message and dtls1_finish_message, whose result dtls1_add_message gets. */
  function Prepare(m: Message, writeSeq: nat): Option<seq<Byte>> {
    match InitMessage(m.typ, writeSeq, m.body)
    case None => None
    case Some(draft) => FinishMessage(draft)
  }

  /** A handshake message, from dtls1_init_message to dtls1_add_message. */
  function AddMessage(s: Sender, m: Message): Added {
    match Prepare(m, s.writeSeq)
    case None => Added(s, false)
    case Some(data) => AddOutgoing(s, false, data)
  }

  // ----- Sealing -----

  datatype Sealing = Sealing(writer: Writer, result: SealResult)

  /** `todo` bytes of a body were sealed; `done` says that they are the last of the message. */
  datatype SealResult = SealError | NoProgress | Sealed(record: Record, todo: nat, done: bool)

  /** ssl_record_sequence_update on the low 48 bits. */
  function NextSequence(n: nat): nat {
    if n + 1 >= SEQUENCES then 0 else n + 1
  }

  function KeysOf(w: Writer, previous: bool): Keys {
    if previous then w.last else w.current
  }

  /** The record that dtls_seal_record builds. */
  function NextRecord(w: Writer, c: Content, previous: bool): Record
    requires previous ==> w.epoch >= 1
  {
    Record(if previous then w.epoch - 1 else w.epoch, KeysOf(w, previous).seqNum, c,
           RECORD_HEADER_LENGTH + CipherLen(KeysOf(w, previous).aead, ContentLen(c)))
  }

  /** The number is used up even when its increment reports a wrap. */
  function UseNumber(w: Writer, rec: Record, previous: bool): Writer {
    var keys := KeysOf(w, previous).(seqNum := NextSequence(KeysOf(w, previous).seqNum));
    if previous then w.(last := keys, sealed := w.sealed + [rec])
    else w.(current := keys, sealed := w.sealed + [rec])
  }

  /** dtls_seal_record, for a record that is `todo` bytes of a message. */
  function SealRecord(w: Writer, c: Content, previous: bool, maxOut: nat, todo: nat, done: bool): (r: Sealing)
    requires previous ==> w.epoch >= 1
    ensures r.result.Sealed? ==> r.result.record.size <= maxOut
  {
    var rec := NextRecord(w, c, previous);
    if maxOut < rec.size then Sealing(w, SealError)
    else
      var w' := UseNumber(w, rec, previous);
      Sealing(w', if KeysOf(w', previous).seqNum == 0 || rec.size - RECORD_HEADER_LENGTH >= TWO16
              then SealError else Sealed(rec, todo, done))
  }

  /** The message as dtls1_parse_fragment reads it, when it is one whole fragment. */
  function WholeBody(data: seq<Byte>): Option<Fragment> {
    match Parse(data)
    case None => None
    case Some(p) =>
      if p.fragment.offset == 0 && p.fragment.msgLen == |p.fragment.body| && p.rest == []
      then Some(p.fragment) else None
  }

  /** The fragment of `whole` with `todo` bytes from `offset`. */
  function Cut(whole: Fragment, offset: nat, todo: nat): Fragment
    requires offset + todo <= |whole.body|
  {
    Fragment(whole.typ, whole.msgLen, whole.seqNo, offset, whole.body[offset..offset + todo])
  }

  /** A message of the flight as seal_next_message sees it. */
  datatype Part = CcsPart(epoch: nat) | BodyPart(epoch: nat, whole: Fragment) | BadPart(epoch: nat)

  function Decode(m: OutMsg): Part {
    if m.isCcs then CcsPart(m.epoch)
    else
      match WholeBody(m.data)
      case None => BadPart(m.epoch)
      case Some(whole) => BodyPart(m.epoch, whole)
  }

  function Parts(msgs: seq<OutMsg>): (parts: seq<Part>)
    ensures |parts| == |msgs|
  {
    seq(|msgs|, i requires 0 <= i < |msgs| => Decode(msgs[i]))
  }

  predicate UsesPrevious(w: Writer, part: Part) {
    w.epoch >= 1 && part.epoch == w.epoch - 1
  }

  /** seal_next_message. (The source also tests `max_out < prefix`, but a prefix is never longer
      than the overhead.) */
  function SealNextMessage(w: Writer, part: Part, offset: nat, maxOut: nat): (r: Sealing)
    ensures r.result.Sealed? ==> r.result.record.size <= maxOut
    ensures r.result.NoProgress? ==> r.writer == w
  {
    var previous := UsesPrevious(w, part);
    var overhead := RECORD_HEADER_LENGTH + MaxOverhead(KeysOf(w, previous).aead);
    if !previous && part.epoch != w.epoch then Sealing(w, SealError)
    else
      match part
      case CcsPart(_) =>
        if maxOut < 1 + overhead then Sealing(w, NoProgress)
        else SealRecord(w, ChangeCipherSpec, previous, maxOut, 0, true)
      case BadPart(_) => Sealing(w, SealError)
      case BodyPart(_, whole) =>
        if offset > |whole.body| then Sealing(w, SealError)
        else SealBody(w, whole, offset, overhead, previous, maxOut)
  }

  /** As much of a body as there is room for. */
  function SealBody(w: Writer, whole: Fragment, offset: nat, overhead: nat, previous: bool, maxOut: nat): (r: Sealing)
    requires previous ==> w.epoch >= 1
    requires offset <= |whole.body|
    ensures r.result.Sealed? ==> r.result.record.size <= maxOut
  {
    if maxOut < HEADER_LENGTH + 1 + overhead then Sealing(w, NoProgress)
    else
      var todo := Min(|whole.body| - offset, maxOut - HEADER_LENGTH - overhead);
      SealRecord(w, Handshake(Cut(whole, offset, todo)), previous, maxOut, todo, offset + todo == |whole.body|)
  }

  /** How the position moves: on to the next message, or into the body of this one. */
  function Advance(pos: Pos, todo: nat, done: bool): Pos {
    if done then Pos(pos.msg + 1, 0) else Pos(pos.msg, pos.offset + todo)
  }

  // ----- Packets and flights -----

  datatype Packing = Packing(pos: Pos, writer: Writer, packet: Packet)

  datatype Packet = Packet(records: seq<Record>) | MtuTooSmall | PacketError

  function PacketSize(records: seq<Record>): nat {
    if records == [] then 0 else PacketSize(records[..|records| - 1]) + records[|records| - 1].size
  }

  /** The end of seal_next_packet: without any progress, the MTU was too small. */
  function AsPacket(records: seq<Record>): Packet {
    if records == [] then MtuTooSmall else Packet(records)
  }

  function Finish(pos: Pos, w: Writer, records: seq<Record>): Packing {
    Packing(pos, w, AsPacket(records))
  }

  /** The loop of seal_next_packet, with the records sealed so far. */
  function FillPacket(parts: seq<Part>, pos: Pos, w: Writer, maxOut: nat, records: seq<Record>): (p: Packing)
    requires pos.msg <= |parts|
    ensures p.pos.msg <= |parts|
    decreases |parts| - pos.msg
  {
    if pos.msg == |parts| then Finish(pos, w, records)
    else
      var sealing := SealNextMessage(w, parts[pos.msg], pos.offset, maxOut);
      match sealing.result
      case SealError => Packing(pos, sealing.writer, PacketError)
      case NoProgress => Finish(pos, w, records)
      case Sealed(rec, todo, done) =>
        var pos' := Advance(pos, todo, done);
        if !done then Finish(pos', sealing.writer, records + [rec])
        else FillPacket(parts, pos', sealing.writer, maxOut - rec.size, records + [rec])
  }

  datatype Sending = Sending(sender: Sender, result: SendResult)

  datatype SendResult = Sent | Blocked | Failed(why: Packet)

  /** The loop of send_flight over a transport that takes `accepts` more packets: a packet that is
      not taken is sealed again the next time. */
  function SendPackets(s: Sender, mtu: nat, accepts: nat): (r: Sending)
    requires s.pos.msg <= |s.msgs|
    ensures r.sender.pos.msg <= |r.sender.msgs|
    decreases accepts
  {
    if s.pos.msg == |s.msgs| then Sending(s, Sent)
    else
      var p := FillPacket(Parts(s.msgs), s.pos, s.writer, mtu, []);
      if !p.packet.Packet? then Sending(s.(pos := p.pos, writer := p.writer), Failed(p.packet))
      else if accepts == 0 then Sending(s.(writer := p.writer), Blocked)
      else
        SendPackets(s.(pos := p.pos, writer := p.writer, sent := s.sent + [p.packet.records]), mtu, accepts - 1)
  }

  /** dtls1_flush_flight */
  function FlushFlight(s: Sender, mtu: nat, accepts: nat): (r: Sending)
    requires s.pos.msg <= |s.msgs|
    ensures r.sender.pos.msg <= |r.sender.msgs|
  {
    SendPackets(s.(complete := true), mtu, accepts)
  }

  /** dtls1_retransmit_outgoing_messages */
  function Retransmit(s: Sender, mtu: nat, accepts: nat): (r: Sending)
    ensures r.sender.pos.msg <= |r.sender.msgs|
  {
    SendPackets(s.(pos := Pos(0, 0)), mtu, accepts)
  }

  // ----- Keys and replies -----

  /** dtls1_set_write_state */
  function SetWriteState(s: Sender, aead: Aead): Sender {
    var w := s.writer;
    s.(writer := Writer((w.epoch + 1) % EPOCHS, Keys(0, aead), w.current, w.sealed, w.changes + 1))
  }

  /** The last lines of dtls1_next_message. */
  function NoteReply(s: Sender): Sender {
    if s.complete then s.(hasReply := true) else s
  }

  /** dtls1_on_handshake_complete */
  function OnHandshakeComplete(s: Sender): Sender {
    if s.hasReply then Clear(s) else s
  }

  /** An alert or application data record, which always uses the current epoch. */
  function SendOther(s: Sender, alert: bool, bytes: seq<Byte>, maxOut: nat): Sender {
    var c := Other(if alert then ALERT else APPLICATION_DATA, bytes);
    var sealing := SealRecord(s.writer, c, false, maxOut, |bytes|, true);
    if sealing.result.Sealed? then s.(writer := sealing.writer, sent := s.sent + [[sealing.result.record]])
    else s.(writer := sealing.writer)
  }
}
