/**
 How long the records of a flight get, and what becomes of those that are too long. The sender cuts
 a message by the room in the packet alone, and this may be more than a receiver takes.
 */
module DtlsLimits {
  import opened Basics
  import opened DtlsDelivery
  import opened DtlsFlight
  import opened DtlsFragment
  import opened DtlsReassembly
  import opened DtlsReceiver
  import opened DtlsRecord
  import opened DtlsRetransmission
  import opened DtlsWindow
  import opened Wire
  import Run = DtlsRun
  import S = DtlsSender

  /** What a receiver takes of a body in one record. */
  const MAX_BODY := MAX_PLAIN_LENGTH - HEADER_LENGTH

  predicate Overlong(rec: Record) {
    |Bytes(rec.content)| > MAX_PLAIN_LENGTH
  }

  /** What a record of an epoch takes besides what it holds, at most. */
  function Overhead(w: S.Writer, epoch: nat): nat {
    RECORD_HEADER_LENGTH + S.MaxOverhead(S.KeysOf(w, epoch != w.epoch).aead)
  }

  /** Room for a fragment that is too long. */
  function Ample(w: S.Writer, epoch: nat): nat {
    HEADER_LENGTH + Overhead(w, epoch) + MAX_BODY + 1
  }

  ghost predicate SameKeys(w: S.Writer, w': S.Writer) {
    w'.epoch == w.epoch && w'.current.aead == w.current.aead && w'.last.aead == w.last.aead
  }

  // ----- One record -----

  /** A fragment has more of its message after its start than one record may hold. */
  predicate MuchLeft(c: Content) {
    c.Handshake? && c.fragment.offset + MAX_BODY < c.fragment.msgLen
  }

  predicate WholePart(part: S.Part) {
    part.BodyPart? ==> part.whole.msgLen == |part.whole.body|
  }

  /** Exactly when a record that is sealed is too long: when more than that is left of the message, and
      there is room for it. */
  lemma SealedLength(w: S.Writer, part: S.Part, offset: nat, room: nat, r: S.Sealing)
    requires r == S.SealNextMessage(w, part, offset, room) && r.result.Sealed? && WholePart(part)
    ensures var rec := r.result.record;
            && (Overlong(rec) <==> MuchLeft(rec.content) && room >= Ample(w, rec.epoch))
            && rec.size <= Overhead(w, rec.epoch) + |Bytes(rec.content)|
  {
    if part.BodyPart? {
      BytesLength(r.result.record.content);
    }
  }

  // ----- A packet and a flight -----

  /** Whether the `i`th record of a packet is too long follows from its fragment and the room it had. */
  ghost predicate Fitted(w: S.Writer, d: seq<Record>, i: nat, mtu: nat)
    requires i < |d|
  {
    && (Overlong(d[i]) <==> Loose(w, d, i, mtu))
    && d[i].size <= Overhead(w, d[i].epoch) + |Bytes(d[i].content)|
  }

  /** There was more left than a record may hold, and room for it behind the records before. */
  ghost predicate Loose(w: S.Writer, d: seq<Record>, i: nat, mtu: nat)
    requires i < |d|
  {
    MuchLeft(d[i].content) && mtu >= S.PacketSize(d[..i]) + Ample(w, d[i].epoch)
  }

  ghost predicate AllFitted(w: S.Writer, d: seq<Record>, mtu: nat) {
    forall i: nat | i < |d| :: Fitted(w, d, i, mtu)
  }

  lemma FittedMore(w: S.Writer, d: seq<Record>, rec: Record, mtu: nat)
    requires AllFitted(w, d, mtu)
    requires Overlong(rec) <==> MuchLeft(rec.content) && mtu >= S.PacketSize(d) + Ample(w, rec.epoch)
    requires rec.size <= Overhead(w, rec.epoch) + |Bytes(rec.content)|
    ensures AllFitted(w, d + [rec], mtu)
  {
    hide Overlong, MuchLeft, Ample, Overhead;
    var d' := d + [rec];
    forall i: nat | i < |d'|
      ensures Fitted(w, d', i, mtu)
    {
      if i < |d| {
        assert Fitted(w, d, i, mtu) && d'[..i] == d[..i];
      } else {
        assert d'[..i] == d;
      }
    }
  }

  ghost predicate Whole(parts: seq<S.Part>) {
    forall i | 0 <= i < |parts| :: WholePart(parts[i])
  }

  lemma PartsWhole(msgs: seq<S.OutMsg>)
    ensures Whole(S.Parts(msgs))
  {
  }

  lemma {:induction false} PacketFitted(parts: seq<S.Part>, pos: S.Pos, w0: S.Writer, w: S.Writer, mtu: nat, room: nat,
                                        recs: seq<Record>, p: S.Packing)
    requires PositionOk(parts, pos) && Whole(parts) && SameKeys(w0, w)
    requires AllFitted(w0, recs, mtu) && mtu == S.PacketSize(recs) + room
    requires p == S.FillPacket(parts, pos, w, room, recs)
    ensures SameKeys(w0, p.writer) && (p.packet.Packet? ==> AllFitted(w0, p.packet.records, mtu))
    decreases |parts| - pos.msg
  {
    hide S.FillPacket, S.SealNextMessage, AllFitted, Overlong, MuchLeft, Carries;
    if pos.msg == |parts| {
      FillStep(parts, pos, w, room, recs, S.Sealing(w, S.SealError), p);
    } else {
      var r := S.SealNextMessage(w, parts[pos.msg], pos.offset, room);
      FillStep(parts, pos, w, room, recs, r, p);
      SealNextOk(w, parts[pos.msg], pos.offset, room, r);
      if r.result.Sealed? {
        var rec := r.result.record;
        SealedLength(w, parts[pos.msg], pos.offset, room, r);
        SameOverhead(w0, w, rec.epoch);
        FittedMore(w0, recs, rec, mtu);
        assert (recs + [rec])[..|recs|] == recs;
        if r.result.done {
          PacketFitted(parts, S.Pos(pos.msg + 1, 0), w0, r.writer, mtu, room - rec.size, recs + [rec], p);
        }
      }
    }
  }

  lemma SameOverhead(w: S.Writer, w': S.Writer, epoch: nat)
    requires SameKeys(w, w')
    ensures Overhead(w', epoch) == Overhead(w, epoch) && Ample(w', epoch) == Ample(w, epoch)
  {
  }

  /** The datagrams after the first `base`. */
  ghost predicate FlightFitted(w: S.Writer, ds: seq<seq<Record>>, base: nat, mtu: nat) {
    forall k | base <= k < |ds| :: AllFitted(w, ds[k], mtu)
  }

  lemma {:induction false} SendFitted(s: S.Sender, mtu: nat, accepts: nat, w0: S.Writer, base: nat, r: S.Sending)
    requires PositionOk(S.Parts(s.msgs), s.pos) && SameKeys(w0, s.writer) && FlightFitted(w0, s.sent, base, mtu)
    requires r == S.SendPackets(s, mtu, accepts)
    ensures FlightFitted(w0, r.sender.sent, base, mtu)
    decreases accepts
  {
    hide S.SendPackets, S.FillPacket, AllFitted, Whole, Tiles;
    var p := S.FillPacket(S.Parts(s.msgs), s.pos, s.writer, mtu, []);
    SendStep(s, mtu, accepts, p, r);
    if s.pos.msg < |s.msgs| {
      PartsWhole(s.msgs);
      NothingToFit(w0, mtu);
      PacketFitted(S.Parts(s.msgs), s.pos, w0, s.writer, mtu, mtu, [], p);
      PacketTiles(S.Parts(s.msgs), s.pos, s.writer, mtu);
      if p.packet.Packet? && accepts > 0 {
        SendFitted(Took(s, p), mtu, accepts - 1, w0, base, r);
      }
    }
  }

  lemma NothingToFit(w: S.Writer, mtu: nat)
    ensures AllFitted(w, [], mtu)
  {
  }

  /** The datagrams of a retransmission. */
  function SentDatagrams(s: S.Sender, mtu: nat, accepts: nat): seq<seq<Record>> {
    var sent := S.Retransmit(s, mtu, accepts).sender.sent;
    if |s.sent| <= |sent| then sent[|s.sent|..] else []
  }

  lemma RetransmissionFitted(s: S.Sender, mtu: nat, accepts: nat, d: seq<Record>)
    requires d in SentDatagrams(s, mtu, accepts)
    ensures AllFitted(s.writer, d, mtu)
  {
    hide AllFitted;
    var s0 := s.(pos := S.Pos(0, 0));
    SendFitted(s0, mtu, accepts, s.writer, |s.sent|, S.SendPackets(s0, mtu, accepts));
  }

  /** Exactly when a retransmission has a record that is too long: when, at some place of a packet, more
      was left of a message than a record may hold, and there was room for it. */
  lemma OverlongExactly(s: S.Sender, mtu: nat, accepts: nat)
    ensures (exists rec :: rec in SentRecords(s, mtu, accepts) && Overlong(rec))
       <==> exists d, i: nat :: d in SentDatagrams(s, mtu, accepts) && i < |d| && Loose(s.writer, d, i, mtu)
  {
    hide S.Retransmit, Loose, Overlong;
    var ds := SentDatagrams(s, mtu, accepts);
    RetransmitExtends(s, mtu, accepts);
    if rec :| rec in SentRecords(s, mtu, accepts) && Overlong(rec) {
      var d, i := PlaceOf(ds, rec);
      RetransmissionFitted(s, mtu, accepts, d);
      assert Fitted(s.writer, d, i, mtu);
    }
    if d, i: nat :| d in ds && i < |d| && Loose(s.writer, d, i, mtu) {
      RetransmissionFitted(s, mtu, accepts, d);
      assert Fitted(s.writer, d, i, mtu);
      InFlatten(ds, d, d[i]);
    }
  }

  lemma {:induction false} PlaceOf(ds: seq<seq<Record>>, rec: Record) returns (d: seq<Record>, i: nat)
    requires rec in Flatten(ds)
    ensures d in ds && i < |d| && d[i] == rec
    decreases ds
  {
    if rec in ds[0] {
      d := ds[0];
      i :| i < |d| && d[i] == rec;
    } else {
      d, i := PlaceOf(ds[1..], rec);
    }
  }

  // ----- In terms of the flight -----

  /** The body fits into records, or an MTU keeps it from being put into one that is too long. */
  predicate SafeBody(w: S.Writer, part: S.Part, mtu: nat) {
    |BodyOf(part)| <= MAX_BODY || mtu < Ample(w, part.epoch)
  }

  lemma {:induction false} TilesPart(parts: seq<S.Part>, from: S.Pos, recs: seq<Record>, to: S.Pos, rec: Record)
    returns (k: nat, offset: nat)
    requires Tiles(parts, from, recs, to) && rec in recs
    ensures k < |parts| && Conveys(parts[k], offset, rec)
    decreases recs
  {
    k, offset := from.msg, from.offset;
    if rec != recs[0] {
      k, offset := TilesPart(parts, After(parts[from.msg], from, recs[0].content), recs[1..], to, rec);
    }
  }

  lemma RetransmissionPart(s: S.Sender, mtu: nat, accepts: nat, rec: Record) returns (k: nat, offset: nat)
    requires rec in SentRecords(s, mtu, accepts)
    ensures k < |s.msgs| && Conveys(S.Parts(s.msgs)[k], offset, rec) && WholePart(S.Parts(s.msgs)[k])
  {
    var s0 := s.(pos := S.Pos(0, 0));
    var reached := SendTiles(s0, mtu, accepts);
    PartsWhole(s.msgs);
    k, offset := TilesPart(S.Parts(s.msgs), S.Pos(0, 0), SentRecords(s, mtu, accepts), reached, rec);
  }

  /** A flight of safe bodies has no record that is too long. */
  lemma NoneOverlong(s: S.Sender, mtu: nat, accepts: nat, rec: Record)
    requires forall k | 0 <= k < |s.msgs| :: SafeBody(s.writer, S.Parts(s.msgs)[k], mtu)
    requires rec in SentRecords(s, mtu, accepts)
    ensures !Overlong(rec)
  {
    hide S.Retransmit, S.Parts, Overlong, AllFitted;
    var ds := SentDatagrams(s, mtu, accepts);
    var d, i := PlaceOf(ds, rec);
    RetransmissionFitted(s, mtu, accepts, d);
    FittedAt(s.writer, d, i, mtu);
    var k, offset := RetransmissionPart(s, mtu, accepts, rec);
    assert SafeBody(s.writer, S.Parts(s.msgs)[k], mtu);
  }

  lemma FittedAt(w: S.Writer, d: seq<Record>, i: nat, mtu: nat)
    requires AllFitted(w, d, mtu) && i < |d|
    ensures Fitted(w, d, i, mtu)
  {
  }

  /** A first body that is not safe goes into a record that is too long: the packet has room for it. */
  lemma FirstOverlong(s: S.Sender, mtu: nat, accepts: nat)
    requires s.msgs != [] && S.Retransmit(s, mtu, accepts).result.Sent?
    requires !SafeBody(s.writer, S.Parts(s.msgs)[0], mtu)
    ensures SentRecords(s, mtu, accepts) != [] && Overlong(SentRecords(s, mtu, accepts)[0])
  {
    hide S.Parts, Overlong, AllFitted, Fits, S.SendPackets;
    var s0 := s.(pos := S.Pos(0, 0));
    var ds := SentDatagrams(s, mtu, accepts);
    var reached := SendTiles(s0, mtu, accepts);
    SendFrame(s0, mtu, accepts, S.SendPackets(s0, mtu, accepts));
    PartsWhole(s.msgs);
    var recs := SentRecords(s, mtu, accepts);
    assert recs != [] && Conveys(S.Parts(s.msgs)[0], 0, recs[0]);
    var k := FirstOf(ds);
    RetransmissionFitted(s, mtu, accepts, ds[k]);
    FittedAt(s.writer, ds[k], 0, mtu);
  }

  /** When only the first body may be unsafe, there is a record that is too long exactly when it is. */
  lemma OverlongByFirst(s: S.Sender, mtu: nat, accepts: nat)
    requires s.msgs != [] && S.Retransmit(s, mtu, accepts).result.Sent?
    requires forall k | 1 <= k < |s.msgs| :: SafeBody(s.writer, S.Parts(s.msgs)[k], mtu)
    ensures (exists rec :: rec in SentRecords(s, mtu, accepts) && Overlong(rec))
       <==> !SafeBody(s.writer, S.Parts(s.msgs)[0], mtu)
  {
    hide S.Retransmit, S.Parts, Overlong, SafeBody, SentRecords;
    if SafeBody(s.writer, S.Parts(s.msgs)[0], mtu) {
      forall rec | rec in SentRecords(s, mtu, accepts)
        ensures !Overlong(rec)
      {
        NoneOverlong(s, mtu, accepts, rec);
      }
    } else {
      FirstOverlong(s, mtu, accepts);
      assert SentRecords(s, mtu, accepts)[0] in SentRecords(s, mtu, accepts);
    }
  }

  /** The first record of all is the first of a datagram. */
  lemma {:induction false} FirstOf(ds: seq<seq<Record>>) returns (k: nat)
    requires Flatten(ds) != []
    ensures k < |ds| && ds[k] != [] && ds[k][0] == Flatten(ds)[0]
    decreases ds
  {
    k := 0;
    if ds[0] == [] {
      assert [] + Flatten(ds[1..]) == Flatten(ds[1..]);
      k := FirstOf(ds[1..]);
      k := k + 1;
    }
  }

  /** When the ciphers add no more than a receiver allows for, a flight of safe bodies is taken as far as
      its lengths go. */
  lemma SafeIsShort(s: S.Sender, mtu: nat, accepts: nat)
    requires forall k | 0 <= k < |s.msgs| :: SafeBody(s.writer, S.Parts(s.msgs)[k], mtu)
    requires S.MaxOverhead(s.writer.current.aead) <= MAX_ENCRYPTED_LENGTH - MAX_PLAIN_LENGTH
    requires S.MaxOverhead(s.writer.last.aead) <= MAX_ENCRYPTED_LENGTH - MAX_PLAIN_LENGTH
    ensures AllShort(SentRecords(s, mtu, accepts))
    ensures forall rec | rec in SentRecords(s, mtu, accepts) :: !Overlong(rec)
  {
    hide S.Retransmit, S.Parts, AllFitted, SafeBody;
    var ds := SentDatagrams(s, mtu, accepts);
    forall rec | rec in SentRecords(s, mtu, accepts)
      ensures ShortOnWire(rec) && !Overlong(rec)
    {
      NoneOverlong(s, mtu, accepts, rec);
      var d, i := PlaceOf(ds, rec);
      RetransmissionFitted(s, mtu, accepts, d);
      FittedAt(s.writer, d, i, mtu);
    }
  }

  // ----- Inputs -----

  lemma RunStep(events: seq<Run.Event>, e: Run.Event)
    ensures Run.Run(events + [e]) == Run.Apply(Run.Run(events), e)
  {
    assert (events + [e])[..|events|] == events;
  }

  ghost predicate Ended(w: Run.World, w': Run.World) {
    && w'.receiver.shutdown == Failed && w'.taken == w.taken && w'.accepted == w.accepted
    && w'.receiver.slots == w.receiver.slots
  }

  lemma ApplyAfterFailure(w: Run.World, e: Run.Event)
    requires Run.WellFormed(w) && w.receiver.shutdown == Failed
    ensures Ended(w, Run.Apply(w, e))
  {
    hide S.AddMessage, S.AddOutgoing, S.FlushFlight, S.Retransmit, S.SetWriteState, S.NoteReply, S.OnHandshakeComplete,
      S.SendOther;
    if e.Deliver? || e.DeliverForCcs? {
      var net := Run.OnNetwork(w, e.datagram, e.index);
      if net.Some? {
        FailedStays(w.receiver, net.value, e.maxLen);
      }
    }
  }

  /** After a failure, no event of a run lets the receiver accept, hold or take anything more. */
  lemma {:induction false} RunAfterFailure(events: seq<Run.Event>, more: seq<Run.Event>)
    requires Run.Run(events).receiver.shutdown == Failed
    ensures Ended(Run.Run(events), Run.Run(events + more))
    decreases more
  {
    hide Run.Run, Run.Apply;
    if more == [] {
      assert events + more == events;
    } else {
      var init, last := more[..|more| - 1], more[|more| - 1];
      assert events + more == (events + init) + [last];
      RunAfterFailure(events, init);
      RunStep(events + init, last);
      ApplyAfterFailure(Run.Run(events + init), last);
    }
  }

  /** The sender with its first message, and with a second. */
  lemma AddedFirst(m: Message)
    requires |m.body| < TWO24
    ensures var s := S.AddMessage(S.START, m).sender;
            && S.AddMessage(S.START, m).ok && |s.msgs| == 1 && !s.complete && s.pos == S.Pos(0, 0) && s.writeSeq == 1
            && S.Parts(s.msgs) == [S.BodyPart(0, WholeMessage(m.typ, 0, m.body))]
            && s.writer == S.START.writer && s.sent == []
  {
    Prepared(m, 0);
    Run.PreparedMessage(m, 0, 0);
  }

  lemma Prepared(m: Message, n: nat)
    requires |m.body| < TWO24 && n < TWO16
    ensures S.Prepare(m, n).Some? && |S.Prepare(m, n).value| == HEADER_LENGTH + |m.body|
  {
    FinishedMessage(m.typ, n, m.body);
  }

  lemma AddedSecond(s: S.Sender, m: Message)
    requires |m.body| < TWO24 && |s.msgs| == 1 && !s.complete && s.writeSeq == 1 && s.writer == S.START.writer
    ensures var s' := S.AddMessage(s, m).sender;
            && S.AddMessage(s, m).ok && |s'.msgs| == 2
            && S.Parts(s'.msgs) == S.Parts(s.msgs) + [S.BodyPart(0, WholeMessage(m.typ, 1, m.body))]
            && s'.writer == s.writer && s'.sent == s.sent && s'.pos == s.pos
  {
    Prepared(m, 1);
    Run.PreparedMessage(m, 1, 0);
    Run.PartsAppend(s.msgs, S.OutMsg(false, S.Prepare(m, 1).value, 0));
  }

  /** A record of the first epoch, whose cipher adds nothing. */
  function Clear(f: Fragment, seqNo: nat): Record {
    Record(0, seqNo, Handshake(f), RECORD_HEADER_LENGTH + HEADER_LENGTH + |f.body|)
  }

  /** A writer as it is at the start, but for the numbers used. */
  predicate Bare(w: S.Writer) {
    w.epoch == 0 && S.MaxOverhead(w.current.aead) == 0 && w.current.seqNum < 10
  }

  lemma BareAddsNothing(w: S.Writer, n: nat)
    requires Bare(w)
    ensures w.epoch == 0 && w.current.seqNum < 10
    ensures S.CipherLen(w.current.aead, n) == n && S.MaxOverhead(w.current.aead) == 0
  {
  }

  lemma ClearIsNext(w: S.Writer, f: Fragment)
    requires Bare(w)
    ensures S.NextRecord(w, Handshake(f), false) == Clear(f, w.current.seqNum)
  {
    hide Bare, S.CipherLen;
    BareAddsNothing(w, HEADER_LENGTH + |f.body|);
  }

  /** What is left of it once it sealed such a record. */
  function Used(w: S.Writer, rec: Record): S.Writer {
    w.(current := w.current.(seqNum := w.current.seqNum + 1), sealed := w.sealed + [rec])
  }

  lemma UsedIsBare(w: S.Writer, rec: Record)
    requires Bare(w) && w.current.seqNum < 9
    ensures Bare(Used(w, rec)) && Used(w, rec).current.seqNum == w.current.seqNum + 1
  {
  }

  /** Such a message, sealed whole. */
  lemma SealedWhole(w: S.Writer, f: Fragment, room: nat, rec: Record)
    requires Bare(w) && f.offset == 0 && f.msgLen == |f.body| < 60000 && rec == Clear(f, w.current.seqNum)
    requires RECORD_HEADER_LENGTH + HEADER_LENGTH + 1 <= room && rec.size <= room
    ensures S.SealNextMessage(w, S.BodyPart(0, f), 0, room)
         == S.Sealing(Used(w, rec), S.Sealed(rec, |f.body|, true))
  {
    hide Bare, S.NextRecord, S.MaxOverhead, S.CipherLen;
    ClearIsNext(w, f);
    BareAddsNothing(w, 0);
    assert f.body[0..|f.body|] == f.body;
    assert S.Cut(f, 0, |f.body|) == f;
    assert S.SealBody(w, f, 0, RECORD_HEADER_LENGTH, false, room)
        == S.SealRecord(w, Handshake(f), false, room, |f.body|, true);
  }

  lemma StartIsBare()
    ensures Bare(S.START.writer) && S.START.writer.current.seqNum == 0
  {
  }

  lemma TwoSealed(parts: seq<S.Part>, w: S.Writer, a: Fragment, b: Fragment, mtu: nat)
    requires parts == [S.BodyPart(0, a), S.BodyPart(0, b)] && Bare(w) && w.current.seqNum == 0
    requires a.offset == 0 && a.msgLen == |a.body| && b.offset == 0 && b.msgLen == |b.body|
    requires RECORD_HEADER_LENGTH + HEADER_LENGTH + |a.body| + RECORD_HEADER_LENGTH + HEADER_LENGTH + 1 + |b.body| <= mtu < 60000
    ensures var p := S.FillPacket(parts, S.Pos(0, 0), w, mtu, []);
            p.pos == S.Pos(2, 0) && p.packet == S.Packet([Clear(a, 0), Clear(b, 1)])
  {
    hide Bare, S.SealNextMessage, S.FillPacket, Clear;
    var ra, rb := Clear(a, 0), Clear(b, 1);
    ClearParts(a, 0);
    ClearParts(b, 1);
    var w1 := Used(w, ra);
    var w2 := Used(w1, rb);
    var p := S.FillPacket(parts, S.Pos(0, 0), w, mtu, []);
    SealedWhole(w, a, mtu, ra);
    FillStep(parts, S.Pos(0, 0), w, mtu, [], S.Sealing(w1, S.Sealed(ra, |a.body|, true)), p);
    UsedIsBare(w, ra);
    assert [] + [ra] == [ra] && [ra] + [rb] == [ra, rb];
    SealedWhole(w1, b, mtu - ra.size, rb);
    FillStep(parts, S.Pos(1, 0), w1, mtu - ra.size, [ra], S.Sealing(w2, S.Sealed(rb, |b.body|, true)), p);
    FillStep(parts, S.Pos(2, 0), w2, mtu - ra.size - rb.size, [ra, rb], S.Sealing(w2, S.SealError), p);
  }

  lemma OneSealed(parts: seq<S.Part>, w: S.Writer, a: Fragment, mtu: nat)
    requires parts == [S.BodyPart(0, a)] && Bare(w) && w.current.seqNum == 0
    requires a.offset == 0 && a.msgLen == |a.body|
    requires RECORD_HEADER_LENGTH + HEADER_LENGTH + 1 + |a.body| <= mtu < 60000
    ensures var p := S.FillPacket(parts, S.Pos(0, 0), w, mtu, []);
            p.pos == S.Pos(1, 0) && p.packet == S.Packet([Clear(a, 0)])
  {
    hide Bare, S.SealNextMessage, S.FillPacket, Clear;
    var ra := Clear(a, 0);
    ClearParts(a, 0);
    var w1 := Used(w, ra);
    var p := S.FillPacket(parts, S.Pos(0, 0), w, mtu, []);
    SealedWhole(w, a, mtu, ra);
    FillStep(parts, S.Pos(0, 0), w, mtu, [], S.Sealing(w1, S.Sealed(ra, |a.body|, true)), p);
    assert [] + [ra] == [ra];
    FillStep(parts, S.Pos(1, 0), w1, mtu - ra.size, [ra], S.Sealing(w1, S.SealError), p);
  }

  lemma ClearParts(f: Fragment, seqNo: nat)
    ensures var rec := Clear(f, seqNo);
            && rec.epoch == 0 && rec.seqNo == seqNo && rec.content == Handshake(f)
            && rec.size == RECORD_HEADER_LENGTH + HEADER_LENGTH + |f.body|
  {
  }

  /** One packet, taken by the transport, sends a flight. */
  lemma FlushedInOne(s: S.Sender, mtu: nat, p: S.Packing)
    requires s.pos == S.Pos(0, 0) && s.msgs != [] && s.sent == []
    requires p == S.FillPacket(S.Parts(s.msgs), S.Pos(0, 0), s.writer, mtu, [])
    requires p.packet.Packet? && p.pos == S.Pos(|s.msgs|, 0)
    ensures S.FlushFlight(s, mtu, 1).sender.sent == [p.packet.records]
  {
    hide S.FillPacket, S.SendPackets;
    var s0 := s.(complete := true);
    SendStep(s0, mtu, 1, p, S.SendPackets(s0, mtu, 1));
    var s1 := Took(s0, p);
    SendStep(s1, mtu, 0, S.FillPacket(S.Parts(s1.msgs), s1.pos, s1.writer, mtu, []), S.SendPackets(s1, mtu, 0));
  }

  /** The first record of a run, whose message is longer than is taken: reading fails. */
  lemma LongMessageFails(f: Fragment, maxLen: nat)
    requires InRange(f) && f.msgLen > maxLen && |f.body| <= MAX_BODY
    ensures ReadHandshake(START, Clear(f, 0), maxLen).receiver.shutdown == Failed
    ensures ReadHandshake(START, Clear(f, 0), maxLen).receiver.slots == START.slots
  {
    var rec := Clear(f, 0);
    BytesLength(rec.content);
    EmptyRepresents();
    DiscardExact(EMPTY_WINDOW, {}, Number(rec));
    OpenOne(START, rec, maxLen);
  }

  lemma LongRecordFails(rec: Record, maxLen: nat)
    requires rec.epoch == 0 && rec.seqNo == 0 && Overlong(rec) && ShortOnWire(rec)
    ensures ReadHandshake(START, rec, maxLen).receiver == START.(shutdown := Failed)
  {
    EmptyRepresents();
    DiscardExact(EMPTY_WINDOW, {}, Number(rec));
    TooLongIsError(START, rec, maxLen);
  }

  /** A run of a sender that flushes what it has, once. */
  lemma FirstDelivery(events: seq<Run.Event>, mtu: nat, maxLen: nat, recs: seq<Record>)
    requires var w := Run.Run(events);
             && w.receiver == START && w.taken == [] && S.FlushFlight(w.sender, mtu, 1).sender.sent == [recs] && recs != []
    ensures var w := Run.Run(events + [Run.Flush(mtu, 1)] + [Run.Deliver(0, 0, maxLen)]);
            && w.sender.sent == [recs] && w.taken == [] && w.history == Run.Run(events).history
            && w.receiver == ReadHandshake(START, recs[0], maxLen).receiver
  {
    hide Run.Run, S.FlushFlight, ReadHandshake;
    RunStep(events, Run.Flush(mtu, 1));
    RunStep(events + [Run.Flush(mtu, 1)], Run.Deliver(0, 0, maxLen));
  }

  lemma AddEvent(events: seq<Run.Event>, m: Message)
    requires S.AddMessage(Run.Run(events).sender, m).ok
    ensures var w, w' := Run.Run(events), Run.Run(events + [Run.AddMessage(m)]);
            w' == w.(sender := S.AddMessage(w.sender, m).sender, history := w.history + [m])
  {
    hide Run.Run, S.AddMessage;
    RunStep(events, Run.AddMessage(m));
  }

  /** A message that is too long comes first, in the same datagram as one that is not: neither is ever
      held or taken, whatever happens then. */
  lemma LongMessageInput(first: Message, second: Message, more: seq<Run.Event>)
    requires |first.body| == 200 && |second.body| == 1
    ensures var events := [Run.AddMessage(first), Run.AddMessage(second), Run.Flush(1500, 1), Run.Deliver(0, 0, 100)];
            var w := Run.Run(events);
            && w.history == [first, second]
            && w.sender.sent == [[Clear(WholeMessage(first.typ, 0, first.body), 0),
                                  Clear(WholeMessage(second.typ, 1, second.body), 1)]]
            && Ended(w, Run.Run(events + more))
            && w.taken == [] && w.receiver.slots == START.slots
  {
    hide Run.Run, S.AddMessage, S.FlushFlight, S.FillPacket, S.Parts, ReadHandshake, Clear, Bare, Ended;
    var a, b := WholeMessage(first.typ, 0, first.body), WholeMessage(second.typ, 1, second.body);
    StartOfRun();
    AddedFirst(first);
    AddEvent([], first);
    var s := Run.Run([Run.AddMessage(first)]).sender;
    assert [] + [Run.AddMessage(first)] == [Run.AddMessage(first)];
    AddedSecond(s, second);
    AddEvent([Run.AddMessage(first)], second);
    var two := [Run.AddMessage(first), Run.AddMessage(second)];
    assert [Run.AddMessage(first)] + [Run.AddMessage(second)] == two;
    var s2 := Run.Run(two).sender;
    StartIsBare();
    TwoSealed(S.Parts(s2.msgs), s2.writer, a, b, 1500);
    FlushedInOne(s2, 1500, S.FillPacket(S.Parts(s2.msgs), S.Pos(0, 0), s2.writer, 1500, []));
    FirstDelivery(two, 1500, 100, [Clear(a, 0), Clear(b, 1)]);
    LongMessageFails(a, 100);
    var events := [Run.AddMessage(first), Run.AddMessage(second), Run.Flush(1500, 1), Run.Deliver(0, 0, 100)];
    assert two + [Run.Flush(1500, 1)] + [Run.Deliver(0, 0, 100)] == events;
    RunAfterFailure(events, more);
  }

  lemma StartOfRun()
    ensures Run.Run([]) == Run.START && Run.START.sender == S.START && Run.START.receiver == START
    ensures Run.START.taken == [] && Run.START.history == []
  {
  }

  /** A body one byte over what a record may hold, at an MTU that has room for it: no receiver takes it. */
  lemma LongRecordInput(m: Message, maxLen: nat, more: seq<Run.Event>)
    requires |m.body| == MAX_BODY + 1
    ensures var events := [Run.AddMessage(m), Run.Flush(20000, 1), Run.Deliver(0, 0, maxLen)];
            var w := Run.Run(events);
            var rec := Clear(WholeMessage(m.typ, 0, m.body), 0);
            && w.history == [m] && w.sender.sent == [[rec]] && |Bytes(rec.content)| == MAX_PLAIN_LENGTH + 1
            && Ended(w, Run.Run(events + more))
            && w.taken == [] && w.receiver.slots == START.slots
  {
    hide Run.Run, S.AddMessage, S.FlushFlight, S.FillPacket, S.Parts, ReadHandshake, Clear, Bare, Ended;
    var a := WholeMessage(m.typ, 0, m.body);
    var rec := Clear(a, 0);
    StartOfRun();
    AddedFirst(m);
    AddEvent([], m);
    assert [] + [Run.AddMessage(m)] == [Run.AddMessage(m)];
    var s := Run.Run([Run.AddMessage(m)]).sender;
    StartIsBare();
    OneSealed(S.Parts(s.msgs), s.writer, a, 20000);
    FlushedInOne(s, 20000, S.FillPacket(S.Parts(s.msgs), S.Pos(0, 0), s.writer, 20000, []));
    FirstDelivery([Run.AddMessage(m)], 20000, maxLen, [rec]);
    ClearParts(a, 0);
    BytesLength(rec.content);
    LongRecordFails(rec, maxLen);
    var events := [Run.AddMessage(m), Run.Flush(20000, 1), Run.Deliver(0, 0, maxLen)];
    assert [Run.AddMessage(m)] + [Run.Flush(20000, 1)] + [Run.Deliver(0, 0, maxLen)] == events;
    RunAfterFailure(events, more);
  }
}
