/** When adding to a flight and sending it succeed, that no packet is left with room for more, and what
    becomes of a flight. */
module DtlsOutcome {
  import opened Basics
  import opened DtlsFlight
  import opened DtlsFragment
  import opened DtlsRecord
  import opened DtlsSender
  import opened Wire
  import Run = DtlsRun

  // ----- Adding -----

  /** The flight that is being put together: a complete one makes way for a new one. */
  function Open(s: Sender): seq<OutMsg> {
    if s.complete then [] else s.msgs
  }

  /** A message can be added exactly when its length has 24 bits and there are fewer than seven in the
      flight; then it comes last, whole, under the present epoch and its own number. */
  lemma AddsUpToSeven(s: Sender, m: Message)
    requires s.writeSeq < TWO16
    ensures AddMessage(s, m).ok <==> |m.body| < TWO24 && |Open(s)| < 7
    ensures AddMessage(s, m).ok ==>
              var s' := AddMessage(s, m).sender;
              && Parts(s'.msgs) == Parts(Open(s)) + [BodyPart(s.writer.epoch, WholeMessage(m.typ, s.writeSeq, m.body))]
              && s'.writeSeq == (s.writeSeq + 1) % TWO16 && !s'.complete
  {
    if |m.body| < TWO24 {
      FinishedMessage(m.typ, s.writeSeq, m.body);
      Run.PreparedMessage(m, s.writeSeq, s.writer.epoch);
      Run.PartsAppend(Open(s), OutMsg(false, Prepare(m, s.writeSeq).value, s.writer.epoch));
    }
  }

  /** The same for a ChangeCipherSpec, which has no number. */
  lemma AddsChangeCipherSpec(s: Sender)
    ensures AddOutgoing(s, true, []).ok <==> |Open(s)| < 7
    ensures AddOutgoing(s, true, []).ok ==>
              var s' := AddOutgoing(s, true, []).sender;
              && Parts(s'.msgs) == Parts(Open(s)) + [CcsPart(s.writer.epoch)]
              && s'.writeSeq == s.writeSeq && !s'.complete
  {
    Run.PartsAppend(Open(s), OutMsg(true, [], s.writer.epoch));
  }

  /** An alert or application data is sent at once, under the present keys and their next number. */
  lemma OtherSent(s: Sender, alert: bool, bytes: seq<Byte>, maxOut: nat)
    requires s.writer.current.seqNum + 1 < SEQUENCES
    requires RECORD_HEADER_LENGTH + |bytes| + MaxOverhead(s.writer.current.aead) <= maxOut < TWO16
    ensures var s' := SendOther(s, alert, bytes, maxOut);
            && |s'.sent| == |s.sent| + 1 && s'.sent[..|s.sent|] == s.sent && |s'.sent[|s.sent|]| == 1
            && var rec := s'.sent[|s.sent|][0];
               && rec.epoch == s.writer.epoch && rec.seqNo == s.writer.current.seqNum && rec.size <= maxOut
               && rec.content == Other(if alert then 21 else 23, bytes)
  {
  }

  // ----- Packets are full -----

  lemma SizeAppend(recs: seq<Record>, rec: Record)
    ensures PacketSize(recs + [rec]) == PacketSize(recs) + rec.size
  {
    assert (recs + [rec])[..|recs|] == recs;
  }

  /** A message is only cut where the room ends. */
  lemma CutIsFull(w: Writer, part: Part, offset: nat, maxOut: nat, r: Sealing)
    requires offset <= |BodyOf(part)| && r == SealNextMessage(w, part, offset, maxOut)
    requires r.result.Sealed? && !r.result.done
    ensures maxOut < r.result.record.size + Needed(r.writer, part)
  {
  }

  /** A packet ends with the flight, or has no room for another piece of what comes next. */
  lemma {:induction false} PacketFull(parts: seq<Part>, pos: Pos, w: Writer, maxOut: nat, recs: seq<Record>, p: Packing)
    requires PositionOk(parts, pos) && p == FillPacket(parts, pos, w, maxOut, recs)
    ensures p.packet.Packet? && p.pos.msg < |parts| ==>
              PacketSize(recs) + maxOut < PacketSize(p.packet.records) + Needed(p.writer, parts[p.pos.msg])
    decreases |parts| - pos.msg
  {
    hide FillPacket, SealNextMessage, Conveys, Needed;
    if pos.msg == |parts| {
      FillStep(parts, pos, w, maxOut, recs, Sealing(w, SealError), p);
    } else {
      var part := parts[pos.msg];
      var r := SealNextMessage(w, part, pos.offset, maxOut);
      FillStep(parts, pos, w, maxOut, recs, r, p);
      if r.result.Sealed? {
        SizeAppend(recs, r.result.record);
        if r.result.done {
          PacketFull(parts, Pos(pos.msg + 1, 0), r.writer, maxOut - r.result.record.size, recs + [r.result.record], p);
        } else {
          CutIsFull(w, part, pos.offset, maxOut, r);
        }
      } else if r.result.NoProgress? {
        NoProgressMeans(w, part, pos.offset, maxOut);
      }
    }
  }

  lemma NoProgressMeans(w: Writer, part: Part, offset: nat, maxOut: nat)
    requires SealNextMessage(w, part, offset, maxOut).result.NoProgress?
    ensures maxOut < Needed(w, part)
  {
  }

  // ----- Sending succeeds -----

  /** The bytes and messages from a message on, and what is left of them at a position: every record
      takes at least one. */
  function Work(parts: seq<Part>, i: nat): nat
    decreases |parts| - i
  {
    if i >= |parts| then 0 else |BodyOf(parts[i])| + 1 + Work(parts, i + 1)
  }

  function WorkLeft(parts: seq<Part>, pos: Pos): int {
    Work(parts, pos.msg) - pos.offset
  }

  /** Neither key's numbers wrap within `n` records. */
  predicate NumbersFor(w: Writer, n: int) {
    w.current.seqNum + n < SEQUENCES && w.last.seqNum + n < SEQUENCES
  }

  /** The keys of every message are there, and the MTU has room for a byte of each. */
  ghost predicate Sendable(parts: seq<Part>, w: Writer, mtu: nat) {
    mtu < TWO16 && forall i | 0 <= i < |parts| :: CanSeal(w, parts[i]) && Needed(w, parts[i]) <= mtu
  }

  /** Sealing changes nothing but the numbers and the log. */
  ghost predicate SameKeys(w: Writer, w': Writer) {
    w'.epoch == w.epoch && w'.current.aead == w.current.aead && w'.last.aead == w.last.aead
  }

  lemma SealSucceeds(w: Writer, part: Part, offset: nat, maxOut: nat)
    requires offset <= |BodyOf(part)| && CanSeal(w, part) && Needed(w, part) <= maxOut < TWO16 && NumbersFor(w, 1)
    ensures SealNextMessage(w, part, offset, maxOut).result.Sealed?
  {
  }

  lemma SealUses(w: Writer, part: Part, offset: nat, r: Sealing, n: int)
    requires SealOk(w, part, offset, r) && NumbersFor(w, n) && n >= 1
    ensures SameKeys(w, r.writer) && (r.result.Sealed? ==> NumbersFor(r.writer, n - 1))
  {
  }

  lemma StaysSendable(parts: seq<Part>, w: Writer, mtu: nat, w': Writer)
    requires Sendable(parts, w, mtu) && SameKeys(w, w')
    ensures Sendable(parts, w', mtu)
  {
    forall i | 0 <= i < |parts|
      ensures CanSeal(w', parts[i]) && Needed(w', parts[i]) <= mtu
    {
      assert CanSeal(w, parts[i]) && Needed(w, parts[i]) <= mtu;
    }
  }

  /** A record takes the position on by at least one. */
  lemma WorkDrops(parts: seq<Part>, pos: Pos, c: Content)
    requires PositionOk(parts, pos) && pos.msg < |parts| && Carries(parts[pos.msg], pos.offset, c)
    ensures WorkLeft(parts, After(parts[pos.msg], pos, c)) < WorkLeft(parts, pos)
    ensures WorkLeft(parts, pos) >= 1
  {
  }

  lemma WorkNeeded(parts: seq<Part>, pos: Pos)
    requires PositionOk(parts, pos)
    ensures WorkLeft(parts, pos) >= 0 && (pos.msg < |parts| ==> WorkLeft(parts, pos) >= 1)
  {
  }

  lemma {:induction false} FillSucceeds(parts: seq<Part>, pos: Pos, w: Writer, mtu: nat, maxOut: nat, recs: seq<Record>,
                                        p: Packing)
    requires PositionOk(parts, pos) && Sendable(parts, w, mtu) && maxOut <= mtu
    requires NumbersFor(w, WorkLeft(parts, pos)) && p == FillPacket(parts, pos, w, maxOut, recs)
    ensures !p.packet.PacketError? && PositionOk(parts, p.pos) && SameKeys(w, p.writer)
    ensures WorkLeft(parts, p.pos) <= WorkLeft(parts, pos) && NumbersFor(p.writer, WorkLeft(parts, p.pos))
    ensures recs != [] ==> p.packet.Packet?
    ensures recs == [] && pos.msg < |parts| && maxOut == mtu ==>
              p.packet.Packet? && WorkLeft(parts, p.pos) < WorkLeft(parts, pos)
    decreases |parts| - pos.msg
  {
    hide FillPacket, SealNextMessage, Carries, CanSeal, Needed, WorkLeft;
    if pos.msg == |parts| {
      FillStep(parts, pos, w, maxOut, recs, Sealing(w, SealError), p);
    } else {
      var part := parts[pos.msg];
      var r := SealNextMessage(w, part, pos.offset, maxOut);
      FillStep(parts, pos, w, maxOut, recs, r, p);
      SealNextOk(w, part, pos.offset, maxOut, r);
      WorkNeeded(parts, pos);
      SealUses(w, part, pos.offset, r, WorkLeft(parts, pos));
      SealedOrNot(w, part, pos.offset, maxOut);
      if r.result.Sealed? {
        var rec := r.result.record;
        SealedPosition(parts, pos, rec.content);
        WorkDrops(parts, pos, rec.content);
        if r.result.done {
          StaysSendable(parts, w, mtu, r.writer);
          FillSucceeds(parts, After(part, pos, rec.content), r.writer, mtu, maxOut - rec.size, recs + [rec], p);
        }
      }
    }
  }

  lemma SealedOrNot(w: Writer, part: Part, offset: nat, maxOut: nat)
    requires offset <= |BodyOf(part)| && CanSeal(w, part) && maxOut < TWO16 && NumbersFor(w, 1)
    ensures !SealNextMessage(w, part, offset, maxOut).result.SealError?
    ensures Needed(w, part) <= maxOut ==> SealNextMessage(w, part, offset, maxOut).result.Sealed?
  {
    if Needed(w, part) <= maxOut {
      SealSucceeds(w, part, offset, maxOut);
    }
  }

  lemma {:induction false} SendSucceeds(s: Sender, mtu: nat, accepts: nat)
    requires PositionOk(Parts(s.msgs), s.pos) && Sendable(Parts(s.msgs), s.writer, mtu)
    requires NumbersFor(s.writer, WorkLeft(Parts(s.msgs), s.pos)) && WorkLeft(Parts(s.msgs), s.pos) <= accepts
    ensures SendPackets(s, mtu, accepts).result == Sent
    decreases accepts
  {
    hide SendPackets, FillPacket, Sendable, WorkLeft;
    var parts := Parts(s.msgs);
    var p := FillPacket(parts, s.pos, s.writer, mtu, []);
    SendStep(s, mtu, accepts, p, SendPackets(s, mtu, accepts));
    if s.pos.msg < |s.msgs| {
      FillSucceeds(parts, s.pos, s.writer, mtu, mtu, [], p);
      WorkNeeded(parts, p.pos);
      StaysSendable(parts, s.writer, mtu, p.writer);
      SendSucceeds(Took(s, p), mtu, accepts - 1);
    }
  }

  /**
   A retransmission sends the whole flight when the transport takes enough packets, the MTU has room for
   the header and a byte of each message, the keys of each are the present or the previous ones, and the
   record numbers do not run out.
   */
  lemma RetransmissionSucceeds(s: Sender, mtu: nat, accepts: nat)
    requires Sendable(Parts(s.msgs), s.writer, mtu)
    requires NumbersFor(s.writer, Work(Parts(s.msgs), 0)) && Work(Parts(s.msgs), 0) <= accepts
    ensures Retransmit(s, mtu, accepts).result == Sent
  {
    SendSucceeds(s.(pos := Pos(0, 0)), mtu, accepts);
  }
}
