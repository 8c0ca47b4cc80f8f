/** Alerts and ChangeCipherSpec records at the DTLS receiver. */
module DtlsSignals {
  import opened Basics
  import opened DtlsFragment
  import opened DtlsReceiver
  import opened DtlsRecord
  import opened DtlsWindow
  import Run = DtlsRun
  import S = DtlsSender

  // ----- Warnings -----

  predicate IsWarning(rec: Record) {
    var bytes := Bytes(rec.content);
    ContentType(rec.content) == 21 && |bytes| == 2 && bytes[0] == 1 && bytes[1] != 0
  }

  /** How many warning alerts came since the last record that was no alert. */
  function WarningsInARow(accepted: seq<Record>): nat {
    if accepted == [] then 0
    else
      var last, before := accepted[|accepted| - 1], accepted[..|accepted| - 1];
      if IsWarning(last) then WarningsInARow(before) + 1
      else if ContentType(last.content) == 21 then WarningsInARow(before)
      else 0
  }

  ghost predicate Counted(r: Receiver, accepted: seq<Record>) {
    r.shutdown != Failed ==> r.warnings == WarningsInARow(accepted) <= 4
  }

  lemma OneMore(accepted: seq<Record>, rec: Record)
    ensures WarningsInARow(accepted + [rec])
         == if IsWarning(rec) then WarningsInARow(accepted) + 1
            else if ContentType(rec.content) == 21 then WarningsInARow(accepted)
            else 0
  {
    assert (accepted + [rec])[..|accepted|] == accepted;
  }

  lemma FragmentKeepsFlags(r: Receiver, f: Fragment, maxLen: nat)
    requires |r.slots| == FLIGHT
    ensures ProcessFragment(r, f, maxLen).receiver.hasCcs == r.hasCcs
    ensures ProcessFragment(r, f, maxLen).receiver.warnings == r.warnings
  {
  }

  lemma {:induction false} FragmentsKeepFlags(r: Receiver, payload: seq<Byte>, maxLen: nat)
    requires |r.slots| == FLIGHT
    ensures ProcessFragments(r, payload, maxLen).receiver.hasCcs == r.hasCcs
    ensures ProcessFragments(r, payload, maxLen).receiver.warnings == r.warnings
    decreases |payload|
  {
    hide ProcessFragment, Parse;
    if payload != [] && Parse(payload).Some? {
      var parsed := Parse(payload).value;
      FragmentKeepsFlags(r, parsed.fragment, maxLen);
      FragmentsKeepFlags(ProcessFragment(r, parsed.fragment, maxLen).receiver, parsed.rest, maxLen);
    }
  }

  lemma OpenCounts(r: Receiver, rec: Record, maxLen: nat)
    requires |r.slots| == FLIGHT && r.shutdown != Failed
    ensures var s := OpenHandshake(r, rec, maxLen);
            s.outcome.Error?
            || s.receiver.warnings == if !Accepts(r, rec) then r.warnings
                                      else if IsWarning(rec) then r.warnings + 1
                                      else if ContentType(rec.content) == 21 then r.warnings else 0
    ensures !OpenHandshake(r, rec, maxLen).outcome.Error? && r.warnings <= 4 ==>
              OpenHandshake(r, rec, maxLen).receiver.warnings <= 4
  {
    hide ShouldDiscard, Recorded, ProcessFragments;
    FragmentsKeepFlags(OpenRecord(r, rec).receiver, Bytes(rec.content), maxLen);
  }

  lemma ReadCounts(r: Receiver, rec: Record, maxLen: nat, forCcs: bool)
    requires |r.slots| == FLIGHT && r.shutdown != Failed && !(forCcs && r.hasCcs) && r.warnings <= 4
    ensures var s := if forCcs then ReadChangeCipherSpec(r, rec, maxLen) else ReadHandshake(r, rec, maxLen);
            s.receiver.shutdown == Failed
            || s.receiver.warnings == (if !Accepts(r, rec) then r.warnings
                                       else if IsWarning(rec) then r.warnings + 1
                                       else if ContentType(rec.content) == 21 then r.warnings else 0) <= 4
  {
    hide OpenHandshake, Accepts;
    OpenCounts(r, rec, maxLen);
  }

  lemma StepCounts(w: Run.World, e: Run.Event)
    requires Run.WellFormed(w) && Counted(w.receiver, w.accepted)
    ensures Counted(Run.Apply(w, e).receiver, Run.Apply(w, e).accepted)
  {
    hide ReadHandshake, ReadChangeCipherSpec, Accepts, WarningsInARow;
    if e.Deliver? || e.DeliverForCcs? {
      var net := Run.OnNetwork(w, e.datagram, e.index);
      if net.Some? {
        OneMore(w.accepted, net.value);
        if w.receiver.shutdown == Failed {
          FailedStays(w.receiver, net.value, e.maxLen);
        } else if e.DeliverForCcs? && w.receiver.hasCcs {
          PendingTaken(w.receiver, net.value, e.maxLen);
        } else {
          ReadCounts(w.receiver, net.value, e.maxLen, e.DeliverForCcs?);
        }
      }
    }
  }

  lemma PendingTaken(r: Receiver, rec: Record, maxLen: nat)
    requires |r.slots| == FLIGHT && r.shutdown != Failed && r.hasCcs
    ensures ReadChangeCipherSpec(r, rec, maxLen) == Step(r.(hasCcs := false), Success)
  {
  }

  /** In every run, as long as reading has not failed, the receiver has counted the warning alerts that came
      in a row, and there are four at most. */
  lemma {:induction false} WarningsCounted(events: seq<Run.Event>)
    ensures Counted(Run.Run(events).receiver, Run.Run(events).accepted)
  {
    hide Run.Apply;
    if events != [] {
      WarningsCounted(events[..|events| - 1]);
      StepCounts(Run.Run(events[..|events| - 1]), events[|events| - 1]);
    }
  }

  // ----- The end of reading -----

  lemma StepAfterEnd(w: Run.World, e: Run.Event)
    requires Run.WellFormed(w) && w.receiver.shutdown != Reading
    ensures var w' := Run.Apply(w, e);
            w'.receiver.shutdown != Reading && w'.taken == w.taken && w'.accepted == w.accepted
  {
    if e.Deliver? || e.DeliverForCcs? {
      var net := Run.OnNetwork(w, e.datagram, e.index);
      if net.Some? {
        ReadAfterEnd(w.receiver, net.value, e.maxLen);
      }
    }
  }

  lemma ReadAfterEnd(r: Receiver, rec: Record, maxLen: nat)
    requires |r.slots| == FLIGHT && r.shutdown != Reading
    ensures ReadHandshake(r, rec, maxLen).receiver.shutdown != Reading
    ensures ReadChangeCipherSpec(r, rec, maxLen).receiver.shutdown != Reading
    ensures !Accepts(r, rec)
  {
    hide ProcessFragments, Recorded, ShouldDiscard;
  }

  /** Once the peer closed the connection, or reading failed, nothing is let through or taken any more. */
  lemma {:induction false} NothingAfterEnd(events: seq<Run.Event>, more: seq<Run.Event>)
    requires Run.Run(events).receiver.shutdown != Reading
    ensures var w, w' := Run.Run(events), Run.Run(events + more);
            w'.receiver.shutdown != Reading && w'.taken == w.taken && w'.accepted == w.accepted
    decreases |more|
  {
    hide Run.Apply;
    if more == [] {
      assert events + more == events;
    } else {
      var all := events + more;
      assert all[..|all| - 1] == events + more[..|more| - 1];
      NothingAfterEnd(events, more[..|more| - 1]);
      StepAfterEnd(Run.Run(all[..|all| - 1]), all[|all| - 1]);
    }
  }

  // ----- ChangeCipherSpec -----

  predicate IsChangeCipherSpec(rec: Record) {
    ContentType(rec.content) == 20 && Bytes(rec.content) == [1]
  }

  /** A ChangeCipherSpec record that is let through in the clear. */
  predicate BringsChange(r: Receiver, rec: Record) {
    Accepts(r, rec) && IsChangeCipherSpec(rec) && r.nullCipher
  }

  lemma OpenChanges(r: Receiver, rec: Record, maxLen: nat)
    requires |r.slots| == FLIGHT && r.shutdown != Failed
    ensures OpenHandshake(r, rec, maxLen).receiver.hasCcs == (r.hasCcs || BringsChange(r, rec))
    ensures BringsChange(r, rec) ==> OpenHandshake(r, rec, maxLen).outcome == Success
  {
    hide ShouldDiscard, Recorded, ProcessFragments;
    FragmentsKeepFlags(OpenRecord(r, rec).receiver, Bytes(rec.content), maxLen);
  }

  /** Exactly when a call for a ChangeCipherSpec finds one: it came before, or comes now and in the clear.
      It is found once. */
  lemma ChangeFoundExactly(r: Receiver, rec: Record, maxLen: nat)
    requires |r.slots| == FLIGHT
    ensures var s := ReadChangeCipherSpec(r, rec, maxLen);
            && (s.outcome == Success <==> r.shutdown != Failed && (r.hasCcs || BringsChange(r, rec)))
            && (s.outcome == Success ==> !s.receiver.hasCcs)
    ensures ReadHandshake(r, rec, maxLen).receiver.hasCcs == (r.hasCcs || BringsChange(r, rec))
  {
    hide OpenHandshake;
    if r.shutdown != Failed {
      OpenChanges(r, rec, maxLen);
    }
  }

  // ----- The flight on the sender's side -----

  /** A step that drops messages of the flight: it was flushed before, and it makes way for a new one, or a
      reply to it was processed and the handshake is over. */
  ghost predicate Dropped(s: S.Sender, e: Run.Event) {
    s.complete && (e.AddMessage? || e.AddChangeCipherSpec? || (e.HandshakeComplete? && s.hasReply))
  }

  lemma StepKeepsFlight(w: Run.World, e: Run.Event)
    requires Run.WellFormed(w) && (w.sender.hasReply ==> w.sender.complete)
    ensures var s, s' := w.sender, Run.Apply(w, e).sender;
            && (s'.hasReply ==> s'.complete)
            && (s.msgs <= s'.msgs || Dropped(s, e))
            && (e.HandshakeComplete? ==> s'.msgs == if s.hasReply then [] else s.msgs)
            && (e.Flush? ==> s'.complete && s'.msgs == s.msgs)
            && (e.Reply? ==> s'.hasReply == s.complete)
  {
    hide S.SendPackets, S.SealRecord;
    if e.Flush? {
      SendKeepsFlight(w.sender.(complete := true), e.mtu, e.accepts);
    } else if e.Resend? {
      SendKeepsFlight(w.sender.(pos := S.Pos(0, 0)), e.mtu, e.accepts);
    }
  }

  lemma {:induction false} SendKeepsFlight(s: S.Sender, mtu: nat, accepts: nat)
    requires s.pos.msg <= |s.msgs|
    ensures var s' := S.SendPackets(s, mtu, accepts).sender;
            s'.msgs == s.msgs && s'.complete == s.complete && s'.hasReply == s.hasReply
    decreases accepts
  {
    hide S.FillPacket;
    if s.pos.msg < |s.msgs| {
      var p := S.FillPacket(S.Parts(s.msgs), s.pos, s.writer, mtu, []);
      if p.packet.Packet? && accepts > 0 {
        SendKeepsFlight(s.(pos := p.pos, writer := p.writer, sent := s.sent + [p.packet.records]), mtu, accepts - 1);
      }
    }
  }

  lemma {:induction false} RepliesFollowFlush(events: seq<Run.Event>)
    ensures Run.Run(events).sender.hasReply ==> Run.Run(events).sender.complete
  {
    hide Run.Apply;
    if events != [] {
      RepliesFollowFlush(events[..|events| - 1]);
      StepKeepsFlight(Run.Run(events[..|events| - 1]), events[|events| - 1]);
    }
  }

  /** In every run a flight stays, to be sent again, until it was flushed and either a new one begins or a
      reply to it was processed and the handshake is over. */
  lemma FlightKept(events: seq<Run.Event>, e: Run.Event)
    ensures var s, s' := Run.Run(events).sender, Run.Run(events + [e]).sender;
            && (s.msgs <= s'.msgs || Dropped(s, e))
            && (e.HandshakeComplete? ==> s'.msgs == if s.hasReply then [] else s.msgs)
            && (e.Flush? ==> s'.complete && s'.msgs == s.msgs)
            && (e.Reply? ==> s'.hasReply == s.complete)
  {
    hide Run.Apply;
    assert (events + [e])[..|events|] == events;
    RepliesFollowFlush(events);
    StepKeepsFlight(Run.Run(events), e);
  }
}
