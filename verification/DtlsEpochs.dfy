/**
 No message mixes epochs. The read keys change only when no part of a message waits, so that every
 message taken was put together from records that were let through under one epoch.
 */
module DtlsEpochs {
  import opened Basics
  import opened DtlsDelivery
  import opened DtlsReassembly
  import opened DtlsReceiver
  import opened DtlsRecord
  import opened DtlsRun
  import opened Wire
  import R = DtlsReceiver

  /** The call of the receiver that an event of a run delivers a record to. */
  function ReadOf(w: World, e: Event): Option<Act> {
    if (e.Deliver? || e.DeliverForCcs?) && OnNetwork(w, e.datagram, e.index).Some?
    then Some(Act.Read(OnNetwork(w, e.datagram, e.index).value, e.DeliverForCcs?)) else None
  }

  /** The event lets through a record of message `n`, one of the seven next, while it is not complete. */
  predicate Contributes(w: World, e: Event, n: nat)
    requires DtlsRun.WellFormed(w)
  {
    && ReadOf(w, e).Some?
    && BringsNow(w.receiver, ReadOf(w, e).value, n)
    && w.receiver.readSeq <= n < w.receiver.readSeq + FLIGHT
    && !Ready(w.receiver, n)
  }

  /** The records that message `n` was put together from. */
  function PartsOf(events: seq<Event>, n: nat): seq<Record> {
    if events == [] then []
    else
      var before, e := events[..|events| - 1], events[|events| - 1];
      PartsOf(before, n) + if Contributes(DtlsRun.Run(before), e, n) then [ReadOf(DtlsRun.Run(before), e).value.rec] else []
  }

  ghost predicate Fragments(parts: seq<Record>, n: nat) {
    forall rec | rec in parts :: IsFragmentOf(rec, n)
  }

  function Ranges(parts: seq<Record>, n: nat): (rs: seq<Range>)
    requires Fragments(parts, n)
    ensures |rs| == |parts|
  {
    if parts == [] then []
    else
      assert parts[|parts| - 1] in parts && forall rec | rec in parts[..|parts| - 1] :: rec in parts;
      Ranges(parts[..|parts| - 1], n) + [RangeOf(parts[|parts| - 1])]
  }

  ghost predicate OneEpoch(parts: seq<Record>) {
    forall a, b | a in parts && b in parts :: a.epoch == b.epoch
  }

  /** The bytes of the message are those of the records, in the order in which they came. */
  ghost predicate MadeOf(p: Partial, parts: seq<Record>, n: nat) {
    && parts != [] && Fragments(parts, n) && OneEpoch(parts)
    && p == FillAll(Fresh(p.typ, n, p.len), Ranges(parts, n))
  }

  /** What the ring holds of message `n`. */
  function InRing(r: Receiver, n: nat): Option<Partial>
    requires |r.slots| == FLIGHT
  {
    var slot := r.slots[n % FLIGHT];
    if slot.Some? && slot.value.seqNo == n then slot else None
  }

  /** The message being looked at may be of an earlier epoch; whatever else is in the ring is of this one. */
  ghost predicate OfThisEpoch(r: Receiver, parts: seq<Record>, n: nat) {
    (r.hasMessage && n == r.readSeq) || forall rec | rec in parts :: rec.epoch == r.epoch
  }

  ghost predicate Waits(r: Receiver, parts: seq<Record>, n: nat)
    requires |r.slots| == FLIGHT
  {
    if InRing(r, n).Some? then MadeOf(InRing(r, n).value, parts, n) && OfThisEpoch(r, parts, n) else parts == []
  }

  /** Message `n` is the one that these records make up. */
  ghost predicate Made(m: Message, parts: seq<Record>, n: nat) {
    exists p :: MadeOf(p, parts, n) && Complete(p) && m == Message(p.typ, Body(p))
  }

  lemma {:induction false} FillAllSnoc(p: Partial, rs: seq<Range>, last: Range)
    ensures FillAll(p, rs + [last]) == Fill(FillAll(p, rs), last.offset, last.body)
    decreases rs
  {
    if rs == [] {
      assert [] + [last] == [last];
      assert FillAll(Fill(p, last.offset, last.body), []) == Fill(p, last.offset, last.body);
    } else {
      assert (rs + [last])[1..] == rs[1..] + [last];
      FillAllSnoc(Fill(p, rs[0].offset, rs[0].body), rs[1..], last);
    }
  }

  lemma {:induction false} FillAllHeader(p: Partial, rs: seq<Range>)
    ensures FillAll(p, rs).typ == p.typ && FillAll(p, rs).seqNo == p.seqNo && FillAll(p, rs).len == p.len
    decreases rs
  {
    if rs != [] {
      FillAllHeader(Fill(p, rs[0].offset, rs[0].body), rs[1..]);
    }
  }

  lemma FirstPart(typ: Byte, len: nat, rec: Record, n: nat)
    requires IsFragmentOf(rec, n)
    ensures MadeOf(Fill(Fresh(typ, n, len), RangeOf(rec).offset, RangeOf(rec).body), [rec], n)
  {
    hide Fill, Fresh;
    assert Ranges([], n) == [];
    assert Ranges([rec], n) == [RangeOf(rec)];
    FillAllSnoc(Fresh(typ, n, len), [], RangeOf(rec));
    FillAllHeader(Fresh(typ, n, len), [RangeOf(rec)]);
    assert [] + [RangeOf(rec)] == [RangeOf(rec)];
    FreshHeader(typ, n, len);
  }

  lemma FreshHeader(typ: Byte, n: nat, len: nat)
    ensures Fresh(typ, n, len).typ == typ && Fresh(typ, n, len).len == len
  {
  }

  lemma NextPart(p: Partial, parts: seq<Record>, rec: Record, n: nat)
    requires MadeOf(p, parts, n) && IsFragmentOf(rec, n) && forall a | a in parts :: a.epoch == rec.epoch
    ensures MadeOf(Fill(p, RangeOf(rec).offset, RangeOf(rec).body), parts + [rec], n)
  {
    hide Fill, Fresh;
    var all := parts + [rec];
    assert all[..|all| - 1] == parts;
    FillAllSnoc(Fresh(p.typ, n, p.len), Ranges(parts, n), RangeOf(rec));
    FillAllHeader(Fresh(p.typ, n, p.len), Ranges(all, n));
    FreshHeader(p.typ, n, p.len);
  }

  // ----- Every step -----

  /** The receiver as the delivery lemmas want it. */
  lemma RunReceiver(w: World)
    requires Inv(w) && |w.history| < TWO16
    ensures DtlsRun.WellFormed(w) && Good(w.receiver, w.history) && w.receiver.readSeq == |w.taken|
  {
  }

  /** Where the ring holds a message, it is of the sender's history and among the seven next. */
  lemma InRingBounds(r: Receiver, history: seq<Message>, n: nat)
    requires Good(r, history) && InRing(r, n).Some?
    ensures HasRoom(r, history, n)
    ensures InRing(r, n).value.typ == history[n].typ && InRing(r, n).value.len == |history[n].body|
  {
    var p := r.slots[n % FLIGHT].value;
    assert InPlace(r, p, n % FLIGHT);
    assert FaithfulPart(p, history);
  }

  lemma RoomHolds(r: Receiver, history: seq<Message>, n: nat)
    requires Good(r, history) && HasRoom(r, history, n)
    ensures InRing(r, n) == r.slots[n % FLIGHT]
    ensures Ready(r, n) <==> InRing(r, n).Some? && Complete(InRing(r, n).value)
  {
    if r.slots[n % FLIGHT].Some? {
      SameSlot(r, r.slots[n % FLIGHT].value, n);
    }
  }

  lemma BringsFacts(r: Receiver, act: Act, n: nat, history: seq<Message>)
    requires BringsNow(r, act, n) && GenuineRecord(act.rec, history)
    ensures IsFragmentOf(act.rec, n) && act.rec.epoch == r.epoch && n < |history|
  {
  }

  /** A record that comes for a message which has room. */
  lemma FilledWaits(r: Receiver, history: seq<Message>, act: Act, parts: seq<Record>, n: nat, r': Receiver)
    requires Good(r, history) && Good(r', history) && HasRoom(r, history, n) && HasRoom(r', history, n)
    requires BringsNow(r, act, n) && GenuineRecord(act.rec, history) && Waits(r, parts, n)
    requires r'.slots[n % FLIGHT] == Filled(r, history, act.rec, n)
    requires r'.readSeq == r.readSeq && r'.hasMessage == r.hasMessage && r'.epoch == r.epoch
    ensures Waits(r', if Ready(r, n) then parts else parts + [act.rec], n)
  {
    hide Good, MadeOf, Fill, GenuineRecord, RingOk;
    GoodNumbers(r, history);
    GoodNumbers(r', history);
    BringsFacts(r, act, n, history);
    RoomHolds(r, history, n);
    RoomHolds(r', history, n);
    ReadyStays(r, history, n);
    var held := InRing(r, n);
    if held.None? {
      FirstPart(history[n].typ, |history[n].body|, act.rec, n);
      assert [] + [act.rec] == [act.rec];
    } else if !Ready(r, n) {
      NextPart(held.value, parts, act.rec, n);
    } else {
      assert Fill(held.value, RangeOf(act.rec).offset, RangeOf(act.rec).body) == held.value by {
        FillComplete(held.value, RangeOf(act.rec));
      }
    }
  }

  lemma FillComplete(p: Partial, range: Range)
    requires Complete(p)
    ensures Fill(p, range.offset, range.body) == p
  {
  }

  /** A message being looked at is complete. */
  lemma ReadyStays(r: Receiver, history: seq<Message>, n: nat)
    requires Good(r, history)
    ensures r.hasMessage && n == r.readSeq ==> Ready(r, n)
  {
    if r.hasMessage && n == r.readSeq {
      SameSlot(r, r.slots[n % FLIGHT].value, n);
    }
  }

  lemma QuietWaits(r: Receiver, history: seq<Message>, parts: seq<Record>, n: nat, r': Receiver)
    requires Good(r, history) && Good(r', history) && HasRoom(r, history, n) && HasRoom(r', history, n)
    requires Waits(r, parts, n) && r'.slots[n % FLIGHT] == r.slots[n % FLIGHT]
    requires r'.readSeq == r.readSeq && r'.hasMessage == r.hasMessage && r'.epoch == r.epoch
    ensures Waits(r', parts, n)
  {
    hide Good, MadeOf;
    RoomHolds(r, history, n);
    RoomHolds(r', history, n);
  }

  /** There is no room for the message, and so nothing of it in the ring. */
  lemma NoRoomWaits(r: Receiver, history: seq<Message>, parts: seq<Record>, n: nat)
    requires Good(r, history) && !HasRoom(r, history, n)
    ensures |r.slots| == FLIGHT && (Waits(r, parts, n) <==> parts == [])
  {
    hide Good, MadeOf;
    GoodNumbers(r, history);
    if InRing(r, n).Some? {
      InRingBounds(r, history, n);
    }
  }

  lemma ReadIsDo(w: World, e: Event)
    requires DtlsRun.WellFormed(w) && ReadOf(w, e).Some?
    ensures Apply(w, e).receiver == Do(w.receiver, ReadOf(w, e).value, e.maxLen)
    ensures Apply(w, e).history == w.history && Apply(w, e).taken == w.taken
  {
  }

  lemma ReadIsGenuine(w: World, e: Event)
    requires Inv(w) && |w.history| < TWO16 && ReadOf(w, e).Some?
    ensures GenuineRecord(ReadOf(w, e).value.rec, w.history)
  {
    NetworkGenuine(w, e.datagram, e.index);
  }

  lemma DoNumbers(r: Receiver, act: Act, maxLen: nat)
    requires |r.slots| == FLIGHT && act.Read?
    ensures var r' := Do(r, act, maxLen);
            r'.readSeq == r.readSeq && r'.hasMessage == r.hasMessage && r'.epoch == r.epoch
  {
    hide ReadHandshake, ReadChangeCipherSpec, Accepts;
    ReadNumbers(r, act.rec, maxLen);
  }

  /** One record, which may be let through or not. */
  lemma ReadWaits(w: World, e: Event, parts: seq<Record>, n: nat)
    requires Inv(w) && |w.history| < TWO16 && ReadOf(w, e).Some? && Waits(w.receiver, parts, n)
    requires Apply(w, e).receiver.shutdown != Failed && w.receiver.readSeq <= n
    ensures Waits(Apply(w, e).receiver, if Contributes(w, e, n) then parts + [ReadOf(w, e).value.rec] else parts, n)
  {
    hide Inv, Apply, Good, Waits, Do, BringsNow, Ready, GenuineRecord, Filled;
    var r, act, history := w.receiver, ReadOf(w, e).value, w.history;
    RunReceiver(w);
    GoodNumbers(r, history);
    ReadIsDo(w, e);
    ReadIsGenuine(w, e);
    var r' := Do(r, act, e.maxLen);
    DoKeeps(r, act, e.maxLen, history);
    DoNumbers(r, act, e.maxLen);
    if HasRoom(r, history, n) {
      DoFills(r, act, e.maxLen, history, n);
      if BringsNow(r, act, n) {
        FilledWaits(r, history, act, parts, n, r');
      } else {
        QuietWaits(r, history, parts, n, r');
      }
    } else {
      NoRoomWaits(r, history, parts, n);
      NoRoomWaits(r', history, parts, n);
      if BringsNow(r, act, n) {
        BringsFacts(r, act, n, history);
      }
    }
  }

  lemma LookWaits(w: World, parts: seq<Record>, n: nat)
    requires DtlsRun.WellFormed(w) && Waits(w.receiver, parts, n)
    ensures Waits(LookAt(w).receiver, parts, n)
  {
    hide MadeOf;
  }

  /** Taking the current message leaves the later ones as they are. */
  lemma TakeWaits(w: World, parts: seq<Record>, n: nat)
    requires Inv(w) && |w.history| < TWO16 && Waits(w.receiver, parts, n)
    requires TakeMessage(w).receiver.readSeq <= n
    ensures Waits(TakeMessage(w).receiver, parts, n)
  {
    hide MadeOf, Inv;
    RunReceiver(w);
    var r := w.receiver;
    if CanTake(r) {
      TakenIsGenuine(r, w.history);
      if n % FLIGHT == r.readSeq % FLIGHT {
        SameSlot(r, r.slots[r.readSeq % FLIGHT].value, r.readSeq);
      }
    }
  }

  /** The message taken is the one its records make up. */
  lemma TakeMade(w: World, parts: seq<Record>)
    requires Inv(w) && |w.history| < TWO16 && CanTake(w.receiver) && Waits(w.receiver, parts, w.receiver.readSeq)
    ensures Made(GetMessage(w.receiver).value, parts, w.receiver.readSeq)
  {
    hide MadeOf, Inv;
    RunReceiver(w);
    var r := w.receiver;
    SameSlot(r, r.slots[r.readSeq % FLIGHT].value, r.readSeq);
    assert MadeOf(InRing(r, r.readSeq).value, parts, r.readSeq);
  }

  /** New keys are only put in where nothing but the message being looked at is in the ring. */
  lemma KeysWaits(w: World, nullCipher: bool, parts: seq<Record>, n: nat)
    requires Inv(w) && |w.history| < TWO16 && Waits(w.receiver, parts, n) && w.receiver.readSeq <= n
    ensures Waits(NewKeys(w, nullCipher).receiver, parts, n)
  {
    hide MadeOf, Inv, HasUnprocessed;
    RunReceiver(w);
    KeysChangeExactly(w.receiver, nullCipher);
    if InRing(w.receiver, n).Some? {
      InRingBounds(w.receiver, w.history, n);
    }
  }

  lemma StepWaits(w: World, e: Event, parts: seq<Record>, n: nat)
    requires Inv(w) && |w.history| < TWO16 && Waits(w.receiver, parts, n) && w.receiver.readSeq <= n
    requires Apply(w, e).receiver.shutdown != Failed && Apply(w, e).receiver.readSeq <= n
    ensures Waits(Apply(w, e).receiver, if Contributes(w, e, n) then parts + [ReadOf(w, e).value.rec] else parts, n)
  {
    hide Inv, Waits, BringsNow, Ready, LookAt, TakeMessage, NewKeys, Open, Add;
    RunReceiver(w);
    if ReadOf(w, e).Some? {
      ReadWaits(w, e, parts, n);
    } else if e.Look? {
      LookWaits(w, parts, n);
    } else if e.Take? {
      TakeWaits(w, parts, n);
    } else if e.NewReadKeys? {
      KeysWaits(w, e.nullCipher, parts, n);
    } else {
      OtherEvent(w, e);
    }
  }

  lemma OtherEvent(w: World, e: Event)
    requires DtlsRun.WellFormed(w) && ReadOf(w, e).None? && !e.Look? && !e.Take? && !e.NewReadKeys?
    ensures Apply(w, e).receiver == w.receiver
  {
  }

  /** What a step takes and what it leaves taken. */
  lemma StepTaken(w: World, e: Event)
    requires DtlsRun.WellFormed(w)
    ensures w.history <= Apply(w, e).history
    ensures w.receiver.shutdown == Failed ==> Apply(w, e).receiver.shutdown == Failed
    ensures Apply(w, e).taken
         == if e.Take? && CanTake(w.receiver) then w.taken + [GetMessage(w.receiver).value] else w.taken
  {
    hide OpenHandshake, OpenChangeCipherSpec;
  }

  /** The message was taken and is what its records make up, or reading failed, or it waits. */
  ghost predicate MadeOrWaits(w: World, parts: seq<Record>, n: nat)
    requires DtlsRun.WellFormed(w)
  {
    if n < |w.taken| then Made(w.taken[n], parts, n)
    else w.receiver.shutdown != Failed ==> Waits(w.receiver, parts, n)
  }

  lemma StepMade(w: World, e: Event, parts: seq<Record>, n: nat)
    requires DtlsRun.WellFormed(w) && Inv(w) && Inv(Apply(w, e)) && |Apply(w, e).history| < TWO16 && MadeOrWaits(w, parts, n)
    ensures MadeOrWaits(Apply(w, e), if Contributes(w, e, n) then parts + [ReadOf(w, e).value.rec] else parts, n)
  {
    hide Inv, Made, Waits, BringsNow, Ready, Apply, ReadOf;
    var w' := Apply(w, e);
    StepTaken(w, e);
    RunReceiver(w);
    RunReceiver(w');
    if n < |w.taken| {
      TakenAlready(w, e, n);
    } else if n < |w'.taken| {
      TakeMade(w, parts);
      TakenAlready(w, e, n);
    } else if w'.receiver.shutdown != Failed {
      StepWaits(w, e, parts, n);
    }
  }

  /** In every run: the messages taken are made of the records listed, and so is what waits. */
  lemma {:induction false} RunMade(events: seq<Event>, n: nat)
    requires |DtlsRun.Run(events).history| < TWO16
    ensures MadeOrWaits(DtlsRun.Run(events), PartsOf(events, n), n)
  {
    hide Inv, MadeOrWaits, Contributes, Apply;
    if events == [] {
      NothingWaits(n);
    } else {
      var before, e := events[..|events| - 1], events[|events| - 1];
      HistoryGrows(DtlsRun.Run(before), e);
      RunKeeps(before);
      RunKeeps(events);
      RunMade(before, n);
      StepMade(DtlsRun.Run(before), e, PartsOf(before, n), n);
      JoinParts(events, n);
    }
  }

  lemma HistoryGrows(w: World, e: Event)
    requires DtlsRun.WellFormed(w)
    ensures |w.history| <= |Apply(w, e).history|
  {
    StepTaken(w, e);
  }

  lemma NothingWaits(n: nat)
    ensures MadeOrWaits(DtlsRun.Run([]), [], n)
  {
  }

  lemma TakenAlready(w: World, e: Event, n: nat)
    requires DtlsRun.WellFormed(w) && (n < w.receiver.readSeq || e.Take?)
    ensures !Contributes(w, e, n)
  {
  }

  lemma JoinParts(events: seq<Event>, n: nat)
    requires events != []
    ensures var before, e := events[..|events| - 1], events[|events| - 1];
            PartsOf(events, n)
            == if Contributes(DtlsRun.Run(before), e, n) then PartsOf(before, n) + [ReadOf(DtlsRun.Run(before), e).value.rec]
               else PartsOf(before, n)
  {
  }

  lemma {:induction false} PartsAccepted(events: seq<Event>, n: nat, rec: Record)
    requires rec in PartsOf(events, n)
    ensures rec in DtlsRun.Run(events).accepted
  {
    hide Apply, Contributes;
    if events != [] {
      var before, e := events[..|events| - 1], events[|events| - 1];
      LetThrough(DtlsRun.Run(before), e, n);
      if rec in PartsOf(before, n) {
        PartsAccepted(before, n, rec);
      }
    }
  }

  lemma LetThrough(w: World, e: Event, n: nat)
    requires DtlsRun.WellFormed(w)
    ensures w.accepted <= Apply(w, e).accepted
    ensures Contributes(w, e, n) ==> ReadOf(w, e).Some? && ReadOf(w, e).value.rec in Apply(w, e).accepted
  {
    hide OpenHandshake, OpenChangeCipherSpec;
  }

  /**
   In every run, each message taken is made up of records that were let through, all of them of one epoch:
   no message is part of one epoch's bytes and part of another's, so none mixes bytes that came in the clear
   with bytes that came under keys.
   */
  lemma TakenUnderOneEpoch(events: seq<Event>, n: nat)
    requires |DtlsRun.Run(events).history| < TWO16 && n < |DtlsRun.Run(events).taken|
    ensures Made(DtlsRun.Run(events).taken[n], PartsOf(events, n), n)
    ensures OneEpoch(PartsOf(events, n)) && PartsOf(events, n) != []
    ensures forall rec | rec in PartsOf(events, n) :: rec in DtlsRun.Run(events).accepted
  {
    RunMade(events, n);
    forall rec | rec in PartsOf(events, n)
      ensures rec in DtlsRun.Run(events).accepted
    {
      PartsAccepted(events, n, rec);
    }
  }
}
