/**
 A retransmission that reaches the receiver whole and in order. Whatever was lost, repeated and
 reordered before, each of its records is let through, unless one that the receiver must not read
 comes first; exactly which those are is said too.
 */
module DtlsRetransmission {
  import opened Basics
  import opened DtlsDelivery
  import opened DtlsFlight
  import opened DtlsFragment
  import opened DtlsReassembly
  import opened DtlsReceiver
  import opened DtlsRecord
  import opened DtlsWindow
  import opened Wire
  import Run = DtlsRun
  import S = DtlsSender

  // ----- Growing numbers -----

  /** The window has seen no number above this one, and not this one. */
  predicate Beyond(w: Window, n: nat) {
    w.maxSeqNum <= n && !ShouldDiscard(w, n)
  }

  lemma RecordedBeyond(w: Window, n: nat, later: nat)
    requires Beyond(w, n) && n < later
    ensures Beyond(Recorded(w, n), later)
  {
  }

  /** A record of a flight: not too long to be looked at and, if it is of the receiver's epoch, above
      all that this has seen. */
  predicate Due(r: Receiver, rec: Record) {
    !rec.content.Other? && (rec.epoch == r.epoch ==> Beyond(r.window, Number(rec)) && ShortOnWire(rec))
  }

  ghost predicate InOrder(r: Receiver, recs: seq<Record>) {
    Rising(recs) && forall rec | rec in recs :: Due(r, rec)
  }

  /** What reading a record in order does to the numbers. */
  lemma DoInOrder(r: Receiver, act: Act, maxLen: nat)
    requires |r.slots| == FLIGHT && r.shutdown == Reading && Do(r, act, maxLen).shutdown != Failed
    requires Consumes(r, act) ==> Due(r, act.rec)
    ensures var r1 := Do(r, act, maxLen);
            && r1.shutdown == Reading && r1.epoch == r.epoch
            && if Consumes(r, act) && act.rec.epoch == r.epoch then
                 Accepts(r, act.rec) && r1.window == Recorded(r.window, Number(act.rec))
               else r1.window == r.window
  {
    hide ShouldDiscard, Recorded, ReadHandshake, ReadChangeCipherSpec;
    if act.Read? {
      ReadFrame(r, act.rec, maxLen);
      if Consumes(r, act) && act.rec.epoch == r.epoch && !Accepts(r, act.rec) {
        TooLongIsError(r, act.rec, maxLen);
      }
    }
  }

  lemma TooLongIsError(r: Receiver, rec: Record, maxLen: nat)
    requires |r.slots| == FLIGHT && Opens(r, rec) && |Bytes(rec.content)| > MAX_PLAIN_LENGTH
    ensures ReadHandshake(r, rec, maxLen) == Step(r.(shutdown := Failed), Error(RecordOverflow))
    ensures !r.hasCcs ==> ReadChangeCipherSpec(r, rec, maxLen) == Step(r.(shutdown := Failed), Error(RecordOverflow))
  {
  }

  lemma InOrderStays(r: Receiver, recs: seq<Record>, r1: Receiver)
    requires recs != [] && InOrder(r, recs) && r1.epoch == r.epoch
    requires r1.window == if recs[0].epoch == r.epoch then Recorded(r.window, Number(recs[0])) else r.window
    ensures InOrder(r1, recs[1..])
  {
    hide ShouldDiscard, Recorded;
    assert [recs[0]] + recs[1..] == recs;
    RisingSuffix([recs[0]], recs[1..]);
    assert Due(r, recs[0]);
    forall rec | rec in recs[1..]
      ensures Due(r1, rec)
    {
      var j :| 1 <= j < |recs| && recs[j] == rec;
      assert Due(r, rec);
      if rec.epoch == r.epoch && recs[0].epoch == r.epoch {
        RecordedBeyond(r.window, Number(recs[0]), Number(rec));
      }
    }
  }

  /** What is left to consume after a call. */
  lemma ConsumedRest(r: Receiver, acts: seq<Act>, maxLen: nat)
    requires |r.slots| == FLIGHT && acts != []
    ensures var recs, rest := Consumed(r, acts, maxLen), Consumed(Do(r, acts[0], maxLen), acts[1..], maxLen);
            if Consumes(r, acts[0]) then recs != [] && recs[0] == acts[0].rec && recs[1..] == rest else recs == rest
  {
    hide Do;
  }

  /** Records read in order are all let through that are of the receiver's epoch, if none is an error,
      and reading goes on. */
  lemma {:induction false} InOrderArrive(r: Receiver, acts: seq<Act>, maxLen: nat, rec: Record)
    requires |r.slots| == FLIGHT && r.shutdown == Reading && Serve(r, acts, maxLen).shutdown != Failed
    requires InOrder(r, Consumed(r, acts, maxLen))
    ensures Serve(r, acts, maxLen).shutdown == Reading && Serve(r, acts, maxLen).epoch == r.epoch
    ensures rec in Consumed(r, acts, maxLen) && rec.epoch == r.epoch ==>
              exists j: nat :: j < |acts| && ReadsAt(acts, j, rec) && Arrives(r, acts, maxLen, j)
    decreases acts
  {
    hide Do, Due, Accepts, Rising, Recorded;
    if acts != [] {
      var r1 := Do(r, acts[0], maxLen);
      var recs := Consumed(r, acts, maxLen);
      if r1.shutdown == Failed {
        FailedForever(r1, acts[1..], maxLen);
      }
      ConsumedRest(r, acts, maxLen);
      DoInOrder(r, acts[0], maxLen);
      if Consumes(r, acts[0]) {
        InOrderStays(r, recs, r1);
      } else {
        SameOrder(r, recs, r1);
      }
      InOrderArrive(r1, acts[1..], maxLen, rec);
      if rec in recs && rec.epoch == r.epoch {
        if Consumes(r, acts[0]) && rec == recs[0] {
          assert Arrives(r, acts, maxLen, 0) && ReadsAt(acts, 0, rec);
        } else {
          var j: nat :| j < |acts| - 1 && ReadsAt(acts[1..], j, rec) && Arrives(r1, acts[1..], maxLen, j);
          assert acts[..j + 1][1..] == acts[1..][..j];
          assert Arrives(r, acts, maxLen, j + 1) && ReadsAt(acts, j + 1, rec);
        }
      }
    }
  }

  lemma SameOrder(r: Receiver, recs: seq<Record>, r1: Receiver)
    requires InOrder(r, recs) && r1.epoch == r.epoch && r1.window == r.window
    ensures InOrder(r1, recs)
  {
    forall rec | rec in recs
      ensures Due(r1, rec)
    {
      assert Due(r, rec);
    }
  }

  // ----- A retransmission -----

  /** Neither the sender's counters nor the receiver's epoch nor the message numbers have wrapped. */
  predicate NoWraps(w: Run.World, mtu: nat, accepts: nat) {
    && NoWrap(S.Retransmit(w.sender, mtu, accepts).sender.writer)
    && w.readChanges < EPOCHS && |w.history| < TWO16
  }

  /** In any run, every record of a retransmission is above all that the receiver saw of its epoch. */
  lemma RetransmissionFresh(events: seq<Run.Event>, mtu: nat, accepts: nat, rec: Record)
    requires NoWraps(Run.Run(events), mtu, accepts)
    requires rec in SentRecords(Run.Run(events).sender, mtu, accepts)
    requires rec.epoch == Run.Run(events).receiver.epoch
    ensures Beyond(Run.Run(events).receiver.window, Number(rec))
  {
    var w := Run.Run(events);
    var recorded := Run.InEpoch(w.accepted, rec.epoch);
    Run.RunKeeps(events);
    forall n | n in recorded
      ensures n < Number(rec)
    {
      var a :| a in w.accepted && a.epoch == rec.epoch && Number(a) == n;
      Run.AcceptedWasSent(events, a);
      Run.RetransmissionsAbove(events, mtu, accepts, a, rec);
    }
    DiscardExact(w.receiver.window, recorded, Number(rec));
  }

  /** The flight has message `n`, and under this epoch only. */
  ghost predicate HasMessage(s: S.Sender, n: nat, epoch: nat) {
    && (exists i: nat :: i < |s.msgs| && IsMessage(s, i, n))
    && UnderEpoch(S.Parts(s.msgs), n, epoch)
  }

  ghost predicate UnderEpoch(parts: seq<S.Part>, n: nat, epoch: nat) {
    forall i | 0 <= i < |parts| && parts[i].BodyPart? && parts[i].whole.seqNo == n :: parts[i].epoch == epoch
  }

  lemma {:induction false} TilesUnder(parts: seq<S.Part>, from: S.Pos, recs: seq<Record>, to: S.Pos, n: nat,
                                      epoch: nat, rec: Record)
    requires Tiles(parts, from, recs, to) && rec in recs
    ensures !rec.content.Other?
    ensures UnderEpoch(parts, n, epoch) && IsFragmentOf(rec, n) ==> rec.epoch == epoch
    decreases recs
  {
    if rec != recs[0] {
      TilesUnder(parts, After(parts[from.msg], from, recs[0].content), recs[1..], to, n, epoch, rec);
    }
  }

  lemma RetransmissionUnder(s: S.Sender, mtu: nat, accepts: nat, n: nat, epoch: nat, rec: Record)
    requires rec in SentRecords(s, mtu, accepts)
    ensures !rec.content.Other?
    ensures UnderEpoch(S.Parts(s.msgs), n, epoch) && IsFragmentOf(rec, n) ==> rec.epoch == epoch
  {
    var s0 := s.(pos := S.Pos(0, 0));
    var reached := SendTiles(s0, mtu, accepts);
    TilesUnder(S.Parts(s.msgs), S.Pos(0, 0), SentRecords(s, mtu, accepts), reached, n, epoch, rec);
  }

  lemma RetransmissionRises(events: seq<Run.Event>, mtu: nat, accepts: nat)
    requires NoWraps(Run.Run(events), mtu, accepts)
    ensures Rising(SentRecords(Run.Run(events).sender, mtu, accepts))
  {
    Run.RunResend(events, mtu, accepts);
    Run.NumbersUsedOnce(events + [Run.Resend(mtu, accepts)]);
    RetransmitExtends(Run.Run(events).sender, mtu, accepts);
    RisingSuffix(Flatten(Run.Run(events).sender.sent), SentRecords(Run.Run(events).sender, mtu, accepts));
  }

  /** No record is so long that it is dropped unread, and the rest of its packet with it. */
  ghost predicate AllShort(recs: seq<Record>) {
    forall rec | rec in recs :: ShortOnWire(rec)
  }

  lemma RetransmissionInOrder(events: seq<Run.Event>, mtu: nat, accepts: nat)
    requires NoWraps(Run.Run(events), mtu, accepts)
    requires AllShort(SentRecords(Run.Run(events).sender, mtu, accepts))
    ensures InOrder(Run.Run(events).receiver, SentRecords(Run.Run(events).sender, mtu, accepts))
  {
    hide Run.Run, SentRecords, Rising, Beyond;
    var w := Run.Run(events);
    forall rec | rec in SentRecords(w.sender, mtu, accepts)
      ensures Due(w.receiver, rec)
    {
      RetransmissionUnder(w.sender, mtu, accepts, 0, 0, rec);
      if rec.epoch == w.receiver.epoch {
        RetransmissionFresh(events, mtu, accepts, rec);
      }
    }
    RetransmissionRises(events, mtu, accepts);
  }

  /** The calls read the retransmission, whole and in order, and take messages in between as they may. */
  ghost predicate ReadsWhole(w: Run.World, mtu: nat, accepts: nat, acts: seq<Act>, maxLen: nat)
    requires |w.receiver.slots| == FLIGHT
  {
    && w.receiver.shutdown == Reading
    && S.Retransmit(w.sender, mtu, accepts).result.Sent?
    && AllSent(acts, S.Retransmit(w.sender, mtu, accepts).sender)
    && Consumed(w.receiver, acts, maxLen) == SentRecords(w.sender, mtu, accepts)
    && AllShort(SentRecords(w.sender, mtu, accepts))
  }

  /**
   One retransmission is enough: in any run, whatever was lost, repeated and reordered before, a
   retransmission that is read whole and in order leaves each message of the flight that is under
   the receiver's epoch, and one of its seven next, taken or held whole, unless reading failed.
   */
  lemma OneRetransmission(events: seq<Run.Event>, mtu: nat, accepts: nat, n: nat, acts: seq<Act>, maxLen: nat)
    requires var w := Run.Run(events);
             && NoWraps(w, mtu, accepts) && ReadsWhole(w, mtu, accepts, acts, maxLen)
             && HasRoom(w.receiver, w.history, n) && HasMessage(w.sender, n, w.receiver.epoch)
             && Serve(w.receiver, acts, maxLen).shutdown != Failed
    ensures var w := Run.Run(events); Got(Serve(w.receiver, acts, maxLen), n, w.history[n].body)
  {
    hide Serve, Consumed, SentRecords, Arrives, Got, HasRoom, Run.Run, S.Retransmit, UnderEpoch, IsMessage, S.Parts,
      AllSent, AllShort, InOrder;
    var w := Run.Run(events);
    var recs := SentRecords(w.sender, mtu, accepts);
    RetransmissionInOrder(events, mtu, accepts);
    forall rec | rec in recs && IsFragmentOf(rec, n)
      ensures exists j: nat :: j < |acts| && ReadsAt(acts, j, rec) && Arrives(w.receiver, acts, maxLen, j)
    {
      RetransmissionUnder(w.sender, mtu, accepts, n, w.receiver.epoch, rec);
      InOrderArrive(w.receiver, acts, maxLen, rec);
    }
    var i: nat :| i < |w.sender.msgs| && IsMessage(w.sender, i, n);
    RunDelivers(events, mtu, accepts, i, n, acts, maxLen);
  }

  // ----- Taking what has come -----

  function Takes(count: nat): seq<Act> {
    seq(count, _ => Take)
  }

  /** Taking a message leaves the later ones ready. */
  lemma NextReady(r: Receiver, history: seq<Message>, count: nat)
    requires Good(r, history) && r.readSeq + count < |history|
    requires forall n: nat | r.readSeq <= n <= r.readSeq + count :: Ready(r, n)
    ensures CurrentComplete(r)
    ensures var r1 := NextMessage(AfterGet(r));
            && r1.readSeq == r.readSeq + 1 && Good(r1, history) && r1.shutdown == r.shutdown
            && forall n: nat | r1.readSeq <= n < r1.readSeq + count :: Ready(r1, n)
  {
    assert Ready(r, r.readSeq);
    NextKeepsRing(r);
    var r1 := NextMessage(AfterGet(r));
    forall n: nat | r1.readSeq <= n < r1.readSeq + count
      ensures Ready(r1, n)
    {
      assert Ready(r, n) && InPlace(r, r.slots[n % FLIGHT].value, n % FLIGHT);
    }
  }

  /** When the next `count` messages are complete, taking `count` times takes exactly these. */
  lemma {:induction false} TakesAll(r: Receiver, history: seq<Message>, count: nat, maxLen: nat)
    requires Good(r, history) && r.readSeq + count <= |history| && r.shutdown == Reading
    requires forall n: nat | r.readSeq <= n < r.readSeq + count :: Ready(r, n)
    ensures Taken(r, Takes(count), maxLen) == history[r.readSeq..r.readSeq + count]
    decreases count
  {
    hide Ready, Good, Complete;
    GoodNumbers(r, history);
    if count > 0 {
      assert Takes(count)[0] == Take && Takes(count)[1..] == Takes(count - 1);
      NextReady(r, history, count - 1);
      NextTaken(r, history);
      TakesAll(NextMessage(AfterGet(r)), history, count - 1, maxLen);
      assert history[r.readSeq..r.readSeq + count]
          == [history[r.readSeq]] + history[r.readSeq + 1..r.readSeq + 1 + (count - 1)];
    }
  }

  /** The next `count` messages are in the flight, under the receiver's epoch, and it has room for them. */
  ghost predicate Wanted(w: Run.World, count: nat) {
    forall n: nat | w.receiver.readSeq <= n < w.receiver.readSeq + count ::
      HasRoom(w.receiver, w.history, n) && HasMessage(w.sender, n, w.receiver.epoch)
  }

  /** And the receiver takes exactly these messages, in order, some perhaps while it reads. */
  lemma OneRetransmissionTaken(events: seq<Run.Event>, mtu: nat, accepts: nat, count: nat, acts: seq<Act>, maxLen: nat)
    returns (more: nat)
    requires var w := Run.Run(events);
             && NoWraps(w, mtu, accepts) && ReadsWhole(w, mtu, accepts, acts, maxLen) && Wanted(w, count)
             && Serve(w.receiver, acts, maxLen).shutdown != Failed
    ensures var w := Run.Run(events);
            var got := Taken(w.receiver, acts, maxLen) + Taken(Serve(w.receiver, acts, maxLen), Takes(more), maxLen);
            && more <= count <= |got| && w.receiver.readSeq + |got| <= |w.history|
            && got == w.history[w.receiver.readSeq..w.receiver.readSeq + |got|]
  {
    hide Run.Run, S.Retransmit, HasMessage, Ready, NoWrap, Serve, Taken, Good, SentRecords, Takes, Consumed, AllShort, AllSent;
    var w := Run.Run(events);
    var r, r' := w.receiver, Serve(w.receiver, acts, maxLen);
    CaughtUp(events, mtu, accepts, acts, maxLen);
    var last := r.readSeq + count;
    if count > 0 {
      assert HasRoom(r, w.history, last - 1);
    }
    more := if r'.readSeq < last then last - r'.readSeq else 0;
    forall n: nat | r'.readSeq <= n < r'.readSeq + more
      ensures Ready(r', n)
    {
      OneRetransmission(events, mtu, accepts, n, acts, maxLen);
    }
    TakesAll(r', w.history, more, maxLen);
    assert w.history[r.readSeq..r'.readSeq] + w.history[r'.readSeq..r'.readSeq + more]
        == w.history[r.readSeq..r'.readSeq + more];
  }

  lemma CaughtUp(events: seq<Run.Event>, mtu: nat, accepts: nat, acts: seq<Act>, maxLen: nat)
    requires var w := Run.Run(events);
             && NoWraps(w, mtu, accepts) && ReadsWhole(w, mtu, accepts, acts, maxLen)
             && Serve(w.receiver, acts, maxLen).shutdown != Failed
    ensures var w := Run.Run(events);
            var r' := Serve(w.receiver, acts, maxLen);
            && Good(r', w.history) && r'.shutdown == Reading && w.receiver.readSeq <= r'.readSeq <= |w.history|
            && Taken(w.receiver, acts, maxLen) == w.history[w.receiver.readSeq..r'.readSeq]
  {
    hide Run.Run, S.Retransmit, SentRecords, InOrder, SenderOk, AllSent;
    var w := Run.Run(events);
    RunIsGood(events);
    RetransmitOk(w.sender, mtu, accepts, w.history);
    SentIsGenuine(acts, S.Retransmit(w.sender, mtu, accepts).sender, w.history);
    ServeKeeps(w.receiver, acts, maxLen, w.history);
    RetransmissionInOrder(events, mtu, accepts);
    InOrderArrive(w.receiver, acts, maxLen, Record(0, 0, ChangeCipherSpec, 0));
  }

  // ----- When reading it fails -----

  /** The records, read one after the other. */
  function Reads(recs: seq<Record>): seq<Act> {
    seq(|recs|, i requires 0 <= i < |recs| => Read(recs[i], false))
  }

  /** A record of the receiver's epoch that it looks at, and that is too long or holds what it must not. */
  predicate Harmful(r: Receiver, rec: Record, maxLen: nat) {
    && rec.epoch == r.epoch && ShortOnWire(rec)
    && (|Bytes(rec.content)| > MAX_PLAIN_LENGTH || BadContent(r, rec.content, maxLen))
  }

  lemma HarmfulIsFatal(r: Receiver, rec: Record, maxLen: nat)
    requires r.shutdown == Reading && Due(r, rec)
    ensures Fatal(r, rec, maxLen) <==> Harmful(r, rec, maxLen)
  {
  }

  /** Without alerts, what a record must not hold does not change while nothing is taken. */
  lemma StaysHarmful(r: Receiver, r1: Receiver, rec: Record, maxLen: nat)
    requires r1.readSeq == r.readSeq && r1.epoch == r.epoch && r1.nullCipher == r.nullCipher && !rec.content.Other?
    ensures Harmful(r1, rec, maxLen) <==> Harmful(r, rec, maxLen)
  {
  }

  /** Exactly when records in order, read one after the other, make reading fail: one of them is
      harmful to the receiver as it was before. */
  lemma {:induction false} ReadsFailExactly(r: Receiver, recs: seq<Record>, maxLen: nat, history: seq<Message>)
    requires Good(r, history) && r.shutdown == Reading && InOrder(r, recs)
    requires forall rec | rec in recs :: GenuineRecord(rec, history)
    ensures Serve(r, Reads(recs), maxLen).shutdown == Failed <==> exists rec :: rec in recs && Harmful(r, rec, maxLen)
    decreases recs
  {
    hide Good, Do, GenuineRecord, Due, Rising, Fatal, Harmful, Recorded;
    GoodNumbers(r, history);
    if recs != [] {
      var acts := Reads(recs);
      var r1 := Do(r, acts[0], maxLen);
      assert acts[0] == Read(recs[0], false) && acts[1..] == Reads(recs[1..]) && recs[0] in recs;
      assert Due(r, recs[0]);
      HarmfulIsFatal(r, recs[0], maxLen);
      DoFails(r, acts[0], maxLen, history);
      if r1.shutdown == Failed {
        FailedForever(r1, acts[1..], maxLen);
      } else {
        DoKeeps(r, acts[0], maxLen, history);
        DoInOrder(r, acts[0], maxLen);
        DoKeepsCipher(r, acts[0], maxLen);
        InOrderStays(r, recs, r1);
        ReadsFailExactly(r1, recs[1..], maxLen, history);
        forall rec | rec in recs[1..]
          ensures Harmful(r1, rec, maxLen) == Harmful(r, rec, maxLen)
        {
          assert Due(r1, rec);
          DueIsNotOther(r1, rec);
          StaysHarmful(r, r1, rec, maxLen);
        }
        assert forall rec | rec in recs :: rec == recs[0] || rec in recs[1..];
      }
    }
  }

  lemma DueIsNotOther(r: Receiver, rec: Record)
    requires Due(r, rec)
    ensures !rec.content.Other?
  {
  }

  lemma DoKeepsCipher(r: Receiver, act: Act, maxLen: nat)
    requires |r.slots| == FLIGHT
    ensures Do(r, act, maxLen).nullCipher == r.nullCipher && Do(r, act, maxLen).epoch == r.epoch
  {
    hide ReadHandshake, ReadChangeCipherSpec, ShouldDiscard, Recorded;
    if act.Read? {
      if r.shutdown == Failed {
        FailedStays(r, act.rec, maxLen);
      } else {
        ReadFrame(r, act.rec, maxLen);
      }
    }
  }

  /** Exactly when a retransmission that is read in one go makes reading fail. */
  lemma RetransmissionFailsExactly(events: seq<Run.Event>, mtu: nat, accepts: nat, maxLen: nat)
    requires var w := Run.Run(events);
             && NoWraps(w, mtu, accepts) && w.receiver.shutdown == Reading
             && AllShort(SentRecords(w.sender, mtu, accepts))
    ensures var w := Run.Run(events);
            var recs := SentRecords(w.sender, mtu, accepts);
            Serve(w.receiver, Reads(recs), maxLen).shutdown == Failed
            <==> exists rec :: rec in recs && Harmful(w.receiver, rec, maxLen)
  {
    hide Run.Run, S.Retransmit, SentRecords, InOrder, SenderOk, AllShort, Good, Harmful, Serve, Reads;
    var w := Run.Run(events);
    var recs := SentRecords(w.sender, mtu, accepts);
    RunIsGood(events);
    RetransmitOk(w.sender, mtu, accepts, w.history);
    RetransmissionInOrder(events, mtu, accepts);
    RetransmissionGenuine(w.sender, mtu, accepts, w.history);
    ReadsFailExactly(w.receiver, recs, maxLen, w.history);
  }

  lemma RetransmissionGenuine(s: S.Sender, mtu: nat, accepts: nat, history: seq<Message>)
    requires SenderOk(S.Retransmit(s, mtu, accepts).sender, history) && |history| < TWO16
    ensures forall rec | rec in SentRecords(s, mtu, accepts) :: GenuineRecord(rec, history)
  {
    hide GenuineRecord, PositionOk, AllAuthored, Flatten, Subsequence;
    RetransmitExtends(s, mtu, accepts);
    var s' := S.Retransmit(s, mtu, accepts).sender;
    forall rec | rec in SentRecords(s, mtu, accepts)
      ensures GenuineRecord(rec, history)
    {
      SubsequenceIn(Flatten(s'.sent), s'.writer.sealed, rec);
    }
  }

  /** Such reading, if none is harmful, is reading the retransmission whole. */
  lemma {:induction false} ReadsConsume(r: Receiver, recs: seq<Record>, maxLen: nat)
    requires |r.slots| == FLIGHT && r.shutdown == Reading && InOrder(r, recs)
    requires Serve(r, Reads(recs), maxLen).shutdown != Failed
    ensures Consumed(r, Reads(recs), maxLen) == recs
    decreases recs
  {
    hide Do, Due, Rising, Recorded;
    if recs != [] {
      var acts := Reads(recs);
      var r1 := Do(r, acts[0], maxLen);
      assert acts[0] == Read(recs[0], false) && acts[1..] == Reads(recs[1..]) && recs[0] in recs;
      if r1.shutdown == Failed {
        FailedForever(r1, acts[1..], maxLen);
      }
      DoInOrder(r, acts[0], maxLen);
      InOrderStays(r, recs, r1);
      ReadsConsume(r1, recs[1..], maxLen);
    }
  }

  /** A record that is harmless however far the receiver has got since. */
  predicate Harmless(r: Receiver, rec: Record, maxLen: nat) {
    rec.epoch == r.epoch ==>
      && |Bytes(rec.content)| <= MAX_PLAIN_LENGTH
      && match rec.content
         case ChangeCipherSpec => r.nullCipher
         case Handshake(f) => r.epoch != 1 && f.msgLen <= maxLen && f.seqNo < r.readSeq + FLIGHT
         case Other(_, _) => false
  }

  /** Before the first new epoch, records of messages that the receiver has room for never make it fail,
      in any order and with messages taken in between. */
  lemma HarmlessNeverFail(r: Receiver, acts: seq<Act>, maxLen: nat, history: seq<Message>)
    requires Good(r, history) && AllGenuine(acts, history) && r.shutdown != Failed
    requires forall act | act in acts && act.Read? :: Harmless(r, act.rec, maxLen)
    ensures Serve(r, acts, maxLen).shutdown != Failed
  {
    hide Good, GenuineRecord, Opens;
    GoodNumbers(r, history);
    FailsExactly(r, acts, maxLen, history);
    if j: nat :| j < |acts| && FatalAt(r, acts, maxLen, j) {
      assert AllGenuine(acts[..j], history);
      ServeKeeps(r, acts[..j], maxLen, history);
      ServeKeepsCipher(r, acts[..j], maxLen);
      HarmlessIsNotFatal(r, Serve(r, acts[..j], maxLen), acts[j].rec, maxLen);
      assert false;
    }
  }

  lemma HarmlessIsNotFatal(r: Receiver, r1: Receiver, rec: Record, maxLen: nat)
    requires Harmless(r, rec, maxLen)
    requires r1.epoch == r.epoch && r1.nullCipher == r.nullCipher && r.readSeq <= r1.readSeq
    ensures !Fatal(r1, rec, maxLen)
  {
  }

  lemma {:induction false} ServeKeepsCipher(r: Receiver, acts: seq<Act>, maxLen: nat)
    requires |r.slots| == FLIGHT
    ensures Serve(r, acts, maxLen).nullCipher == r.nullCipher && Serve(r, acts, maxLen).epoch == r.epoch
    decreases acts
  {
    hide Do;
    if acts != [] {
      DoKeepsCipher(r, acts[0], maxLen);
      ServeKeepsCipher(Do(r, acts[0], maxLen), acts[1..], maxLen);
    }
  }
}
