/**
 A DTLS sender and a receiver over a network that may lose, duplicate and reorder records but not
 alter them, for any run of the two.
 */
module DtlsRun {
  import opened Basics
  import opened DtlsFlight
  import opened DtlsFragment
  import opened DtlsReassembly
  import opened DtlsRecord
  import opened DtlsWindow
  import opened Wire
  import S = DtlsSender
  import R = DtlsReceiver

  /** `history` is what the sending endpoint added, `taken` what the receiving one took, and
      `accepted` the records that its replay window let through. */
  datatype World = World(
    history: seq<Message>,
    sender: S.Sender,
    receiver: R.Receiver,
    taken: seq<Message>,
    accepted: seq<Record>,
    readChanges: nat)

  const START := World([], S.START, R.START, [], [], 0)

  datatype Event =
    | AddMessage(m: Message)
    | AddChangeCipherSpec
    | Flush(mtu: nat, accepts: nat)
    | Resend(mtu: nat, accepts: nat)
    | NewWriteKeys(aead: S.Aead)
    | Reply
    | HandshakeComplete
    | SendOther(alert: bool, bytes: seq<Byte>, maxOut: nat)
    | Deliver(datagram: nat, index: nat, maxLen: nat)
    | DeliverForCcs(datagram: nat, index: nat, maxLen: nat)
    | Look
    | Take
    | NewReadKeys(nullCipher: bool)

  /** The network holds every record of every datagram ever sent, to be delivered at any time, any
      number of times, or never. */
  function OnNetwork(w: World, datagram: nat, index: nat): Option<Record> {
    if datagram < |w.sender.sent| && index < |w.sender.sent[datagram]|
    then Some(w.sender.sent[datagram][index]) else None
  }

  function Add(w: World, m: Message): World {
    var added := S.AddMessage(w.sender, m);
    w.(sender := added.sender, history := if added.ok then w.history + [m] else w.history)
  }

  function Open(w: World, rec: Record, r': R.Receiver): World {
    w.(receiver := r', accepted := if R.Accepts(w.receiver, rec) then w.accepted + [rec] else w.accepted)
  }

  /** The current message is looked at, but stays where it is. */
  function LookAt(w: World): World
    requires |w.receiver.slots| == R.FLIGHT
  {
    if R.CanTake(w.receiver) then w.(receiver := R.AfterGet(w.receiver)) else w
  }

  function TakeMessage(w: World): World
    requires |w.receiver.slots| == R.FLIGHT
  {
    if !R.CanTake(w.receiver) then w
    else
      w.(receiver := R.NextMessage(R.AfterGet(w.receiver)), taken := w.taken + [R.GetMessage(w.receiver).value])
  }

  function NewKeys(w: World, nullCipher: bool): World
    requires |w.receiver.slots| == R.FLIGHT
  {
    match R.SetReadState(w.receiver, nullCipher)
    case None => w
    case Some(r) => w.(receiver := r, readChanges := w.readChanges + 1)
  }

  predicate WellFormed(w: World) {
    |w.receiver.slots| == R.FLIGHT && w.sender.pos.msg <= |w.sender.msgs|
  }

  function Apply(w: World, e: Event): (w': World)
    requires WellFormed(w)
    ensures WellFormed(w')
  {
    match e
    case AddMessage(m) => Add(w, m)
    case AddChangeCipherSpec => w.(sender := S.AddOutgoing(w.sender, true, []).sender)
    case Flush(mtu, accepts) => w.(sender := S.FlushFlight(w.sender, mtu, accepts).sender)
    case Resend(mtu, accepts) => w.(sender := S.Retransmit(w.sender, mtu, accepts).sender)
    case NewWriteKeys(aead) => w.(sender := S.SetWriteState(w.sender, aead))
    case Reply => w.(sender := S.NoteReply(w.sender))
    case HandshakeComplete => w.(sender := S.OnHandshakeComplete(w.sender))
    case SendOther(alert, bytes, maxOut) => w.(sender := S.SendOther(w.sender, alert, bytes, maxOut))
    case Deliver(d, i, maxLen) =>
      (match OnNetwork(w, d, i)
       case None => w
       case Some(rec) => Open(w, rec, R.ReadHandshake(w.receiver, rec, maxLen).receiver))
    case DeliverForCcs(d, i, maxLen) =>
      (match OnNetwork(w, d, i)
       case None => w
       case Some(rec) =>
         var r' := R.ReadChangeCipherSpec(w.receiver, rec, maxLen).receiver;
         if w.receiver.hasCcs then w.(receiver := r') else Open(w, rec, r'))
    case Look => LookAt(w)
    case Take => TakeMessage(w)
    case NewReadKeys(nullCipher) => NewKeys(w, nullCipher)
  }

  // ----- The invariant -----

  ghost predicate SenderSide(w: World) {
    && SenderOk(w.sender, w.history)
    && (|w.history| < TWO16 ==> w.sender.writeSeq == |w.history|)
  }

  ghost predicate ReceiverSide(w: World) {
    && R.RingOk(w.receiver)
    && (|w.history| < TWO16 ==>
          && R.Faithful(w.receiver, w.history)
          && w.taken <= w.history
          && w.receiver.readSeq == |w.taken|)
  }

  /** The numbers of this epoch that were accepted. */
  function InEpoch(accepted: seq<Record>, epoch: nat): set<nat> {
    set a | a in accepted && a.epoch == epoch :: Number(a)
  }

  ghost predicate AcceptedOnce(w: World) {
    w.readChanges < EPOCHS ==>
      && w.receiver.epoch == w.readChanges
      && (forall a | a in w.accepted :: a.epoch <= w.receiver.epoch)
      && Represents(w.receiver.window, InEpoch(w.accepted, w.receiver.epoch))
      && Distinct(w.accepted)
  }

  ghost predicate Inv(w: World) {
    SenderSide(w) && ReceiverSide(w) && AcceptedOnce(w)
  }

  // ----- The sender's events -----

  lemma GenuineLater(rec: Record, history: seq<Message>, m: Message)
    requires GenuineRecord(rec, history)
    ensures GenuineRecord(rec, history + [m])
  {
  }

  lemma AuthoredLater(part: S.Part, history: seq<Message>, m: Message)
    requires Authored(part, history)
    ensures Authored(part, history + [m])
  {
  }

  lemma FaithfulLater(r: R.Receiver, history: seq<Message>, m: Message)
    requires |r.slots| == R.FLIGHT && R.Faithful(r, history)
    ensures R.Faithful(r, history + [m])
  {
    forall i: nat | i < R.FLIGHT && r.slots[i].Some?
      ensures R.FaithfulPart(r.slots[i].value, history + [m])
    {
      assert R.FaithfulPart(r.slots[i].value, history);
    }
  }

  lemma PartsAppend(msgs: seq<S.OutMsg>, m: S.OutMsg)
    ensures S.Parts(msgs + [m]) == S.Parts(msgs) + [S.Decode(m)]
  {
  }

  /** The whole-message fragment that was prepared is what sealing will read. */
  lemma PreparedMessage(m: Message, n: nat, epoch: nat)
    requires n < TWO16 && S.Prepare(m, n).Some?
    ensures S.Decode(S.OutMsg(false, S.Prepare(m, n).value, epoch))
         == S.BodyPart(epoch, WholeMessage(m.typ, n, m.body))
  {
    FinishedMessage(m.typ, n, m.body);
    var f := WholeMessage(m.typ, n, m.body);
    ParseSerialize(f, []);
    assert Serialize(f) + [] == Serialize(f);
  }

  lemma WriterLater(w: S.Writer, history: seq<Message>, m: Message)
    requires WriterOk(w, history)
    ensures WriterOk(w, history + [m])
  {
    if |history + [m]| < TWO16 {
      forall i | 0 <= i < |w.sealed|
        ensures GenuineRecord(w.sealed[i], history + [m])
      {
        GenuineLater(w.sealed[i], history, m);
      }
    }
  }

  /** A longer history keeps what holds of a sender. */
  lemma SenderLater(s: S.Sender, history: seq<Message>, m: Message)
    requires SenderOk(s, history)
    ensures SenderOk(s, history + [m])
  {
    WriterLater(s.writer, history, m);
    if |history + [m]| < TWO16 {
      forall i | 0 <= i < |s.msgs|
        ensures Authored(S.Parts(s.msgs)[i], history + [m])
      {
        AuthoredLater(S.Parts(s.msgs)[i], history, m);
      }
    }
  }

  lemma AddOutgoingKeeps(s: S.Sender, isCcs: bool, data: seq<Byte>, history: seq<Message>)
    requires SenderOk(s, history)
    requires |history| < TWO16 ==> Authored(S.Decode(S.OutMsg(isCcs, data, s.writer.epoch)), history)
    ensures SenderOk(S.AddOutgoing(s, isCcs, data).sender, history)
  {
    var base := if s.complete then S.Clear(s) else s;
    PartsAppend(base.msgs, S.OutMsg(isCcs, data, s.writer.epoch));
  }

  lemma ClearKeeps(s: S.Sender, history: seq<Message>)
    requires SenderOk(s, history)
    ensures SenderOk(S.Clear(s), history)
  {
  }

  lemma PreparedIsAuthored(m: Message, history: seq<Message>, epoch: nat, data: seq<Byte>)
    requires |history| + 1 < TWO16 && S.Prepare(m, |history|) == Some(data)
    ensures Authored(S.Decode(S.OutMsg(false, data, epoch)), history + [m])
  {
    PreparedMessage(m, |history|, epoch);
  }

  lemma AddKeeps(w: World, m: Message)
    requires SenderSide(w)
    ensures SenderSide(Add(w, m))
  {
    hide SenderOk, Authored, S.Decode, S.Prepare;
    var data := S.Prepare(m, w.sender.writeSeq);
    if data.Some? {
      ClearKeeps(w.sender, w.history);
      SenderLater(w.sender, w.history, m);
      if |w.history| + 1 < TWO16 {
        PreparedIsAuthored(m, w.history, w.sender.writer.epoch, data.value);
      }
      AddOutgoingKeeps(w.sender, false, data.value, w.history + [m]);
    }
  }

  lemma SendingKeeps(w: World, s: S.Sender, mtu: nat, accepts: nat)
    requires SenderSide(w) && SenderOk(s, w.history) && s.writeSeq == w.sender.writeSeq
    ensures SenderSide(w.(sender := S.SendPackets(s, mtu, accepts).sender))
  {
    SendKeeps(s, mtu, accepts, S.SendPackets(s, mtu, accepts), w.history);
    SendFrame(s, mtu, accepts, S.SendPackets(s, mtu, accepts));
  }

  lemma FlushKeeps(w: World, mtu: nat, accepts: nat)
    requires SenderSide(w)
    ensures SenderSide(w.(sender := S.FlushFlight(w.sender, mtu, accepts).sender))
    ensures SenderSide(w.(sender := S.Retransmit(w.sender, mtu, accepts).sender))
  {
    SendingKeeps(w, w.sender.(complete := true), mtu, accepts);
    SendingKeeps(w, w.sender.(pos := S.Pos(0, 0)), mtu, accepts);
  }

  lemma NewWriteKeysKeeps(w: World, aead: S.Aead)
    requires SenderSide(w)
    ensures SenderSide(w.(sender := S.SetWriteState(w.sender, aead)))
  {
    var w0, w1 := w.sender.writer, S.SetWriteState(w.sender, aead).writer;
    if NoWrap(w1) {
      forall i | 0 <= i < |w1.sealed|
        ensures Used(w1, w1.sealed[i])
      {
        assert Used(w0, w0.sealed[i]);
      }
    }
  }

  lemma SendOtherKeeps(w: World, alert: bool, bytes: seq<Byte>, maxOut: nat)
    requires SenderSide(w)
    ensures SenderSide(w.(sender := S.SendOther(w.sender, alert, bytes, maxOut)))
  {
    var s, s' := w.sender, S.SendOther(w.sender, alert, bytes, maxOut);
    var c := Other(if alert then ALERT else APPLICATION_DATA, bytes);
    if s'.writer != s.writer {
      UseNumberLogs(s.writer, c, false);
      LoggedOk(s.writer, s'.writer, S.NextRecord(s.writer, c, false), w.history);
      SentLater(s.sent, s.writer.sealed, s'.writer.sealed);
    }
  }

  lemma CcsKeeps(w: World)
    requires SenderSide(w)
    ensures SenderSide(w.(sender := S.AddOutgoing(w.sender, true, []).sender))
  {
    AddOutgoingKeeps(w.sender, true, [], w.history);
  }

  lemma QuietKeeps(w: World)
    requires SenderSide(w)
    ensures SenderSide(w.(sender := S.NoteReply(w.sender)))
    ensures SenderSide(w.(sender := S.OnHandshakeComplete(w.sender)))
  {
  }

  // ----- The receiver's events -----

  lemma NetworkGenuine(w: World, datagram: nat, index: nat)
    requires SenderSide(w) && OnNetwork(w, datagram, index).Some? && |w.history| < TWO16
    ensures GenuineRecord(OnNetwork(w, datagram, index).value, w.history)
  {
    var d := w.sender.sent[datagram];
    InFlatten(w.sender.sent, d, d[index]);
    SubsequenceIn(Flatten(w.sender.sent), w.sender.writer.sealed, d[index]);
  }

  lemma OpenKeeps(w: World, rec: Record, r': R.Receiver)
    requires ReceiverSide(w) && AcceptedOnce(w)
    requires R.RingOk(r') && R.SameNumbers(if R.Accepts(w.receiver, rec) then R.Noted(w.receiver, rec) else w.receiver, r')
    requires |w.history| < TWO16 ==> R.Faithful(r', w.history)
    ensures ReceiverSide(Open(w, rec, r')) && AcceptedOnce(Open(w, rec, r'))
  {
    if w.readChanges < EPOCHS && R.Accepts(w.receiver, rec) {
      AcceptedOnceMore(w.accepted, w.receiver.epoch, w.receiver.window, rec);
    }
  }

  lemma AcceptedOnceMore(accepted: seq<Record>, epoch: nat, window: Window, rec: Record)
    requires Represents(window, InEpoch(accepted, epoch)) && Distinct(accepted)
    requires rec.epoch == epoch && !ShouldDiscard(window, Number(rec))
    ensures Represents(Recorded(window, Number(rec)), InEpoch(accepted + [rec], epoch))
    ensures Distinct(accepted + [rec])
  {
    var recorded := InEpoch(accepted, epoch);
    RecordRepresents(window, recorded, Number(rec));
    assert InEpoch(accepted + [rec], epoch) == recorded + {Number(rec)};
    forall i | 0 <= i < |accepted|
      ensures !SameNumber(accepted[i], rec)
    {
      if SameNumber(accepted[i], rec) {
        assert Number(accepted[i]) in recorded;
        DiscardExact(window, recorded, Number(rec));
        assert false;
      }
    }
  }

  /** Reading a record touches the window exactly when it accepts the record, and no other number. */
  lemma ReadNumbers(r: R.Receiver, rec: Record, maxLen: nat)
    requires |r.slots| == R.FLIGHT
    ensures var after := if R.Accepts(r, rec) then R.Noted(r, rec) else r;
            && R.SameNumbers(after, R.ReadHandshake(r, rec, maxLen).receiver)
            && R.SameNumbers(if r.hasCcs then r else after, R.ReadChangeCipherSpec(r, rec, maxLen).receiver)
  {
    hide R.ReadHandshake, R.ReadChangeCipherSpec;
    if r.shutdown == R.Failed {
      R.FailedStays(r, rec, maxLen);
    } else {
      R.ReadFrame(r, rec, maxLen);
    }
  }

  lemma DeliverKeeps(w: World, e: Event)
    requires Inv(w) && (e.Deliver? || e.DeliverForCcs?)
    ensures ReceiverSide(Apply(w, e)) && AcceptedOnce(Apply(w, e))
  {
    var net := OnNetwork(w, e.datagram, e.index);
    if net.Some? {
      var rec := net.value;
      R.ReadKeepsRing(w.receiver, rec, e.maxLen);
      ReadNumbers(w.receiver, rec, e.maxLen);
      if |w.history| < TWO16 {
        NetworkGenuine(w, e.datagram, e.index);
        R.ReadGenuine(w.receiver, rec, e.maxLen, w.history);
      }
      var r' := if e.Deliver? then R.ReadHandshake(w.receiver, rec, e.maxLen).receiver
                else R.ReadChangeCipherSpec(w.receiver, rec, e.maxLen).receiver;
      if e.Deliver? || !w.receiver.hasCcs {
        OpenKeeps(w, rec, r');
      }
    }
  }

  lemma LookKeeps(w: World)
    requires Inv(w)
    ensures ReceiverSide(LookAt(w)) && AcceptedOnce(LookAt(w))
  {
    if R.CanTake(w.receiver) {
      R.NextKeepsRing(w.receiver);
    }
  }

  lemma TakeKeeps(w: World)
    requires Inv(w)
    ensures ReceiverSide(TakeMessage(w)) && AcceptedOnce(TakeMessage(w))
  {
    if R.CanTake(w.receiver) {
      R.NextKeepsRing(w.receiver);
      R.NextKeepsRing(R.AfterGet(w.receiver));
      if |w.history| < TWO16 {
        R.TakenIsGenuine(w.receiver, w.history);
      }
    }
  }

  lemma NewKeysKeeps(w: World, nullCipher: bool)
    requires Inv(w)
    ensures ReceiverSide(NewKeys(w, nullCipher)) && AcceptedOnce(NewKeys(w, nullCipher))
  {
    var w' := NewKeys(w, nullCipher);
    if w' != w && w'.readChanges < EPOCHS {
      EmptyRepresents();
      assert InEpoch(w.accepted, w'.receiver.epoch) == {};
    }
  }

  // ----- Every step and every run -----

  lemma StepKeeps(w: World, e: Event)
    requires Inv(w)
    ensures Inv(Apply(w, e))
  {
    hide SenderOk, InEpoch, Represents, Distinct, Add, OnNetwork, R.Accepts,
      R.RingOk, R.Faithful, R.ReadHandshake, R.ReadChangeCipherSpec, R.GetMessage, R.NextMessage, R.SetReadState,
      S.AddOutgoing, S.SendPackets, S.SetWriteState, S.SendOther, S.NoteReply, S.OnHandshakeComplete;
    match e
    case AddMessage(m) =>
      AddKeeps(w, m);
      FaithfulWhenAdded(w, m);
    case AddChangeCipherSpec => CcsKeeps(w);
    case Flush(mtu, accepts) => FlushKeeps(w, mtu, accepts);
    case Resend(mtu, accepts) => FlushKeeps(w, mtu, accepts);
    case NewWriteKeys(aead) => NewWriteKeysKeeps(w, aead);
    case Reply => QuietKeeps(w);
    case HandshakeComplete => QuietKeeps(w);
    case SendOther(alert, bytes, maxOut) => SendOtherKeeps(w, alert, bytes, maxOut);
    case Deliver(_, _, _) => DeliverKeeps(w, e);
    case DeliverForCcs(_, _, _) => DeliverKeeps(w, e);
    case Look => LookKeeps(w);
    case Take => TakeKeeps(w);
    case NewReadKeys(nullCipher) => NewKeysKeeps(w, nullCipher);
  }

  lemma FaithfulWhenAdded(w: World, m: Message)
    requires Inv(w)
    ensures ReceiverSide(Add(w, m)) && AcceptedOnce(Add(w, m))
  {
    if |w.history| < TWO16 {
      FaithfulLater(w.receiver, w.history, m);
    }
  }

  function Run(events: seq<Event>): (w: World)
    ensures WellFormed(w)
  {
    if events == [] then START
    else
      Apply(Run(events[..|events| - 1]), events[|events| - 1])
  }

  lemma {:induction false} RunKeeps(events: seq<Event>)
    ensures Inv(Run(events))
  {
    if events == [] {
      EmptyRepresents();
      assert InEpoch([], 0) == {};
    } else {
      RunKeeps(events[..|events| - 1]);
      StepKeeps(Run(events[..|events| - 1]), events[|events| - 1]);
    }
  }

  /**
   End to end: over any network schedule, any MTU at each transmission and any retransmission, the
   messages taken are a prefix of the messages added, byte for byte, in order and each once, as
   long as the 16-bit message number does not wrap.
   */
  lemma MessagesInOrder(events: seq<Event>)
    requires |Run(events).history| < TWO16
    ensures Run(events).taken <= Run(events).history
  {
    RunKeeps(events);
  }

  /** Over a whole run, with any retransmissions and changes of keys, the records sent under each epoch
      have growing numbers, so that no two ever have the same, as long as neither counter wraps. */
  lemma NumbersUsedOnce(events: seq<Event>)
    requires NoWrap(Run(events).sender.writer)
    ensures Rising(Flatten(Run(events).sender.sent)) && Distinct(Flatten(Run(events).sender.sent))
  {
    RunKeeps(events);
    var s := Run(events).sender;
    SubsequenceRises(Flatten(s.sent), s.writer.sealed);
  }

  /** So the records that a retransmission sends are numbered above all that were sent before. */
  lemma RetransmissionsAbove(events: seq<Event>, mtu: nat, accepts: nat, before: Record, after: Record)
    requires NoWrap(S.Retransmit(Run(events).sender, mtu, accepts).sender.writer)
    requires before in Flatten(Run(events).sender.sent) && after in SentRecords(Run(events).sender, mtu, accepts)
    requires before.epoch == after.epoch
    ensures before.seqNo < after.seqNo
  {
    hide *;
    RunResend(events, mtu, accepts);
    NumbersUsedOnce(events + [Resend(mtu, accepts)]);
    RetransmitExtends(Run(events).sender, mtu, accepts);
    RisingParts(Flatten(Run(events).sender.sent), SentRecords(Run(events).sender, mtu, accepts), before, after);
  }

  lemma RunResend(events: seq<Event>, mtu: nat, accepts: nat)
    ensures Run(events + [Resend(mtu, accepts)]).sender == S.Retransmit(Run(events).sender, mtu, accepts).sender
  {
    assert (events + [Resend(mtu, accepts)])[..|events|] == events;
  }

  // ----- What was accepted was sent -----

  lemma SentGrows(w: World, e: Event)
    requires WellFormed(w)
    ensures w.sender.sent <= Apply(w, e).sender.sent
  {
    match e
    case Flush(mtu, accepts) => SendExtends(w.sender.(complete := true), mtu, accepts);
    case Resend(mtu, accepts) => SendExtends(w.sender.(pos := S.Pos(0, 0)), mtu, accepts);
    case _ =>
  }

  lemma {:induction false} AcceptedWasSent(events: seq<Event>, rec: Record)
    requires rec in Run(events).accepted
    ensures rec in Flatten(Run(events).sender.sent)
    decreases events
  {
    if events != [] {
      var w, e := Run(events[..|events| - 1]), events[|events| - 1];
      SentGrows(w, e);
      if rec in w.accepted {
        AcceptedWasSent(events[..|events| - 1], rec);
        InLonger(w.sender.sent, Run(events).sender.sent, rec);
      } else {
        InFlatten(w.sender.sent, w.sender.sent[e.datagram], rec);
      }
    }
  }

  lemma InLonger(a: seq<seq<Record>>, b: seq<seq<Record>>, rec: Record)
    requires a <= b && rec in Flatten(a)
    ensures rec in Flatten(b)
  {
    assert a + b[|a|..] == b;
    FlattenAppend(a, b[|a|..]);
  }

  /** The receiver accepts each pair of epoch and sequence number at most once. */
  lemma NumbersAcceptedOnce(events: seq<Event>)
    requires Run(events).readChanges < EPOCHS
    ensures Distinct(Run(events).accepted)
  {
    RunKeeps(events);
  }
}
