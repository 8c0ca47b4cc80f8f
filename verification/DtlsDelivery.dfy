/**
 What gets through. The receiver reads records and takes messages in any order, and reads on only
 until a record is an error: then it has failed for good. If it has not, and every record of a
 message was let through at least once, among any other records, then it holds that message or has
 taken it. Losing records can only delay this until the flight is sent again.
 */
module DtlsDelivery {
  import opened Basics
  import opened DtlsFlight
  import opened DtlsFragment
  import opened DtlsReassembly
  import opened DtlsReceiver
  import opened DtlsRecord
  import opened DtlsWindow
  import opened Wire
  import Run = DtlsRun
  import S = DtlsSender

  // ----- One record -----

  /** The record is let through with a fragment of message `n`. */
  predicate Brings(r: Receiver, rec: Record, n: nat) {
    Accepts(r, rec) && IsFragmentOf(rec, n)
  }

  predicate IsFragmentOf(rec: Record, n: nat) {
    rec.content.Handshake? && rec.content.fragment.seqNo == n
  }

  /** Message `n` of the sender's is one of the seven next ones. */
  predicate HasRoom(r: Receiver, history: seq<Message>, n: nat) {
    r.readSeq <= n < r.readSeq + FLIGHT && n < |history|
  }

  /** What the receiver holds of message `n`, which may be nothing yet. */
  function HeldOf(r: Receiver, history: seq<Message>, n: nat): Partial
    requires |r.slots| == FLIGHT && n < |history|
  {
    match r.slots[n % FLIGHT]
    case Some(p) => p
    case None => Fresh(history[n].typ, n, |history[n].body|)
  }

  /** A handshake record is processed as its one fragment. */
  lemma OpenOne(r: Receiver, rec: Record, maxLen: nat)
    requires |r.slots| == FLIGHT && r.shutdown != Failed && rec.content.Handshake? && InRange(rec.content.fragment)
    ensures OpenHandshake(r, rec, maxLen)
         == if Accepts(r, rec) then ProcessFragment(OpenRecord(r, rec).receiver, rec.content.fragment, maxLen)
            else OpenRecord(r, rec)
    ensures Accepts(r, rec) ==> OpenRecord(r, rec) == Step(Noted(r, rec).(warnings := 0), Success)
  {
    hide ProcessFragment, ProcessFragments, Serialize, ShouldDiscard, Recorded;
    ProcessOneFragment(OpenRecord(r, rec).receiver, rec.content.fragment, maxLen);
  }

  lemma ProcessOneFragment(r: Receiver, f: Fragment, maxLen: nat)
    requires |r.slots| == FLIGHT && InRange(f)
    ensures ProcessFragments(r, Serialize(f), maxLen) == ProcessFragment(r, f, maxLen)
  {
    ParseSerialize(f, []);
    assert Serialize(f) + [] == Serialize(f);
  }

  // ----- When a record is an error -----

  /** An alert that ends the connection other than by closing it. */
  predicate BadAlert(r: Receiver, bytes: seq<Byte>) {
    || |bytes| != 2
    || bytes[0] != WARNING
    || (bytes[1] != CLOSE_NOTIFY && r.warnings >= MAX_WARNING_ALERTS)
  }

  /** What a record must not hold in this state of the receiver. */
  predicate BadContent(r: Receiver, c: Content, maxLen: nat) {
    match c
    case ChangeCipherSpec => !r.nullCipher
    case Handshake(f) =>
      f.msgLen > maxLen || (r.epoch == 1 && f.seqNo != r.readSeq) || f.seqNo == r.readSeq + FLIGHT
    case Other(typ, bytes) =>
      if typ == ALERT then BadAlert(r, bytes)
      else if typ == APPLICATION_DATA then r.nullCipher
      else typ != CHANGE_CIPHER_SPEC || !r.nullCipher || bytes != [1]
  }

  /** The record is looked at, and is too long or holds what it must not. */
  predicate Fatal(r: Receiver, rec: Record, maxLen: nat) {
    Opens(r, rec) && (|Bytes(rec.content)| > MAX_PLAIN_LENGTH || BadContent(r, rec.content, maxLen))
  }

  /** Exactly when a genuine record is an error. */
  lemma GenuineFatal(r: Receiver, rec: Record, maxLen: nat, history: seq<Message>)
    requires RingOk(r) && Faithful(r, history) && GenuineRecord(rec, history) && r.shutdown != Failed
    ensures OpenHandshake(r, rec, maxLen).outcome.Error? <==> Fatal(r, rec, maxLen)
  {
    hide ShouldDiscard, Recorded;
    if rec.content.Handshake? {
      GenuineFragmentFatal(r, rec, maxLen, history);
    }
  }

  lemma GenuineFragmentFatal(r: Receiver, rec: Record, maxLen: nat, history: seq<Message>)
    requires RingOk(r) && Faithful(r, history) && GenuineRecord(rec, history) && r.shutdown != Failed
    requires rec.content.Handshake?
    ensures OpenHandshake(r, rec, maxLen).outcome.Error? <==> Fatal(r, rec, maxLen)
  {
    hide ShouldDiscard, Recorded, ProcessFragment, OpenHandshake;
    var f := rec.content.fragment;
    OpenOne(r, rec, maxLen);
    if Accepts(r, rec) {
      var r1 := OpenRecord(r, rec).receiver;
      FatalFragment(r1, f, maxLen);
      forall i: nat | i < FLIGHT && r1.slots[i].Some?
        ensures !Mismatch(r1.slots[i].value, f)
      {
        assert FaithfulPart(r.slots[i].value, history);
      }
    }
  }

  // ----- Reading and taking -----

  /** A call for a record, which may be for a ChangeCipherSpec, or for the current message. */
  datatype Act = Read(rec: Record, forCcs: bool) | Take

  /** The call opens the record: reading has not ended, and no ChangeCipherSpec was waiting. */
  predicate Consumes(r: Receiver, act: Act) {
    act.Read? && r.shutdown == Reading && !(act.forCcs && r.hasCcs)
  }

  function Do(r: Receiver, act: Act, maxLen: nat): (r': Receiver)
    requires |r.slots| == FLIGHT
    ensures |r'.slots| == FLIGHT
  {
    match act
    case Read(rec, forCcs) =>
      if forCcs then ReadChangeCipherSpec(r, rec, maxLen).receiver else ReadHandshake(r, rec, maxLen).receiver
    case Take => if CanTake(r) then NextMessage(AfterGet(r)) else r
  }

  function Serve(r: Receiver, acts: seq<Act>, maxLen: nat): (r': Receiver)
    requires |r.slots| == FLIGHT
    ensures |r'.slots| == FLIGHT
    decreases acts
  {
    if acts == [] then r else Serve(Do(r, acts[0], maxLen), acts[1..], maxLen)
  }

  /** The messages taken on the way. */
  function Taken(r: Receiver, acts: seq<Act>, maxLen: nat): seq<Message>
    requires |r.slots| == FLIGHT
    decreases acts
  {
    if acts == [] then []
    else
      (if acts[0].Take? && CanTake(r) then [GetMessage(r).value] else [])
      + Taken(Do(r, acts[0], maxLen), acts[1..], maxLen)
  }

  /** The records opened on the way. */
  function Consumed(r: Receiver, acts: seq<Act>, maxLen: nat): seq<Record>
    requires |r.slots| == FLIGHT
    decreases acts
  {
    if acts == [] then []
    else
      (if Consumes(r, acts[0]) then [acts[0].rec] else [])
      + Consumed(Do(r, acts[0], maxLen), acts[1..], maxLen)
  }

  ghost predicate AllGenuine(acts: seq<Act>, history: seq<Message>) {
    forall act | act in acts && act.Read? :: GenuineRecord(act.rec, history)
  }

  /** The receiver agrees with the sender's history, whose numbers do not wrap. */
  ghost predicate Good(r: Receiver, history: seq<Message>) {
    RingOk(r) && Faithful(r, history) && r.readSeq <= |history| < TWO16
  }

  lemma DoKeeps(r: Receiver, act: Act, maxLen: nat, history: seq<Message>)
    requires Good(r, history) && (act.Read? ==> GenuineRecord(act.rec, history))
    ensures Good(Do(r, act, maxLen), history)
    ensures Do(r, act, maxLen).readSeq == if act.Take? && CanTake(r) then r.readSeq + 1 else r.readSeq
    ensures r.shutdown == Failed ==> Do(r, act, maxLen) == r
  {
    hide ReadHandshake, ReadChangeCipherSpec, GenuineRecord, FaithfulPart, InPlace;
    match act
    case Read(rec, _) =>
      ReadKeepsRing(r, rec, maxLen);
      ReadGenuine(r, rec, maxLen, history);
      if r.shutdown == Failed {
        FailedStays(r, rec, maxLen);
      } else {
        ReadFrame(r, rec, maxLen);
      }
    case Take =>
      if CanTake(r) {
        NextKeepsRing(r);
        NextKeepsRing(AfterGet(r));
        TakenIsGenuine(r, history);
      }
  }

  /** The messages taken are those of the sender, in order, from the receiver's number on. */
  lemma {:induction false} ServeKeeps(r: Receiver, acts: seq<Act>, maxLen: nat, history: seq<Message>)
    requires Good(r, history) && AllGenuine(acts, history)
    ensures var r' := Serve(r, acts, maxLen);
            && Good(r', history) && r.readSeq <= r'.readSeq
            && Taken(r, acts, maxLen) == history[r.readSeq..r'.readSeq]
            && (r.shutdown == Failed ==> r' == r)
    decreases acts
  {
    hide Good, Do, GenuineRecord;
    GoodNumbers(r, history);
    if acts != [] {
      var r1 := Do(r, acts[0], maxLen);
      DoKeeps(r, acts[0], maxLen, history);
      ServeKeeps(r1, acts[1..], maxLen, history);
      GoodNumbers(Serve(r1, acts[1..], maxLen), history);
      if acts[0].Take? && CanTake(r) {
        NextTaken(r, history);
      }
    }
  }

  lemma GoodNumbers(r: Receiver, history: seq<Message>)
    requires Good(r, history)
    ensures |r.slots| == FLIGHT && r.readSeq <= |history|
  {
  }

  lemma NextTaken(r: Receiver, history: seq<Message>)
    requires Good(r, history) && CanTake(r)
    ensures r.readSeq < |history| && GetMessage(r) == Some(history[r.readSeq])
  {
    TakenIsGenuine(r, history);
  }

  // ----- How one message is filled -----

  /** The call lets through a record with a fragment of message `n`. */
  predicate BringsNow(r: Receiver, act: Act, n: nat) {
    Consumes(r, act) && Brings(r, act.rec, n)
  }

  function RangeOf(rec: Record): Range
    requires rec.content.Handshake?
  {
    Range(rec.content.fragment.offset, rec.content.fragment.body)
  }

  /** The ranges of message `n` that come through. */
  function Arrivals(r: Receiver, acts: seq<Act>, maxLen: nat, n: nat): seq<Range>
    requires |r.slots| == FLIGHT
    decreases acts
  {
    if acts == [] then []
    else
      (if BringsNow(r, acts[0], n) then [RangeOf(acts[0].rec)] else [])
      + Arrivals(Do(r, acts[0], maxLen), acts[1..], maxLen, n)
  }

  /** What a slot holds once a record was opened that is not an error. */
  function Filled(r: Receiver, history: seq<Message>, rec: Record, n: nat): Option<Partial>
    requires |r.slots| == FLIGHT && n < |history|
  {
    if Brings(r, rec, n) then Some(Fill(HeldOf(r, history, n), rec.content.fragment.offset, rec.content.fragment.body))
    else r.slots[n % FLIGHT]
  }

  lemma OpenFills(r: Receiver, rec: Record, maxLen: nat, history: seq<Message>, n: nat)
    requires Good(r, history) && GenuineRecord(rec, history) && HasRoom(r, history, n) && r.shutdown != Failed
    requires !OpenHandshake(r, rec, maxLen).outcome.Error?
    ensures OpenHandshake(r, rec, maxLen).receiver.slots[n % FLIGHT] == Filled(r, history, rec, n)
  {
    hide ShouldDiscard, Recorded;
    if rec.content.Handshake? {
      hide OpenHandshake;
      OpenOne(r, rec, maxLen);
      if Accepts(r, rec) {
        FragmentFills(OpenRecord(r, rec).receiver, rec.content.fragment, maxLen, history, n);
      }
    }
  }

  lemma FragmentFills(r: Receiver, f: Fragment, maxLen: nat, history: seq<Message>, n: nat)
    requires RingOk(r) && Faithful(r, history) && Genuine(f, history) && HasRoom(r, history, n)
    requires !ProcessFragment(r, f, maxLen).outcome.Error?
    ensures ProcessFragment(r, f, maxLen).receiver.slots[n % FLIGHT]
         == if f.seqNo == n then Some(Fill(HeldOf(r, history, n), f.offset, f.body)) else r.slots[n % FLIGHT]
  {
    var slot := r.slots[n % FLIGHT];
    if f.seqNo == n && slot.Some? {
      SameSlot(r, slot.value, n);
      assert FaithfulPart(slot.value, history);
    }
  }

  /** A call that does not fail fills in what it brings of message `n`, or takes that message, or
      leaves it alone. */
  lemma DoFills(r: Receiver, act: Act, maxLen: nat, history: seq<Message>, n: nat)
    requires Good(r, history) && (act.Read? ==> GenuineRecord(act.rec, history)) && HasRoom(r, history, n)
    requires Do(r, act, maxLen).shutdown != Failed
    ensures var r1 := Do(r, act, maxLen);
            || n < r1.readSeq
            || (HasRoom(r1, history, n)
                && r1.slots[n % FLIGHT]
                   == if BringsNow(r, act, n) then Filled(r, history, act.rec, n) else r.slots[n % FLIGHT])
  {
    hide OpenHandshake, Filled, Faithful, RingOk, GenuineRecord, ShouldDiscard, Recorded, BringsNow;
    DoKeeps(r, act, maxLen, history);
    GoodNumbers(r, history);
    NotBrought(r, act, n);
    if act.Take? {
      if r.readSeq < n {
        OtherSlot(r, n);
      }
    } else if r.shutdown != Failed && !(act.forCcs && r.hasCcs) {
      ReadFrame(r, act.rec, maxLen);
      OpenFills(r, act.rec, maxLen, history, n);
      FilledOrNot(r, history, act.rec, n);
    }
  }

  /** Taking the current message does not touch the slots of the later ones. */
  lemma OtherSlot(r: Receiver, n: nat)
    requires |r.slots| == FLIGHT && r.readSeq < n < r.readSeq + FLIGHT
    ensures NextMessage(AfterGet(r)).slots[n % FLIGHT] == r.slots[n % FLIGHT]
  {
  }

  lemma NotBrought(r: Receiver, act: Act, n: nat)
    ensures act.Take? || r.shutdown != Reading || (act.forCcs && r.hasCcs) ==> !BringsNow(r, act, n)
    ensures act.Read? && !(act.forCcs && r.hasCcs) ==> BringsNow(r, act, n) == Brings(r, act.rec, n)
  {
  }

  lemma FilledOrNot(r: Receiver, history: seq<Message>, rec: Record, n: nat)
    requires |r.slots| == FLIGHT && n < |history|
    ensures !Brings(r, rec, n) ==> Filled(r, history, rec, n) == r.slots[n % FLIGHT]
    ensures r.shutdown != Reading ==> !Brings(r, rec, n)
  {
  }

  /** As long as reading has not failed, message `n` is taken or filled with exactly the ranges that
      came through. */
  lemma {:induction false} ServeFills(r: Receiver, acts: seq<Act>, maxLen: nat, history: seq<Message>, n: nat)
    requires Good(r, history) && AllGenuine(acts, history) && HasRoom(r, history, n)
    requires Serve(r, acts, maxLen).shutdown != Failed
    ensures var r', arrived := Serve(r, acts, maxLen), Arrivals(r, acts, maxLen, n);
            || n < r'.readSeq
            || (HasRoom(r', history, n)
                && r'.slots[n % FLIGHT]
                   == if arrived == [] then r.slots[n % FLIGHT] else Some(FillAll(HeldOf(r, history, n), arrived)))
    decreases acts
  {
    hide Good, Do, GenuineRecord, BringsNow, Fill;
    GoodNumbers(r, history);
    if acts != [] {
      var r1 := Do(r, acts[0], maxLen);
      DoKeeps(r, acts[0], maxLen, history);
      GoodNumbers(r1, history);
      ServeKeeps(r1, acts[1..], maxLen, history);
      DoFills(r, acts[0], maxLen, history, n);
      if n >= r1.readSeq {
        ServeFills(r1, acts[1..], maxLen, history, n);
        FirstArrival(r, acts, maxLen, history, n);
      }
    }
  }

  /** The first call, and then the others, as one list of ranges. */
  lemma FirstArrival(r: Receiver, acts: seq<Act>, maxLen: nat, history: seq<Message>, n: nat)
    requires |r.slots| == FLIGHT && n < |history| && acts != []
    requires Do(r, acts[0], maxLen).slots[n % FLIGHT]
          == if BringsNow(r, acts[0], n) then Filled(r, history, acts[0].rec, n) else r.slots[n % FLIGHT]
    ensures var r1 := Do(r, acts[0], maxLen);
            var arrived, later := Arrivals(r, acts, maxLen, n), Arrivals(r1, acts[1..], maxLen, n);
            (if arrived == [] then r.slots[n % FLIGHT] else Some(FillAll(HeldOf(r, history, n), arrived)))
            == (if later == [] then r1.slots[n % FLIGHT] else Some(FillAll(HeldOf(r1, history, n), later)))
  {
    hide Do, Accepts, Fill;
    var later := Arrivals(Do(r, acts[0], maxLen), acts[1..], maxLen, n);
    assert [] + later == later;
    if BringsNow(r, acts[0], n) {
      var range := RangeOf(acts[0].rec);
      assert ([range] + later)[0] == range && ([range] + later)[1..] == later;
    }
  }

  /** The `j`th call lets its record through when its turn comes. */
  predicate Arrives(r: Receiver, acts: seq<Act>, maxLen: nat, j: nat)
    requires |r.slots| == FLIGHT && j < |acts|
  {
    var r1 := Serve(r, acts[..j], maxLen);
    Consumes(r1, acts[j]) && Accepts(r1, acts[j].rec)
  }

  lemma {:induction false} ArrivesAt(r: Receiver, acts: seq<Act>, maxLen: nat, n: nat, j: nat)
    requires |r.slots| == FLIGHT && j < |acts| && Arrives(r, acts, maxLen, j)
    requires acts[j].Read? && IsFragmentOf(acts[j].rec, n)
    ensures RangeOf(acts[j].rec) in Arrivals(r, acts, maxLen, n)
    decreases acts
  {
    hide Do, Consumes, Accepts;
    if j > 0 {
      assert acts[..j][1..] == acts[1..][..j - 1];
      ArrivesAt(Do(r, acts[0], maxLen), acts[1..], maxLen, n, j - 1);
    }
  }

  // ----- A flight -----

  /** Some record brings a fragment of message `n`, and one does for each position of its body. */
  ghost predicate CoveredBy(recs: seq<Record>, n: nat, from: nat, len: nat) {
    && (exists rec :: rec in recs && IsFragmentOf(rec, n))
    && (forall k: nat | from <= k < len :: CoveredAt(recs, n, k))
  }

  ghost predicate CoveredAt(recs: seq<Record>, n: nat, k: nat) {
    exists rec :: rec in recs && IsFragmentOf(rec, n) && At(rec, k)
  }

  predicate At(rec: Record, k: nat)
    requires rec.content.Handshake?
  {
    rec.content.fragment.offset <= k < rec.content.fragment.offset + |rec.content.fragment.body|
  }

  /** A tiling covers every message that lies inside it. */
  lemma {:induction false} TilesCover(parts: seq<S.Part>, from: S.Pos, recs: seq<Record>, to: S.Pos, i: nat)
    requires Tiles(parts, from, recs, to) && from.msg <= i < to.msg && i < |parts| && parts[i].BodyPart?
    requires PositionOk(parts, from)
    ensures CoveredBy(recs, parts[i].whole.seqNo, if i == from.msg then from.offset else 0, |parts[i].whole.body|)
    decreases recs
  {
    var rec, n := recs[0], parts[i].whole.seqNo;
    var next := After(parts[from.msg], from, rec.content);
    SealedPosition(parts, from, rec.content);
    if next.msg <= i {
      TilesCover(parts, next, recs[1..], to, i);
    }
    assert rec in recs && forall x | x in recs[1..] :: x in recs;
    var start := if i == from.msg then from.offset else 0;
    forall k: nat | start <= k < |parts[i].whole.body|
      ensures CoveredAt(recs, n, k)
    {
      if i == from.msg && k < from.offset + Carried(rec.content) {
        assert IsFragmentOf(rec, n) && At(rec, k);
      } else {
        assert CoveredAt(recs[1..], n, k);
      }
    }
    if i == from.msg {
      assert IsFragmentOf(rec, n);
    }
  }

  /** Message `n` is held and complete. */
  predicate Ready(r: Receiver, n: nat)
    requires |r.slots| == FLIGHT
  {
    var slot := r.slots[n % FLIGHT];
    slot.Some? && slot.value.seqNo == n && Complete(slot.value)
  }

  predicate Holds(r: Receiver, n: nat, body: seq<Byte>)
    requires |r.slots| == FLIGHT
  {
    Ready(r, n) && Body(r.slots[n % FLIGHT].value) == body
  }

  /** The `i`th message of the flight is handshake message `n`. */
  predicate IsMessage(s: S.Sender, i: nat, n: nat)
    requires i < |s.msgs|
  {
    S.Parts(s.msgs)[i].BodyPart? && S.Parts(s.msgs)[i].whole.seqNo == n
  }

  predicate HasLength(s: S.Sender, i: nat, len: nat)
    requires i < |s.msgs|
  {
    |BodyOf(S.Parts(s.msgs)[i])| == len
  }

  /** Message `n` is held whole, or was taken. */
  predicate Got(r: Receiver, n: nat, body: seq<Byte>)
    requires |r.slots| == FLIGHT
  {
    n < r.readSeq || Holds(r, n, body)
  }

  /** Each of the records for message `n` is read at some time at which it is let through. */
  ghost predicate AllLetThrough(recs: seq<Record>, r: Receiver, acts: seq<Act>, maxLen: nat, n: nat)
    requires |r.slots| == FLIGHT
  {
    forall rec | rec in recs && IsFragmentOf(rec, n) ::
      exists j: nat :: j < |acts| && ReadsAt(acts, j, rec) && Arrives(r, acts, maxLen, j)
  }

  predicate ReadsAt(acts: seq<Act>, j: nat, rec: Record)
    requires j < |acts|
  {
    acts[j].Read? && acts[j].rec == rec
  }

  /**
   Whatever else is read, in whatever order, and whatever is taken in between: if reading has not
   failed, and each record that a retransmission sent for a message was let through once, the
   receiver has that whole message or has taken it.
   */
  lemma FlightDelivered(s: S.Sender, mtu: nat, accepts: nat, history: seq<Message>, i: nat, n: nat, r: Receiver,
                        acts: seq<Act>, maxLen: nat)
    requires SenderOk(s, history) && S.Retransmit(s, mtu, accepts).result.Sent?
    requires i < |s.msgs| && IsMessage(s, i, n)
    requires Good(r, history) && AllGenuine(acts, history) && HasRoom(r, history, n)
    requires AllLetThrough(SentRecords(s, mtu, accepts), r, acts, maxLen, n)
    requires Serve(r, acts, maxLen).shutdown != Failed
    ensures Got(Serve(r, acts, maxLen), n, history[n].body)
  {
    hide *;
    GoodSize(r, history);
    var recs := SentRecords(s, mtu, accepts);
    AuthoredLength(s, history, i, n);
    RetransmitCovers(s, mtu, accepts, i, n, |history[n].body|);
    AllArrive(recs, r, acts, maxLen, n);
    ArrivalsCover(recs, Arrivals(r, acts, maxLen, n), n, |history[n].body|);
    ServeKeeps(r, acts, maxLen, history);
    ServeFills(r, acts, maxLen, history, n);
    FilledWhole(r, history, n, Arrivals(r, acts, maxLen, n), Serve(r, acts, maxLen));
  }

  lemma GoodSize(r: Receiver, history: seq<Message>)
    requires Good(r, history)
    ensures |r.slots| == FLIGHT && |history| < TWO16
  {
  }

  lemma AuthoredLength(s: S.Sender, history: seq<Message>, i: nat, n: nat)
    requires SenderOk(s, history) && |history| < TWO16 && i < |s.msgs| && IsMessage(s, i, n)
    ensures n < |history| && HasLength(s, i, |history[n].body|)
  {
    assert Authored(S.Parts(s.msgs)[i], history);
  }

  lemma AllArrive(recs: seq<Record>, r: Receiver, acts: seq<Act>, maxLen: nat, n: nat)
    requires |r.slots| == FLIGHT && AllLetThrough(recs, r, acts, maxLen, n)
    ensures forall rec | rec in recs && IsFragmentOf(rec, n) :: RangeOf(rec) in Arrivals(r, acts, maxLen, n)
  {
    forall rec | rec in recs && IsFragmentOf(rec, n)
      ensures RangeOf(rec) in Arrivals(r, acts, maxLen, n)
    {
      var j: nat :| j < |acts| && ReadsAt(acts, j, rec) && Arrives(r, acts, maxLen, j);
      ArrivesAt(r, acts, maxLen, n, j);
    }
  }

  lemma RetransmitCovers(s: S.Sender, mtu: nat, accepts: nat, i: nat, n: nat, len: nat)
    requires S.Retransmit(s, mtu, accepts).result.Sent? && i < |s.msgs| && IsMessage(s, i, n) && HasLength(s, i, len)
    ensures CoveredBy(SentRecords(s, mtu, accepts), n, 0, len)
  {
    var s0 := s.(pos := S.Pos(0, 0));
    var reached := SendTiles(s0, mtu, accepts);
    SendFrame(s0, mtu, accepts, S.SendPackets(s0, mtu, accepts));
    TilesCover(S.Parts(s.msgs), S.Pos(0, 0), SentRecords(s, mtu, accepts), reached, i);
  }

  lemma ArrivalsCover(recs: seq<Record>, arrived: seq<Range>, n: nat, len: nat)
    requires CoveredBy(recs, n, 0, len)
    requires forall rec | rec in recs && IsFragmentOf(rec, n) :: RangeOf(rec) in arrived
    ensures arrived != [] && forall k: nat | k < len :: Covered(arrived, k)
  {
    forall k: nat | k < len
      ensures Covered(arrived, k)
    {
      assert CoveredAt(recs, n, k);
      var rec :| rec in recs && IsFragmentOf(rec, n) && At(rec, k);
      var j :| 0 <= j < |arrived| && arrived[j] == RangeOf(rec);
      assert Covers(arrived[j], k);
    }
  }

  lemma FilledWhole(r: Receiver, history: seq<Message>, n: nat, arrived: seq<Range>, r': Receiver)
    requires Good(r, history) && HasRoom(r, history, n) && Good(r', history)
    requires n < r'.readSeq || r'.slots[n % FLIGHT] == Some(FillAll(HeldOf(r, history, n), arrived))
    requires forall k: nat | k < |history[n].body| :: Covered(arrived, k)
    ensures Got(r', n, history[n].body)
  {
    var held := HeldOf(r, history, n);
    if n >= r'.readSeq {
      if r.slots[n % FLIGHT].Some? {
        SameSlot(r, held, n);
        assert FaithfulPart(held, history);
      }
      assert Agrees(held, history[n].body);
      CompleteWhenCovered(held, arrived);
      FillAllFrame(held, arrived);
      var p := r'.slots[n % FLIGHT].value;
      assert FaithfulPart(p, history) && p.seqNo == n;
      AgreesWhole(p, history[n].body);
    }
  }

  lemma {:induction false} FillAllFrame(p: Partial, rs: seq<Range>)
    ensures FillAll(p, rs).seqNo == p.seqNo && FillAll(p, rs).len == p.len
    decreases rs
  {
    if rs != [] {
      FillAllFrame(Fill(p, rs[0].offset, rs[0].body), rs[1..]);
    }
  }

  /** The same in any run: the receiver's half is as the run left it, and what is read was sent. */
  lemma RunDelivers(events: seq<Run.Event>, mtu: nat, accepts: nat, i: nat, n: nat, acts: seq<Act>, maxLen: nat)
    requires var w := Run.Run(events);
             && |w.history| < TWO16
             && S.Retransmit(w.sender, mtu, accepts).result.Sent?
             && i < |w.sender.msgs| && IsMessage(w.sender, i, n)
             && HasRoom(w.receiver, w.history, n)
             && AllSent(acts, S.Retransmit(w.sender, mtu, accepts).sender)
             && AllLetThrough(SentRecords(w.sender, mtu, accepts), w.receiver, acts, maxLen, n)
             && Serve(w.receiver, acts, maxLen).shutdown != Failed
    ensures var w := Run.Run(events); Got(Serve(w.receiver, acts, maxLen), n, w.history[n].body)
  {
    hide *;
    var w := Run.Run(events);
    RunIsGood(events);
    RetransmitOk(w.sender, mtu, accepts, w.history);
    SentIsGenuine(acts, S.Retransmit(w.sender, mtu, accepts).sender, w.history);
    FlightDelivered(w.sender, mtu, accepts, w.history, i, n, w.receiver, acts, maxLen);
  }

  /** What a run leaves of both sides. */
  lemma RunIsGood(events: seq<Run.Event>)
    requires |Run.Run(events).history| < TWO16
    ensures SenderOk(Run.Run(events).sender, Run.Run(events).history)
    ensures Good(Run.Run(events).receiver, Run.Run(events).history)
  {
    hide Run.Run, SenderOk, RingOk, Faithful, Run.AcceptedOnce;
    Run.RunKeeps(events);
  }

  /** The records read were sent. */
  ghost predicate AllSent(acts: seq<Act>, s: S.Sender) {
    forall act | act in acts && act.Read? :: act.rec in Flatten(s.sent)
  }

  lemma SentIsGenuine(acts: seq<Act>, s: S.Sender, history: seq<Message>)
    requires SenderOk(s, history) && |history| < TWO16 && AllSent(acts, s)
    ensures AllGenuine(acts, history)
  {
    hide GenuineRecord, PositionOk, AllAuthored, Flatten, Subsequence;
    forall act | act in acts && act.Read?
      ensures GenuineRecord(act.rec, history)
    {
      SubsequenceIn(Flatten(s.sent), s.writer.sealed, act.rec);
    }
  }

  lemma RetransmitOk(s: S.Sender, mtu: nat, accepts: nat, history: seq<Message>)
    requires SenderOk(s, history)
    ensures SenderOk(S.Retransmit(s, mtu, accepts).sender, history)
  {
    var s0 := s.(pos := S.Pos(0, 0));
    SendKeeps(s0, mtu, accepts, S.SendPackets(s0, mtu, accepts), history);
  }

  // ----- Whether reading fails -----

  /** Once reading failed, nothing is read or taken any more. */
  lemma {:induction false} FailedForever(r: Receiver, acts: seq<Act>, maxLen: nat)
    requires |r.slots| == FLIGHT && r.shutdown == Failed
    ensures Serve(r, acts, maxLen) == r && Taken(r, acts, maxLen) == [] && Consumed(r, acts, maxLen) == []
    decreases acts
  {
    if acts != [] {
      if acts[0].Read? {
        FailedStays(r, acts[0].rec, maxLen);
      }
      FailedForever(r, acts[1..], maxLen);
    }
  }

  /** The `j`th call opens a record that is an error by then. */
  predicate FatalAt(r: Receiver, acts: seq<Act>, maxLen: nat, j: nat)
    requires |r.slots| == FLIGHT && j < |acts|
  {
    var r1 := Serve(r, acts[..j], maxLen);
    Consumes(r1, acts[j]) && Fatal(r1, acts[j].rec, maxLen)
  }

  lemma DoFails(r: Receiver, act: Act, maxLen: nat, history: seq<Message>)
    requires Good(r, history) && (act.Read? ==> GenuineRecord(act.rec, history)) && r.shutdown != Failed
    ensures Do(r, act, maxLen).shutdown == Failed <==> Consumes(r, act) && Fatal(r, act.rec, maxLen)
  {
    hide OpenHandshake, OpenRecord, GenuineRecord, RingOk, Faithful, BadContent, ShouldDiscard, Recorded;
    GoodNumbers(r, history);
    if act.Read? {
      OpenNeverFails(r, act.rec);
      ReadFrame(r, act.rec, maxLen);
      GenuineFatal(r, act.rec, maxLen, history);
    }
  }

  /** Opening a record closes at most; what marks the failure is ssl_set_read_error. */
  lemma OpenNeverFails(r: Receiver, rec: Record)
    requires r.shutdown != Failed
    ensures OpenRecord(r, rec).receiver.shutdown != Failed
  {
  }

  /** Exactly when reading has failed: some record that was opened was an error when its turn came. */
  lemma {:induction false} FailsExactly(r: Receiver, acts: seq<Act>, maxLen: nat, history: seq<Message>)
    requires Good(r, history) && AllGenuine(acts, history) && r.shutdown != Failed
    ensures Serve(r, acts, maxLen).shutdown == Failed
       <==> exists j: nat :: j < |acts| && FatalAt(r, acts, maxLen, j)
    decreases acts
  {
    hide Good, Do, GenuineRecord, Consumes, Fatal;
    GoodNumbers(r, history);
    if acts != [] {
      var r1 := Do(r, acts[0], maxLen);
      DoKeeps(r, acts[0], maxLen, history);
      DoFails(r, acts[0], maxLen, history);
      if r1.shutdown == Failed {
        ServeKeeps(r1, acts[1..], maxLen, history);
        assert FatalAt(r, acts, maxLen, 0);
      } else {
        FailsExactly(r1, acts[1..], maxLen, history);
        GoodNumbers(r1, history);
        forall j: nat | j < |acts| - 1
          ensures FatalAt(r, acts, maxLen, j + 1) == FatalAt(r1, acts[1..], maxLen, j)
        {
          assert acts[..j + 1][1..] == acts[1..][..j];
        }
        assert !FatalAt(r, acts, maxLen, 0);
        if j: nat :| j < |acts| && FatalAt(r, acts, maxLen, j) {
          assert FatalAt(r1, acts[1..], maxLen, j - 1);
        }
        if j: nat :| j < |acts| - 1 && FatalAt(r1, acts[1..], maxLen, j) {
          assert FatalAt(r, acts, maxLen, j + 1);
        }
      }
    }
  }
}
