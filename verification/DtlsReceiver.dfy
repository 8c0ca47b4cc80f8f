/**
 The DTLS receiver (d1_both.cc, dtls_record.cc, dtls_method.cc): a ring of seven messages being
 rebuilt, a replay window, and the read epoch. Everything here is a value; DtlsReader is the
 object that updates it in place.
 */
module DtlsReceiver {
  import opened Basics
  import opened DtlsFragment
  import opened DtlsReassembly
  import opened DtlsRecord
  import opened DtlsWindow
  import opened Wire

  /** SSL_MAX_HANDSHAKE_FLIGHT */
  const FLIGHT := 7

  /** The alert that an error has sent; none when the peer sent one, or reading had failed before. */
  datatype Alert = UnexpectedMessage | IllegalParameter | DecodeError | InternalError | RecordOverflow | NoAlert

  /** ssl_open_record_t */
  datatype Outcome = Success | Discard | CloseNotify | Error(alert: Alert)

  /** read_shutdown: what ended reading for good, if anything did. */
  datatype Shutdown = Reading | Closed | Failed

  /** kMaxWarningAlerts */
  const MAX_WARNING_ALERTS := 4

  datatype Receiver = Receiver(
    slots: seq<Option<Partial>>,
    readSeq: nat,
    hasMessage: bool,
    hasCcs: bool,
    epoch: nat,
    window: Window,
    nullCipher: bool,
    shutdown: Shutdown,
    warnings: nat)

  const START :=
    Receiver([None, None, None, None, None, None, None], 0, false, false, 0, EMPTY_WINDOW, true, Reading, 0)

  datatype Step = Step(receiver: Receiver, outcome: Outcome)

  /** What every reachable receiver satisfies: a message sits in the slot of its number, and only
      the seven messages from `readSeq` on are held. */
  ghost predicate RingOk(r: Receiver) {
    && |r.slots| == FLIGHT
    && r.readSeq < TWO16
    && (forall i: nat | i < FLIGHT && r.slots[i].Some? :: InPlace(r, r.slots[i].value, i))
    && (r.hasMessage ==> CurrentComplete(r))
  }

  ghost predicate InPlace(r: Receiver, p: Partial, i: nat) {
    && p.seqNo % FLIGHT == i
    && r.readSeq <= p.seqNo < r.readSeq + FLIGHT
    && p.seqNo < TWO16
  }

  /** dtls1_is_current_message_complete */
  predicate CurrentComplete(r: Receiver)
    requires |r.slots| == FLIGHT
  {
    var slot := r.slots[r.readSeq % FLIGHT];
    slot.Some? && Complete(slot.value)
  }

  // ----- One fragment -----

  predicate OutOfBounds(f: Fragment, maxLen: nat) {
    f.offset > f.msgLen || f.offset + |f.body| > f.msgLen || f.msgLen > maxLen
  }

  /** dtls1_get_incoming_message: the message a fragment belongs to, or None on failure. */
  function Incoming(r: Receiver, f: Fragment): Result<Partial>
    requires |r.slots| == FLIGHT
  {
    if f.seqNo < r.readSeq || f.seqNo - r.readSeq >= FLIGHT then Err("internal error")
    else
      match r.slots[f.seqNo % FLIGHT]
      case None => Ok(Fresh(f.typ, f.seqNo, f.msgLen))
      case Some(p) => if p.typ != f.typ || p.len != f.msgLen then Err("fragment mismatch") else Ok(p)
  }

  /** One turn of the loop in dtls1_open_handshake. */
  function ProcessFragment(r: Receiver, f: Fragment, maxLen: nat): (s: Step)
    requires |r.slots| == FLIGHT
    ensures |s.receiver.slots| == FLIGHT
  {
    if OutOfBounds(f, maxLen) then Step(r, Error(IllegalParameter))
    else if r.epoch == 1 && f.seqNo != r.readSeq then Step(r, Error(UnexpectedMessage))
    else if f.seqNo < r.readSeq || f.seqNo > r.readSeq + FLIGHT then Step(r, Success)
    else if f.seqNo - r.readSeq >= FLIGHT then Step(r, Error(InternalError))
    else
      match Incoming(r, f)
      case Err(_) => Step(r, Error(IllegalParameter))
      case Ok(p) =>
        Step(r.(slots := r.slots[f.seqNo % FLIGHT := Some(Fill(p, f.offset, f.body))]), Success)
  }

  /** The loop of dtls1_open_handshake over the fragments of a record. */
  function ProcessFragments(r: Receiver, payload: seq<Byte>, maxLen: nat): (s: Step)
    requires |r.slots| == FLIGHT
    ensures |s.receiver.slots| == FLIGHT
    decreases |payload|
  {
    if payload == [] then Step(r, Success)
    else
      match Parse(payload)
      case None => Step(r, Error(DecodeError))
      case Some(parsed) =>
        var s := ProcessFragment(r, parsed.fragment, maxLen);
        if s.outcome.Error? then s else ProcessFragments(s.receiver, parsed.rest, maxLen)
  }

  /**
   Exactly when a fragment is fatal. The source's comment says that fragments too far in the
   future are ignored, but the one seven messages ahead gets past that test and then fails the
   lookup.
   */
  lemma FatalFragment(r: Receiver, f: Fragment, maxLen: nat)
    requires RingOk(r)
    ensures ProcessFragment(r, f, maxLen).outcome.Error? <==>
              || OutOfBounds(f, maxLen)
              || (r.epoch == 1 && f.seqNo != r.readSeq)
              || f.seqNo == r.readSeq + FLIGHT
              || exists i: nat | i < FLIGHT && r.slots[i].Some? ::
                   Mismatch(r.slots[i].value, f)
    ensures ProcessFragment(r, f, maxLen).outcome.Error? ==> ProcessFragment(r, f, maxLen).receiver == r
  {
    if r.readSeq <= f.seqNo < r.readSeq + FLIGHT {
      var slot := r.slots[f.seqNo % FLIGHT];
      if slot.Some? {
        SameSlot(r, slot.value, f.seqNo);
      }
    }
  }

  /** At the start, fragment 7 ends the connection, while 8 is ignored. */
  lemma SevenAhead(typ: Byte, maxLen: nat)
    ensures ProcessFragment(START, Fragment(typ, 0, 7, 0, []), maxLen) == Step(START, Error(InternalError))
    ensures ProcessFragment(START, Fragment(typ, 0, 8, 0, []), maxLen) == Step(START, Success)
  {
  }

  ghost predicate Mismatch(p: Partial, f: Fragment) {
    p.seqNo == f.seqNo && (p.typ != f.typ || p.len != f.msgLen)
  }

  /** The source's assertion that a slot's message has the fragment's number. */
  lemma SameSlot(r: Receiver, p: Partial, n: nat)
    requires InPlace(r, p, n % FLIGHT) && r.readSeq <= n < r.readSeq + FLIGHT
    ensures p.seqNo == n
  {
  }

  // ----- Records -----

  const WARNING: Byte := 1
  const FATAL: Byte := 2
  const CLOSE_NOTIFY: Byte := 0

  /** ssl_process_alert, for versions below TLS 1.3. */
  function ProcessAlert(r: Receiver, bytes: seq<Byte>): Step {
    if |bytes| != 2 then Step(r, Error(DecodeError))
    else if bytes[0] == WARNING then
      if bytes[1] == CLOSE_NOTIFY then Step(r.(shutdown := Closed), CloseNotify)
      else
        Step(r.(warnings := r.warnings + 1),
             if r.warnings + 1 > MAX_WARNING_ALERTS then Error(UnexpectedMessage) else Discard)
    else Step(r, Error(if bytes[0] == FATAL then NoAlert else IllegalParameter))
  }

  /** The record is of the read epoch, and neither too long to look at nor a replay. */
  predicate Opens(r: Receiver, rec: Record) {
    && r.shutdown == Reading && ShortOnWire(rec)
    && rec.epoch == r.epoch && !ShouldDiscard(r.window, Number(rec))
  }

  /** The record is let through: its number is noted, and what it holds is looked at. */
  predicate Accepts(r: Receiver, rec: Record) {
    Opens(r, rec) && |Bytes(rec.content)| <= MAX_PLAIN_LENGTH
  }

  /** What recording its number leaves. */
  function Noted(r: Receiver, rec: Record): Receiver {
    r.(window := Recorded(r.window, Number(rec)))
  }

  /** dtls_open_record, for a record the cipher opens; not after reading has failed. (The source drops
      the rest of the packet with a record that is too long, which a network may do anyway.) */
  function OpenRecord(r: Receiver, rec: Record): Step {
    if r.shutdown == Closed then Step(r, CloseNotify)
    else if !ShortOnWire(rec) then Step(r, Discard)
    else if rec.epoch != r.epoch || ShouldDiscard(r.window, Number(rec)) then Step(r, Discard)
    else if |Bytes(rec.content)| > MAX_PLAIN_LENGTH then Step(r, Error(RecordOverflow))
    else if ContentType(rec.content) == ALERT then ProcessAlert(Noted(r, rec), Bytes(rec.content))
    else Step(Noted(r, rec).(warnings := 0), Success)
  }

  /** dtls1_open_handshake */
  function OpenHandshake(r: Receiver, rec: Record, maxLen: nat): (s: Step)
    requires |r.slots| == FLIGHT
    ensures |s.receiver.slots| == FLIGHT
  {
    var step := OpenRecord(r, rec);
    if !step.outcome.Success? then step
    else if ContentType(rec.content) == APPLICATION_DATA then
      Step(step.receiver, if r.nullCipher then Error(UnexpectedMessage) else Discard)
    else if ContentType(rec.content) == CHANGE_CIPHER_SPEC then
      if !r.nullCipher then Step(step.receiver, Error(UnexpectedMessage))
      else if Bytes(rec.content) != [1] then Step(step.receiver, Error(IllegalParameter))
      else Step(step.receiver.(hasCcs := true), Success)
    else if ContentType(rec.content) != HANDSHAKE then Step(step.receiver, Error(UnexpectedMessage))
    else ProcessFragments(step.receiver, Bytes(rec.content), maxLen)
  }

  /** dtls1_open_change_cipher_spec */
  function OpenChangeCipherSpec(r: Receiver, rec: Record, maxLen: nat): (s: Step)
    requires |r.slots| == FLIGHT
    ensures |s.receiver.slots| == FLIGHT
  {
    var s := if r.hasCcs then Step(r, Success) else OpenHandshake(r, rec, maxLen);
    if !s.outcome.Success? then s
    else if s.receiver.hasCcs then Step(s.receiver.(hasCcs := false), Success)
    else Step(s.receiver, Discard)
  }

  /** ssl_set_read_error, once a record was an error. */
  function Sticky(s: Step): Step {
    if s.outcome.Error? then s.(receiver := s.receiver.(shutdown := Failed)) else s
  }

  /** ssl_open_handshake: an error is for good. */
  function ReadHandshake(r: Receiver, rec: Record, maxLen: nat): (s: Step)
    requires |r.slots| == FLIGHT
    ensures |s.receiver.slots| == FLIGHT
  {
    if r.shutdown == Failed then Step(r, Error(NoAlert)) else Sticky(OpenHandshake(r, rec, maxLen))
  }

  /** ssl_open_change_cipher_spec */
  function ReadChangeCipherSpec(r: Receiver, rec: Record, maxLen: nat): (s: Step)
    requires |r.slots| == FLIGHT
    ensures |s.receiver.slots| == FLIGHT
  {
    if r.shutdown == Failed then Step(r, Error(NoAlert)) else Sticky(OpenChangeCipherSpec(r, rec, maxLen))
  }

  // ----- Messages -----

  /** dtls1_get_message */
  function GetMessage(r: Receiver): Option<Message>
    requires |r.slots| == FLIGHT
  {
    if !CurrentComplete(r) then None
    else
      var p := r.slots[r.readSeq % FLIGHT].value;
      Some(Message(p.typ, Body(p)))
  }

  /** What dtls1_get_message leaves. */
  function AfterGet(r: Receiver): Receiver
    requires |r.slots| == FLIGHT
  {
    if CurrentComplete(r) then r.(hasMessage := true) else r
  }

  /** The driver asks for the current message, unless reading has ended: what it does first then is to
      read, and that reports the end every time. */
  predicate CanTake(r: Receiver)
    requires |r.slots| == FLIGHT
  {
    r.shutdown == Reading && CurrentComplete(r)
  }

  /** dtls1_next_message */
  function NextMessage(r: Receiver): Receiver
    requires |r.slots| == FLIGHT
  {
    r.(slots := r.slots[r.readSeq % FLIGHT := None],
       readSeq := (r.readSeq + 1) % TWO16,
       hasMessage := false)
  }

  /** dtls_has_unprocessed_handshake_data */
  predicate HasUnprocessed(r: Receiver)
    requires |r.slots| == FLIGHT
  {
    r.hasCcs || exists i :: 0 <= i < FLIGHT && Pending(r, i)
  }

  predicate Pending(r: Receiver, i: nat)
    requires |r.slots| == FLIGHT && i < FLIGHT
  {
    r.slots[i].Some? && !(r.hasMessage && i == r.readSeq % FLIGHT)
  }

  /** dtls1_set_read_state: None when leftover data forbids the change. */
  function SetReadState(r: Receiver, nullCipher: bool): Option<Receiver>
    requires |r.slots| == FLIGHT
  {
    if HasUnprocessed(r) then None
    else Some(r.(epoch := (r.epoch + 1) % EPOCHS, window := EMPTY_WINDOW, nullCipher := nullCipher))
  }

  /** The read keys change exactly when nothing waits in the ring but the message being looked at, and
      no ChangeCipherSpec does. */
  lemma KeysChangeExactly(r: Receiver, nullCipher: bool)
    requires |r.slots| == FLIGHT
    ensures SetReadState(r, nullCipher).Some?
       <==> !r.hasCcs && forall i: nat | i < FLIGHT && r.slots[i].Some? :: r.hasMessage && i == r.readSeq % FLIGHT
  {
    forall i: nat | i < FLIGHT
      ensures Pending(r, i) <==> r.slots[i].Some? && !(r.hasMessage && i == r.readSeq % FLIGHT)
    {
    }
  }

  // ----- Every operation keeps the ring in order -----

  lemma ProcessFragmentKeepsRing(r: Receiver, f: Fragment, maxLen: nat)
    requires RingOk(r) && InRange(f)
    ensures RingOk(ProcessFragment(r, f, maxLen).receiver)
  {
  }

  lemma {:induction false} ProcessFragmentsKeepsRing(r: Receiver, payload: seq<Byte>, maxLen: nat)
    requires RingOk(r)
    ensures RingOk(ProcessFragments(r, payload, maxLen).receiver)
    decreases |payload|
  {
    if payload != [] && Parse(payload).Some? {
      var parsed := Parse(payload).value;
      ProcessFragmentKeepsRing(r, parsed.fragment, maxLen);
      ProcessFragmentsKeepsRing(ProcessFragment(r, parsed.fragment, maxLen).receiver, parsed.rest, maxLen);
    }
  }

  lemma RecordKeepsRing(r: Receiver, rec: Record)
    requires RingOk(r)
    ensures RingOk(OpenRecord(r, rec).receiver)
  {
    hide ShouldDiscard, Recorded;
  }

  lemma FlagKeepsRing(r: Receiver, seen: bool)
    requires RingOk(r)
    ensures RingOk(r.(hasCcs := seen))
  {
  }

  lemma OpenKeepsRing(r: Receiver, rec: Record, maxLen: nat)
    requires RingOk(r)
    ensures RingOk(OpenHandshake(r, rec, maxLen).receiver)
    ensures RingOk(OpenChangeCipherSpec(r, rec, maxLen).receiver)
  {
    hide OpenRecord, ProcessFragments, InPlace;
    var opened' := OpenRecord(r, rec).receiver;
    RecordKeepsRing(r, rec);
    FlagKeepsRing(opened', true);
    ProcessFragmentsKeepsRing(opened', Bytes(rec.content), maxLen);
    FlagKeepsRing(OpenHandshake(r, rec, maxLen).receiver, false);
    FlagKeepsRing(r, false);
  }

  lemma ReadKeepsRing(r: Receiver, rec: Record, maxLen: nat)
    requires RingOk(r)
    ensures RingOk(ReadHandshake(r, rec, maxLen).receiver)
    ensures RingOk(ReadChangeCipherSpec(r, rec, maxLen).receiver)
  {
    hide OpenHandshake, OpenChangeCipherSpec;
    OpenKeepsRing(r, rec, maxLen);
    StickyKeepsRing(OpenHandshake(r, rec, maxLen));
    StickyKeepsRing(OpenChangeCipherSpec(r, rec, maxLen));
  }

  lemma StickyKeepsRing(s: Step)
    requires RingOk(s.receiver)
    ensures RingOk(Sticky(s).receiver)
  {
  }

  lemma NextKeepsRing(r: Receiver)
    requires RingOk(r) && CurrentComplete(r)
    ensures RingOk(NextMessage(r)) && RingOk(AfterGet(r))
  {
    var r' := NextMessage(r);
    forall i: nat | i < FLIGHT && r'.slots[i].Some?
      ensures InPlace(r', r'.slots[i].value, i)
    {
      assert InPlace(r, r.slots[i].value, i);
    }
  }

  // ----- What opening a record leaves alone -----

  ghost predicate SameState(r: Receiver, r': Receiver) {
    && r'.readSeq == r.readSeq && r'.hasMessage == r.hasMessage && r'.epoch == r.epoch && r'.window == r.window
    && r'.shutdown == r.shutdown && r'.nullCipher == r.nullCipher
  }

  lemma ProcessFragmentFrame(r: Receiver, f: Fragment, maxLen: nat)
    requires |r.slots| == FLIGHT
    ensures SameState(r, ProcessFragment(r, f, maxLen).receiver)
  {
  }

  lemma {:induction false} ProcessFragmentsFrame(r: Receiver, payload: seq<Byte>, maxLen: nat)
    requires |r.slots| == FLIGHT
    ensures SameState(r, ProcessFragments(r, payload, maxLen).receiver)
    decreases |payload|
  {
    hide ProcessFragment, Parse;
    if payload != [] && Parse(payload).Some? {
      var parsed := Parse(payload).value;
      ProcessFragmentFrame(r, parsed.fragment, maxLen);
      ProcessFragmentsFrame(ProcessFragment(r, parsed.fragment, maxLen).receiver, parsed.rest, maxLen);
    }
  }

  /** Only opening the record itself touches the window, and nothing the epoch or the number of the
      next message. */
  lemma OpenFrame(r: Receiver, rec: Record, maxLen: nat)
    requires |r.slots| == FLIGHT
    ensures SameState(OpenRecord(r, rec).receiver, OpenHandshake(r, rec, maxLen).receiver)
    ensures SameState(if r.hasCcs then r else OpenRecord(r, rec).receiver,
                      OpenChangeCipherSpec(r, rec, maxLen).receiver)
  {
    ProcessFragmentsFrame(OpenRecord(r, rec).receiver, Bytes(rec.content), maxLen);
  }

  ghost predicate SameNumbers(r: Receiver, r': Receiver) {
    && r'.readSeq == r.readSeq && r'.hasMessage == r.hasMessage && r'.epoch == r.epoch && r'.window == r.window
    && r'.nullCipher == r.nullCipher
  }

  /** What reading a record leaves is what opening it leaves, and the mark of an error. */
  lemma ReadFrame(r: Receiver, rec: Record, maxLen: nat)
    requires |r.slots| == FLIGHT && r.shutdown != Failed
    ensures var s := ReadHandshake(r, rec, maxLen);
            && SameNumbers(OpenRecord(r, rec).receiver, s.receiver)
            && s.receiver.shutdown == if s.outcome.Error? then Failed else OpenRecord(r, rec).receiver.shutdown
    ensures var s := ReadChangeCipherSpec(r, rec, maxLen);
            var base := if r.hasCcs then r else OpenRecord(r, rec).receiver;
            && SameNumbers(base, s.receiver)
            && s.receiver.shutdown == if s.outcome.Error? then Failed else base.shutdown
  {
    hide OpenHandshake, OpenChangeCipherSpec, OpenRecord;
    OpenFrame(r, rec, maxLen);
  }

  /** Once reading failed, no record changes anything. */
  lemma FailedStays(r: Receiver, rec: Record, maxLen: nat)
    requires |r.slots| == FLIGHT && r.shutdown == Failed
    ensures ReadHandshake(r, rec, maxLen) == Step(r, Error(NoAlert))
    ensures ReadChangeCipherSpec(r, rec, maxLen) == Step(r, Error(NoAlert))
  {
  }

  // ----- Safety: only the peer's bytes get in -----

  /** Every message held agrees with the message of that number in the peer's history. */
  ghost predicate Faithful(r: Receiver, history: seq<Message>)
    requires |r.slots| == FLIGHT
  {
    forall i: nat | i < FLIGHT && r.slots[i].Some? :: FaithfulPart(r.slots[i].value, history)
  }

  ghost predicate FaithfulPart(p: Partial, history: seq<Message>) {
    p.seqNo < |history| && p.typ == history[p.seqNo].typ && Agrees(p, history[p.seqNo].body)
  }

  lemma ProcessGenuine(r: Receiver, f: Fragment, maxLen: nat, history: seq<Message>)
    requires RingOk(r) && Faithful(r, history) && Genuine(f, history)
    ensures Faithful(ProcessFragment(r, f, maxLen).receiver, history)
  {
    var s := ProcessFragment(r, f, maxLen);
    if s.receiver != r {
      var p := Incoming(r, f).value;
      if r.slots[f.seqNo % FLIGHT].Some? {
        SameSlot(r, p, f.seqNo);
      }
      assert FaithfulPart(p, history);
      FillAgrees(p, history[f.seqNo].body, f.offset, f.body);
    }
  }

  lemma ProcessGenuinePayload(r: Receiver, payload: seq<Byte>, maxLen: nat, f: Fragment,
                              history: seq<Message>)
    requires RingOk(r) && Faithful(r, history)
    requires Genuine(f, history) && payload == Serialize(f)
    ensures Faithful(ProcessFragments(r, payload, maxLen).receiver, history)
  {
    ParseSerialize(f, []);
    assert Serialize(f) + [] == payload;
    ProcessGenuine(r, f, maxLen, history);
    assert ProcessFragments(r, payload, maxLen) == ProcessFragment(r, f, maxLen);
  }

  lemma OpenGenuine(r: Receiver, rec: Record, maxLen: nat, history: seq<Message>)
    requires RingOk(r) && Faithful(r, history) && GenuineRecord(rec, history)
    ensures Faithful(OpenHandshake(r, rec, maxLen).receiver, history)
    ensures Faithful(OpenChangeCipherSpec(r, rec, maxLen).receiver, history)
  {
    if rec.content.Handshake? {
      var f := rec.content.fragment;
      ProcessGenuinePayload(OpenRecord(r, rec).receiver, Serialize(f), maxLen, f, history);
    }
  }

  lemma ReadGenuine(r: Receiver, rec: Record, maxLen: nat, history: seq<Message>)
    requires RingOk(r) && Faithful(r, history) && GenuineRecord(rec, history)
    ensures Faithful(ReadHandshake(r, rec, maxLen).receiver, history)
    ensures Faithful(ReadChangeCipherSpec(r, rec, maxLen).receiver, history)
  {
    hide OpenHandshake, OpenChangeCipherSpec, FaithfulPart;
    OpenGenuine(r, rec, maxLen, history);
  }

  /** The message taken is the peer's message of that number, byte for byte. */
  lemma TakenIsGenuine(r: Receiver, history: seq<Message>)
    requires RingOk(r) && Faithful(r, history) && CurrentComplete(r)
    ensures r.readSeq < |history| && GetMessage(r) == Some(history[r.readSeq])
  {
    var p := r.slots[r.readSeq % FLIGHT].value;
    SameSlot(r, p, r.readSeq);
    assert FaithfulPart(p, history);
    AgreesWhole(p, history[r.readSeq].body);
  }
}
