/** The receiving side of DTLS1_STATE as an object whose ring, window and flags change in place. */
module DtlsReader {
  import opened Basics
  import opened Digits
  import opened DtlsFragment
  import opened DtlsReassembly
  import opened DtlsReceiver
  import opened DtlsRecord
  import opened DtlsWindow
  import opened Wire

  /** DTLS1_BITMAP */
  class Bitmap {
    var bits: nat
    var maxSeqNum: nat

    constructor ()
      ensures Value() == EMPTY_WINDOW
    {
      bits, maxSeqNum := 0, 0;
    }

    function Value(): Window
      reads this
    {
      Window(bits, maxSeqNum)
    }

    /** dtls1_bitmap_should_discard */
    method IsDiscarded(n: nat) returns (discard: bool)
      ensures discard == ShouldDiscard(Value(), n)
    {
      if n > maxSeqNum {
        return false;
      }
      var idx := maxSeqNum - n;
      return idx >= WINDOW_SIZE || Bit(bits, idx);
    }

    /** dtls1_bitmap_record */
    method Record(n: nat)
      modifies this
      ensures Value() == Recorded(old(Value()), n)
    {
      if n > maxSeqNum {
        var shift := n - maxSeqNum;
        if shift >= WINDOW_SIZE {
          bits := 0;
        } else {
          bits := ShiftLeft(bits, shift, WINDOW_SIZE);
        }
        maxSeqNum := n;
      }
      var idx := maxSeqNum - n;
      if idx < WINDOW_SIZE {
        bits := OrBit(bits, idx);
      }
    }

    method Reset()
      modifies this
      ensures Value() == EMPTY_WINDOW
    {
      bits, maxSeqNum := 0, 0;
    }
  }

  class Reader {
    /** incoming_messages: a ring whose front is at `readSeq % FLIGHT`. */
    const ring: array<HmFragment?>
    const bitmap: Bitmap
    var readSeq: nat
    var hasMessage: bool
    var hasCcs: bool
    var epoch: nat
    var nullCipher: bool
    var shutdown: Shutdown
    var warnings: nat
    /** The values of the messages in the ring. */
    ghost var slots: seq<Option<Partial>>
    ghost var Repr: set<object>

    ghost predicate Valid()
      reads this, Repr
    {
      && {this, ring, bitmap} <= Repr
      && ring.Length == FLIGHT && |slots| == FLIGHT
      && (forall i: nat | i < FLIGHT :: SlotValid(i))
      && (forall i: nat, j: nat | i < j < FLIGHT :: Apart(i, j))
    }

    /** The message in a slot is the object's own, and has the value recorded for it. */
    ghost predicate SlotValid(i: nat)
      requires {this, ring} <= Repr && ring.Length == FLIGHT && |slots| == FLIGHT && i < FLIGHT
      reads this, Repr
    {
      var m := ring[i];
      if m == null then slots[i] == None
      else
        && m in Repr
        && m.Footprint() <= Repr - {this, ring, bitmap}
        && m.Valid()
        && slots[i] == Some(m.Value())
    }

    ghost predicate Apart(i: nat, j: nat)
      requires {this, ring} <= Repr && ring.Length == FLIGHT && |slots| == FLIGHT
      requires i < FLIGHT && SlotValid(i) && j < FLIGHT && SlotValid(j)
      reads this, Repr
    {
      ring[i] == null || ring[j] == null || ring[i].Footprint() !! ring[j].Footprint()
    }

    ghost function View(): Receiver
      requires Valid()
      reads this, Repr
    {
      Receiver(slots, readSeq, hasMessage, hasCcs, epoch, bitmap.Value(), nullCipher, shutdown, warnings)
    }

    constructor ()
      ensures Valid() && fresh(Repr) && View() == START
    {
      ring := new HmFragment?[FLIGHT](_ => null);
      bitmap := new Bitmap();
      readSeq, hasMessage, hasCcs, epoch, nullCipher := 0, false, false, 0, true;
      shutdown, warnings := Reading, 0;
      slots := START.slots;
      new;
      Repr := {this, ring, bitmap};
    }

    /** Puts a new message into an empty slot. */
    method Install(idx: nat, m: HmFragment)
      requires Valid() && idx < FLIGHT && slots[idx] == None
      requires m.Valid() && m.Footprint() !! Repr
      modifies this`slots, this`Repr, ring
      ensures Valid() && ring[idx] == m && Repr == old(Repr) + m.Footprint()
      ensures View() == old(View()).(slots := old(slots)[idx := Some(m.Value())])
    {
      ring[idx] := m;
      slots := slots[idx := Some(m.Value())];
      Repr := Repr + m.Footprint();
      forall i: nat | i < FLIGHT
        ensures SlotValid(i)
      {
        assert old(SlotValid(i));
      }
      forall i: nat, j: nat | i < j < FLIGHT
        ensures Apart(i, j)
      {
        assert old(SlotValid(i)) && old(SlotValid(j)) && old(Apart(i, j));
      }
    }

    /** dtls1_get_incoming_message */
    method GetIncoming(f: Fragment) returns (m: HmFragment?)
      requires Valid()
      modifies this, ring
      ensures Valid() && fresh(Repr - old(Repr))
      ensures var found := Incoming(old(View()), f);
              if found.Err? then m == null && View() == old(View())
              else
                && m != null && m == ring[f.seqNo % FLIGHT]
                && View() == old(View()).(slots := old(slots)[f.seqNo % FLIGHT := Some(found.value)])
    {
      if f.seqNo < readSeq || f.seqNo - readSeq >= FLIGHT {
        return null;
      }
      var idx := f.seqNo % FLIGHT;
      assert SlotValid(idx);
      m := ring[idx];
      if m != null {
        if m.msgType != f.typ || m.msgLen != f.msgLen {
          return null;
        }
        return;
      }
      m := new HmFragment(f.typ, f.seqNo, f.msgLen);
      Install(idx, m);
    }

    /** Stores a fragment's body into the message in a slot. */
    method StoreAt(idx: nat, offset: nat, body: seq<Byte>)
      requires Valid() && idx < FLIGHT && slots[idx].Some?
      requires offset + |body| <= slots[idx].value.len
      modifies Repr
      ensures Valid() && Repr == old(Repr)
      ensures View() == old(View()).(slots := old(slots)[idx := Some(Fill(old(slots)[idx].value, offset, body))])
    {
      assert SlotValid(idx);
      var m := ring[idx];
      m.Store(offset, body);
      slots := slots[idx := Some(m.Value())];
      forall i: nat | i < FLIGHT
        ensures SlotValid(i)
      {
        assert old(SlotValid(i));
        if i < idx {
          assert old(Apart(i, idx));
        } else if idx < i {
          assert old(Apart(idx, i));
        }
      }
      forall i: nat, j: nat | i < j < FLIGHT
        ensures Apart(i, j)
      {
        assert old(Apart(i, j));
      }
    }

    /** One turn of the loop in dtls1_open_handshake; None is success. */
    method ProcessOne(f: Fragment, maxLen: nat) returns (alert: Option<Alert>)
      requires Valid()
      modifies Repr
      ensures Valid() && fresh(Repr - old(Repr))
      ensures Step(View(), AsOutcome(alert)) == ProcessFragment(old(View()), f, maxLen)
    {
      if f.offset > f.msgLen || f.offset + |f.body| > f.msgLen || f.msgLen > maxLen {
        return Some(IllegalParameter);
      }
      if epoch == 1 && f.seqNo != readSeq {
        return Some(UnexpectedMessage);
      }
      if f.seqNo < readSeq || f.seqNo > readSeq + FLIGHT {
        return None;
      }
      var m := GetIncoming(f);
      if m == null {
        return Some(if f.seqNo - readSeq >= FLIGHT then InternalError else IllegalParameter);
      }
      StoreAt(f.seqNo % FLIGHT, f.offset, f.body);
      return None;
    }

    /** dtls_open_record */
    method Open(rec: Record) returns (outcome: Outcome)
      requires Valid()
      modifies Repr
      ensures Valid() && Repr == old(Repr)
      ensures Step(View(), outcome) == OpenRecord(old(View()), rec)
    {
      if shutdown == Closed {
        return CloseNotify;
      }
      if rec.size > RECORD_HEADER_LENGTH + MAX_ENCRYPTED_LENGTH {
        return Discard;
      }
      var discard := bitmap.IsDiscarded(Number(rec));
      if rec.epoch != epoch || discard {
        return Discard;
      }
      if |Bytes(rec.content)| > MAX_PLAIN_LENGTH {
        return Error(RecordOverflow);
      }
      bitmap.Record(Number(rec));
      KeepSlots();
      if ContentType(rec.content) == ALERT {
        outcome := TakeAlert(Bytes(rec.content));
        return;
      }
      warnings := 0;
      KeepSlots();
      return Success;
    }

    /** ssl_process_alert */
    method TakeAlert(bytes: seq<Byte>) returns (outcome: Outcome)
      requires Valid()
      modifies this`shutdown, this`warnings
      ensures Valid() && Step(View(), outcome) == ProcessAlert(old(View()), bytes)
    {
      if |bytes| != 2 {
        return Error(DecodeError);
      }
      if bytes[0] == WARNING {
        if bytes[1] == CLOSE_NOTIFY {
          shutdown := Closed;
          KeepSlots();
          return CloseNotify;
        }
        warnings := warnings + 1;
        KeepSlots();
        return if warnings > MAX_WARNING_ALERTS then Error(UnexpectedMessage) else Discard;
      }
      return Error(if bytes[0] == FATAL then NoAlert else IllegalParameter);
    }

    /** The ring is not affected by a change of the window or of the flags. */
    twostate lemma KeepSlots()
      requires old(Valid()) && {this, ring, bitmap} <= Repr && Repr == old(Repr) && slots == old(slots)
      requires unchanged(ring) && forall o | o in Repr && o != bitmap && o != this :: unchanged(o)
      ensures Valid()
    {
      forall i: nat | i < FLIGHT
        ensures SlotValid(i)
      {
        assert old(SlotValid(i));
      }
      forall i: nat, j: nat | i < j < FLIGHT
        ensures Apart(i, j)
      {
        assert old(SlotValid(i)) && old(SlotValid(j)) && old(Apart(i, j));
      }
    }

    method MarkCcs(seen: bool)
      requires Valid()
      modifies this`hasCcs
      ensures Valid() && View() == old(View()).(hasCcs := seen)
    {
      hasCcs := seen;
      KeepSlots();
    }

    /** dtls1_open_handshake */
    method OpenHandshakeRecord(rec: Record, maxLen: nat) returns (outcome: Outcome)
      requires Valid()
      modifies Repr
      ensures Valid() && fresh(Repr - old(Repr))
      ensures Step(View(), outcome) == OpenHandshake(old(View()), rec, maxLen)
    {
      outcome := Open(rec);
      if !outcome.Success? {
        return;
      }
      if ContentType(rec.content) == APPLICATION_DATA {
        return if nullCipher then Error(UnexpectedMessage) else Discard;
      }
      if ContentType(rec.content) == CHANGE_CIPHER_SPEC {
        if !nullCipher {
          return Error(UnexpectedMessage);
        }
        if Bytes(rec.content) != [1] {
          return Error(IllegalParameter);
        }
        MarkCcs(true);
        return Success;
      }
      if ContentType(rec.content) != HANDSHAKE {
        return Error(UnexpectedMessage);
      }
      outcome := ReadFragments(Bytes(rec.content), maxLen);
    }

    method ReadFragments(payload: seq<Byte>, maxLen: nat) returns (outcome: Outcome)
      requires Valid()
      modifies Repr
      ensures Valid() && fresh(Repr - old(Repr))
      ensures Step(View(), outcome) == ProcessFragments(old(View()), payload, maxLen)
    {
      var rest := payload;
      while |rest| > 0
        invariant Valid() && fresh(Repr - old(Repr))
        invariant ProcessFragments(View(), rest, maxLen) == ProcessFragments(old(View()), payload, maxLen)
        decreases |rest|
      {
        var parsed := Parse(rest);
        if parsed.None? {
          return Error(DecodeError);
        }
        var alert := ProcessOne(parsed.value.fragment, maxLen);
        if alert.Some? {
          return Error(alert.value);
        }
        rest := parsed.value.rest;
      }
      return Success;
    }

    /** dtls1_open_change_cipher_spec */
    method OpenChangeCipherSpecRecord(rec: Record, maxLen: nat) returns (outcome: Outcome)
      requires Valid()
      modifies Repr
      ensures Valid() && fresh(Repr - old(Repr))
      ensures Step(View(), outcome) == OpenChangeCipherSpec(old(View()), rec, maxLen)
    {
      if !hasCcs {
        outcome := OpenHandshakeRecord(rec, maxLen);
        if !outcome.Success? {
          return;
        }
      }
      if hasCcs {
        MarkCcs(false);
        return Success;
      }
      return Discard;
    }

    /** ssl_set_read_error, if there was one. */
    method NoteError(outcome: Outcome)
      requires Valid()
      modifies this`shutdown
      ensures Valid() && Step(View(), outcome) == Sticky(Step(old(View()), outcome))
    {
      if outcome.Error? {
        shutdown := Failed;
        KeepSlots();
      }
    }

    /** ssl_open_handshake */
    method ReadHandshakeRecord(rec: Record, maxLen: nat) returns (outcome: Outcome)
      requires Valid()
      modifies Repr
      ensures Valid() && fresh(Repr - old(Repr))
      ensures Step(View(), outcome) == ReadHandshake(old(View()), rec, maxLen)
    {
      if shutdown == Failed {
        return Error(NoAlert);
      }
      outcome := OpenHandshakeRecord(rec, maxLen);
      NoteError(outcome);
    }

    /** ssl_open_change_cipher_spec */
    method ReadForChangeCipherSpec(rec: Record, maxLen: nat) returns (outcome: Outcome)
      requires Valid()
      modifies Repr
      ensures Valid() && fresh(Repr - old(Repr))
      ensures Step(View(), outcome) == ReadChangeCipherSpec(old(View()), rec, maxLen)
    {
      if shutdown == Failed {
        return Error(NoAlert);
      }
      outcome := OpenChangeCipherSpecRecord(rec, maxLen);
      NoteError(outcome);
    }

    /** dtls1_get_message: the message, and its bytes with the header. */
    method Get() returns (msg: Option<Message>, raw: seq<Byte>)
      requires Valid()
      modifies this
      ensures Valid() && Repr == old(Repr) && View() == AfterGet(old(View()))
      ensures msg == GetMessage(old(View()))
      ensures msg.Some? ==> raw == Serialize(WholeMessage(msg.value.typ, MessageNumber(), msg.value.body))
    {
      var idx := readSeq % FLIGHT;
      assert SlotValid(idx);
      var m := ring[idx];
      raw := [];
      if m == null {
        return None, raw;
      }
      m.CompleteIsNull();
      if m.reassembly != null {
        return None, raw;
      }
      raw := m.data[..];
      msg := Some(Message(m.msgType, raw[HEADER_LENGTH..]));
      assert Body(m.Value()) == raw[HEADER_LENGTH..];
      hasMessage := true;
      KeepSlots();
    }

    ghost function MessageNumber(): nat
      requires Valid()
      reads this, Repr
    {
      if slots[readSeq % FLIGHT].None? then 0 else slots[readSeq % FLIGHT].value.seqNo
    }

    /** dtls1_next_message */
    method Next()
      requires Valid() && hasMessage && CurrentComplete(View())
      modifies this, ring
      ensures Valid() && Repr == old(Repr) && View() == NextMessage(old(View()))
    {
      var idx := readSeq % FLIGHT;
      ring[idx] := null;
      slots := slots[idx := None];
      readSeq := (readSeq + 1) % TWO16;
      hasMessage := false;
      forall i: nat | i < FLIGHT
        ensures SlotValid(i)
      {
        assert old(SlotValid(i));
      }
      forall i: nat, j: nat | i < j < FLIGHT
        ensures Apart(i, j)
      {
        assert old(Apart(i, j));
      }
    }

    /** dtls_has_unprocessed_handshake_data */
    method HasUnprocessedData() returns (pending: bool)
      requires Valid()
      ensures pending == HasUnprocessed(View())
      ensures !pending <==> !hasCcs && forall i: nat | i < FLIGHT && ring[i] != null :: hasMessage && i == readSeq % FLIGHT
    {
      if hasCcs {
        return true;
      }
      var current := readSeq % FLIGHT;
      var i := 0;
      while i < FLIGHT
        invariant 0 <= i <= FLIGHT
        invariant forall j: nat | j < i :: !Pending(View(), j)
        invariant forall j: nat | j < i && ring[j] != null :: hasMessage && j == current
      {
        assert SlotValid(i);
        if !(hasMessage && i == current) && ring[i] != null {
          assert Pending(View(), i);
          return true;
        }
        i := i + 1;
      }
      return false;
    }

    /** dtls1_set_read_state */
    method SetRead(toNull: bool) returns (ok: bool)
      requires Valid()
      modifies this, bitmap
      ensures Valid() && Repr == old(Repr)
      ensures ok <==> !hasCcs && forall i: nat | i < FLIGHT && ring[i] != null :: hasMessage && i == readSeq % FLIGHT
      ensures ok == SetReadState(old(View()), toNull).Some?
      ensures View() == if ok then SetReadState(old(View()), toNull).value else old(View())
    {
      var pending := HasUnprocessedData();
      if pending {
        return false;
      }
      epoch := (epoch + 1) % EPOCHS;
      bitmap.Reset();
      nullCipher := toNull;
      KeepSlots();
      return true;
    }
  }

  function AsOutcome(alert: Option<Alert>): Outcome {
    if alert.None? then Success else Error(alert.value)
  }
}
