/** The DTLS replay window (dtls_record.cc, section 4.1.2.6 of RFC 6347). */
module DtlsWindow {
  import opened Digits

  const WINDOW_SIZE := 64

  /** DTLS1_BITMAP: a 64-bit mask and the largest number seen. */
  datatype Window = Window(bits: nat, maxSeqNum: nat)

  const EMPTY_WINDOW := Window(0, 0)

  /** dtls1_bitmap_should_discard */
  predicate ShouldDiscard(w: Window, n: nat) {
    if n > w.maxSeqNum then false
    else
      var idx := w.maxSeqNum - n;
      idx >= WINDOW_SIZE || Bit(w.bits, idx)
  }

  /** What dtls1_bitmap_record leaves. */
  function Recorded(w: Window, n: nat): Window {
    var slid :=
      if n > w.maxSeqNum then
        var shift := n - w.maxSeqNum;
        Window(if shift >= WINDOW_SIZE then 0 else ShiftLeft(w.bits, shift, 64), n)
      else w;
    var idx := slid.maxSeqNum - n;
    if idx < WINDOW_SIZE then slid.(bits := OrBit(slid.bits, idx)) else slid
  }

  // ----- The window is exact -----

  /** The window stands for a set of recorded numbers: its maximum, and which of the numbers
      less than 64 below it are in the set. */
  ghost predicate Represents(w: Window, recorded: set<nat>) {
    && (forall n | n in recorded :: n <= w.maxSeqNum)
    && (if recorded == {} then w.maxSeqNum == 0 else w.maxSeqNum in recorded)
    && (forall i: nat | i < WINDOW_SIZE :: BitExact(w, recorded, i))
  }

  ghost predicate BitExact(w: Window, recorded: set<nat>, i: nat)
    requires i < WINDOW_SIZE
  {
    Bit(w.bits, i) <==> i <= w.maxSeqNum && w.maxSeqNum - i in recorded
  }

  lemma EmptyRepresents()
    ensures Represents(EMPTY_WINDOW, {})
  {
    forall i: nat | i < WINDOW_SIZE
      ensures BitExact(EMPTY_WINDOW, {}, i)
    {
      ZeroHasNoBits(i);
    }
  }

  /** Each bit of the new window in terms of the old one. */
  lemma RecordedBit(w: Window, n: nat, i: nat)
    requires i < WINDOW_SIZE
    ensures n > w.maxSeqNum ==>
              (Bit(Recorded(w, n).bits, i) <==>
                 i == 0 || (n - w.maxSeqNum <= i && Bit(w.bits, i - (n - w.maxSeqNum))))
    ensures n <= w.maxSeqNum ==>
              (Bit(Recorded(w, n).bits, i) <==> i == w.maxSeqNum - n || Bit(w.bits, i))
  {
    if n > w.maxSeqNum {
      ZeroHasNoBits(i);
      ShiftLeftBit(w.bits, n - w.maxSeqNum, 64, i);
      OrBitSets(if n - w.maxSeqNum >= WINDOW_SIZE then 0 else ShiftLeft(w.bits, n - w.maxSeqNum, 64), 0, i);
    } else if w.maxSeqNum - n < WINDOW_SIZE {
      OrBitSets(w.bits, w.maxSeqNum - n, i);
    }
  }

  /** The mask stays a 64-bit number. */
  lemma RecordBound(w: Window, n: nat)
    requires w.bits < Pow2(64)
    ensures Recorded(w, n).bits < Pow2(64)
  {
    if n > w.maxSeqNum {
      LowBound(Doubled(w.bits, n - w.maxSeqNum), 64);
      OrBitBound(if n - w.maxSeqNum >= WINDOW_SIZE then 0 else ShiftLeft(w.bits, n - w.maxSeqNum, 64), 64, 0);
    } else if w.maxSeqNum - n < WINDOW_SIZE {
      OrBitBound(w.bits, 64, w.maxSeqNum - n);
    }
  }

  /** Recording any number, in any order and with any jump, keeps the window exact. */
  lemma RecordRepresents(w: Window, recorded: set<nat>, n: nat)
    requires Represents(w, recorded)
    ensures Represents(Recorded(w, n), recorded + {n})
  {
    var w' := Recorded(w, n);
    forall i: nat | i < WINDOW_SIZE
      ensures BitExact(w', recorded + {n}, i)
    {
      RecordedBit(w, n, i);
      if n > w.maxSeqNum && n - w.maxSeqNum <= i {
        assert BitExact(w, recorded, i - (n - w.maxSeqNum));
      } else if n <= w.maxSeqNum {
        assert BitExact(w, recorded, i);
      }
    }
  }

  /** A number is discarded exactly when it was recorded or is 64 or more below the maximum. */
  lemma DiscardExact(w: Window, recorded: set<nat>, n: nat)
    requires Represents(w, recorded)
    ensures ShouldDiscard(w, n) <==> n in recorded || n + WINDOW_SIZE <= w.maxSeqNum
  {
    if n <= w.maxSeqNum < n + WINDOW_SIZE {
      assert BitExact(w, recorded, w.maxSeqNum - n);
    }
  }
}
