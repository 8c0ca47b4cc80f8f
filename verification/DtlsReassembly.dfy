/**
 Rebuilding one handshake message from fragments (d1_both.cc, section 4.2.3 of RFC 6347): a
 bitmap with one bit per byte of the message.
 */
module DtlsReassembly {
  import opened Basics
  import opened DtlsFragment

  // ----- What has been received, as a value -----

  /** A message being rebuilt: the bytes received so far, by position. */
  datatype Partial = Partial(typ: Byte, seqNo: nat, len: nat, got: map<nat, Byte>)

  predicate Complete(p: Partial) {
    forall k: nat | k < p.len :: k in p.got
  }

  function Body(p: Partial): seq<Byte>
    requires Complete(p)
  {
    seq(p.len, k requires 0 <= k < p.len => p.got[k])
  }

  predicate Within(k: nat, start: nat, end: nat) {
    start <= k < end
  }

  function Piece(offset: nat, body: seq<Byte>): map<nat, Byte> {
    Placed(body, offset, offset + |body|)
  }

  function Placed(body: seq<Byte>, start: nat, end: nat): map<nat, Byte>
    requires end == start + |body|
  {
    map k: nat | start <= k < end && Within(k, start, end) :: body[k - start]
  }

  /** The effect of one fragment: a complete message no longer changes. */
  function Fill(p: Partial, offset: nat, body: seq<Byte>): Partial {
    if Complete(p) then p else p.(got := p.got + Piece(offset, body))
  }

  function Fresh(typ: Byte, seqNo: nat, len: nat): Partial {
    Partial(typ, seqNo, len, map[])
  }

  // ----- Laws of reassembly -----

  datatype Range = Range(offset: nat, body: seq<Byte>)

  predicate Covers(r: Range, k: nat) {
    r.offset <= k < r.offset + |r.body|
  }

  predicate Covered(rs: seq<Range>, k: nat) {
    exists i :: 0 <= i < |rs| && Covers(rs[i], k)
  }

  function FillAll(p: Partial, rs: seq<Range>): Partial
    decreases rs
  {
    if rs == [] then p else FillAll(Fill(p, rs[0].offset, rs[0].body), rs[1..])
  }

  lemma {:induction false} FillAllKeeps(p: Partial, rs: seq<Range>)
    requires Complete(p)
    ensures FillAll(p, rs) == p
    decreases rs
  {
    if rs != [] {
      FillAllKeeps(p, rs[1..]);
    }
  }

  /** The data never changes after the message is complete. */
  lemma {:induction false} CompleteIsFinal(p: Partial, rs: seq<Range>, more: seq<Range>)
    requires Complete(FillAll(p, rs))
    ensures FillAll(p, rs + more) == FillAll(p, rs)
    decreases rs
  {
    if rs == [] {
      assert rs + more == more;
      FillAllKeeps(p, more);
    } else {
      assert (rs + more)[1..] == rs[1..] + more;
      CompleteIsFinal(Fill(p, rs[0].offset, rs[0].body), rs[1..], more);
    }
  }

  lemma CoveredCons(rs: seq<Range>, k: nat)
    requires rs != []
    ensures Covered(rs, k) <==> Covers(rs[0], k) || Covered(rs[1..], k)
  {
    if Covered(rs, k) && !Covers(rs[0], k) {
      var i :| 0 <= i < |rs| && Covers(rs[i], k);
      assert Covers(rs[1..][i - 1], k);
    }
    if Covered(rs[1..], k) {
      var i :| 0 <= i < |rs[1..]| && Covers(rs[1..][i], k);
      assert Covers(rs[i + 1], k);
    }
  }

  /** Each position still missing is received exactly when some range covers it. */
  lemma {:induction false} FillAllReceives(p: Partial, rs: seq<Range>, k: nat)
    requires !Complete(FillAll(p, rs))
    ensures k in FillAll(p, rs).got <==> k in p.got || Covered(rs, k)
    decreases rs
  {
    if rs != [] {
      if Complete(p) {
        FillAllKeeps(p, rs);
      }
      CoveredCons(rs, k);
      FillAllReceives(Fill(p, rs[0].offset, rs[0].body), rs[1..], k);
    }
  }

  predicate AllCovered(rs: seq<Range>, got: map<nat, Byte>, len: nat) {
    forall k: nat | k < len :: k in got || Covered(rs, k)
  }

  lemma AllCoveredCons(rs: seq<Range>, p: Partial)
    requires rs != []
    ensures AllCovered(rs, p.got, p.len)
       <==> AllCovered(rs[1..], (p.got + Piece(rs[0].offset, rs[0].body)), p.len)
  {
    forall k: nat
      ensures (k in p.got || Covered(rs, k))
         <==> (k in p.got + Piece(rs[0].offset, rs[0].body) || Covered(rs[1..], k))
    {
      CoveredCons(rs, k);
    }
  }

  /**
   A message is complete exactly when the ranges received cover it, whatever their order and
   however they overlap.
   */
  lemma {:induction false} CompleteWhenCovered(p: Partial, rs: seq<Range>)
    ensures Complete(FillAll(p, rs)) <==> AllCovered(rs, p.got, p.len)
    decreases rs
  {
    if rs != [] {
      AllCoveredCons(rs, p);
      if Complete(p) {
        FillAllKeeps(p, rs);
      } else {
        CompleteWhenCovered(Fill(p, rs[0].offset, rs[0].body), rs[1..]);
      }
    }
  }

  /** Every byte received so far is the byte of the message at that position. */
  ghost predicate Agrees(p: Partial, body: seq<Byte>) {
    && p.len == |body|
    && forall k: nat | k in p.got :: k < |body| && p.got[k] == body[k]
  }

  lemma FillAgrees(p: Partial, body: seq<Byte>, offset: nat, piece: seq<Byte>)
    requires Agrees(p, body)
    requires offset + |piece| <= |body| && piece == body[offset..offset + |piece|]
    ensures Agrees(Fill(p, offset, piece), body)
  {
  }

  lemma AgreesWhole(p: Partial, body: seq<Byte>)
    requires Agrees(p, body) && Complete(p)
    ensures Body(p) == body
  {
  }

  // ----- The bitmap -----

  /** bit_range: the bits `start` to `end - 1` of a byte, through a 32-bit intermediate. */
  function BitRange(start: nat, end: nat): bv8
    requires start <= 8 && end <= 8
  {
    ((!(((1 as bv32) << start) - 1) & (((1 as bv32) << end) - 1)) & 0xff) as bv8
  }

  predicate ByteBit(b: bv8, i: nat)
    requires i < 8
  {
    b & (1 << i) != 0
  }

  lemma BitRangeBits(start: nat, end: nat, i: nat)
    requires start <= 8 && end <= 8 && i < 8
    ensures ByteBit(BitRange(start, end), i) <==> start <= i < end
  {
  }

  lemma OrBits(a: bv8, b: bv8, i: nat)
    requires i < 8
    ensures ByteBit(a | b, i) <==> ByteBit(a, i) || ByteBit(b, i)
  {
  }

  lemma ByteExtensional(a: bv8, b: bv8)
    requires forall i: nat | i < 8 :: ByteBit(a, i) == ByteBit(b, i)
    ensures a == b
  {
    assert ByteBit(a, 0) == ByteBit(b, 0) && ByteBit(a, 1) == ByteBit(b, 1)
        && ByteBit(a, 2) == ByteBit(b, 2) && ByteBit(a, 3) == ByteBit(b, 3)
        && ByteBit(a, 4) == ByteBit(b, 4) && ByteBit(a, 5) == ByteBit(b, 5)
        && ByteBit(a, 6) == ByteBit(b, 6) && ByteBit(a, 7) == ByteBit(b, 7);
  }

  predicate Marked(bits: seq<bv8>, k: nat)
    requires k / 8 < |bits|
  {
    ByteBit(bits[k / 8], k % 8)
  }

  /** The byte of the new bitmap at `j` when bits `start` to `end - 1` are added. */
  function MarkedByte(old8: bv8, j: nat, start: nat, end: nat): bv8 {
    if j < start / 8 || j > end / 8 then old8
    else old8 | BitRange(if j == start / 8 then start % 8 else 0, if j == end / 8 then end % 8 else 8)
  }

  lemma MarkedByteBits(old8: bv8, k: nat, start: nat, end: nat)
    requires start <= end
    ensures ByteBit(MarkedByte(old8, k / 8, start, end), k % 8)
       <==> ByteBit(old8, k % 8) || start <= k < end
  {
    var j := k / 8;
    if start / 8 <= j <= end / 8 {
      var from := if j == start / 8 then start % 8 else 0;
      var to := if j == end / 8 then end % 8 else 8;
      BitRangeBits(from, to, k % 8);
      OrBits(old8, BitRange(from, to), k % 8);
    }
  }

  lemma OrAll(b: bv8)
    ensures b | BitRange(0, 8) == 0xff
    ensures b | BitRange(0, 0) == b
  {
  }

  /** The bitmap after marking, in the source's loops. */
  method SetBits(bits: array<bv8>, start: nat, end: nat)
    requires start < end <= 8 * bits.Length
    modifies bits
    ensures forall k: nat | k < 8 * bits.Length ::
              Marked(bits[..], k) <==> old(Marked(bits[..], k)) || start <= k < end
  {
    ghost var was := bits[..];
    if start / 8 == end / 8 {
      bits[start / 8] := bits[start / 8] | BitRange(start % 8, end % 8);
    } else {
      bits[start / 8] := bits[start / 8] | BitRange(start % 8, 8);
      var i := start / 8 + 1;
      while i < end / 8
        invariant start / 8 + 1 <= i <= end / 8
        invariant forall j | 0 <= j < i :: bits[j] == MarkedByte(was[j], j, start, end)
        invariant forall j | i <= j < bits.Length :: bits[j] == was[j]
      {
        OrAll(was[i]);
        bits[i] := 0xff;
        i := i + 1;
      }
      if end % 8 != 0 {
        bits[end / 8] := bits[end / 8] | BitRange(0, end % 8);
      } else if end / 8 < bits.Length {
        OrAll(was[end / 8]);
      }
    }
    assert forall j | 0 <= j < bits.Length :: bits[j] == MarkedByte(was[j], j, start, end);
    forall k: nat | k < 8 * bits.Length
      ensures Marked(bits[..], k) <==> Marked(was, k) || start <= k < end
    {
      MarkedByteBits(was[k / 8], k, start, end);
    }
  }

  ghost predicate AllMarked(bits: seq<bv8>, len: nat)
    requires len <= 8 * |bits|
  {
    forall k: nat | k < len :: Marked(bits, k)
  }

  ghost predicate NoneMarkedFrom(bits: seq<bv8>, len: nat) {
    forall k: nat | len <= k < 8 * |bits| :: !Marked(bits, k)
  }

  lemma FullByte(bits: seq<bv8>, j: nat)
    requires j < |bits|
    ensures bits[j] == 0xff <==> forall k: nat | 8 * j <= k < 8 * j + 8 :: Marked(bits, k)
  {
    if forall k: nat | 8 * j <= k < 8 * j + 8 :: Marked(bits, k) {
      forall i: nat | i < 8
        ensures ByteBit(bits[j], i) == ByteBit(0xff, i)
      {
        assert Marked(bits, 8 * j + i);
      }
      ByteExtensional(bits[j], 0xff);
    }
  }

  lemma LastByte(bits: seq<bv8>, len: nat)
    requires |bits| == (len + 7) / 8 && len % 8 != 0 && NoneMarkedFrom(bits, len)
    ensures bits[len / 8] == BitRange(0, len % 8)
       <==> forall k: nat | len / 8 * 8 <= k < len :: Marked(bits, k)
  {
    var j := len / 8;
    forall i: nat | i < 8
      ensures ByteBit(BitRange(0, len % 8), i) <==> i < len % 8
      ensures ByteBit(bits[j], i) == Marked(bits, 8 * j + i)
    {
      BitRangeBits(0, len % 8, i);
    }
    if forall k: nat | 8 * j <= k < len :: Marked(bits, k) {
      ByteExtensional(bits[j], BitRange(0, len % 8));
    }
    if bits[j] == BitRange(0, len % 8) {
      forall k: nat | 8 * j <= k < len
        ensures Marked(bits, k)
      {
        assert ByteBit(bits[j], k - 8 * j);
      }
    }
  }

  /** The source's test for a complete bitmap. */
  method IsFull(bits: array<bv8>, len: nat) returns (full: bool)
    requires bits.Length == (len + 7) / 8 && NoneMarkedFrom(bits[..], len)
    ensures full <==> AllMarked(bits[..], len)
  {
    var i := 0;
    while i < len / 8
      invariant i <= len / 8
      invariant AllMarked(bits[..], 8 * i)
    {
      FullByte(bits[..], i);
      if bits[i] != 0xff {
        return false;
      }
      i := i + 1;
    }
    if len % 8 != 0 {
      LastByte(bits[..], len);
      if bits[len / 8] != BitRange(0, len % 8) {
        return false;
      }
    }
    return true;
  }

  // ----- The object -----

  predicate BitmapFor(bits: Option<seq<bv8>>, len: nat) {
    bits.Some? ==> len <= 8 * |bits.value|
  }

  predicate ReceivedAt(bits: Option<seq<bv8>>, k: nat)
    requires BitmapFor(bits, k + 1)
  {
    bits.Some? ==> Marked(bits.value, k)
  }

  /** The bytes of a body that a bitmap marks as received; no bitmap means all of them. */
  function Received(body: seq<Byte>, bits: Option<seq<bv8>>): map<nat, Byte>
    requires BitmapFor(bits, |body|)
  {
    map k: nat | k < |body| && ReceivedAt(bits, k) :: body[k]
  }

  lemma ReceivedAfter(before: seq<Byte>, after: seq<Byte>, bits: Option<seq<bv8>>,
                      bits': Option<seq<bv8>>, offset: nat, body: seq<Byte>)
    requires BitmapFor(bits, |before|) && BitmapFor(bits', |before|)
    requires offset + |body| <= |before|
    requires after == before[..offset] + body + before[offset + |body|..]
    requires forall k: nat | k < |before| ::
               ReceivedAt(bits', k) <==> ReceivedAt(bits, k) || offset <= k < offset + |body|
    ensures Received(after, bits') == Received(before, bits) + Piece(offset, body)
  {
    var got, got' := Received(before, bits) + Piece(offset, body), Received(after, bits');
    forall k: nat
      ensures k in got <==> k in got'
      ensures k in got ==> got[k] == got'[k]
    {
    }
  }

  /** hm_fragment */
  class HmFragment {
    const msgType: Byte
    const seqNo: nat
    const msgLen: nat
    /** The message with its header. */
    const data: array<Byte>
    /** One bit per byte of the body; null when the message is complete. */
    var reassembly: array?<bv8>

    ghost predicate Valid()
      reads this, data, reassembly
    {
      && data.Length == HEADER_LENGTH + msgLen
      && data[..HEADER_LENGTH] == Header(msgType, msgLen, seqNo, 0, msgLen)
      && (reassembly != null ==> Missing())
    }

    ghost predicate Missing()
      requires reassembly != null
      reads this, reassembly
    {
      && reassembly.Length == (msgLen + 7) / 8
      && NoneMarkedFrom(reassembly[..], msgLen)
      && !AllMarked(reassembly[..], msgLen)
    }

    ghost function Footprint(): set<object>
      reads this
    {
      {this, data} + if reassembly == null then {} else {reassembly}
    }

    function Bitmap(): Option<seq<bv8>>
      reads this, reassembly
    {
      if reassembly == null then None else Some(reassembly[..])
    }

    ghost function Value(): Partial
      requires Valid()
      reads this, data, reassembly
    {
      Partial(msgType, seqNo, msgLen, Received(data[HEADER_LENGTH..], Bitmap()))
    }

    lemma CompleteIsNull()
      requires Valid()
      ensures Complete(Value()) <==> reassembly == null
    {
      if reassembly == null {
        assert forall k: nat | k < msgLen :: ReceivedAt(Bitmap(), k);
      } else {
        var k: nat :| k < msgLen && !Marked(reassembly[..], k);
        assert !ReceivedAt(Bitmap(), k);
        assert k !in Value().got;
      }
    }

    /** dtls1_hm_fragment_new */
    constructor (typ: Byte, seqNo: nat, msgLen: nat)
      ensures Valid() && fresh(Footprint())
      ensures Value() == Fresh(typ, seqNo, msgLen)
    {
      msgType, this.seqNo, this.msgLen := typ, seqNo, msgLen;
      var header := Header(typ, msgLen, seqNo, 0, msgLen);
      var bytes := new Byte[HEADER_LENGTH + msgLen](i => if 0 <= i < HEADER_LENGTH then header[i] else 0);
      data := bytes;
      var bits: array?<bv8> := null;
      if msgLen > 0 {
        bits := new bv8[(msgLen + 7) / 8](_ => 0);
        assert !Marked(bits[..], 0);
      }
      reassembly := bits;
      new;
      assert data[..HEADER_LENGTH] == header;
    }

    /**
     dtls1_hm_fragment_mark: the bytes `start` to `end - 1` count as received, no byte past the
     message does, and the bitmap is freed exactly when nothing is missing.
     */
    method Mark(start: nat, end: nat)
      requires Valid() && reassembly != null && start <= end <= msgLen
      modifies this, reassembly
      ensures Valid() && (reassembly == null || reassembly == old(reassembly))
      ensures Bitmap().Some? ==> |Bitmap().value| == (msgLen + 7) / 8
      ensures forall k: nat | k < msgLen ::
                ReceivedAt(Bitmap(), k) <==> old(ReceivedAt(Bitmap(), k)) || start <= k < end
    {
      if start == end {
        return;
      }
      SetBits(reassembly, start, end);
      var full := IsFull(reassembly, msgLen);
      if full {
        reassembly := null;
      }
    }

    /** The end of dtls1_open_handshake's loop: copy a fragment's body, unless the message is
        already assembled. */
    method Store(offset: nat, body: seq<Byte>)
      requires Valid() && offset + |body| <= msgLen
      modifies this, data, reassembly
      ensures Valid() && Value() == Fill(old(Value()), offset, body)
      ensures reassembly == null || reassembly == old(reassembly)
    {
      CompleteIsNull();
      if reassembly == null {
        return;
      }
      CopyInto(data, HEADER_LENGTH + offset, body);
      assert Missing() by {
        assert reassembly[..] == old(reassembly[..]);
      }
      Mark(offset, offset + |body|);
      ReceivedAfter(old(data[HEADER_LENGTH..]), data[HEADER_LENGTH..], old(Bitmap()), Bitmap(), offset, body);
    }
  }
}
