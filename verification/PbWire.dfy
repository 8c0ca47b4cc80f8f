/**
 The scalar wire formats of nanopb (pb_encode.c, pb_decode.c): base-128 varints, zig-zag
 integers and little-endian fixed-width integers, as functions on byte strings.
 A C bit operation is written as arithmetic: `x & 0x7F` is `x % 128`, `x >> 7` is `x / 128`,
 and or-ing disjoint bits is addition.
 */
module PbWire {
  import opened Basics

  // ----- Varints -----

  /** The minimal base-128 form of a number, least significant group first. */
  function EncVarint(n: nat): (bs: seq<Byte>)
    ensures bs != []
  {
    if n < 128 then [n] else [128 + n % 128] + EncVarint(n / 128)
  }

  /** What reading a varint leaves: a number, or a failure and what was left unread by then. */
  datatype Varint = Value(n: nat, rest: seq<Byte>) | Bad(rest: seq<Byte>)

  /** Reads a varint of at most `k` groups, without truncating it to a machine width. */
  function DecGroups(bs: seq<Byte>, k: nat): (r: Varint)
    ensures r.Value? ==> |r.rest| < |bs|
    ensures |r.rest| <= |bs|
  {
    if k == 0 then Bad(bs)
    else if bs == [] then Bad([])
    else if bs[0] < 128 then Value(bs[0], bs[1..])
    else
      match DecGroups(bs[1..], k - 1)
      case Value(n, rest) => Value(bs[0] - 128 + 128 * n, rest)
      case Bad(rest) => Bad(rest)
  }

  /** pb_decode_varint: ten groups, of which the last is cut to the bits that fit. */
  function Dec64(bs: seq<Byte>): (r: Varint)
    ensures r.Value? ==> r.n < TWO64 && |r.rest| < |bs|
  {
    match DecGroups(bs, 10)
    case Value(n, rest) => Value(n % TWO64, rest)
    case Bad(rest) => Bad(rest)
  }

  /** pb_decode_varint32: five groups. */
  function Dec32(bs: seq<Byte>): (r: Varint)
    ensures r.Value? ==> r.n < TWO32 && |r.rest| < |bs|
  {
    match DecGroups(bs, 5)
    case Value(n, rest) => Value(n % TWO32, rest)
    case Bad(rest) => Bad(rest)
  }

  function Pow128(k: nat): nat {
    if k == 0 then 1 else 128 * Pow128(k - 1)
  }

  lemma PowBounds()
    ensures Pow128(5) == 0x8_0000_0000 > TWO32
    ensures Pow128(9) * 2 == TWO64 && Pow128(10) > TWO64
  {
    assert Pow128(4) == 0x1000_0000;
    assert Pow128(6) == 0x400_0000_0000;
    assert Pow128(8) == 0x100_0000_0000_0000;
  }

  lemma {:induction false} VarintRoundTrip(n: nat, k: nat, rest: seq<Byte>)
    requires n < Pow128(k) && k > 0
    ensures DecGroups(EncVarint(n) + rest, k) == Value(n, rest)
  {
    var bs := EncVarint(n) + rest;
    if n < 128 {
      assert bs[1..] == rest;
    } else {
      VarintRoundTrip(n / 128, k - 1, rest);
      assert bs[1..] == EncVarint(n / 128) + rest;
    }
  }

  lemma Varint64RoundTrip(n: nat, rest: seq<Byte>)
    requires n < TWO64
    ensures Dec64(EncVarint(n) + rest) == Value(n, rest)
  {
    hide Pow128, EncVarint, DecGroups;
    PowBounds();
    VarintRoundTrip(n, 10, rest);
  }

  lemma Varint32RoundTrip(n: nat, rest: seq<Byte>)
    requires n < TWO32
    ensures Dec32(EncVarint(n) + rest) == Value(n, rest)
  {
    hide Pow128, EncVarint, DecGroups;
    PowBounds();
    VarintRoundTrip(n, 5, rest);
  }

  /** A varint that was read does not depend on what follows it. */
  lemma {:induction false} VarintExtend(bs: seq<Byte>, more: seq<Byte>, k: nat)
    requires DecGroups(bs, k).Value?
    ensures DecGroups(bs + more, k) == Value(DecGroups(bs, k).n, DecGroups(bs, k).rest + more)
  {
    if bs[0] >= 128 {
      VarintExtend(bs[1..], more, k - 1);
      assert (bs + more)[1..] == bs[1..] + more;
    } else {
      assert (bs + more)[1..] == bs[1..] + more;
    }
  }

  // ----- Machine integers -----

  predicate ValidSize(size: nat) {
    size == 1 || size == 2 || size == 4 || size == 8
  }

  /** The number of values of an unsigned integer of `size` bytes. */
  function Range(size: nat): nat
    requires ValidSize(size)
  {
    if size == 1 then 0x100 else if size == 2 then TWO16 else if size == 4 then TWO32 else TWO64
  }

  /** The low `size` bytes of a number, unsigned. */
  function Truncate(u: int, size: nat): (t: nat)
    requires ValidSize(size)
    ensures t < Range(size)
    ensures 0 <= u < Range(size) ==> t == u
  {
    if size == 1 then u % 0x100 else if size == 2 then u % TWO16 else if size == 4 then u % TWO32 else u % TWO64
  }

  /** The low `size` bytes of a number, read as two's complement. */
  function ToSigned(u: int, size: nat): (i: int)
    requires ValidSize(size)
    ensures -(Range(size) / 2) <= i < Range(size) / 2
  {
    var low := Truncate(u, size);
    if low < Range(size) / 2 then low else low - Range(size)
  }

  predicate IsSigned(i: int, size: nat) {
    ValidSize(size) && -(Range(size) / 2) <= i < Range(size) / 2
  }

  predicate IsUnsigned(i: int, size: nat) {
    ValidSize(size) && 0 <= i < Range(size)
  }

  /** The conversion of a signed number to `uint64_t`. */
  function ToU64(i: int): (u: nat)
    ensures u < TWO64
  {
    i % TWO64
  }

  /** pb_encode_svarint's mapping: `~((uint64_t)value << 1)` or `(uint64_t)value << 1`. */
  function ZigZag(i: int): (u: nat)
    ensures u < TWO64
  {
    var doubled := ToU64(i) * 2 % TWO64;
    if i < 0 then TWO64 - 1 - doubled else doubled
  }

  /** pb_decode_svarint's mapping: `~(value >> 1)` or `value >> 1`, read as signed. */
  function UnZigZag(u: nat): int
    requires u < TWO64
  {
    if u % 2 == 1 then ToSigned(TWO64 - 1 - u / 2, 8) else ToSigned(u / 2, 8)
  }

  lemma ZigZagRoundTrip(i: int)
    requires IsSigned(i, 8)
    ensures UnZigZag(ZigZag(i)) == i
    ensures ZigZag(i) == if i < 0 then -2 * i - 1 else 2 * i
  {
    if i < 0 {
      assert ToU64(i) == i + TWO64;
      assert ToU64(i) * 2 % TWO64 == 2 * i + TWO64;
    }
  }

  /** pb_dec_varint's conversion: fields of up to 32 bits first take the low 32 bits as signed,
      so that a negative value sent as 32 bits keeps its sign; then the value must fit. */
  function NarrowSigned(u: nat, size: nat): Result<int> {
    if !ValidSize(size) then Err("invalid data_size")
    else
      var s := ToSigned(u, if size == 8 then 8 else 4);
      if ToSigned(s, size) != s then Err("integer too large") else Ok(s)
  }

  /** pb_dec_uvarint's conversion. */
  function NarrowUnsigned(u: nat, size: nat): Result<int> {
    if !ValidSize(size) then Err("invalid data_size")
    else if Truncate(u, size) != u then Err("integer too large") else Ok(u)
  }

  /** pb_dec_svarint's conversion. */
  function NarrowZigZag(u: nat, size: nat): Result<int>
    requires u < TWO64
  {
    if !ValidSize(size) then Err("invalid data_size")
    else
      var s := UnZigZag(u);
      if ToSigned(s, size) != s then Err("integer too large") else Ok(s)
  }

  lemma ToSignedFixes(i: int, size: nat)
    requires ValidSize(size)
    ensures ToSigned(i, size) == i <==> IsSigned(i, size)
  {
  }

  lemma NarrowSignedRoundTrip(i: int, size: nat)
    requires IsSigned(i, size)
    ensures NarrowSigned(ToU64(i), size) == Ok(i)
  {
    ToSignedFixes(i, size);
    if i < 0 {
      assert ToU64(i) == i + TWO64;
      assert (i + TWO64) % TWO32 == i % TWO32;
    }
  }

  lemma NarrowRoundTrip(i: int, size: nat)
    ensures IsSigned(i, size) ==> NarrowSigned(ToU64(i), size) == Ok(i)
    ensures IsSigned(i, size) ==> NarrowZigZag(ZigZag(i), size) == Ok(i)
    ensures IsUnsigned(i, size) ==> NarrowUnsigned(i, size) == Ok(i)
  {
    hide ToSigned, Truncate, ZigZag, UnZigZag, ToU64, NarrowSigned;
    if IsSigned(i, size) {
      NarrowSignedRoundTrip(i, size);
      ToSignedFixes(i, size);
      ZigZagRoundTrip(i);
    }
  }

  /** A varint is taken as the one number of the field's width that it stands for: of the 64-bit field,
      or for a narrower signed field of its low 32 bits; when that number is too wide, it is refused. */
  lemma NarrowExact(u: nat, i: int, size: nat)
    requires u < TWO64 && ValidSize(size)
    ensures NarrowSigned(u, size) == Ok(i)
       <==> IsSigned(i, size) && i % (if size == 8 then TWO64 else TWO32) == u % (if size == 8 then TWO64 else TWO32)
    ensures NarrowUnsigned(u, size) == Ok(i) <==> IsUnsigned(i, size) && i == u
    ensures NarrowZigZag(u, size) == Ok(i) <==> IsSigned(i, size) && ZigZag(i) == u
  {
    hide NarrowSigned, NarrowUnsigned, NarrowZigZag, ToSigned, Truncate, ZigZag, Range;
    SignedExact(u, i, size);
    UnsignedExact(u, i, size);
    ZigZagExact(u, i, size);
  }

  lemma SignedExact(u: nat, i: int, size: nat)
    requires u < TWO64 && ValidSize(size)
    ensures NarrowSigned(u, size) == Ok(i)
       <==> IsSigned(i, size) && i % (if size == 8 then TWO64 else TWO32) == u % (if size == 8 then TWO64 else TWO32)
  {
    hide ToSigned;
    var wide := if size == 8 then 8 else 4;
    ToSignedFixes(ToSigned(u, wide), size);
    ToSignedExact(u, i, wide);
  }

  /** Of the numbers that are the same modulo the width, the one in range. */
  lemma ToSignedExact(u: nat, i: int, size: nat)
    requires size == 4 || size == 8
    ensures ToSigned(u, size) == i <==> IsSigned(i, size) && i % Range(size) == u % Range(size)
  {
  }

  lemma UnsignedExact(u: nat, i: int, size: nat)
    requires u < TWO64 && ValidSize(size)
    ensures NarrowUnsigned(u, size) == Ok(i) <==> IsUnsigned(i, size) && i == u
  {
  }

  lemma ZigZagExact(u: nat, i: int, size: nat)
    requires u < TWO64 && ValidSize(size)
    ensures NarrowZigZag(u, size) == Ok(i) <==> IsSigned(i, size) && ZigZag(i) == u
  {
    hide ZigZag, UnZigZag, ToSigned;
    ToSignedFixes(UnZigZag(u), size);
    ZigZagOnto(u);
    if IsSigned(i, size) {
      ZigZagRoundTrip(i);
    }
  }

  lemma ZigZagOnto(u: nat)
    requires u < TWO64
    ensures IsSigned(UnZigZag(u), 8) && ZigZag(UnZigZag(u)) == u
  {
    var i := UnZigZag(u);
    ZigZagRoundTrip(i);
  }

  // ----- Fixed-width integers -----

  /** The `k` low bytes of a number, least significant first. */
  function LittleEndian(n: nat, k: nat): (bs: seq<Byte>)
    ensures |bs| == k
  {
    if k == 0 then [] else [n % 256] + LittleEndian(n / 256, k - 1)
  }

  function FromLittleEndian(bs: seq<Byte>): nat {
    if bs == [] then 0 else bs[0] + 256 * FromLittleEndian(bs[1..])
  }

  function Pow256(k: nat): nat {
    if k == 0 then 1 else 256 * Pow256(k - 1)
  }

  lemma {:induction false} LittleEndianRoundTrip(n: nat, k: nat)
    requires n < Pow256(k)
    ensures FromLittleEndian(LittleEndian(n, k)) == n
  {
    if k > 0 {
      LittleEndianRoundTrip(n / 256, k - 1);
    }
  }

  /** A byte that comes later weighs more. */
  lemma {:induction false} LaterByteWeighsMore(bs: seq<Byte>, b: Byte)
    ensures FromLittleEndian(bs + [b]) == FromLittleEndian(bs) + Pow256(|bs|) * b
  {
    if bs == [] {
      assert FromLittleEndian([b][1..]) == 0;
    } else {
      LaterByteWeighsMore(bs[1..], b);
      assert (bs + [b])[1..] == bs[1..] + [b];
      Times256(Pow256(|bs| - 1), b);
    }
  }

  lemma Times256(p: nat, b: nat)
    ensures 256 * (p * b) == 256 * p * b
  {
  }

  lemma {:induction false} LittleEndianBound(bs: seq<Byte>)
    ensures FromLittleEndian(bs) < Pow256(|bs|)
  {
    if bs != [] {
      LittleEndianBound(bs[1..]);
    }
  }

  lemma Pow256Values()
    ensures Pow256(4) == TWO32 && Pow256(8) == TWO64
  {
    assert Pow256(2) == TWO16;
    assert Pow256(6) == 0x1_0000_0000_0000;
  }
}
