/**
 The cyclic field iterator (pb_common.c) and the two-word mask with which the decoder checks
 that every required field was present.
 */
module PbIter {
  import opened Basics
  import opened PbSchema
  import opened PbFormat
  import opened Digits

  /** A position in a field list. The list ends in a terminator with tag 0; only an empty list
      lets the iterator stand on it. */
  class FieldIter {
    const fields: seq<Field>
    var pos: nat
    var requiredIndex: nat

    ghost predicate Valid()
      reads this
    {
      && (if fields == [] then pos == 0 else pos < |fields|)
      && requiredIndex == RequiredBefore(fields, pos)
    }

    constructor (fields: seq<Field>)
      ensures Valid() && this.fields == fields && pos == 0
    {
      this.fields := fields;
      pos := 0;
      requiredIndex := 0;
    }

    /** pb_field_iter_begin; false for an empty list. */
    method Begin() returns (nonEmpty: bool)
      modifies this
      ensures Valid() && pos == 0
      ensures nonEmpty == (fields != [])
    {
      pos := 0;
      requiredIndex := 0;
      nonEmpty := fields != [];
    }

    /** pb_field_iter_next: one step forward, or back to the start with a false result. */
    method Next() returns (more: bool)
      requires Valid()
      modifies this
      ensures Valid()
      ensures more == (old(pos) + 1 < |fields|)
      ensures pos == if more then old(pos) + 1 else 0
    {
      if fields == [] {
        return false;
      }
      var previous := fields[pos];
      pos := pos + 1;
      if pos == |fields| {
        var _ := Begin();
        return false;
      }
      if previous.htype.Required? {
        requiredIndex := requiredIndex + 1;
      }
      return true;
    }

    /** The tag under the iterator: a field's, or the terminator's. */
    function TagHere(): nat
      requires Valid()
      reads this
    {
      if fields == [] then 0 else fields[pos].tag
    }

    /** pb_field_iter_find: searches once around. From any position it finds the field with
        the tag exactly when there is one, and otherwise ends where it began. */
    method FindTag(tag: nat) returns (found: bool)
      requires Valid() && DistinctTags(fields)
      modifies this
      ensures Valid()
      ensures found == (Find(fields, tag).Some? || (fields == [] && tag == 0))
      ensures found && fields != [] ==> pos == Find(fields, tag).value
      ensures !found ==> pos == old(pos)
    {
      var start := pos;
      ghost var wrapped := false;
      while true
        invariant Valid()
        invariant if wrapped then pos < start else start <= pos
        invariant fields == [] ==> !wrapped && pos == start
        invariant forall j | 0 <= j < |fields| && Visited(start, pos, wrapped, j) :: fields[j].tag != tag
        decreases !wrapped, |fields| - pos
      {
        if TagHere() == tag {
          return true;
        }
        var more := Next();
        if !more {
          wrapped := true;
        }
        if pos == start {
          break;
        }
      }
      return false;
    }
  }

  /** Whether a search from `start` that stands at `pos` has passed the `j`th field. */
  ghost predicate Visited(start: nat, pos: nat, wrapped: bool, j: nat) {
    if wrapped then start <= j || j < pos else start <= j < pos
  }

  // ----- The required-field mask -----

  type Word = x: int | 0 <= x < TWO32

  const ALL_BITS: Word := TWO32 - 1

  /** Whether the two words of fields_seen hold the bit of a required-field index. */
  predicate Marked(words: seq<Word>, i: nat)
    requires |words| == 2 && i < 64
  {
    Bit(words[i / 32], i % 32)
  }

  /** `fields_seen[i >> 5] |= 1 << (i & 31)` */
  method MarkSeen(words: array<Word>, i: nat)
    requires words.Length == 2 && i < 64
    modifies words
    ensures forall j | 0 <= j < 64 :: Marked(words[..], j) == (j == i || Marked(old(words[..]), j))
  {
    ghost var before := words[..];
    WordSizes();
    OrBitBound(words[i / 32], 32, i % 32);
    words[i / 32] := OrBit(words[i / 32], i % 32);
    forall j | 0 <= j < 64
      ensures Marked(words[..], j) == (j == i || Marked(before, j))
    {
      OrBitSets(before[i / 32], i % 32, j % 32);
    }
  }

  /** The final test of pb_decode_noinit passes exactly when the bits of all `count` required
      fields are set. Its shift by `32 - (count & 31)` is only defined in C when that is less
      than 32, which leaves out a count of 32. */
  method AllMarked(words: array<Word>, count: nat) returns (ok: bool)
    requires words.Length == 2 && count < 64 && count != 32
    requires forall j | count <= j < 64 :: !Marked(words[..], j)
    ensures ok <==> forall j | 0 <= j < count :: Marked(words[..], j)
  {
    if count == 0 {
      return true;
    }
    for i := 0 to count / 32
      invariant forall j | 0 <= j < i :: words[j] == ALL_BITS
    {
      if words[i] != ALL_BITS {
        WordOnes(words[..], i, 32);
        return false;
      }
    }
    ghost var last := count / 32;
    if last == 1 {
      WordOnes(words[..], 0, 32);
    }
    WordOnes(words[..], last, count % 32);
    WordSizes();
    ShiftedOnes(count % 32, 32 - count % 32);
    ok := words[count / 32] == ShiftRight(ALL_BITS, 32 - count % 32);
  }

  lemma WordOnes(words: seq<Word>, i: nat, k: nat)
    requires |words| == 2 && i < 2 && k <= 32
    requires forall j | 32 * i + k <= j < 32 * i + 32 :: !Marked(words, j)
    ensures words[i] == Pow2(k) - 1 <==> forall j | 32 * i <= j < 32 * i + k :: Marked(words, j)
    ensures k == 32 ==> Pow2(k) - 1 == ALL_BITS
  {
    WordSizes();
    assert forall j: nat | j < 32 :: Bit(words[i], j) == Marked(words, 32 * i + j);
    assert forall j: nat | 32 * i <= j < 32 * i + 32 :: Marked(words, j) == Bit(words[i], j - 32 * i);
    LowOnes(words[i], 32, k);
  }

  // ----- Thirty-two required fields -----

  /** Descriptions with that many required fields, for which only their number is at fault. */
  function RequiredFields(count: nat): (fields: seq<Field>)
    requires count < 100
    ensures |fields| == count
  {
    seq(count, i requires 0 <= i < count => Field(i + 1, Required, Fixed32, Int(0)))
  }

  lemma {:induction false} AllRequired(count: nat, n: nat)
    requires n <= count < 100
    ensures RequiredBefore(RequiredFields(count), n) == n
    decreases n
  {
    if n > 0 {
      AllRequired(count, n - 1);
    }
  }

  /** With 32 of them, all seen, the shift of the final test is by the width of the word. If it leaves
      nothing the test passes; if it shifts by its amount modulo 32 instead, it fails. */
  lemma ThirtyTwoRequired(words: seq<Word>)
    requires |words| == 2 && words[0] == ALL_BITS && words[1] == 0
    ensures var fields := RequiredFields(32);
            && RequiredBefore(fields, |fields|) == 32 && DistinctTags(fields)
            && forall k | 0 <= k < |fields| :: FieldWellFormed(fields[k])
    ensures forall j: nat | j < 32 :: Marked(words, j)
    ensures 32 - 32 % 32 == 32
    ensures words[32 / 32] == ShiftRight(ALL_BITS, 32) && words[32 / 32] != ShiftRight(ALL_BITS, 32 % 32)
  {
    AllRequired(32, 32);
    WordSizes();
    LowOnes(words[0], 32, 32);
    ShiftedOnes(0, 32);
    forall j: nat | j < 32
      ensures Marked(words, j)
    {
      assert Bit(words[0], j);
    }
  }
}
