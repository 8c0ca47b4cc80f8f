/** Types shared by every component: bytes, optional values and results. */
module Basics {
  type Byte = x: int | 0 <= x < 256

  datatype Option<+T> = None | Some(value: T)

  /** A computation that may fail. The error says which check of the source failed. */
  datatype Result<+T> = Ok(value: T) | Err(error: string) {
    predicate IsFailure() {
      Err?
    }

    function PropagateFailure<U>(): Result<U>
      requires Err?
    {
      Err(error)
    }

    function Extract(): T
      requires Ok?
    {
      value
    }
  }

  const TWO16 := 0x1_0000
  const TWO24 := 0x100_0000
  const TWO32 := 0x1_0000_0000
  const TWO64 := 0x1_0000_0000_0000_0000

  /** The concatenation of a list of sequences. */
  function Flatten<T>(parts: seq<seq<T>>): seq<T> {
    if parts == [] then [] else parts[0] + Flatten(parts[1..])
  }

  lemma {:induction false} FlattenAppend<T>(a: seq<seq<T>>, b: seq<seq<T>>)
    ensures Flatten(a + b) == Flatten(a) + Flatten(b)
  {
    if a == [] {
      assert a + b == b;
    } else {
      assert (a + b)[0] == a[0] && (a + b)[1..] == a[1..] + b;
      FlattenAppend(a[1..], b);
      Associative(a[0], Flatten(a[1..]), Flatten(b));
    }
  }

  lemma FlattenOne<T>(part: seq<T>)
    ensures Flatten([part]) == part
  {
    assert Flatten([part]) == part + Flatten<T>([]);
  }

  lemma Associative<T>(a: seq<T>, b: seq<T>, c: seq<T>)
    ensures (a + b) + c == a + (b + c)
  {
  }

  lemma Regroup<T>(a: seq<T>, b: seq<T>, c: seq<T>, d: seq<T>)
    ensures a + b + c + d == a + (b + (c + d))
    ensures b == [] ==> a + b == a && b + (c + d) == c + d
    ensures d == [] ==> c + d == c && a + b + c + d == a + b + c
  {
  }

  /** `a` is `b` with some elements left out. */
  predicate Subsequence<T(==)>(a: seq<T>, b: seq<T>)
    decreases b
  {
    if a == [] then true
    else if b == [] then false
    else
      || (a[|a| - 1] == b[|b| - 1] && Subsequence(a[..|a| - 1], b[..|b| - 1]))
      || Subsequence(a, b[..|b| - 1])
  }

  lemma {:induction false} SubsequenceLater<T>(a: seq<T>, b: seq<T>, more: seq<T>)
    requires Subsequence(a, b)
    ensures Subsequence(a, b + more)
    decreases more
  {
    if more == [] {
      assert b + more == b;
    } else {
      assert (b + more)[..|b + more| - 1] == b + more[..|more| - 1];
      SubsequenceLater(a, b, more[..|more| - 1]);
    }
  }

  lemma {:induction false} SubsequenceAppend<T>(a: seq<T>, b: seq<T>, more: seq<T>)
    requires Subsequence(a, b)
    ensures Subsequence(a + more, b + more)
    decreases more
  {
    if more == [] {
      assert a + more == a && b + more == b;
    } else {
      assert (a + more)[..|a + more| - 1] == a + more[..|more| - 1];
      assert (b + more)[..|b + more| - 1] == b + more[..|more| - 1];
      SubsequenceAppend(a, b, more[..|more| - 1]);
    }
  }

  lemma {:induction false} SubsequenceIn<T>(a: seq<T>, b: seq<T>, x: T)
    requires Subsequence(a, b) && x in a
    ensures x in b
    decreases b
  {
    var c := b[..|b| - 1];
    if Subsequence(a, c) {
      SubsequenceIn(a, c, x);
      assert x in c;
    } else if x != a[|a| - 1] {
      var i :| 0 <= i < |a| && a[i] == x;
      assert a[..|a| - 1][i] == x;
      SubsequenceIn(a[..|a| - 1], c, x);
      assert x in c;
    }
  }

  lemma {:induction false} InFlatten<T>(parts: seq<seq<T>>, part: seq<T>, x: T)
    requires part in parts && x in part
    ensures x in Flatten(parts)
    decreases parts
  {
    if part != parts[0] {
      InFlatten(parts[1..], part, x);
    }
  }

  /** memcpy */
  method CopyInto(data: array<Byte>, at: nat, bytes: seq<Byte>)
    requires at + |bytes| <= data.Length
    modifies data
    ensures data[..] == old(data[..at]) + bytes + old(data[at + |bytes|..])
  {
    ghost var before := data[..];
    var i := 0;
    while i < |bytes|
      invariant 0 <= i <= |bytes|
      invariant forall j | 0 <= j < data.Length :: data[j] == if at <= j < at + i then bytes[j - at] else before[j]
    {
      data[at + i] := bytes[i];
      i := i + 1;
    }
    Spliced(before, at, bytes, data[..]);
  }

  /** A sequence that agrees at each position with one that has `bytes` put in at `at`. */
  lemma Spliced(before: seq<Byte>, at: nat, bytes: seq<Byte>, after: seq<Byte>)
    requires at + |bytes| <= |before| == |after|
    requires forall j | 0 <= j < |after| :: after[j] == if at <= j < at + |bytes| then bytes[j - at] else before[j]
    ensures after == before[..at] + bytes + before[at + |bytes|..]
  {
  }
}
