/**
 The nanopb decoder (pb_decode.c) over an input buffer. The destination struct is passed in
 and handed back with the fields that were read.
 */
module PbDecoder {
  import opened Basics
  import opened PbWire
  import opened PbSchema
  import opened PbFormat
  import opened PbIter
  import PbLimits
  import Digits

  /** pb_istream_t over a buffer: a position and how much may still be read from there. */
  class IStream {
    const source: seq<Byte>
    var position: nat
    var bytesLeft: nat

    ghost predicate Valid()
      reads this
    {
      position + bytesLeft <= |source|
    }

    constructor (source: seq<Byte>, position: nat, bytesLeft: nat)
      requires position + bytesLeft <= |source|
      ensures Valid() && this.source == source && this.position == position && this.bytesLeft == bytesLeft
    {
      this.source := source;
      this.position := position;
      this.bytesLeft := bytesLeft;
    }

    /** The bytes that may still be read. */
    ghost function Remaining(): seq<Byte>
      requires Valid()
      reads this
    {
      source[position..position + bytesLeft]
    }

    /** Where the stream ends in the source. Reading never moves it. */
    function End(): nat
      reads this
    {
      position + bytesLeft
    }

    /** pb_read; with no destination, `data` is what was skipped. */
    method Read(count: nat) returns (ok: bool, data: seq<Byte>)
      requires Valid()
      modifies this
      ensures Valid() && End() == old(End())
      ensures ok == (count <= |old(Remaining())|)
      ensures ok ==> data == old(Remaining())[..count] && Remaining() == old(Remaining())[count..]
      ensures !ok ==> Remaining() == old(Remaining())
    {
      if bytesLeft < count {
        return false, [];
      }
      data := source[position..position + count];
      position := position + count;
      bytesLeft := bytesLeft - count;
      ok := true;
    }

    /** pb_readbyte */
    method ReadByte() returns (ok: bool, byte: Byte)
      requires Valid()
      modifies this
      ensures Valid() && End() == old(End())
      ensures ok == (old(Remaining()) != [])
      ensures ok ==> byte == old(Remaining())[0] && Remaining() == old(Remaining())[1..]
      ensures !ok ==> Remaining() == []
    {
      if bytesLeft == 0 {
        return false, 0;
      }
      byte := source[position];
      position := position + 1;
      bytesLeft := bytesLeft - 1;
      ok := true;
    }

    /** The loops of pb_decode_varint and pb_decode_varint32: `bits` is the width of the
        result, and a group whose first bit lies past it is an overflow. */
    method DecodeVarint(bits: nat) returns (ok: bool, value: nat)
      requires Valid() && (bits == 32 || bits == 64)
      modifies this
      ensures Valid() && End() == old(End())
      ensures var d := if bits == 32 then Dec32(old(Remaining())) else Dec64(old(Remaining()));
              && ok == d.Value?
              && (ok ==> value == d.n)
              && Remaining() == d.rest
    {
      hide Shifted, DecGroups, ContinuesAs;
      var modulus := if bits == 32 then TWO32 else TWO64;
      ghost var groups, all := if bits == 32 then 5 else 10, Remaining();
      ghost var whole := DecGroups(all, groups);
      ghost var exact: nat, k: nat := 0, 0;
      var bitpos := 0;
      value := 0;
      FirstGroup(whole);
      while true
        invariant Valid() && End() == old(End())
        invariant bitpos == 7 * k && k <= groups
        invariant value == exact % modulus
        invariant ContinuesAs(whole, DecGroups(Remaining(), groups - k), exact, k)
        decreases groups - k
      {
        ghost var before := Remaining();
        NoGroup(whole, before, groups - k, exact, k);
        if bitpos >= bits {
          return false, 0;
        }
        var more, byte := ReadByte();
        if !more {
          return false, 0;
        }
        NextGroup(whole, before, groups - k, exact, k);
        value := OrGroup(value, byte, bitpos, modulus, exact);
        exact := exact + Shifted(byte % 128, k);
        k := k + 1;
        bitpos := bitpos + 7;
        if byte < 128 {
          return true, value;
        }
      }
    }

    /** Whether this stream is to go on with `rest` once `sub` is closed. */
    ghost predicate ParentOf(sub: IStream, rest: seq<Byte>)
      reads this, sub
    {
      && sub.source == source && sub.Valid()
      && sub.End() + bytesLeft <= |source|
      && source[sub.End()..sub.End() + bytesLeft] == rest
    }

    /** pb_make_string_substream. The position of the parent is only put right on closing. */
    method MakeSubstream() returns (sub: IStream?)
      requires Valid()
      modifies this
      ensures Valid()
      ensures (sub != null) == DecDelimited(old(Remaining())).Ok?
      ensures sub == null ==> End() == old(End())
      ensures sub != null ==>
                var d := DecDelimited(old(Remaining())).value;
                && fresh(sub) && sub.Valid() && sub.Remaining() == d.v
                && ParentOf(sub, d.rest) && sub.End() + bytesLeft == old(End())
                && sub.bytesLeft < old(bytesLeft)
    {
      ghost var all := Remaining();
      var ok, size := DecodeVarint(32);
      if !ok || bytesLeft < size {
        return null;
      }
      ghost var tail := Remaining();
      sub := new IStream(source, position, size);
      bytesLeft := bytesLeft - size;
      assert source[sub.position..sub.End()] == tail[..size];
      assert source[sub.End()..sub.End() + bytesLeft] == tail[size..];
    }

    /** pb_close_string_substream: skips what is left of the substream. */
    method CloseSubstream(sub: IStream, ghost rest: seq<Byte>)
      requires this != sub && ParentOf(sub, rest)
      modifies this, sub
      ensures Valid() && Remaining() == rest
      ensures position == old(sub.End()) && bytesLeft == old(bytesLeft)
    {
      var _, _ := sub.Read(sub.bytesLeft);
      position := sub.position;
    }
  }

  /** How reading the groups after the first `k` determines reading them all. */
  ghost predicate ContinuesAs(whole: Varint, tail: Varint, exact: nat, k: nat) {
    match tail
    case Value(n, rest) => whole == Varint.Value(exact + Pow128(k) * n, rest)
    case Bad(rest) => whole == Bad(rest)
  }

  /** `group << 7 * k` */
  function Shifted(group: nat, k: nat): nat {
    group * Pow128(k)
  }

  lemma FirstGroup(whole: Varint)
    ensures ContinuesAs(whole, whole, 0, 0)
  {
  }

  lemma NoGroup(whole: Varint, bs: seq<Byte>, groups: nat, exact: nat, k: nat)
    requires ContinuesAs(whole, DecGroups(bs, groups), exact, k)
    ensures groups == 0 || bs == [] ==> whole == Bad(bs)
  {
  }

  lemma NextGroup(whole: Varint, bs: seq<Byte>, groups: nat, exact: nat, k: nat)
    requires bs != [] && groups > 0
    requires ContinuesAs(whole, DecGroups(bs, groups), exact, k)
    ensures bs[0] < 128 ==> whole == Varint.Value(exact + Shifted(bs[0] % 128, k), bs[1..])
    ensures bs[0] >= 128 ==>
              ContinuesAs(whole, DecGroups(bs[1..], groups - 1), exact + Shifted(bs[0] % 128, k), k + 1)
  {
    if bs[0] >= 128 && DecGroups(bs[1..], groups - 1).Value? {
      Distribute(Pow128(k), bs[0] - 128, DecGroups(bs[1..], groups - 1).n);
      assert Pow128(k + 1) == 128 * Pow128(k);
    } else {
      Distribute(Pow128(k), bs[0], 0);
    }
  }

  lemma Distribute(p: nat, low: nat, high: nat)
    ensures p * (low + 128 * high) == low * p + 128 * p * high
    ensures p * low == low * p
  {
  }

  /** `result |= (byte & 0x7F) << bitpos`, cut to the width of the result. */
  method OrGroup(value: nat, byte: Byte, bitpos: nat, modulus: nat, ghost exact: nat) returns (r: nat)
    requires modulus == TWO32 || modulus == TWO64
    requires value == exact % modulus
    ensures r == (exact + Shifted(byte % 128, bitpos / 7)) % modulus
  {
    ModuloSum(exact, Shifted(byte % 128, bitpos / 7), modulus);
    r := (value + Shifted(byte % 128, bitpos / 7)) % modulus;
  }

  lemma ModuloSum(a: nat, b: nat, m: nat)
    requires m == TWO32 || m == TWO64
    ensures (a % m + b) % m == (a + b) % m
  {
  }

  // ----- Tags and unknown fields -----

  /** pb_decode_tag */
  method DecodeTag(s: IStream) returns (ok: bool, wireType: nat, tag: nat, eof: bool)
    requires s.Valid()
    modifies s
    ensures s.Valid() && s.End() == old(s.End())
    ensures ok == DecTag(old(s.Remaining())).Tag?
    ensures ok ==> DecTag(old(s.Remaining())) == Tag(tag, wireType, s.Remaining())
    ensures !ok ==> eof == (DecTag(old(s.Remaining())) == Header.End)
  {
    var read, n := s.DecodeVarint(32);
    if !read {
      return false, 0, 0, s.bytesLeft == 0;
    }
    if n == 0 {
      return false, 0, 0, true;
    }
    return true, n % 8, n / 8, false;
  }

  method SkipVarintField(s: IStream) returns (ok: bool)
    requires s.Valid()
    modifies s
    ensures s.Valid() && s.End() == old(s.End())
    ensures ok == SkipVarint(old(s.Remaining())).Ok?
    ensures ok ==> s.Remaining() == SkipVarint(old(s.Remaining())).value
  {
    ghost var all := s.Remaining();
    while true
      invariant s.Valid() && s.End() == old(s.End())
      invariant SkipVarint(all) == SkipVarint(s.Remaining())
      decreases s.bytesLeft
    {
      var more, byte := s.ReadByte();
      if !more {
        return false;
      }
      if byte < 128 {
        return true;
      }
    }
  }

  /** pb_skip_field */
  method SkipField(s: IStream, wireType: nat) returns (ok: bool)
    requires s.Valid()
    modifies s
    ensures s.Valid() && s.End() == old(s.End())
    ensures ok == Skip(wireType, old(s.Remaining())).Ok?
    ensures ok ==> s.Remaining() == Skip(wireType, old(s.Remaining())).value
  {
    var skipped: seq<Byte>;
    if wireType == WT_VARINT {
      ok := SkipVarintField(s);
    } else if wireType == WT_64BIT {
      ok, skipped := s.Read(8);
    } else if wireType == WT_STRING {
      var length: nat;
      ok, length := s.DecodeVarint(32);
      if ok {
        ok, skipped := s.Read(length);
      }
    } else if wireType == WT_32BIT {
      ok, skipped := s.Read(4);
    } else {
      ok := false;
    }
  }

  // ----- Values -----

  /** pb_dec_varint, pb_dec_uvarint, pb_dec_svarint, pb_dec_fixed32 and pb_dec_fixed64 */
  method DecodeNumber(s: IStream, lt: LType) returns (ok: bool, v: Value)
    requires s.Valid() && lt.Packable()
    modifies s
    ensures s.Valid() && s.End() == old(s.End())
    ensures ok == DecNumber(lt, old(s.Remaining())).Ok?
    ensures ok ==> DecNumber(lt, old(s.Remaining())) == Ok(PbFormat.Read(v, s.Remaining()))
  {
    v := Int(0);
    if lt.Fixed32? || lt.Fixed64? {
      var bytes: seq<Byte>;
      ok, bytes := s.Read(if lt.Fixed32? then 4 else 8);
      if ok {
        v := Int(FromLittleEndian(bytes));
      }
    } else {
      var n: nat;
      ok, n := s.DecodeVarint(64);
      if ok {
        var narrowed := Narrow(lt, n);
        if narrowed.Err? {
          return false, v;
        }
        v := Int(narrowed.value);
      }
    }
  }

  /** pb_dec_bytes, pb_dec_string and pb_dec_fixed_length_bytes: the size is checked against
      the destination before any byte of the contents is read. */
  method DecodeBlob(s: IStream, lt: LType) returns (ok: bool, v: Value)
    requires s.Valid() && (lt.Bytes? || lt.String? || lt.FixedBytes?)
    requires HasType(lt, Blob([])) || lt.FixedBytes?
    modifies s
    ensures s.Valid() && s.End() == old(s.End())
    ensures var current := if lt.FixedBytes? then Blob(Zeros(lt.size)) else Blob([]);
            var d := DecValue(lt, old(s.Remaining()), current);
            ok == d.Ok? && (ok ==> d == Ok(PbFormat.Read(v, s.Remaining())))
  {
    v := Blob([]);
    var size: nat;
    ok, size := s.DecodeVarint(32);
    if !ok {
      return;
    }
    if lt.FixedBytes? && size == 0 {
      return true, Blob(Zeros(lt.size));
    }
    if (lt.Bytes? && size > lt.capacity) || (lt.String? && size + 1 > lt.size) || (lt.FixedBytes? && size != lt.size) {
      return false, v;
    }
    var data: seq<Byte>;
    ok, data := s.Read(size);
    v := Blob(data);
  }

  /** The field decoders, chosen by type; a submessage is decoded over the current value. */
  method DecodeValue(s: IStream, lt: LType, current: Value) returns (ok: bool, v: Value)
    requires s.Valid() && HasType(lt, current) && TypeWellFormed(lt)
    modifies s
    ensures s.Valid() && s.End() == old(s.End())
    ensures ok == DecValue(lt, old(s.Remaining()), current).Ok?
    ensures ok ==> DecValue(lt, old(s.Remaining()), current) == Ok(PbFormat.Read(v, s.Remaining()))
    decreases s.bytesLeft, 1
  {
    if lt.Packable() {
      ok, v := DecodeNumber(s, lt);
    } else if lt.Submessage? {
      v := current;
      ghost var d := DecDelimited(s.Remaining());
      var sub := s.MakeSubstream();
      if sub == null {
        return false, v;
      }
      var slots: seq<Slot>;
      ok, slots := DecodeOver(sub, lt.fields, current.slots);
      s.CloseSubstream(sub, d.value.rest);
      v := Sub(slots);
    } else {
      ok, v := DecodeBlob(s, lt);
    }
  }

  /** The packed branch of decode_static_field: elements until the substream is used up or the
      array is full. */
  method DecodePackedItems(s: IStream, lt: LType, max: nat, items: seq<Value>) returns (ok: bool, all: seq<Value>)
    requires s.Valid() && lt.Packable()
    requires forall k | 0 <= k < |items| :: HasType(lt, items[k])
    modifies s
    ensures s.Valid() && s.End() == old(s.End())
    ensures ok == DecPacked(lt, max, old(s.Remaining()), items).Ok?
    ensures ok ==> all == DecPacked(lt, max, old(s.Remaining()), items).value
  {
    all := items;
    while s.bytesLeft > 0 && |all| < max
      invariant s.Valid() && s.End() == old(s.End())
      invariant forall k | 0 <= k < |all| :: HasType(lt, all[k])
      invariant DecPacked(lt, max, old(s.Remaining()), items) == DecPacked(lt, max, s.Remaining(), all)
      decreases s.bytesLeft
    {
      var one: Value;
      ok, one := DecodeNumber(s, lt);
      if !ok {
        return;
      }
      all := all + [one];
    }
    ok := s.bytesLeft == 0;
  }

  /** decode_static_field */
  method DecodeFieldInto(s: IStream, fields: seq<Field>, k: nat, wireType: nat, slots: seq<Slot>) returns (ok: bool, after: seq<Slot>)
    requires s.Valid() && WellFormed(fields) && WellTyped(fields, slots) && k < |fields|
    modifies s
    ensures s.Valid() && s.End() == old(s.End())
    ensures ok == DecField(fields, k, wireType, old(s.Remaining()), slots).Ok?
    ensures ok ==> DecField(fields, k, wireType, old(s.Remaining()), slots) == Ok(PbFormat.Read(after, s.Remaining()))
    decreases s.bytesLeft, 2
  {
    var f := fields[k];
    after := slots;
    assert FieldWellFormed(f) && SlotHasType(f, slots[k]);
    if PackedInput(f, wireType) {
      ghost var d := DecDelimited(s.Remaining());
      var sub := s.MakeSubstream();
      if sub == null {
        return false, slots;
      }
      var items: seq<Value>;
      ok, items := DecodePackedItems(sub, f.ltype, f.htype.max, slots[k].items);
      s.CloseSubstream(sub, d.value.rest);
      if ok {
        after := slots[k := Rep(items)];
      }
    } else if f.htype.Repeated? && |slots[k].items| >= f.htype.max {
      ok := false;
    } else {
      var v: Value;
      ok, v := DecodeValue(s, f.ltype, Current(fields, slots, k));
      if ok {
        after := Put(fields, slots, k, v);
      }
    }
  }

  // ----- Messages -----

  /** The mask of required fields agrees with the set of fields seen. */
  ghost predicate MaskMatches(fields: seq<Field>, words: seq<Word>, seen: set<nat>) {
    && |words| == 2
    && RequiredBefore(fields, |fields|) < 64
    && (forall k | k in seen :: k < |fields| && fields[k].htype.Required?)
    && (forall k: nat | k < |fields| && fields[k].htype.Required? ::
          RequiredBefore(fields, k) < 64 && (Marked(words, RequiredBefore(fields, k)) <==> k in seen))
    && (forall j: nat | RequiredBefore(fields, |fields|) <= j < 64 :: !Marked(words, j))
  }

  lemma {:induction false} RequiredGrows(fields: seq<Field>, j: nat, k: nat)
    requires j <= k <= |fields|
    ensures RequiredBefore(fields, j) <= RequiredBefore(fields, k)
    ensures j < k && fields[j].htype.Required? ==> RequiredBefore(fields, j) < RequiredBefore(fields, k)
    decreases k
  {
    if j < k {
      RequiredGrows(fields, j, k - 1);
    }
  }

  /** The required field with a given index among the required ones. */
  lemma {:induction false} NthRequired(fields: seq<Field>, n: nat, i: nat) returns (k: nat)
    requires n <= |fields| && i < RequiredBefore(fields, n)
    ensures k < n && fields[k].htype.Required? && RequiredBefore(fields, k) == i
  {
    if fields[n - 1].htype.Required? && RequiredBefore(fields, n - 1) == i {
      k := n - 1;
    } else {
      k := NthRequired(fields, n - 1, i);
    }
  }

  lemma MaskComplete(fields: seq<Field>, words: seq<Word>, seen: set<nat>)
    requires MaskMatches(fields, words, seen)
    ensures (forall j: nat | j < RequiredBefore(fields, |fields|) :: Marked(words, j)) <==> AllRequiredSeen(fields, seen)
  {
    if AllRequiredSeen(fields, seen) {
      forall j: nat | j < RequiredBefore(fields, |fields|)
        ensures Marked(words, j)
      {
        var k := NthRequired(fields, |fields|, j);
      }
    } else {
      var k :| 0 <= k < |fields| && fields[k].htype.Required? && k !in seen;
      RequiredGrows(fields, k, |fields|);
      assert !Marked(words, RequiredBefore(fields, k));
    }
  }

  /** Marks the field under the iterator if it is required. */
  method MarkField(iter: FieldIter, words: array<Word>, ghost seen: set<nat>)
    requires iter.Valid() && iter.pos < |iter.fields| && words.Length == 2
    requires MaskMatches(iter.fields, words[..], seen)
    modifies words
    ensures MaskMatches(iter.fields, words[..], SeenWith(iter.fields, iter.pos, seen))
  {
    ghost var fields := iter.fields;
    RequiredGrows(fields, iter.pos, |fields|);
    if iter.fields[iter.pos].htype.Required? && iter.requiredIndex < 64 {
      MarkSeen(words, iter.requiredIndex);
      forall k: nat | k < |fields| && fields[k].htype.Required? && k != iter.pos
        ensures RequiredBefore(fields, k) != iter.requiredIndex
      {
        if k < iter.pos {
          RequiredGrows(fields, k, iter.pos);
        } else {
          RequiredGrows(fields, iter.pos, k);
        }
      }
    }
  }

  /** Counts the required fields by running the iterator to the end of the list. */
  method CountRequired(iter: FieldIter) returns (count: nat)
    requires iter.Valid()
    modifies iter
    ensures count == RequiredBefore(iter.fields, |iter.fields|)
  {
    var more := true;
    var lastRequired := false;
    count := 0;
    while more
      invariant iter.Valid()
      invariant !more && iter.fields == [] ==> count == 0
      invariant !more && iter.fields != [] ==>
                  && lastRequired == iter.fields[|iter.fields| - 1].htype.Required?
                  && count == RequiredBefore(iter.fields, |iter.fields| - 1)
      decreases more, |iter.fields| - iter.pos
    {
      count := iter.requiredIndex;
      if iter.fields != [] {
        lastRequired := iter.fields[iter.pos].htype.Required?;
      }
      more := iter.Next();
    }
    if lastRequired && iter.fields != [] {
      count := count + 1;
    }
  }

  /** One turn of the loop, by what the next tag is. */
  lemma LoopTurn(fields: seq<Field>, bs: seq<Byte>, slots: seq<Slot>, seen: set<nat>)
    requires WellFormed(fields) && WellTyped(fields, slots) && bs != []
    ensures var all, h := DecLoop(fields, bs, slots, seen), DecTag(bs);
            if h.End? then all == Ok(Loop(slots, seen, false))
            else if h.Malformed? then all.Err?
            else if Find(fields, h.tag).Some? then
              all == AfterField(fields, slots, seen, Find(fields, h.tag).value, h.wt, h.rest)
            else if fields == [] && h.tag == 0 then all.Err?
            else all == AfterSkip(fields, slots, seen, h.wt, h.rest)
  {
  }

  /** The rest of the loop once a known field was read, and once an unknown one was skipped. */
  ghost function AfterField(fields: seq<Field>, slots: seq<Slot>, seen: set<nat>, k: nat, wireType: nat,
                            bs: seq<Byte>): Result<Loop>
    requires WellFormed(fields) && WellTyped(fields, slots) && k < |fields|
  {
    var d :- DecField(fields, k, wireType, bs, slots);
    DecLoop(fields, d.rest, d.v, SeenWith(fields, k, seen))
  }

  ghost function AfterSkip(fields: seq<Field>, slots: seq<Slot>, seen: set<nat>, wireType: nat,
                           bs: seq<Byte>): Result<Loop>
    requires WellFormed(fields) && WellTyped(fields, slots)
  {
    var rest :- Skip(wireType, bs);
    DecLoop(fields, rest, slots, seen)
  }

  datatype Outcome = GoOn | Stopped | Failed

  /** One turn of the loop of pb_decode_noinit. */
  method DecodeNextField(s: IStream, iter: FieldIter, words: array<Word>, slots: seq<Slot>, ghost seen: set<nat>)
      returns (outcome: Outcome, after: seq<Slot>, ghost seen': set<nat>)
    requires s.Valid() && s.bytesLeft > 0 && iter.Valid() && words.Length == 2
    requires WellFormed(iter.fields) && WellTyped(iter.fields, slots) && MaskMatches(iter.fields, words[..], seen)
    modifies s, iter, words
    ensures s.Valid() && s.End() == old(s.End()) && iter.Valid()
    ensures WellTyped(iter.fields, after)
    ensures MaskMatches(iter.fields, words[..], seen')
    ensures var all := DecLoop(iter.fields, old(s.Remaining()), slots, seen);
            match outcome
            case GoOn => s.bytesLeft < old(s.bytesLeft) && all == DecLoop(iter.fields, s.Remaining(), after, seen')
            case Stopped => all == Ok(Loop(after, seen', false))
            case Failed => all.Err?
    decreases s.bytesLeft, 4
  {
    hide DecLoop, MaskMatches, SeenWith, DecField;
    after, seen' := slots, seen;
    LoopTurn(iter.fields, s.Remaining(), slots, seen);
    var read, wireType, tag, eof := DecodeTag(s);
    if !read {
      outcome := if eof then Stopped else Failed;
      return;
    }
    var found := iter.FindTag(tag);
    if !found {
      var skipped := SkipField(s, wireType);
      outcome := if skipped then GoOn else Failed;
      return;
    }
    if iter.fields == [] {
      outcome := Failed;
      return;
    }
    var decoded;
    decoded, after := DecodeKnownField(s, iter, words, wireType, slots, seen);
    seen' := SeenWith(iter.fields, iter.pos, seen);
    outcome := if decoded then GoOn else Failed;
  }

  /** Marks and decodes the field under the iterator. */
  method DecodeKnownField(s: IStream, iter: FieldIter, words: array<Word>, wireType: nat, slots: seq<Slot>, ghost seen: set<nat>)
      returns (decoded: bool, after: seq<Slot>)
    requires s.Valid() && iter.Valid() && iter.pos < |iter.fields| && words.Length == 2
    requires WellFormed(iter.fields) && WellTyped(iter.fields, slots) && MaskMatches(iter.fields, words[..], seen)
    modifies s, words
    ensures s.Valid() && s.End() == old(s.End())
    ensures WellTyped(iter.fields, after)
    ensures MaskMatches(iter.fields, words[..], SeenWith(iter.fields, iter.pos, seen))
    ensures var d := DecField(iter.fields, iter.pos, wireType, old(s.Remaining()), slots);
            decoded == d.Ok? && (decoded ==> d == Ok(PbFormat.Read(after, s.Remaining())))
    decreases s.bytesLeft, 3
  {
    MarkField(iter, words, seen);
    var next;
    decoded, next := DecodeFieldInto(s, iter.fields, iter.pos, wireType, slots);
    after := if decoded then next else slots;
  }

  /** The loop of pb_decode_noinit. */
  method DecodeFields(s: IStream, iter: FieldIter, words: array<Word>, slots: seq<Slot>)
      returns (ok: bool, after: seq<Slot>, ghost end: Loop)
    requires s.Valid() && iter.Valid() && words.Length == 2
    requires WellFormed(iter.fields) && WellTyped(iter.fields, slots) && MaskMatches(iter.fields, words[..], {})
    modifies s, iter, words
    ensures s.Valid() && s.End() == old(s.End()) && iter.Valid()
    ensures ok == DecLoop(iter.fields, old(s.Remaining()), slots, {}).Ok?
    ensures ok ==> DecLoop(iter.fields, old(s.Remaining()), slots, {}) == Ok(end) && after == end.slots
    ensures ok ==> MaskMatches(iter.fields, words[..], end.seen)
    decreases s.bytesLeft, 5
  {
    end := Loop(slots, {}, true);
    after := slots;
    ghost var all := s.Remaining();
    while s.bytesLeft > 0
      invariant s.Valid() && s.End() == old(s.End()) && s.bytesLeft <= old(s.bytesLeft)
      invariant iter.Valid() && after == end.slots && end.clean
      invariant WellTyped(iter.fields, after) && MaskMatches(iter.fields, words[..], end.seen)
      invariant DecLoop(iter.fields, all, slots, {}) == DecLoop(iter.fields, s.Remaining(), after, end.seen)
      decreases s.bytesLeft
    {
      var outcome;
      ghost var seen;
      outcome, after, seen := DecodeNextField(s, iter, words, after, end.seen);
      end := Loop(after, seen, outcome == GoOn);
      if outcome != GoOn {
        ok := outcome == Stopped;
        return;
      }
    }
    ok := true;
  }

  /** pb_decode_noinit */
  method DecodeOver(s: IStream, fields: seq<Field>, slots: seq<Slot>) returns (ok: bool, after: seq<Slot>)
    requires s.Valid() && WellFormed(fields) && WellTyped(fields, slots)
    modifies s
    ensures s.Valid() && s.End() == old(s.End())
    ensures ok == DecOver(fields, old(s.Remaining()), slots).Ok?
    ensures ok ==> after == DecOver(fields, old(s.Remaining()), slots).value
    decreases s.bytesLeft, 6
  {
    hide MaskMatches, DecLoop, AllRequiredSeen;
    var words := new Word[2](_ => 0);
    var iter := new FieldIter(fields);
    NothingMarked(fields, words[..]);
    ghost var end;
    ghost var all := s.Remaining();
    ok, after, end := DecodeFields(s, iter, words, slots);
    if ok {
      Finished(fields, all, slots, end);
      ok := AllRequiredMarked(iter, words, end.seen);
    }
  }

  /** The end of pb_decode_noinit: are the bits of all required fields set? */
  method AllRequiredMarked(iter: FieldIter, words: array<Word>, ghost seen: set<nat>) returns (ok: bool)
    requires iter.Valid() && WellFormed(iter.fields)
    requires words.Length == 2 && MaskMatches(iter.fields, words[..], seen)
    modifies iter
    ensures ok == AllRequiredSeen(iter.fields, seen)
  {
    var count := CountRequired(iter);
    ok := AllMarked(words, count);
    MaskComplete(iter.fields, words[..], seen);
  }

  lemma Finished(fields: seq<Field>, bs: seq<Byte>, before: seq<Slot>, end: Loop)
    requires WellFormed(fields) && WellTyped(fields, before)
    requires DecLoop(fields, bs, before, {}) == Ok(end)
    ensures DecOver(fields, bs, before)
         == if AllRequiredSeen(fields, end.seen) then Ok(end.slots) else Err("missing required field")
  {
  }

  lemma NothingMarked(fields: seq<Field>, words: seq<Word>)
    requires |words| == 2 && words[0] == 0 && words[1] == 0
    requires RequiredBefore(fields, |fields|) < 64
    ensures MaskMatches(fields, words, {})
  {
    forall j: nat | j < 64
      ensures !Marked(words, j)
    {
      Digits.ZeroHasNoBits(j % 32);
    }
    forall k: nat | k < |fields|
      ensures RequiredBefore(fields, k) < 64
    {
      RequiredGrows(fields, k, |fields|);
    }
  }

  /** pb_decode */
  method DecodeMessage(source: seq<Byte>, fields: seq<Field>) returns (ok: bool, slots: seq<Slot>)
    requires WellFormed(fields)
    ensures ok == Decode(fields, source).Ok?
    ensures ok ==> slots == Decode(fields, source).value
    ensures ok && PbLimits.DefaultsFit(fields) ==> PbLimits.AllFit(fields, slots)
  {
    DefaultsWellTyped(fields);
    var s := new IStream(source, 0, |source|);
    assert s.Remaining() == source;
    ok, slots := DecodeOver(s, fields, Defaults(fields));
    if ok && PbLimits.DefaultsFit(fields) {
      PbLimits.DecodedFits(fields, source);
    }
  }
}
