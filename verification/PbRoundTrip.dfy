/**
 The laws of the nanopb format: decoding is a merge of field after field, unknown fields do
 not matter, and decoding what was encoded gives back the same message.
 */
module PbRoundTrip {
  import opened Basics
  import opened PbWire
  import opened PbSchema
  import opened PbFormat

  // ----- Reading a prefix does not depend on what follows -----

  lemma Dec32Extend(bs: seq<Byte>, more: seq<Byte>)
    requires Dec32(bs).Value?
    ensures Dec32(bs + more) == Varint.Value(Dec32(bs).n, Dec32(bs).rest + more)
  {
    VarintExtend(bs, more, 5);
  }

  lemma DelimitedExtend(bs: seq<Byte>, more: seq<Byte>)
    requires DecDelimited(bs).Ok?
    ensures DecDelimited(bs + more) == Ok(Read(DecDelimited(bs).value.v, DecDelimited(bs).value.rest + more))
  {
    Dec32Extend(bs, more);
    var d := Dec32(bs);
    assert (d.rest + more)[..d.n] == d.rest[..d.n];
    assert (d.rest + more)[d.n..] == d.rest[d.n..] + more;
  }

  lemma NumberExtend(lt: LType, bs: seq<Byte>, more: seq<Byte>)
    requires lt.Packable() && DecNumber(lt, bs).Ok?
    ensures DecNumber(lt, bs + more) == Ok(Read(DecNumber(lt, bs).value.v, DecNumber(lt, bs).value.rest + more))
  {
    if lt.Fixed32? || lt.Fixed64? {
      var size := if lt.Fixed32? then 4 else 8;
      assert (bs + more)[..size] == bs[..size];
      assert (bs + more)[size..] == bs[size..] + more;
    } else {
      VarintExtend(bs, more, 10);
    }
  }

  lemma ValueExtend(lt: LType, bs: seq<Byte>, more: seq<Byte>, current: Value)
    requires HasType(lt, current) && TypeWellFormed(lt) && DecValue(lt, bs, current).Ok?
    ensures DecValue(lt, bs + more, current)
         == Ok(Read(DecValue(lt, bs, current).value.v, DecValue(lt, bs, current).value.rest + more))
  {
    if lt.Packable() {
      NumberExtend(lt, bs, more);
    } else {
      DelimitedExtend(bs, more);
    }
  }

  lemma FieldExtend(fields: seq<Field>, k: nat, wt: nat, bs: seq<Byte>, more: seq<Byte>, slots: seq<Slot>)
    requires WellFormed(fields) && WellTyped(fields, slots) && k < |fields|
    requires DecField(fields, k, wt, bs, slots).Ok?
    ensures DecField(fields, k, wt, bs + more, slots)
         == Ok(Read(DecField(fields, k, wt, bs, slots).value.v, DecField(fields, k, wt, bs, slots).value.rest + more))
  {
    var f := fields[k];
    assert SlotHasType(f, slots[k]);
    if PackedInput(f, wt) {
      DelimitedExtend(bs, more);
    } else {
      ValueExtend(f.ltype, bs, more, Current(fields, slots, k));
    }
  }

  lemma {:induction false} SkipVarintExtend(bs: seq<Byte>, more: seq<Byte>)
    requires SkipVarint(bs).Ok?
    ensures SkipVarint(bs + more) == Ok(SkipVarint(bs).value + more)
  {
    assert (bs + more)[1..] == bs[1..] + more;
    if bs[0] >= 128 {
      SkipVarintExtend(bs[1..], more);
    }
  }

  lemma SkipExtend(wt: nat, bs: seq<Byte>, more: seq<Byte>)
    requires Skip(wt, bs).Ok?
    ensures Skip(wt, bs + more) == Ok(Skip(wt, bs).value + more)
  {
    if wt == WT_VARINT {
      SkipVarintExtend(bs, more);
    } else if wt == WT_STRING {
      DelimitedExtend(bs, more);
    } else {
      var n := if wt == WT_64BIT then 8 else 4;
      assert (bs + more)[n..] == bs[n..] + more;
    }
  }

  // ----- Decoding is a merge -----

  /** The loop over `a ++ b` is the loop over `a`, which must end at a field boundary, and then
      the loop over `b` from the struct that `a` left. */
  lemma {:induction false} LoopAppend(fields: seq<Field>, a: seq<Byte>, b: seq<Byte>, slots: seq<Slot>, seen: set<nat>)
    requires WellFormed(fields) && WellTyped(fields, slots)
    requires DecLoop(fields, a, slots, seen).Ok? && DecLoop(fields, a, slots, seen).value.clean
    ensures var mid := DecLoop(fields, a, slots, seen).value;
            DecLoop(fields, a + b, slots, seen) == DecLoop(fields, b, mid.slots, mid.seen)
    decreases |a|
  {
    if a == [] {
      assert a + b == b;
    } else {
      var h := DecTag(a);
      Dec32Extend(a, b);
      assert DecTag(a + b) == Tag(h.tag, h.wt, h.rest + b);
      match Find(fields, h.tag)
      case Some(k) =>
        FieldExtend(fields, k, h.wt, h.rest, b, slots);
        var d := DecField(fields, k, h.wt, h.rest, slots).value;
        LoopAppend(fields, d.rest, b, d.v, SeenWith(fields, k, seen));
      case None =>
        SkipExtend(h.wt, h.rest, b);
        LoopAppend(fields, Skip(h.wt, h.rest).value, b, slots, seen);
    }
  }

  /** What was seen before only adds to what is seen at the end. */
  lemma {:induction false} SeenAdds(fields: seq<Field>, bs: seq<Byte>, slots: seq<Slot>, more: set<nat>, seen: set<nat>)
    requires WellFormed(fields) && WellTyped(fields, slots)
    ensures var r := DecLoop(fields, bs, slots, seen);
            var r' := DecLoop(fields, bs, slots, more + seen);
            if r.Err? then r' == r else r' == Ok(r.value.(seen := more + r.value.seen))
    decreases |bs|
  {
    if bs != [] && DecTag(bs).Tag? {
      var h := DecTag(bs);
      match Find(fields, h.tag)
      case Some(k) =>
        var d := DecField(fields, k, h.wt, h.rest, slots);
        if d.Ok? {
          assert more + seen + {k} == more + (seen + {k});
          SeenAdds(fields, d.value.rest, d.value.v, more, SeenWith(fields, k, seen));
        }
      case None =>
        if Skip(h.wt, h.rest).Ok? {
          SeenAdds(fields, Skip(h.wt, h.rest).value, slots, more, seen);
        }
    }
  }

  /** If `a` ends at a field boundary, decoding `a ++ b` succeeds exactly when the fields of `b` decode
      into the struct that `a` left and both together have every required field, and gives what `b`
      left: arrays append, submessages merge, unions are replaced. */
  lemma DecodeIsMerge(fields: seq<Field>, a: seq<Byte>, b: seq<Byte>, slots: seq<Slot>)
    requires WellFormed(fields) && WellTyped(fields, slots) && EndsBetween(fields, a, slots, {})
    ensures var mid := DecLoop(fields, a, slots, {}).value;
            var end := DecLoop(fields, b, mid.slots, {});
            && DecOver(fields, a + b, slots)
               == (if end.Err? then Err(end.error)
                   else if AllRequiredSeen(fields, mid.seen + end.value.seen) then Ok(end.value.slots)
                   else Err("missing required field"))
            && (DecOver(fields, b, mid.slots).Ok? ==> DecOver(fields, a + b, slots) == DecOver(fields, b, mid.slots))
  {
    var mid := DecLoop(fields, a, slots, {}).value;
    LoopAppend(fields, a, b, slots, {});
    SeenAdds(fields, b, mid.slots, mid.seen, {});
    assert mid.seen + {} == mid.seen;
  }

  /** The bytes decode, up to a field boundary. */
  ghost predicate EndsBetween(fields: seq<Field>, bs: seq<Byte>, slots: seq<Slot>, seen: set<nat>)
    requires WellFormed(fields) && WellTyped(fields, slots)
  {
    DecLoop(fields, bs, slots, seen).Ok? && DecLoop(fields, bs, slots, seen).value.clean
  }

  /** One whole field whose tag the description does not have. */
  ghost predicate UnknownField(fields: seq<Field>, u: seq<Byte>) {
    var h := DecTag(u);
    h.Tag? && 1 <= h.tag && Find(fields, h.tag) == None && Skip(h.wt, h.rest) == Ok([])
  }

  /** Pieces with an unknown field after each, and then what is left. */
  function Woven(pieces: seq<seq<Byte>>, unknown: seq<seq<Byte>>, last: seq<Byte>): seq<Byte>
    requires |pieces| == |unknown|
    decreases pieces
  {
    if pieces == [] then last else pieces[0] + (unknown[0] + Woven(pieces[1..], unknown[1..], last))
  }

  /** Each of the pieces, one after the other, ends at a field boundary. */
  ghost predicate AllEndBetween(fields: seq<Field>, pieces: seq<seq<Byte>>, slots: seq<Slot>, seen: set<nat>)
    requires WellFormed(fields) && WellTyped(fields, slots)
    decreases pieces
  {
    pieces != [] ==>
      && EndsBetween(fields, pieces[0], slots, seen)
      && var mid := DecLoop(fields, pieces[0], slots, seen).value;
         AllEndBetween(fields, pieces[1..], mid.slots, mid.seen)
  }

  lemma UnknownSkipped(fields: seq<Field>, u: seq<Byte>, b: seq<Byte>, slots: seq<Slot>, seen: set<nat>)
    requires WellFormed(fields) && WellTyped(fields, slots) && UnknownField(fields, u)
    ensures DecLoop(fields, u + b, slots, seen) == DecLoop(fields, b, slots, seen)
  {
    assert u != [];
    assert DecLoop(fields, u, slots, seen) == Ok(Loop(slots, seen, true));
    LoopAppend(fields, u, b, slots, seen);
  }

  lemma {:induction false} LoopSkipsUnknown(fields: seq<Field>, pieces: seq<seq<Byte>>, unknown: seq<seq<Byte>>,
                                            last: seq<Byte>, slots: seq<Slot>, seen: set<nat>)
    requires WellFormed(fields) && WellTyped(fields, slots) && |pieces| == |unknown|
    requires forall u | u in unknown :: UnknownField(fields, u)
    requires AllEndBetween(fields, pieces, slots, seen)
    ensures DecLoop(fields, Woven(pieces, unknown, last), slots, seen)
         == DecLoop(fields, Flatten(pieces) + last, slots, seen)
    decreases pieces
  {
    hide DecLoop, UnknownField;
    if pieces == [] {
      assert Flatten(pieces) + last == last;
    } else {
      var mid := DecLoop(fields, pieces[0], slots, seen).value;
      var others := Woven(pieces[1..], unknown[1..], last);
      LoopAppend(fields, pieces[0], unknown[0] + others, slots, seen);
      UnknownSkipped(fields, unknown[0], others, mid.slots, mid.seen);
      LoopSkipsUnknown(fields, pieces[1..], unknown[1..], last, mid.slots, mid.seen);
      LoopAppend(fields, pieces[0], Flatten(pieces[1..]) + last, slots, seen);
      Associative(pieces[0], Flatten(pieces[1..]), last);
    }
  }

  /** Unknown fields put in at field boundaries, any number of them, change nothing. */
  lemma UnknownFieldsIgnored(fields: seq<Field>, pieces: seq<seq<Byte>>, unknown: seq<seq<Byte>>, last: seq<Byte>,
                             slots: seq<Slot>)
    requires WellFormed(fields) && WellTyped(fields, slots) && |pieces| == |unknown|
    requires forall u | u in unknown :: UnknownField(fields, u)
    requires AllEndBetween(fields, pieces, slots, {})
    ensures DecOver(fields, Woven(pieces, unknown, last), slots) == DecOver(fields, Flatten(pieces) + last, slots)
  {
    hide DecLoop, UnknownField, AllEndBetween;
    LoopSkipsUnknown(fields, pieces, unknown, last, slots, {});
  }

  /** A nested message is decoded from the bytes its length prefix covers, whatever follows. */
  lemma NestedStaysInside(fields: seq<Field>, data: seq<Byte>, rest: seq<Byte>, slots: seq<Slot>)
    requires WellFormed(fields) && WellTyped(fields, slots) && |data| < TWO32
    ensures var inner := DecOver(fields, data, slots);
            var outer := DecValue(Submessage(fields), LengthPrefixed(data) + rest, Sub(slots));
            outer == if inner.Ok? then Ok(Read(Sub(inner.value), rest)) else Err(inner.error)
  {
    DelimitedRoundTrip(data, rest);
  }

  // ----- The round trip -----

  lemma DelimitedRoundTrip(data: seq<Byte>, rest: seq<Byte>)
    requires |data| < TWO32
    ensures DecDelimited(LengthPrefixed(data) + rest) == Ok(Read(data, rest))
  {
    Varint32RoundTrip(|data|, data + rest);
    assert LengthPrefixed(data) + rest == EncVarint(|data|) + (data + rest);
  }

  lemma TagRoundTrip(tag: nat, wt: nat, rest: seq<Byte>)
    requires 1 <= tag < 0x2000_0000 && wt < 8
    ensures DecTag(EncTag(tag, wt) + rest) == Tag(tag, wt, rest)
  {
    Varint32RoundTrip(tag * 8 + wt, rest);
  }

  lemma FindsItsTag(fields: seq<Field>, k: nat)
    requires DistinctTags(fields) && k < |fields|
    ensures Find(fields, fields[k].tag) == Some(k)
  {
    var found := Find(fields, fields[k].tag);
    assert found.Some?;
    if found.value < k {
    } else if k < found.value {
    }
  }

  lemma NumberRoundTrip(lt: LType, i: int, rest: seq<Byte>)
    requires lt.Packable() && HasType(lt, Int(i))
    ensures DecNumber(lt, EncNumber(lt, i) + rest) == Ok(Read(Int(i), rest))
  {
    hide EncVarint, LittleEndian, FromLittleEndian, Pow256, Dec64, ToU64, ZigZag, Truncate, ToSigned, UnZigZag;
    var bs := EncNumber(lt, i);
    if lt.Fixed32? || lt.Fixed64? {
      Pow256Values();
      LittleEndianRoundTrip(i, |bs|);
      assert (bs + rest)[..|bs|] == bs;
      assert (bs + rest)[|bs|..] == rest;
    } else {
      NarrowRoundTrip(i, lt.size);
      Varint64RoundTrip(if lt.Varint? then ToU64(i) else if lt.Uvarint? then i else ZigZag(i), rest);
    }
  }

  lemma {:induction false} PackedRoundTrip(lt: LType, max: nat, items: seq<Value>, i: nat)
    requires lt.Packable() && i <= |items| <= max
    requires forall k | 0 <= k < |items| :: HasType(lt, items[k])
    ensures DecPacked(lt, max, EncPacked(lt, items, i), items[..i]) == Ok(items)
    decreases |items| - i
  {
    hide DecNumber, EncNumber;
    if i == |items| {
      assert items[..i] == items;
    } else {
      assert HasType(lt, items[i]);
      NumberRoundTrip(lt, items[i].i, EncPacked(lt, items, i + 1));
      assert items[..i] + [items[i]] == items[..i + 1];
      PackedRoundTrip(lt, max, items, i + 1);
    }
  }

  /** Reading back a value gives its normal form; a submessage is read over its defaults. */
  lemma {:induction false} ValueRoundTrip(lt: LType, v: Value, rest: seq<Byte>, current: Value)
    requires HasType(lt, v) && TypeWellFormed(lt) && Terminated(lt, v) && HasType(lt, current)
    requires lt.Submessage? ==> current == Sub(Defaults(lt.fields))
    requires EncValue(lt, v).Ok? && |EncValue(lt, v).value| < TWO32
    ensures DecValue(lt, EncValue(lt, v).value + rest, current) == Ok(Read(NormalValue(lt, v), rest))
    decreases lt, 0
  {
    match lt
    case Bytes(_) => DelimitedRoundTrip(v.data, rest);
    case String(_) => DelimitedRoundTrip(CString(v.data), rest);
    case FixedBytes(size) =>
      DelimitedRoundTrip(v.data, rest);
      assert size == 0 ==> v.data == Zeros(size);
    case Submessage(fields) =>
      DelimitedRoundTrip(EncFrom(fields, v.slots, 0).value, rest);
      MessageRoundTrip(fields, v.slots);
    case _ => NumberRoundTrip(lt, v.i, rest);
  }

  lemma {:induction false} NormalHasType(lt: LType, v: Value)
    requires HasType(lt, v) && TypeWellFormed(lt)
    ensures HasType(lt, NormalValue(lt, v))
    decreases lt, 0
  {
    if lt.Submessage? {
      NormalWellTyped(lt.fields, v.slots);
    }
  }

  lemma {:induction false} NormalSlotHasType(f: Field, s: Slot)
    requires FieldWellFormed(f) && SlotHasType(f, s)
    ensures SlotHasType(f, NormalSlot(f, s))
    decreases f, 0
  {
    DefaultSlotHasType(f);
    match s
    case Req(v) => NormalHasType(f.ltype, v);
    case Opt(_, v) => NormalHasType(f.ltype, v);
    case Rep(items) =>
      forall j | 0 <= j < |items|
        ensures HasType(f.ltype, NormalItems(f.ltype, items)[j])
      {
        NormalHasType(f.ltype, items[j]);
      }
    case Alt(c) => if c.Some? { NormalHasType(f.ltype, c.value); }
  }

  lemma {:induction false} NormalWellTyped(fields: seq<Field>, slots: seq<Slot>)
    requires WellFormed(fields) && WellTyped(fields, slots)
    ensures WellTyped(fields, Normal(fields, slots))
    decreases fields, 0
  {
    forall k | 0 <= k < |fields|
      ensures SlotHasType(fields[k], Normal(fields, slots)[k])
    {
      NormalSlotHasType(fields[k], slots[k]);
    }
    StaysExclusive(fields, slots, Normal(fields, slots));
  }

  /** A union that was not chosen stays so in every form of the struct that keeps or unsets its slots. */
  lemma StaysExclusive(fields: seq<Field>, slots: seq<Slot>, m: seq<Slot>)
    requires |slots| == |m| == |fields| && Exclusive(fields, slots)
    requires forall k | 0 <= k < |fields| && fields[k].htype.Oneof? && slots[k] == Alt(None) :: m[k] == Alt(None)
    ensures Exclusive(fields, m)
  {
    forall j, k | 0 <= j < k < |fields| && fields[j].htype.Oneof? && fields[k].htype == fields[j].htype
      ensures m[j] == Alt(None) || m[k] == Alt(None)
    {
      assert slots[j] == Alt(None) || slots[k] == Alt(None);
    }
  }

  /** The struct once the first `i` fields were read back. */
  function Mixed(fields: seq<Field>, slots: seq<Slot>, i: nat): seq<Slot>
    requires |slots| == |fields| && i <= |fields|
  {
    Normal(fields, slots)[..i] + Defaults(fields)[i..]
  }

  function RequiredIndices(fields: seq<Field>, n: nat): set<nat>
    requires n <= |fields|
  {
    set k: nat | k < n && fields[k].htype.Required?
  }

  lemma MixedWellTyped(fields: seq<Field>, slots: seq<Slot>, i: nat)
    requires WellFormed(fields) && WellTyped(fields, slots) && i <= |fields|
    ensures WellTyped(fields, Mixed(fields, slots, i))
  {
    NormalWellTyped(fields, slots);
    DefaultsWellTyped(fields);
    var m := Mixed(fields, slots, i);
    forall k | 0 <= k < |fields|
      ensures SlotHasType(fields[k], m[k])
    {
      assert SlotHasType(fields[k], Normal(fields, slots)[k]) && SlotHasType(fields[k], Defaults(fields)[k]);
    }
    StaysExclusive(fields, slots, m);
  }

  /** Reading back one tagged value stores its normal form. */
  lemma {:induction false} TaggedRoundTrip(fields: seq<Field>, k: nat, v: Value, slots: seq<Slot>, seen: set<nat>)
    requires WellFormed(fields) && WellTyped(fields, slots) && k < |fields|
    requires HasType(fields[k].ltype, v) && Terminated(fields[k].ltype, v)
    requires fields[k].ltype.Submessage? ==> Current(fields, slots, k) == DefaultValue(fields[k])
    requires fields[k].htype.Repeated? ==>
               !fields[k].ltype.Packable() && slots[k].Rep? && |slots[k].items| < fields[k].htype.max
    requires EncTagged(fields[k], v).Ok? && |EncTagged(fields[k], v).value| < TWO32
    ensures HasType(fields[k].ltype, NormalValue(fields[k].ltype, v))
    ensures DecLoop(fields, EncTagged(fields[k], v).value, slots, seen)
         == Ok(Loop(Put(fields, slots, k, NormalValue(fields[k].ltype, v)),
                    SeenWith(fields, k, seen), true))
    decreases fields[k], 1
  {
    var f := fields[k];
    assert FieldWellFormed(f);
    var body := EncValue(f.ltype, v).value;
    NormalHasType(f.ltype, v);
    TagRoundTrip(f.tag, WireType(f.ltype), body);
    FindsItsTag(fields, k);
    ValueRoundTrip(f.ltype, v, [], Current(fields, slots, k));
    assert body + [] == body;
    assert DecField(fields, k, WireType(f.ltype), body, slots)
        == Ok(Read(Put(fields, slots, k, NormalValue(f.ltype, v)), []));
  }

  lemma TakeOneMore<T>(s: seq<T>, i: nat)
    requires i < |s|
    ensures s[..i] + [s[i]] == s[..i + 1]
  {
  }

  lemma {:induction false} ItemsRoundTrip(fields: seq<Field>, k: nat, items: seq<Value>, i: nat, slots: seq<Slot>, seen: set<nat>)
    requires WellFormed(fields) && WellTyped(fields, slots) && k < |fields|
    requires fields[k].htype.Repeated? && !fields[k].ltype.Packable()
    requires i <= |items| <= fields[k].htype.max
    requires forall j | 0 <= j < |items| :: HasType(fields[k].ltype, items[j]) && Terminated(fields[k].ltype, items[j])
    requires slots[k] == Rep(NormalItems(fields[k].ltype, items)[..i])
    requires EncItems(fields[k], items, i).Ok? && |EncItems(fields[k], items, i).value| < TWO32
    ensures DecLoop(fields, EncItems(fields[k], items, i).value, slots, seen)
         == Ok(Loop(slots[k := Rep(NormalItems(fields[k].ltype, items))], seen, true))
    decreases fields, 2, |items| - i
  {
    var f := fields[k];
    var all := NormalItems(f.ltype, items);
    if i == |items| {
      assert all[..i] == all;
      assert slots[k := slots[k]] == slots;
    } else {
      var one, others := EncTagged(f, items[i]).value, EncItems(f, items, i + 1).value;
      TaggedRoundTrip(fields, k, items[i], slots, seen);
      TakeOneMore(all, i);
      var next := slots[k := Rep(all[..i + 1])];
      assert Put(fields, slots, k, all[i]) == next;
      assert next[k := Rep(all)] == slots[k := Rep(all)];
      ItemsRoundTrip(fields, k, items, i + 1, next, seen);
      LoopAppend(fields, one, others, slots, seen);
    }
  }

  /** How the struct and the required fields seen change over the `i`th field. */
  lemma MixedStep(fields: seq<Field>, slots: seq<Slot>, i: nat)
    requires |slots| == |fields| && i < |fields|
    ensures Mixed(fields, slots, i)[i] == DefaultSlot(fields[i])
    ensures Mixed(fields, slots, i + 1) == Mixed(fields, slots, i)[i := NormalSlot(fields[i], slots[i])]
    ensures RequiredIndices(fields, i + 1)
         == if fields[i].htype.Required? then RequiredIndices(fields, i) + {i} else RequiredIndices(fields, i)
  {
    SpliceStep(Normal(fields, slots), Defaults(fields), i);
  }

  lemma SpliceStep<T>(a: seq<T>, b: seq<T>, i: nat)
    requires i < |a| == |b|
    ensures (a[..i] + b[i..])[i] == b[i]
    ensures a[..i + 1] + b[i + 1..] == (a[..i] + b[i..])[i := a[i]]
  {
  }

  /** A slot that writes nothing is in its default state already. */
  lemma SilentSlot(fields: seq<Field>, slots: seq<Slot>, i: nat)
    requires |slots| == |fields| && i < |fields|
    requires NormalSlot(fields[i], slots[i]) == DefaultSlot(fields[i]) && !fields[i].htype.Required?
    ensures Mixed(fields, slots, i + 1) == Mixed(fields, slots, i)
    ensures RequiredIndices(fields, i + 1) == RequiredIndices(fields, i)
  {
    MixedStep(fields, slots, i);
  }

  /** Reading back what the `i`th field wrote moves the struct one field on. */
  lemma {:induction false} SlotRoundTrip(fields: seq<Field>, slots: seq<Slot>, i: nat)
    requires WellFormed(fields) && WellTyped(fields, slots) && AllTerminated(fields, slots) && i < |fields|
    requires EncSlot(fields[i], slots[i]).Ok? && |EncSlot(fields[i], slots[i]).value| < TWO32
    ensures WellTyped(fields, Mixed(fields, slots, i))
    ensures DecLoop(fields, EncSlot(fields[i], slots[i]).value, Mixed(fields, slots, i), RequiredIndices(fields, i))
         == Ok(Loop(Mixed(fields, slots, i + 1), RequiredIndices(fields, i + 1), true))
    decreases fields, 3
  {
    var f, s, before, seen := fields[i], slots[i], Mixed(fields, slots, i), RequiredIndices(fields, i);
    MixedWellTyped(fields, slots, i);
    MixedStep(fields, slots, i);
    assert SlotTerminated(f, s) && SlotHasType(f, s);
    match s {
      case Req(v) => TaggedRoundTrip(fields, i, v, before, seen);
      case Opt(has, v) =>
        if has {
          TaggedRoundTrip(fields, i, v, before, seen);
        } else {
          SilentSlot(fields, slots, i);
        }
      case Rep(items) =>
        if items == [] {
          SilentSlot(fields, slots, i);
        } else if f.ltype.Packable() {
          PackedFieldRoundTrip(fields, i, items, before, seen);
        } else {
          ItemsRoundTrip(fields, i, items, 0, before, seen);
        }
      case Alt(c) =>
        if c.Some? {
          TaggedRoundTrip(fields, i, c.value, before, seen);
          OthersUnchosen(fields, slots, i);
        } else {
          SilentSlot(fields, slots, i);
        }
    }
  }

  lemma PackedFieldRoundTrip(fields: seq<Field>, k: nat, items: seq<Value>, slots: seq<Slot>, seen: set<nat>)
    requires WellFormed(fields) && WellTyped(fields, slots) && k < |fields|
    requires fields[k].htype.Repeated? && fields[k].ltype.Packable() && items != []
    requires slots[k] == Rep([])
    requires SlotHasType(fields[k], Rep(items)) && EncSlot(fields[k], Rep(items)).Ok?
    requires |EncSlot(fields[k], Rep(items)).value| < TWO32
    ensures DecLoop(fields, EncSlot(fields[k], Rep(items)).value, slots, seen)
         == Ok(Loop(slots[k := Rep(NormalItems(fields[k].ltype, items))], seen, true))
  {
    var f := fields[k];
    assert FieldWellFormed(f);
    var payload := EncPacked(f.ltype, items, 0);
    TagRoundTrip(f.tag, WT_STRING, LengthPrefixed(payload));
    FindsItsTag(fields, k);
    DelimitedRoundTrip(payload, []);
    assert LengthPrefixed(payload) + [] == LengthPrefixed(payload);
    PackedRoundTrip(f.ltype, f.htype.max, items, 0);
    assert items[..0] == [];
    assert NormalItems(f.ltype, items) == items;
  }

  lemma OthersUnchosen(fields: seq<Field>, slots: seq<Slot>, i: nat)
    requires WellFormed(fields) && WellTyped(fields, slots) && i < |fields|
    requires fields[i].htype.Oneof? && slots[i].Alt? && slots[i].choice.Some?
    requires WellTyped(fields, Mixed(fields, slots, i)) && HasType(fields[i].ltype, NormalValue(fields[i].ltype, slots[i].choice.value))
    ensures Choose(fields, Mixed(fields, slots, i), i, NormalValue(fields[i].ltype, slots[i].choice.value))
         == Mixed(fields, slots, i + 1)
  {
    hide Mixed, NormalValue;
    var m, v := Mixed(fields, slots, i), NormalValue(fields[i].ltype, slots[i].choice.value);
    MixedStep(fields, slots, i);
    forall j | 0 <= j < |fields| && j != i && fields[j].htype == fields[i].htype
      ensures m[j] == Alt(None)
    {
      MemberUnchosen(fields, slots, i, j);
    }
    assert Choose(fields, m, i, v) == m[i := Alt(Some(v))];
  }

  lemma MixedAt(fields: seq<Field>, slots: seq<Slot>, i: nat, j: nat)
    requires |slots| == |fields| && i <= |fields| && j < |fields|
    ensures Mixed(fields, slots, i)[j] == if j < i then NormalSlot(fields[j], slots[j]) else DefaultSlot(fields[j])
  {
    hide NormalSlot, DefaultSlot, Normal, Defaults;
  }

  lemma MemberUnchosen(fields: seq<Field>, slots: seq<Slot>, i: nat, j: nat)
    requires WellTyped(fields, slots) && i < |fields| && j < |fields| && j != i
    requires fields[i].htype.Oneof? && fields[j].htype == fields[i].htype
    requires slots[i].Alt? && slots[i].choice.Some?
    ensures Mixed(fields, slots, i)[j] == Alt(None)
  {
    hide NormalValue, NormalItems, DefaultValue, HasType, SlotHasType, Mixed, Normal, Defaults;
    assert slots[j] == Alt(None) by {
      assert slots[if i < j then i else j] == Alt(None) || slots[if i < j then j else i] == Alt(None);
    }
    MixedAt(fields, slots, i, j);
  }

  lemma {:induction false} MessageRoundTripFrom(fields: seq<Field>, slots: seq<Slot>, i: nat)
    requires WellFormed(fields) && WellTyped(fields, slots) && AllTerminated(fields, slots) && i <= |fields|
    requires EncFrom(fields, slots, i).Ok? && |EncFrom(fields, slots, i).value| < TWO32
    ensures WellTyped(fields, Mixed(fields, slots, i))
    ensures DecLoop(fields, EncFrom(fields, slots, i).value, Mixed(fields, slots, i), RequiredIndices(fields, i))
         == Ok(Loop(Normal(fields, slots), RequiredIndices(fields, |fields|), true))
    decreases fields, 4, |fields| - i
  {
    hide *;
    OneSlotEach(fields, slots);
    MixedWellTyped(fields, slots, i);
    if i == |fields| {
      NothingLeft(fields, slots);
    } else {
      var one, others := MessageSplit(fields, slots, i);
      SlotRoundTrip(fields, slots, i);
      MessageRoundTripFrom(fields, slots, i + 1);
      LoopAppend(fields, one, others, Mixed(fields, slots, i), RequiredIndices(fields, i));
    }
  }

  lemma OneSlotEach(fields: seq<Field>, slots: seq<Slot>)
    requires WellTyped(fields, slots)
    ensures |slots| == |fields|
  {
  }

  lemma MessageSplit(fields: seq<Field>, slots: seq<Slot>, i: nat) returns (one: seq<Byte>, others: seq<Byte>)
    requires WellTyped(fields, slots) && i < |fields| && EncFrom(fields, slots, i).Ok?
    ensures SlotHasType(fields[i], slots[i]) && EncSlot(fields[i], slots[i]) == Ok(one)
    ensures EncFrom(fields, slots, i + 1) == Ok(others) && EncFrom(fields, slots, i).value == one + others
  {
    one, others := EncSlot(fields[i], slots[i]).value, EncFrom(fields, slots, i + 1).value;
  }

  lemma NothingLeft(fields: seq<Field>, slots: seq<Slot>)
    requires WellFormed(fields) && WellTyped(fields, slots)
    requires WellTyped(fields, Mixed(fields, slots, |fields|))
    ensures EncFrom(fields, slots, |fields|) == Ok([]) && Mixed(fields, slots, |fields|) == Normal(fields, slots)
    ensures DecLoop(fields, [], Mixed(fields, slots, |fields|), RequiredIndices(fields, |fields|))
         == Ok(Loop(Normal(fields, slots), RequiredIndices(fields, |fields|), true))
  {
    hide Normal, Defaults, WellFormed, DecField;
  }

  lemma NothingReadYet(fields: seq<Field>, slots: seq<Slot>)
    requires |slots| == |fields|
    ensures Mixed(fields, slots, 0) == Defaults(fields) && RequiredIndices(fields, 0) == {}
  {
    SpliceStart(Normal(fields, slots), Defaults(fields));
  }

  lemma SpliceStart<T>(a: seq<T>, b: seq<T>)
    ensures a[..0] + b[0..] == b
  {
  }

  lemma EndOfLoop(fields: seq<Field>, bs: seq<Byte>, before: seq<Slot>, end: seq<Slot>)
    requires WellFormed(fields) && WellTyped(fields, before)
    requires DecLoop(fields, bs, before, {}) == Ok(Loop(end, RequiredIndices(fields, |fields|), true))
    ensures DecOver(fields, bs, before) == Ok(end)
  {
  }

  /** Decoding what was encoded gives back the message, for every description and every
      message that can be encoded. */
  lemma {:induction false} MessageRoundTrip(fields: seq<Field>, slots: seq<Slot>)
    requires WellFormed(fields) && WellTyped(fields, slots) && AllTerminated(fields, slots)
    requires Encode(fields, slots).Ok? && |Encode(fields, slots).value| < TWO32
    ensures Decode(fields, Encode(fields, slots).value) == Ok(Normal(fields, slots))
    decreases fields, 5
  {
    MessageRoundTripFrom(fields, slots, 0);
    NothingReadYet(fields, slots);
    EndOfLoop(fields, Encode(fields, slots).value, Defaults(fields), Normal(fields, slots));
  }
}
