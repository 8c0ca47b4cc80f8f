/**
 What the C structs of nanopb have room for, said of the values alone, and what that has to do
 with the encoder and the decoder: a decoded message always fits, and a message can be encoded
 exactly when no array or byte string in it is longer than its field allows.
 */
module PbLimits {
  import opened Basics
  import opened PbFormat
  import opened PbRoundTrip
  import opened PbSchema
  import opened PbWire

  // ----- What has room -----

  /** A string is terminated inside its buffer, and bytes lie within theirs. */
  ghost predicate Fits(lt: LType, v: Value)
    decreases lt, 0
  {
    match lt
    case Bytes(capacity) => v.Blob? && |v.data| <= capacity
    case String(size) => v.Blob? && |v.data| < size
    case FixedBytes(size) => v.Blob? && |v.data| == size
    case Submessage(fields) => v.Sub? && AllFit(fields, v.slots)
    case _ => HasType(lt, v)
  }

  ghost predicate SlotFits(f: Field, s: Slot)
    decreases f, 0
  {
    match s
    case Req(v) => Fits(f.ltype, v)
    case Opt(_, v) => Fits(f.ltype, v)
    case Rep(items) =>
      (f.htype.Repeated? ==> |items| <= f.htype.max) && forall k | 0 <= k < |items| :: Fits(f.ltype, items[k])
    case Alt(c) => c.Some? ==> Fits(f.ltype, c.value)
  }

  ghost predicate AllFit(fields: seq<Field>, slots: seq<Slot>)
    decreases fields, 0
  {
    |slots| == |fields| && forall k | 0 <= k < |fields| :: SlotFits(fields[k], slots[k])
  }

  /** The defaults of a description fit, at every depth. */
  ghost predicate DefaultsFit(fields: seq<Field>)
    decreases fields, 0
  {
    forall k | 0 <= k < |fields| :: DefaultFits(fields[k])
  }

  ghost predicate DefaultFits(f: Field)
    decreases f, 0
  {
    if f.ltype.Submessage? then DefaultsFit(f.ltype.fields) else Fits(f.ltype, f.default)
  }

  lemma {:induction false} DefaultsAllFit(fields: seq<Field>)
    requires DefaultsFit(fields)
    ensures AllFit(fields, Defaults(fields))
    decreases fields, 1
  {
    forall k | 0 <= k < |fields|
      ensures SlotFits(fields[k], Defaults(fields)[k])
    {
      DefaultValueFits(fields[k]);
    }
  }

  lemma {:induction false} DefaultValueFits(f: Field)
    requires DefaultFits(f)
    ensures Fits(f.ltype, DefaultValue(f))
    decreases f, 1
  {
    if f.ltype.Submessage? {
      DefaultsAllFit(f.ltype.fields);
    }
  }

  // ----- What is decoded fits -----

  lemma {:induction false} PackedFits(lt: LType, max: nat, bs: seq<Byte>, items: seq<Value>)
    requires lt.Packable() && |items| <= max
    requires forall k | 0 <= k < |items| :: HasType(lt, items[k])
    requires DecPacked(lt, max, bs, items).Ok?
    ensures |DecPacked(lt, max, bs, items).value| <= max
    decreases |bs|
  {
    if bs != [] {
      var one := DecNumber(lt, bs).value;
      PackedFits(lt, max, one.rest, items + [one.v]);
    }
  }

  lemma {:induction false} ValueFits(lt: LType, bs: seq<Byte>, current: Value)
    requires HasType(lt, current) && TypeWellFormed(lt) && DecValue(lt, bs, current).Ok?
    requires lt.Submessage? ==> Fits(lt, current) && DefaultsFit(lt.fields)
    ensures Fits(lt, DecValue(lt, bs, current).value.v)
    decreases |bs|, 1
  {
    if lt.Submessage? {
      OverFits(lt.fields, DecDelimited(bs).value.v, current.slots);
    }
  }

  lemma {:induction false} FieldFits(fields: seq<Field>, k: nat, wt: nat, bs: seq<Byte>, slots: seq<Slot>)
    requires WellFormed(fields) && WellTyped(fields, slots) && k < |fields|
    requires AllFit(fields, slots) && DefaultsFit(fields) && DecField(fields, k, wt, bs, slots).Ok?
    ensures AllFit(fields, DecField(fields, k, wt, bs, slots).value.v)
    decreases |bs|, 2
  {
    var f := fields[k];
    assert FieldWellFormed(f) && SlotHasType(f, slots[k]) && SlotFits(f, slots[k]) && DefaultFits(f);
    if PackedInput(f, wt) {
      PackedFits(f.ltype, f.htype.max, DecDelimited(bs).value.v, slots[k].items);
    } else {
      DefaultValueFits(f);
      ValueFits(f.ltype, bs, Current(fields, slots, k));
    }
  }

  lemma {:induction false} LoopFits(fields: seq<Field>, bs: seq<Byte>, slots: seq<Slot>, seen: set<nat>)
    requires WellFormed(fields) && WellTyped(fields, slots)
    requires AllFit(fields, slots) && DefaultsFit(fields) && DecLoop(fields, bs, slots, seen).Ok?
    ensures AllFit(fields, DecLoop(fields, bs, slots, seen).value.slots)
    decreases |bs|, 3
  {
    if bs != [] && DecTag(bs).Tag? {
      var h := DecTag(bs);
      match Find(fields, h.tag)
      case Some(k) =>
        FieldFits(fields, k, h.wt, h.rest, slots);
        var d := DecField(fields, k, h.wt, h.rest, slots).value;
        LoopFits(fields, d.rest, d.v, SeenWith(fields, k, seen));
      case None =>
        LoopFits(fields, Skip(h.wt, h.rest).value, slots, seen);
    }
  }

  /** Decoding into a struct whose values fit leaves one whose values fit. */
  lemma {:induction false} OverFits(fields: seq<Field>, bs: seq<Byte>, slots: seq<Slot>)
    requires WellFormed(fields) && WellTyped(fields, slots)
    requires AllFit(fields, slots) && DefaultsFit(fields) && DecOver(fields, bs, slots).Ok?
    ensures AllFit(fields, DecOver(fields, bs, slots).value)
    decreases |bs|, 4
  {
    LoopFits(fields, bs, slots, {});
  }

  /** Whatever the bytes, a message that is decoded fits the struct: every string with its terminator,
      every byte string and every array, at any depth. */
  lemma DecodedFits(fields: seq<Field>, bs: seq<Byte>)
    requires WellFormed(fields) && DefaultsFit(fields) && Decode(fields, bs).Ok?
    ensures AllFit(fields, Decode(fields, bs).value)
  {
    DefaultsWellTyped(fields);
    DefaultsAllFit(fields);
    OverFits(fields, bs, Defaults(fields));
  }

  /** And nothing that fits is refused: of the contents a length prefix announces, exactly those that
      fit are taken, and an empty fixed-length byte string stands for zeros. */
  lemma BlobAccepted(lt: LType, data: seq<Byte>, rest: seq<Byte>, current: Value)
    requires (lt.Bytes? || lt.String? || lt.FixedBytes?) && HasType(lt, current) && |data| < TWO32
    ensures var d := DecValue(lt, LengthPrefixed(data) + rest, current);
            && (d.Ok? <==> Fits(lt, Blob(data)) || (lt.FixedBytes? && data == []))
            && (d.Ok? ==> d.value.rest == rest && d.value.v.Blob?)
            && (d.Ok? && Fits(lt, Blob(data)) ==> d.value.v.data == data)
            && (d.Ok? && !Fits(lt, Blob(data)) ==> |d.value.v.data| == lt.size && forall b | b in d.value.v.data :: b == 0)
  {
    DelimitedRoundTrip(data, rest);
    if lt.FixedBytes? {
      assert lt.size == 0 ==> Zeros(lt.size) == [];
    }
  }

  /** The elements of a packed array are taken, after those already there, exactly when there is room
      for all of them. */
  lemma {:induction false} PackedAccepted(lt: LType, max: nat, before: seq<Value>, items: seq<Value>, i: nat)
    requires PackableItems(lt, items) && PackableItems(lt, before) && i < |items|
    ensures var d := DecPacked(lt, max, EncPacked(lt, items, i), before);
            && (d.Ok? <==> |before| + (|items| - i) <= max)
            && (d.Ok? ==> d.value == before + items[i..])
    decreases |items| - i
  {
    hide DecNumber, EncNumber, HasType;
    assert HasType(lt, items[i]) && items[i].Int? by {
      IntItem(lt, items, i);
    }
    var more := EncPacked(lt, items, i + 1);
    NumberRoundTrip(lt, items[i].i, more);
    assert EncPacked(lt, items, i) == EncNumber(lt, items[i].i) + more;
    if |before| < max {
      assert before + [items[i]] + items[i + 1..] == before + items[i..];
      if i + 1 < |items| {
        PackedAccepted(lt, max, before + [items[i]], items, i + 1);
      } else {
        assert more == [];
      }
    }
  }

  lemma IntItem(lt: LType, items: seq<Value>, i: nat)
    requires PackableItems(lt, items) && i < |items|
    ensures HasType(lt, items[i]) && items[i].Int?
  {
    assert HasType(lt, items[i]);
  }

  // ----- What can be encoded -----

  ghost predicate Encodable(lt: LType, v: Value)
    decreases lt, 0
  {
    match lt
    case Bytes(capacity) => v.Blob? ==> |v.data| <= capacity
    case Submessage(fields) => v.Sub? ==> AllEncodable(fields, v.slots)
    case _ => true
  }

  /** Only what is written matters: not an absent field, nor an unchosen member of a union. */
  ghost predicate SlotEncodable(f: Field, s: Slot)
    decreases f, 0
  {
    match s
    case Req(v) => Encodable(f.ltype, v)
    case Opt(has, v) => has ==> Encodable(f.ltype, v)
    case Rep(items) =>
      (f.htype.Repeated? ==> |items| <= f.htype.max) && forall k | 0 <= k < |items| :: Encodable(f.ltype, items[k])
    case Alt(c) => c.Some? ==> Encodable(f.ltype, c.value)
  }

  ghost predicate AllEncodable(fields: seq<Field>, slots: seq<Slot>)
    decreases fields, 0
  {
    |slots| == |fields| ==> forall k | 0 <= k < |fields| :: SlotEncodable(fields[k], slots[k])
  }

  lemma {:induction false} ValueEncodes(lt: LType, v: Value)
    requires HasType(lt, v)
    ensures EncValue(lt, v).Ok? <==> Encodable(lt, v)
    decreases lt, 0
  {
    if lt.Submessage? {
      EncodesFrom(lt.fields, v.slots, 0);
    }
  }

  lemma {:induction false} ItemsEncode(f: Field, items: seq<Value>, i: nat)
    requires i <= |items| && forall k | 0 <= k < |items| :: HasType(f.ltype, items[k])
    ensures EncItems(f, items, i).Ok? <==> forall k | i <= k < |items| :: Encodable(f.ltype, items[k])
    decreases f, 1, |items| - i
  {
    if i < |items| {
      ValueEncodes(f.ltype, items[i]);
      ItemsEncode(f, items, i + 1);
    }
  }

  lemma {:induction false} SlotEncodes(f: Field, s: Slot)
    requires SlotHasType(f, s)
    ensures EncSlot(f, s).Ok? <==> SlotEncodable(f, s)
    decreases f, 2
  {
    match s
    case Req(v) => ValueEncodes(f.ltype, v);
    case Opt(_, v) => ValueEncodes(f.ltype, v);
    case Rep(items) => ItemsEncode(f, items, 0);
    case Alt(c) => if c.Some? { ValueEncodes(f.ltype, c.value); }
  }

  lemma {:induction false} EncodesFrom(fields: seq<Field>, slots: seq<Slot>, i: nat)
    requires WellTyped(fields, slots) && i <= |fields|
    ensures EncFrom(fields, slots, i).Ok? <==> forall k | i <= k < |fields| :: SlotEncodable(fields[k], slots[k])
    decreases fields, |fields| - i
  {
    if i < |fields| {
      SlotEncodes(fields[i], slots[i]);
      EncodesFrom(fields, slots, i + 1);
    }
  }

  /** A message can be encoded exactly when no array is longer than its maximum and no byte string
      longer than its capacity, at any depth of what is written. */
  lemma EncodesExactly(fields: seq<Field>, slots: seq<Slot>)
    requires WellTyped(fields, slots)
    ensures Encode(fields, slots).Ok? <==> AllEncodable(fields, slots)
  {
    EncodesFrom(fields, slots, 0);
  }

  // ----- Both together -----

  lemma {:induction false} FittingValue(lt: LType, v: Value)
    requires Fits(lt, v)
    ensures Encodable(lt, v) && Terminated(lt, v)
    decreases lt, 0
  {
    if lt.Submessage? {
      FittingMessage(lt.fields, v.slots);
    }
  }

  /** A message that fits can be encoded and read back. */
  lemma {:induction false} FittingMessage(fields: seq<Field>, slots: seq<Slot>)
    requires AllFit(fields, slots)
    ensures AllEncodable(fields, slots) && AllTerminated(fields, slots)
    decreases fields, 0
  {
    forall k | 0 <= k < |fields|
      ensures SlotEncodable(fields[k], slots[k]) && SlotTerminated(fields[k], slots[k])
    {
      FittingSlot(fields[k], slots[k]);
    }
  }

  lemma {:induction false} FittingSlot(f: Field, s: Slot)
    requires SlotFits(f, s)
    ensures SlotEncodable(f, s) && SlotTerminated(f, s)
    decreases f, 0
  {
    match s
    case Req(v) => FittingValue(f.ltype, v);
    case Opt(_, v) => FittingValue(f.ltype, v);
    case Rep(items) =>
      forall k | 0 <= k < |items|
        ensures Encodable(f.ltype, items[k]) && Terminated(f.ltype, items[k])
      {
        FittingValue(f.ltype, items[k]);
      }
    case Alt(c) => if c.Some? { FittingValue(f.ltype, c.value); }
  }

  /** Whatever could be decoded can be encoded again, and then reads back as the same message, up to
      what follows a zero in a string and to the values of absent fields. */
  lemma DecodedEncodes(fields: seq<Field>, bs: seq<Byte>)
    requires WellFormed(fields) && DefaultsFit(fields) && Decode(fields, bs).Ok?
    ensures var slots := Decode(fields, bs).value;
            && Encode(fields, slots).Ok?
            && (|Encode(fields, slots).value| < TWO32 ==>
                  Decode(fields, Encode(fields, slots).value) == Ok(Normal(fields, slots)))
  {
    var slots := Decode(fields, bs).value;
    DecodedFits(fields, bs);
    FittingMessage(fields, slots);
    EncodesExactly(fields, slots);
    if |Encode(fields, slots).value| < TWO32 {
      MessageRoundTrip(fields, slots);
    }
  }
}
