/**
 nanopb message descriptions (pb_field_t arrays) and the C structs they describe, as values.
 A struct is a list of slots, one per field of its description.
 */
module PbSchema {
  import opened Basics
  import opened PbWire

  /** The scalar type of a field (PB_LTYPE_*), with the part of `data_size` that matters. */
  datatype LType =
    | Varint(size: nat)
    | Uvarint(size: nat)
    | Svarint(size: nat)
    | Fixed32
    | Fixed64
    | Bytes(capacity: nat)          // data_size less the size header of pb_bytes_array_t
    | String(size: nat)             // data_size, terminator included
    | FixedBytes(size: nat)
    | Submessage(fields: seq<Field>)
  {
    /** PB_LTYPE(type) <= PB_LTYPE_LAST_PACKABLE */
    predicate Packable() {
      Varint? || Uvarint? || Svarint? || Fixed32? || Fixed64?
    }
  }

  /** The repetition rule of a field (PB_HTYPE_*); a oneof names the union it shares. */
  datatype HType = Required | Optional | Repeated(max: nat) | Oneof(group: nat)

  /** A pb_size_t, in its widest configuration. */
  type FieldNumber = x: int | 0 <= x < TWO32

  datatype Field = Field(tag: FieldNumber, htype: HType, ltype: LType, default: Value)

  datatype Value =
    | Int(i: int)
    | Blob(data: seq<Byte>)
    | Sub(slots: seq<Slot>)

  /** What a struct holds for one field. The members of a union share one `which_` field, so
      at most one of their slots is chosen. */
  datatype Slot =
    | Req(v: Value)
    | Opt(has: bool, v: Value)
    | Rep(items: seq<Value>)
    | Alt(choice: Option<Value>)

  // ----- Well-formed values: what the C types allow -----

  ghost predicate HasType(lt: LType, v: Value)
    decreases lt, 0
  {
    match lt
    case Varint(size) => v.Int? && IsSigned(v.i, size)
    case Uvarint(size) => v.Int? && IsUnsigned(v.i, size)
    case Svarint(size) => v.Int? && IsSigned(v.i, size)
    case Fixed32 => v.Int? && 0 <= v.i < TWO32
    case Fixed64 => v.Int? && 0 <= v.i < TWO64
    case Bytes(_) => v.Blob?
    case String(size) => v.Blob? && |v.data| <= size
    case FixedBytes(size) => v.Blob? && |v.data| == size
    case Submessage(fields) => v.Sub? && WellTyped(fields, v.slots)
  }

  ghost predicate SlotHasType(f: Field, s: Slot)
    decreases f, 0
  {
    match f.htype
    case Required => s.Req? && HasType(f.ltype, s.v)
    case Optional => s.Opt? && HasType(f.ltype, s.v)
    case Repeated(_) => s.Rep? && forall k | 0 <= k < |s.items| :: HasType(f.ltype, s.items[k])
    case Oneof(_) => s.Alt? && (s.choice.Some? ==> HasType(f.ltype, s.choice.value))
  }

  ghost predicate WellTyped(fields: seq<Field>, slots: seq<Slot>)
    decreases fields, 0
  {
    && |slots| == |fields|
    && (forall k | 0 <= k < |fields| :: SlotHasType(fields[k], slots[k]))
    && Exclusive(fields, slots)
  }

  /** Of each union, at most one member is chosen. */
  ghost predicate Exclusive(fields: seq<Field>, slots: seq<Slot>)
    requires |slots| == |fields|
  {
    forall j, k | 0 <= j < k < |fields| && fields[j].htype.Oneof? && fields[k].htype == fields[j].htype ::
      slots[j] == Alt(None) || slots[k] == Alt(None)
  }

  // ----- Defaults (pb_message_set_to_defaults) -----

  function DefaultValue(f: Field): Value
    decreases f, 1
  {
    if f.ltype.Submessage? then Sub(Defaults(f.ltype.fields)) else f.default
  }

  function DefaultSlot(f: Field): Slot
    decreases f, 2
  {
    match f.htype
    case Required => Req(DefaultValue(f))
    case Optional => Opt(false, DefaultValue(f))
    case Repeated(_) => Rep([])
    case Oneof(_) => Alt(None)
  }

  function Defaults(fields: seq<Field>): (slots: seq<Slot>)
    ensures |slots| == |fields|
    ensures forall k | 0 <= k < |fields| :: slots[k] == DefaultSlot(fields[k])
    decreases fields, 0
  {
    if fields == [] then [] else [DefaultSlot(fields[0])] + Defaults(fields[1..])
  }

  // ----- Well-formed descriptions: what the generator promises -----

  ghost predicate DistinctTags(fields: seq<Field>) {
    forall j, k | 0 <= j < k < |fields| :: fields[j].tag != fields[k].tag
  }

  /** The required fields among the first `n`. This is the iterator's required_field_index. */
  function RequiredBefore(fields: seq<Field>, n: nat): (count: nat)
    requires n <= |fields|
    ensures count <= n
  {
    if n == 0 then 0
    else RequiredBefore(fields, n - 1) + if fields[n - 1].htype.Required? then 1 else 0
  }

  /** Field numbers of protobuf end at 2^29 - 1. The final test of pb_decode_noinit is only
      defined in C for fewer than 64 required fields and not exactly 32. */
  ghost predicate WellFormed(fields: seq<Field>)
    decreases fields, 0
  {
    && DistinctTags(fields)
    && (forall k | 0 <= k < |fields| :: FieldWellFormed(fields[k]))
    && RequiredBefore(fields, |fields|) < 64
    && RequiredBefore(fields, |fields|) != 32
  }

  ghost predicate FieldWellFormed(f: Field)
    decreases f, 0
  {
    && 1 <= f.tag < 0x2000_0000
    && (if f.ltype.Submessage? then WellFormed(f.ltype.fields) else HasType(f.ltype, f.default))
  }

  lemma {:induction false} DefaultsWellTyped(fields: seq<Field>)
    requires forall k | 0 <= k < |fields| :: FieldWellFormed(fields[k])
    ensures WellTyped(fields, Defaults(fields))
    decreases fields, 1
  {
    forall k | 0 <= k < |fields|
      ensures SlotHasType(fields[k], Defaults(fields)[k])
    {
      DefaultSlotHasType(fields[k]);
    }
  }

  lemma {:induction false} DefaultSlotHasType(f: Field)
    requires FieldWellFormed(f)
    ensures SlotHasType(f, DefaultSlot(f)) && HasType(f.ltype, DefaultValue(f))
    decreases f, 1
  {
    if f.ltype.Submessage? {
      DefaultsWellTyped(f.ltype.fields);
    }
  }

  // ----- What a value means once written out and read back -----

  /** A C string ends at its first zero byte. */
  function CString(data: seq<Byte>): (s: seq<Byte>)
    ensures |s| <= |data|
    ensures s == data[..|s|] && 0 !in s
    ensures |s| < |data| ==> data[|s|] == 0
  {
    if data == [] || data[0] == 0 then [] else [data[0]] + CString(data[1..])
  }

  function NormalValue(lt: LType, v: Value): Value
    decreases lt, 0
  {
    if lt.String? && v.Blob? then Blob(CString(v.data))
    else if lt.Submessage? && v.Sub? && |v.slots| == |lt.fields| then Sub(Normal(lt.fields, v.slots))
    else v
  }

  function NormalItems(lt: LType, items: seq<Value>): (r: seq<Value>)
    ensures |r| == |items|
    ensures forall k | 0 <= k < |items| :: r[k] == NormalValue(lt, items[k])
    decreases lt, 1, |items|
  {
    if items == [] then [] else [NormalValue(lt, items[0])] + NormalItems(lt, items[1..])
  }

  /** An absent optional field reads back as its default; unions and lists keep their choice. */
  function NormalSlot(f: Field, s: Slot): Slot
    decreases f, 3
  {
    match s
    case Req(v) => Req(NormalValue(f.ltype, v))
    case Opt(has, v) => Opt(has, if has then NormalValue(f.ltype, v) else DefaultValue(f))
    case Rep(items) => Rep(NormalItems(f.ltype, items))
    case Alt(None) => s
    case Alt(Some(v)) => Alt(Some(NormalValue(f.ltype, v)))
  }

  function Normal(fields: seq<Field>, slots: seq<Slot>): (r: seq<Slot>)
    requires |slots| == |fields|
    ensures |r| == |fields|
    ensures forall k | 0 <= k < |fields| :: r[k] == NormalSlot(fields[k], slots[k])
    decreases fields, 0
  {
    if fields == [] then [] else [NormalSlot(fields[0], slots[0])] + Normal(fields[1..], slots[1..])
  }

  /** Every string is terminated inside its buffer, so that it can be read back. */
  ghost predicate Terminated(lt: LType, v: Value)
    decreases lt, 0
  {
    match lt
    case String(size) => v.Blob? ==> |CString(v.data)| < size
    case Submessage(fields) => v.Sub? ==> AllTerminated(fields, v.slots)
    case _ => true
  }

  ghost predicate SlotTerminated(f: Field, s: Slot)
    decreases f, 0
  {
    match s
    case Req(v) => Terminated(f.ltype, v)
    case Opt(has, v) => has ==> Terminated(f.ltype, v)
    case Rep(items) => forall k | 0 <= k < |items| :: Terminated(f.ltype, items[k])
    case Alt(c) => c.Some? ==> Terminated(f.ltype, c.value)
  }

  ghost predicate AllTerminated(fields: seq<Field>, slots: seq<Slot>)
    decreases fields, 0
  {
    |slots| == |fields| ==> forall k | 0 <= k < |fields| :: SlotTerminated(fields[k], slots[k])
  }
}
