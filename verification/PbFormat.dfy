/**
 The Protocol Buffers encoding as nanopb writes and reads it, as functions from schema and
 struct to bytes and back. The encoder and decoder classes are proved against these.
 */
module PbFormat {
  import opened Basics
  import opened PbWire
  import opened PbSchema

  const WT_VARINT := 0
  const WT_64BIT := 1
  const WT_STRING := 2
  const WT_32BIT := 5

  function WireType(lt: LType): (wt: nat)
    ensures wt < 8
  {
    match lt
    case Varint(_) => WT_VARINT
    case Uvarint(_) => WT_VARINT
    case Svarint(_) => WT_VARINT
    case Fixed32 => WT_32BIT
    case Fixed64 => WT_64BIT
    case _ => WT_STRING
  }

  // ----- Writing -----

  function EncTag(tag: nat, wt: nat): (bs: seq<Byte>)
    ensures bs != []
  {
    EncVarint(tag * 8 + wt)
  }

  /** The length is converted to `uint64_t` before it is written. */
  function LengthPrefixed(data: seq<Byte>): (bs: seq<Byte>)
    ensures |bs| > |data|
  {
    EncVarint(|data| % TWO64) + data
  }

  /** A numeric value; these are the packable types. */
  function EncNumber(lt: LType, i: int): (bs: seq<Byte>)
    requires lt.Packable() && HasType(lt, Int(i))
    ensures bs != []
    ensures lt.Fixed32? ==> |bs| == 4
    ensures lt.Fixed64? ==> |bs| == 8
  {
    match lt
    case Varint(_) => EncVarint(ToU64(i))
    case Uvarint(_) => EncVarint(i)
    case Svarint(_) => EncVarint(ZigZag(i))
    case Fixed32 => LittleEndian(i, 4)
    case Fixed64 => LittleEndian(i, 8)
  }

  function EncValue(lt: LType, v: Value): Result<seq<Byte>>
    requires HasType(lt, v)
    decreases lt, 0
  {
    if lt.Packable() then Ok(EncNumber(lt, v.i))
    else
      match lt
      case Bytes(capacity) =>
        if |v.data| > capacity then Err("bytes size exceeded") else Ok(LengthPrefixed(v.data))
      case String(_) => Ok(LengthPrefixed(CString(v.data)))
      case FixedBytes(_) => Ok(LengthPrefixed(v.data))
      case Submessage(fields) =>
        var payload :- EncFrom(fields, v.slots, 0);
        Ok(LengthPrefixed(payload))
  }

  ghost predicate PackableItems(lt: LType, items: seq<Value>) {
    lt.Packable() && forall k | 0 <= k < |items| :: HasType(lt, items[k])
  }

  /** The elements of a packed array, one after another from the `i`th on. */
  function EncPacked(lt: LType, items: seq<Value>, i: nat): seq<Byte>
    requires PackableItems(lt, items) && i <= |items|
    decreases |items| - i
  {
    if i == |items| then []
    else
      assert HasType(lt, items[i]);
      EncNumber(lt, items[i].i) + EncPacked(lt, items, i + 1)
  }

  /** The elements of an array that cannot be packed: each with its own tag. */
  function EncItems(f: Field, items: seq<Value>, i: nat): Result<seq<Byte>>
    requires i <= |items|
    requires forall k | 0 <= k < |items| :: HasType(f.ltype, items[k])
    decreases f, 1, |items| - i
  {
    if i == |items| then Ok([])
    else
      var one :- EncTagged(f, items[i]);
      var others :- EncItems(f, items, i + 1);
      Ok(one + others)
  }

  function EncTagged(f: Field, v: Value): Result<seq<Byte>>
    requires HasType(f.ltype, v)
    decreases f, 0
  {
    var body :- EncValue(f.ltype, v);
    Ok(EncTag(f.tag, WireType(f.ltype)) + body)
  }

  function EncSlot(f: Field, s: Slot): Result<seq<Byte>>
    requires SlotHasType(f, s)
    decreases f, 2
  {
    match s
    case Req(v) => EncTagged(f, v)
    case Opt(has, v) => if has then EncTagged(f, v) else Ok([])
    case Rep(items) =>
      if items == [] then Ok([])
      else if |items| > f.htype.max then Err("array max size exceeded")
      else if f.ltype.Packable() then Ok(EncTag(f.tag, WT_STRING) + LengthPrefixed(EncPacked(f.ltype, items, 0)))
      else EncItems(f, items, 0)
    case Alt(c) => if c.Some? then EncTagged(f, c.value) else Ok([])
  }

  /** The fields from the `i`th on, in the order of the description. */
  function EncFrom(fields: seq<Field>, slots: seq<Slot>, i: nat): Result<seq<Byte>>
    requires WellTyped(fields, slots) && i <= |fields|
    decreases fields, |fields| - i
  {
    if i == |fields| then Ok([])
    else
      var one :- EncSlot(fields[i], slots[i]);
      var others :- EncFrom(fields, slots, i + 1);
      Ok(one + others)
  }

  /** pb_encode */
  function Encode(fields: seq<Field>, slots: seq<Slot>): Result<seq<Byte>>
    requires WellTyped(fields, slots)
  {
    EncFrom(fields, slots, 0)
  }

  // ----- Reading -----

  datatype Read<+T> = Read(v: T, rest: seq<Byte>)

  /** A record header: a tag, the end of the message, or an error. */
  datatype Header = Tag(tag: nat, wt: nat, rest: seq<Byte>) | End | Malformed

  /** pb_decode_tag: a failed read with nothing left, and a zero, both end the message. */
  function DecTag(bs: seq<Byte>): (h: Header)
    ensures h.Tag? ==> |h.rest| < |bs| && h.wt < 8
  {
    match Dec32(bs)
    case Bad(rest) => if rest == [] then End else Malformed
    case Value(n, rest) => if n == 0 then End else Tag(n / 8, n % 8, rest)
  }

  /** A length and that many bytes. */
  function DecDelimited(bs: seq<Byte>): (r: Result<Read<seq<Byte>>>)
    ensures r.Ok? ==> |r.value.v| + |r.value.rest| < |bs|
  {
    match Dec32(bs)
    case Bad(_) => Err("varint overflow or end-of-stream")
    case Value(n, rest) =>
      if |rest| < n then Err("parent stream too short") else Ok(Read(rest[..n], rest[n..]))
  }

  /** Fits a decoded varint into the destination type. */
  function Narrow(lt: LType, n: nat): (r: Result<int>)
    requires lt.Varint? || lt.Uvarint? || lt.Svarint?
    requires n < TWO64
    ensures r.Ok? ==> HasType(lt, Int(r.value))
  {
    match lt
    case Varint(size) => NarrowSigned(n, size)
    case Uvarint(size) => NarrowUnsigned(n, size)
    case Svarint(size) => NarrowZigZag(n, size)
  }

  function DecNumber(lt: LType, bs: seq<Byte>): (r: Result<Read<Value>>)
    requires lt.Packable()
    ensures r.Ok? ==> |r.value.rest| < |bs| && HasType(lt, r.value.v)
  {
    if lt.Fixed32? || lt.Fixed64? then
      var size := if lt.Fixed32? then 4 else 8;
      if |bs| < size then Err("end-of-stream")
      else
        LittleEndianBound(bs[..size]);
        Pow256Values();
        Ok(Read(Int(FromLittleEndian(bs[..size])), bs[size..]))
    else
      var d := Dec64(bs);
      if d.Bad? then Err("varint overflow or end-of-stream")
      else
        var i :- Narrow(lt, d.n);
        Ok(Read(Int(i), d.rest))
  }

  /** Reads a value over the current one, which matters for submessages only: they merge. */
  function DecValue(lt: LType, bs: seq<Byte>, current: Value): (r: Result<Read<Value>>)
    requires HasType(lt, current) && TypeWellFormed(lt)
    ensures r.Ok? ==> |r.value.rest| < |bs|
    ensures r.Ok? ==> HasType(lt, r.value.v)
    decreases |bs|, 1
  {
    if lt.Packable() then DecNumber(lt, bs)
    else
      var d :- DecDelimited(bs);
      var data := d.v;
      match lt
      case Bytes(capacity) =>
        if |data| > capacity then Err("bytes overflow") else Ok(Read(Blob(data), d.rest))
      case String(size) =>
        if |data| + 1 > size then Err("string overflow") else Ok(Read(Blob(data), d.rest))
      case FixedBytes(size) =>
        if data == [] then Ok(Read(Blob(Zeros(size)), d.rest))
        else if |data| != size then Err("incorrect fixed length bytes size")
        else Ok(Read(Blob(data), d.rest))
      case Submessage(fields) =>
        var slots :- DecOver(fields, data, current.slots);
        Ok(Read(Sub(slots), d.rest))
  }

  function Zeros(n: nat): (bs: seq<Byte>)
    ensures |bs| == n
    ensures forall k | 0 <= k < n :: bs[k] == 0
  {
    if n == 0 then [] else [0] + Zeros(n - 1)
  }

  ghost predicate TypeWellFormed(lt: LType) {
    lt.Submessage? ==> WellFormed(lt.fields)
  }

  /** The one field with a tag, found from any starting point since tags are distinct. */
  function Find(fields: seq<Field>, tag: nat): (k: Option<nat>)
    ensures k.Some? ==> k.value < |fields| && fields[k.value].tag == tag
    ensures k.None? ==> forall j | 0 <= j < |fields| :: fields[j].tag != tag
  {
    if fields == [] then None
    else if fields[0].tag == tag then Some(0)
    else
      match Find(fields[1..], tag)
      case None => None
      case Some(k) => Some(k + 1)
  }

  function SkipVarint(bs: seq<Byte>): (r: Result<seq<Byte>>)
    ensures r.Ok? ==> |r.value| < |bs|
  {
    if bs == [] then Err("end-of-stream")
    else if bs[0] < 128 then Ok(bs[1..])
    else SkipVarint(bs[1..])
  }

  /** pb_skip_field: what is left after the body of an unknown field. */
  function Skip(wt: nat, bs: seq<Byte>): (r: Result<seq<Byte>>)
    ensures r.Ok? ==> |r.value| < |bs|
  {
    if wt == WT_VARINT then SkipVarint(bs)
    else if wt == WT_64BIT then if |bs| < 8 then Err("end-of-stream") else Ok(bs[8..])
    else if wt == WT_STRING then
      var d :- DecDelimited(bs);
      Ok(d.rest)
    else if wt == WT_32BIT then if |bs| < 4 then Err("end-of-stream") else Ok(bs[4..])
    else Err("invalid wire_type")
  }

  /** The rest of a packed array, appended to the elements so far. */
  function DecPacked(lt: LType, max: nat, bs: seq<Byte>, items: seq<Value>): (r: Result<seq<Value>>)
    requires lt.Packable()
    requires forall k | 0 <= k < |items| :: HasType(lt, items[k])
    ensures r.Ok? ==> forall k | 0 <= k < |r.value| :: HasType(lt, r.value[k])
    decreases |bs|
  {
    if bs == [] then Ok(items)
    else if |items| >= max then Err("array overflow")
    else
      var one :- DecNumber(lt, bs);
      DecPacked(lt, max, one.rest, items + [one.v])
  }

  /** Choosing a member of a union unsets the others. */
  function Choose(fields: seq<Field>, slots: seq<Slot>, k: nat, v: Value): (r: seq<Slot>)
    requires WellTyped(fields, slots) && k < |fields| && fields[k].htype.Oneof?
    requires HasType(fields[k].ltype, v)
    ensures WellTyped(fields, r)
    ensures r[k] == Alt(Some(v))
  {
    seq(|slots|, j requires 0 <= j < |slots| =>
      if j == k then Alt(Some(v)) else if fields[j].htype == fields[k].htype then Alt(None) else slots[j])
  }

  /** The value that decoding the `k`th field starts from: what the struct holds, or the
      defaults for a new array element and for a newly chosen union member. */
  function Current(fields: seq<Field>, slots: seq<Slot>, k: nat): (v: Value)
    requires WellFormed(fields) && WellTyped(fields, slots) && k < |fields|
    ensures HasType(fields[k].ltype, v)
  {
    DefaultSlotHasType(fields[k]);
    assert SlotHasType(fields[k], slots[k]);
    if fields[k].htype.Required? || fields[k].htype.Optional? then slots[k].v else DefaultValue(fields[k])
  }

  /** Storing one decoded value. */
  function Put(fields: seq<Field>, slots: seq<Slot>, k: nat, v: Value): (r: seq<Slot>)
    requires WellTyped(fields, slots) && k < |fields| && HasType(fields[k].ltype, v)
    ensures WellTyped(fields, r)
  {
    assert SlotHasType(fields[k], slots[k]);
    match fields[k].htype
    case Required => slots[k := Req(v)]
    case Optional => slots[k := Opt(true, v)]
    case Repeated(_) => slots[k := Rep(slots[k].items + [v])]
    case Oneof(_) => Choose(fields, slots, k, v)
  }

  predicate PackedInput(f: Field, wt: nat) {
    f.htype.Repeated? && wt == WT_STRING && f.ltype.Packable()
  }

  /** decode_static_field: reads the body of the `k`th field into the struct. */
  function DecField(fields: seq<Field>, k: nat, wt: nat, bs: seq<Byte>, slots: seq<Slot>): (r: Result<Read<seq<Slot>>>)
    requires WellFormed(fields) && WellTyped(fields, slots) && k < |fields|
    ensures r.Ok? ==> |r.value.rest| < |bs|
    ensures r.Ok? ==> WellTyped(fields, r.value.v)
    decreases |bs|, 2
  {
    var f := fields[k];
    assert FieldWellFormed(f) && SlotHasType(f, slots[k]);
    if PackedInput(f, wt) then
      var d :- DecDelimited(bs);
      var items :- DecPacked(f.ltype, f.htype.max, d.v, slots[k].items);
      Ok(Read(slots[k := Rep(items)], d.rest))
    else if f.htype.Repeated? && |slots[k].items| >= f.htype.max then Err("array overflow")
    else
      var d :- DecValue(f.ltype, bs, Current(fields, slots, k));
      Ok(Read(Put(fields, slots, k, d.v), d.rest))
  }

  /** The state of the decode loop when it stops; `clean` tells that it stopped because every
      byte was used, not at a zero tag or a cut-off one. */
  datatype Loop = Loop(slots: seq<Slot>, seen: set<nat>, clean: bool)

  /** The while loop of pb_decode_noinit. With an empty description the iterator stands on the
      terminator, whose tag 0 and data_size 0 make a field with tag 0 an error. */
  function DecLoop(fields: seq<Field>, bs: seq<Byte>, slots: seq<Slot>, seen: set<nat>): (r: Result<Loop>)
    requires WellFormed(fields) && WellTyped(fields, slots)
    ensures r.Ok? ==> WellTyped(fields, r.value.slots)
    decreases |bs|, 3
  {
    if bs == [] then Ok(Loop(slots, seen, true))
    else
      match DecTag(bs)
      case End => Ok(Loop(slots, seen, false))
      case Malformed => Err("varint overflow or end-of-stream")
      case Tag(tag, wt, rest) =>
        match Find(fields, tag)
        case Some(k) =>
          var d :- DecField(fields, k, wt, rest, slots);
          DecLoop(fields, d.rest, d.v, SeenWith(fields, k, seen))
        case None =>
          if fields == [] && tag == 0 then Err("invalid data_size")
          else
            var after :- Skip(wt, rest);
            DecLoop(fields, after, slots, seen)
  }

  /** The required fields seen once field `k` was. */
  function SeenWith(fields: seq<Field>, k: nat, seen: set<nat>): set<nat>
    requires k < |fields|
  {
    if fields[k].htype.Required? then seen + {k} else seen
  }

  predicate AllRequiredSeen(fields: seq<Field>, seen: set<nat>) {
    forall k | 0 <= k < |fields| :: fields[k].htype.Required? ==> k in seen
  }

  /** pb_decode_noinit */
  function DecOver(fields: seq<Field>, bs: seq<Byte>, slots: seq<Slot>): (r: Result<seq<Slot>>)
    requires WellFormed(fields) && WellTyped(fields, slots)
    ensures r.Ok? ==> WellTyped(fields, r.value)
    decreases |bs|, 4
  {
    var end :- DecLoop(fields, bs, slots, {});
    if AllRequiredSeen(fields, end.seen) then Ok(end.slots) else Err("missing required field")
  }

  /** pb_decode */
  function Decode(fields: seq<Field>, bs: seq<Byte>): (r: Result<seq<Slot>>)
    requires WellFormed(fields)
    ensures r.Ok? ==> WellTyped(fields, r.value)
  {
    DefaultsWellTyped(fields);
    DecOver(fields, bs, Defaults(fields))
  }
}
