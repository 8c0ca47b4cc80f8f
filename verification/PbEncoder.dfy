/**
 The nanopb encoder (pb_encode.c). A stream either writes to a buffer or only counts bytes;
 a submessage is encoded twice, first to learn its size and then to write it.
 */
module PbEncoder {
  import opened Basics
  import opened PbWire
  import opened PbSchema
  import opened PbFormat
  import opened PbIter
  import PbLimits

  /** pb_ostream_t: without a buffer (no callback) it is a sizing stream. */
  class OStream {
    const buffer: array?<Byte>
    const maxSize: nat
    var position: nat      // the `state` pointer, as an offset into the buffer
    var bytesWritten: nat

    ghost predicate Valid()
      reads this
    {
      buffer != null ==> bytesWritten <= maxSize && position + (maxSize - bytesWritten) <= buffer.Length
    }

    constructor (buffer: array?<Byte>, position: nat, maxSize: nat)
      requires buffer != null ==> position + maxSize <= buffer.Length
      ensures Valid()
      ensures this.buffer == buffer && this.maxSize == maxSize
      ensures this.position == position && bytesWritten == 0
    {
      this.buffer := buffer;
      this.maxSize := maxSize;
      this.position := position;
      bytesWritten := 0;
    }

    /** Whether `n` more bytes may be written. */
    predicate Fits(n: nat)
      reads this
    {
      buffer == null || bytesWritten + n <= maxSize
    }

    /** The bytes counted, and what lies in the buffer before and after the position. */
    ghost function State(): StreamState
      requires Valid()
      reads this, buffer
    {
      if buffer == null then StreamState(bytesWritten, [], []) else StreamState(bytesWritten, buffer[..position], buffer[position..])
    }

    /** `bs` was written and nothing else changed: the contract of every encoding method. */
    twostate predicate Wrote(bs: seq<Byte>)
      reads this, buffer
    {
      old(Valid()) && Valid() && Advanced(buffer == null, old(State()), bs, State())
    }

    /** pb_write with buf_write */
    method Write(bs: seq<Byte>) returns (ok: bool)
      requires Valid()
      modifies this, buffer
      ensures Valid()
      ensures ok == old(Fits(|bs|))
      ensures ok ==> Wrote(bs)
    {
      if buffer != null {
        if bytesWritten + |bs| > maxSize {
          return false;
        }
        for i := 0 to |bs|
          invariant position == old(position) && bytesWritten == old(bytesWritten)
          invariant buffer[position..position + i] == bs[..i]
          invariant buffer[..position] == old(buffer[..position])
          invariant buffer[position + i..] == old(buffer[position..])[i..]
        {
          buffer[position + i] := bs[i];
        }
        position := position + |bs|;
        assert buffer[..position] == buffer[..old(position)] + buffer[old(position)..position];
      }
      bytesWritten := bytesWritten + |bs|;
      return true;
    }

    /** pb_write(stream, NULL, count) on a sizing stream */
    method Count(n: nat)
      requires buffer == null
      modifies this
      ensures Valid() && bytesWritten == old(bytesWritten) + n
    {
      bytesWritten := bytesWritten + n;
    }
  }

  datatype StreamState = StreamState(written: nat, before: seq<Byte>, after: seq<Byte>)

  ghost predicate Advanced(sizing: bool, s: StreamState, bs: seq<Byte>, s': StreamState) {
    && s'.written == s.written + |bs|
    && if sizing then s'.before == s.before && s'.after == s.after
       else s'.before == s.before + bs && |bs| <= |s.after| && s'.after == s.after[|bs|..]
  }

  lemma AdvancedTwice(sizing: bool, s: StreamState, first: seq<Byte>, mid: StreamState, second: seq<Byte>, s': StreamState)
    requires Advanced(sizing, s, first, mid) && Advanced(sizing, mid, second, s')
    ensures Advanced(sizing, s, first + second, s')
  {
  }

  /** What is written in all when `done` was written and `rest` remains to be. */
  ghost function Prepend(done: seq<Byte>, rest: Result<seq<Byte>>): (r: Result<seq<Byte>>)
    ensures done == [] ==> r == rest
  {
    if rest.Ok? then
      assert [] + rest.value == rest.value;
      Ok(done + rest.value)
    else rest
  }

  lemma PrependNext(done: seq<Byte>, one: seq<Byte>, rest: Result<seq<Byte>>)
    ensures Prepend(done, Prepend(one, rest)) == Prepend(done + one, rest)
  {
    if rest.Ok? {
      assert done + (one + rest.value) == done + one + rest.value;
    }
  }

  // ----- Scalars -----

  /** pb_encode_varint */
  method EncodeVarint(s: OStream, value: nat) returns (ok: bool)
    requires s.Valid() && value < TWO64
    modifies s, s.buffer
    ensures s.Valid()
    ensures ok == old(s.Fits(|EncVarint(value)|))
    ensures ok ==> s.Wrote(EncVarint(value))
  {
    if value <= 0x7F {
      ok := s.Write([value]);
    } else {
      var bytes := VarintBytes(value);
      ok := s.Write(bytes);
    }
  }

  /** The loop of pb_encode_varint: groups into a local buffer of ten bytes, then the
      continuation bit of the last one is cleared. */
  method VarintBytes(value: nat) returns (bytes: seq<Byte>)
    requires 0 < value < TWO64
    ensures bytes == EncVarint(value)
  {
    var buffer := new Byte[10];
    var n := FillGroups(buffer, value);
    GroupsAndVarint(value);
    buffer[n - 1] := buffer[n - 1] - 128;
    bytes := buffer[..n];
  }

  method FillGroups(buffer: array<Byte>, value: nat) returns (i: nat)
    requires 0 < value < TWO64 && buffer.Length == 10
    modifies buffer
    ensures i <= 10 && buffer[..i] == Groups(value)
  {
    i := 0;
    var v: nat := value;
    assert value < Pow128(10) by {
      PowBounds();
    }
    ghost var done: seq<Byte> := [];
    while v != 0
      invariant i == |done| <= 10 && v < Pow128(10 - i)
      invariant buffer[..i] == done && done + Groups(v) == Groups(value)
    {
      GroupsNext(done, v, 10 - i);
      buffer[i] := v % 128 + 128;
      done := done + [buffer[i]];
      v := v / 128;
      i := i + 1;
    }
  }

  lemma GroupsNext(done: seq<Byte>, v: nat, k: nat)
    requires 0 < v < Pow128(k)
    ensures done + Groups(v) == done + [v % 128 + 128] + Groups(v / 128)
    ensures k > 0 && v / 128 < Pow128(k - 1)
  {
  }

  /** The groups of a number, each with the continuation bit. */
  function Groups(v: nat): (bs: seq<Byte>)
    ensures forall k | 0 <= k < |bs| :: bs[k] >= 128
  {
    if v == 0 then [] else [v % 128 + 128] + Groups(v / 128)
  }

  lemma {:induction false} GroupsAndVarint(v: nat)
    requires v > 0
    ensures |Groups(v)| == |EncVarint(v)|
    ensures EncVarint(v) == Groups(v)[|Groups(v)| - 1 := Groups(v)[|Groups(v)| - 1] - 128]
  {
    if v >= 128 {
      GroupsAndVarint(v / 128);
    }
  }

  /** pb_encode_svarint */
  method EncodeSvarint(s: OStream, value: int) returns (ok: bool)
    requires s.Valid() && IsSigned(value, 8)
    modifies s, s.buffer
    ensures s.Valid()
    ensures ok == old(s.Fits(|EncVarint(ZigZag(value))|))
    ensures ok ==> s.Wrote(EncVarint(ZigZag(value)))
  {
    var zigzagged: nat;
    if value < 0 {
      zigzagged := TWO64 - 1 - ToU64(value) * 2 % TWO64;
    } else {
      zigzagged := ToU64(value) * 2 % TWO64;
    }
    ok := EncodeVarint(s, zigzagged);
  }

  /** pb_encode_fixed32 and pb_encode_fixed64: `size` bytes, low byte first. */
  method EncodeFixed(s: OStream, value: nat, size: nat) returns (ok: bool)
    requires s.Valid()
    modifies s, s.buffer
    ensures s.Valid()
    ensures ok == old(s.Fits(size))
    ensures ok ==> s.Wrote(LittleEndian(value, size))
  {
    var bytes := new Byte[size];
    var v := value;
    for i := 0 to size
      invariant bytes[..i] + LittleEndian(v, size - i) == LittleEndian(value, size)
      modifies bytes
    {
      bytes[i] := v % 256;
      v := v / 256;
    }
    assert bytes[..] == LittleEndian(value, size);
    ok := s.Write(bytes[..]);
  }

  method EncodeTag(s: OStream, wireType: nat, fieldNumber: nat) returns (ok: bool)
    requires s.Valid() && wireType < 8 && fieldNumber < TWO32
    modifies s, s.buffer
    ensures s.Valid()
    ensures ok == old(s.Fits(|EncTag(fieldNumber, wireType)|))
    ensures ok ==> s.Wrote(EncTag(fieldNumber, wireType))
  {
    ok := EncodeVarint(s, fieldNumber * 8 + wireType);
  }

  /** pb_encode_string */
  method EncodeString(s: OStream, data: seq<Byte>) returns (ok: bool)
    requires s.Valid()
    modifies s, s.buffer
    ensures s.Valid()
    ensures ok == old(s.Fits(|LengthPrefixed(data)|))
    ensures ok ==> s.Wrote(LengthPrefixed(data))
  {
    ok := EncodeVarint(s, |data| % TWO64);
    if ok {
      ghost var mid := s.State();
      ok := s.Write(data);
      if ok {
        AdvancedTwice(s.buffer == null, old(s.State()), EncVarint(|data| % TWO64), mid, data, s.State());
      }
    }
  }

  /** pb_enc_varint, pb_enc_uvarint, pb_enc_svarint, pb_enc_fixed32 and pb_enc_fixed64 */
  method EncodeNumber(s: OStream, lt: LType, i: int) returns (ok: bool)
    requires s.Valid() && lt.Packable() && HasType(lt, Int(i))
    modifies s, s.buffer
    ensures s.Valid()
    ensures ok == old(s.Fits(|EncNumber(lt, i)|))
    ensures ok ==> s.Wrote(EncNumber(lt, i))
  {
    match lt
    case Varint(_) => ok := EncodeVarint(s, ToU64(i));
    case Uvarint(_) => ok := EncodeVarint(s, i);
    case Svarint(_) => ok := EncodeSvarint(s, i);
    case Fixed32 => ok := EncodeFixed(s, i, 4);
    case Fixed64 => ok := EncodeFixed(s, i, 8);
  }

  /** The length of a C string, at most the size of its buffer (the loop of pb_enc_string). */
  method StringLength(data: seq<Byte>, maxSize: nat) returns (size: nat)
    requires |data| <= maxSize
    ensures size == |CString(data)|
  {
    size := 0;
    while size < |data| && data[size] != 0
      invariant size <= |data|
      invariant |CString(data)| == size + |CString(data[size..])|
    {
      size := size + 1;
    }
  }

  // ----- Fields and messages -----

  /** The field encoders, chosen by type. */
  method EncodeValue(s: OStream, lt: LType, v: Value) returns (ok: bool)
    requires s.Valid() && HasType(lt, v)
    modifies s, s.buffer
    ensures s.Valid()
    ensures ok == (EncValue(lt, v).Ok? && old(s.Fits(|EncValue(lt, v).value|)))
    ensures ok ==> s.Wrote(EncValue(lt, v).value)
    decreases lt, 0
  {
    match lt
    case Bytes(capacity) =>
      if |v.data| > capacity {
        return false;
      }
      ok := EncodeString(s, v.data);
    case String(size) =>
      var length := StringLength(v.data, size);
      ok := EncodeString(s, v.data[..length]);
    case FixedBytes(_) => ok := EncodeString(s, v.data);
    case Submessage(fields) => ok := EncodeSubmessage(s, fields, v.slots);
    case _ => ok := EncodeNumber(s, lt, v.i);
  }

  method EncodeTagged(s: OStream, f: Field, v: Value) returns (ok: bool)
    requires s.Valid() && HasType(f.ltype, v)
    modifies s, s.buffer
    ensures s.Valid()
    ensures ok == (EncTagged(f, v).Ok? && old(s.Fits(|EncTagged(f, v).value|)))
    ensures ok ==> s.Wrote(EncTagged(f, v).value)
    decreases f, 0
  {
    ok := EncodeTag(s, WireType(f.ltype), f.tag);
    if ok {
      ghost var mid := s.State();
      ok := EncodeValue(s, f.ltype, v);
      if ok {
        AdvancedTwice(s.buffer == null, old(s.State()), EncTag(f.tag, WireType(f.ltype)), mid,
                      EncValue(f.ltype, v).value, s.State());
      }
    }
  }

  /** One pass over the elements of a packed array, counting or writing. */
  method EncodePackedItems(s: OStream, lt: LType, items: seq<Value>) returns (ok: bool)
    requires s.Valid() && PackableItems(lt, items)
    modifies s, s.buffer
    ensures s.Valid()
    ensures ok == old(s.Fits(|EncPacked(lt, items, 0)|))
    ensures ok ==> s.Wrote(EncPacked(lt, items, 0))
  {
    ghost var done: seq<Byte> := [];
    assert EncPacked(lt, items, |items|) == [];
    hide EncPacked, EncNumber, HasType, PackableItems;
    for i := 0 to |items|
      invariant s.Valid() && s.Wrote(done)
      invariant EncPacked(lt, items, 0) == done + EncPacked(lt, items, i)
    {
      PackedNext(lt, items, i, done);
      ghost var one, mid := EncNumber(lt, items[i].i), s.State();
      var fits := EncodeNumber(s, lt, items[i].i);
      if !fits {
        return false;
      }
      AdvancedTwice(s.buffer == null, old(s.State()), done, mid, one, s.State());
      done := done + one;
    }
    return true;
  }

  lemma PackedNext(lt: LType, items: seq<Value>, i: nat, done: seq<Byte>)
    requires PackableItems(lt, items) && i < |items|
    ensures HasType(lt, items[i]) && items[i].Int?
    ensures done + EncPacked(lt, items, i) == done + EncNumber(lt, items[i].i) + EncPacked(lt, items, i + 1)
  {
    assert HasType(lt, items[i]);
  }

  /** encode_array, packed or with a tag for every element */
  method EncodeArray(s: OStream, f: Field, items: seq<Value>) returns (ok: bool)
    requires s.Valid() && f.htype.Repeated? && SlotHasType(f, Rep(items))
    modifies s, s.buffer
    ensures s.Valid()
    ensures ok == (EncSlot(f, Rep(items)).Ok? && old(s.Fits(|EncSlot(f, Rep(items)).value|)))
    ensures ok ==> s.Wrote(EncSlot(f, Rep(items)).value)
    decreases f, 2
  {
    if |items| == 0 {
      return true;
    }
    if |items| > f.htype.max {
      return false;
    }
    if f.ltype.Packable() {
      ok := EncodePackedArray(s, f.tag, f.ltype, items);
    } else {
      ok := EncodeItems(s, f, items);
    }
  }

  /** The packed branch of encode_array: tag, size in bytes, elements. */
  method EncodePackedArray(s: OStream, tag: FieldNumber, lt: LType, items: seq<Value>) returns (ok: bool)
    requires s.Valid() && PackableItems(lt, items)
    modifies s, s.buffer
    ensures s.Valid()
    ensures ok == old(s.Fits(|EncTag(tag, WT_STRING) + LengthPrefixed(EncPacked(lt, items, 0))|))
    ensures ok ==> s.Wrote(EncTag(tag, WT_STRING) + LengthPrefixed(EncPacked(lt, items, 0)))
  {
    ghost var payload := EncPacked(lt, items, 0);
    ghost var header, length := EncTag(tag, WT_STRING), EncVarint(|payload| % TWO64);
    assert header + LengthPrefixed(payload) == header + length + payload;
    ok := EncodeTag(s, WT_STRING, tag);
    if !ok {
      return;
    }
    ghost var tagged := s.State();
    var size := PackedSize(lt, items);
    ok := EncodeVarint(s, size % TWO64);
    if !ok {
      return;
    }
    ghost var sized := s.State();
    AdvancedTwice(s.buffer == null, old(s.State()), header, tagged, length, sized);
    if s.buffer == null {
      s.Count(size);
    } else {
      ok := EncodePackedItems(s, lt, items);
    }
    if ok {
      AdvancedTwice(s.buffer == null, old(s.State()), header + length, sized, payload, s.State());
    }
  }

  /** The size of a packed array: known for fixed-width types, otherwise found by encoding the
      elements into a sizing stream. */
  method PackedSize(lt: LType, items: seq<Value>) returns (size: nat)
    requires PackableItems(lt, items)
    ensures size == |EncPacked(lt, items, 0)|
  {
    if lt.Fixed32? {
      PackedFixedSize(lt, items, 0);
      size := 4 * |items|;
    } else if lt.Fixed64? {
      PackedFixedSize(lt, items, 0);
      size := 8 * |items|;
    } else {
      var sizing := new OStream(null, 0, 0);
      var _ := EncodePackedItems(sizing, lt, items);
      size := sizing.bytesWritten;
    }
  }

  lemma {:induction false} PackedFixedSize(lt: LType, items: seq<Value>, i: nat)
    requires PackableItems(lt, items) && i <= |items|
    ensures lt.Fixed32? ==> |EncPacked(lt, items, i)| == 4 * (|items| - i)
    ensures lt.Fixed64? ==> |EncPacked(lt, items, i)| == 8 * (|items| - i)
    decreases |items| - i
  {
    if i < |items| {
      assert HasType(lt, items[i]);
      PackedFixedSize(lt, items, i + 1);
    }
  }

  /** The loop of encode_array for types that cannot be packed. */
  method EncodeItems(s: OStream, f: Field, items: seq<Value>) returns (ok: bool)
    requires s.Valid()
    requires forall k | 0 <= k < |items| :: HasType(f.ltype, items[k])
    modifies s, s.buffer
    ensures s.Valid()
    ensures ok == (EncItems(f, items, 0).Ok? && old(s.Fits(|EncItems(f, items, 0).value|)))
    ensures ok ==> s.Wrote(EncItems(f, items, 0).value)
    decreases f, 1
  {
    ghost var done: seq<Byte> := [];
    for i := 0 to |items|
      invariant s.Valid() && s.Wrote(done)
      invariant EncItems(f, items, 0) == Prepend(done, EncItems(f, items, i))
    {
      ghost var one, mid := EncTagged(f, items[i]), s.State();
      if one.Ok? {
        PrependNext(done, one.value, EncItems(f, items, i + 1));
      }
      var fits := EncodeTagged(s, f, items[i]);
      if !fits {
        return false;
      }
      AdvancedTwice(s.buffer == null, old(s.State()), done, mid, one.value, s.State());
      done := done + one.value;
    }
    return true;
  }

  /** encode_basic_field */
  method EncodeBasicField(s: OStream, f: Field, slot: Slot) returns (ok: bool)
    requires s.Valid() && SlotHasType(f, slot)
    modifies s, s.buffer
    ensures s.Valid()
    ensures ok == (EncSlot(f, slot).Ok? && old(s.Fits(|EncSlot(f, slot).value|)))
    ensures ok ==> s.Wrote(EncSlot(f, slot).value)
    decreases f, 3
  {
    match f.htype
    case Required =>
      ok := EncodeTagged(s, f, slot.v);
    case Optional =>
      ok := true;
      if slot.has {
        ok := EncodeTagged(s, f, slot.v);
      }
    case Repeated(_) =>
      ok := EncodeArray(s, f, slot.items);
    case Oneof(_) =>
      ok := true;
      if slot.choice.Some? {
        ok := EncodeTagged(s, f, slot.choice.value);
      }
  }

  /** pb_encode */
  method EncodeMessage(s: OStream, fields: seq<Field>, slots: seq<Slot>) returns (ok: bool)
    requires s.Valid() && WellTyped(fields, slots)
    modifies s, s.buffer
    ensures s.Valid()
    ensures ok == (Encode(fields, slots).Ok? && old(s.Fits(|Encode(fields, slots).value|)))
    ensures ok ==> s.Wrote(Encode(fields, slots).value)
    decreases fields, 4
  {
    hide EncSlot, SlotHasType, Exclusive, RequiredBefore, EncFrom, Encode, WellTyped;
    EncodeStarts(fields, slots);
    var iter := new FieldIter(fields);
    var more := iter.Begin();
    if !more {
      return true;
    }
    ghost var done: seq<Byte> := [];
    while more
      invariant s.Valid() && s.Wrote(done)
      invariant iter.Valid() && iter.fields == fields
      invariant more || iter.pos == 0
      invariant Encode(fields, slots) == Prepend(done, EncFrom(fields, slots, if more then iter.pos else |fields|))
      decreases if more then |fields| - iter.pos else 0
    {
      FieldNext(fields, slots, iter.pos, done);
      ghost var one, mid := EncSlot(fields[iter.pos], slots[iter.pos]), s.State();
      var fits := EncodeBasicField(s, fields[iter.pos], slots[iter.pos]);
      if !fits {
        return false;
      }
      AdvancedTwice(s.buffer == null, old(s.State()), done, mid, one.value, s.State());
      done := done + one.value;
      more := iter.Next();
    }
    return true;
  }

  lemma EncodeStarts(fields: seq<Field>, slots: seq<Slot>)
    requires WellTyped(fields, slots)
    ensures |slots| == |fields| && Encode(fields, slots) == EncFrom(fields, slots, 0)
    ensures EncFrom(fields, slots, |fields|) == Ok([])
  {
  }

  lemma FieldNext(fields: seq<Field>, slots: seq<Slot>, i: nat, done: seq<Byte>)
    requires WellTyped(fields, slots) && i < |fields|
    ensures SlotHasType(fields[i], slots[i])
    ensures var one := EncSlot(fields[i], slots[i]);
            if one.Ok? then Prepend(done, EncFrom(fields, slots, i)) == Prepend(done + one.value, EncFrom(fields, slots, i + 1))
            else EncFrom(fields, slots, i).Err?
  {
    var one := EncSlot(fields[i], slots[i]);
    if one.Ok? {
      PrependNext(done, one.value, EncFrom(fields, slots, i + 1));
    }
  }

  /** pb_encode_submessage: a sizing pass, the length, and a writing pass into a substream of
      exactly that size. The writing pass always succeeds and writes as many bytes as were
      counted, so that "submsg size changed" cannot happen. */
  method EncodeSubmessage(s: OStream, fields: seq<Field>, slots: seq<Slot>) returns (ok: bool)
    requires s.Valid() && WellTyped(fields, slots)
    modifies s, s.buffer
    ensures s.Valid()
    ensures ok == (Encode(fields, slots).Ok? && old(s.Fits(|LengthPrefixed(Encode(fields, slots).value)|)))
    ensures ok ==> s.Wrote(LengthPrefixed(Encode(fields, slots).value))
    decreases fields, 5
  {
    var sizing := new OStream(null, 0, 0);
    var counted := EncodeMessage(sizing, fields, slots);
    if !counted {
      return false;
    }
    var size := sizing.bytesWritten;
    ghost var payload := Encode(fields, slots).value;
    ok := EncodeVarint(s, size % TWO64);
    if !ok {
      return;
    }
    ghost var mid := s.State();
    if s.buffer == null {
      s.Count(size);
      AdvancedTwice(true, old(s.State()), EncVarint(size % TWO64), mid, payload, s.State());
      return true;
    }
    if s.bytesWritten + size > s.maxSize {
      return false;
    }
    var sub := new OStream(s.buffer, s.position, size);
    var status := EncodeMessage(sub, fields, slots);
    s.bytesWritten := s.bytesWritten + sub.bytesWritten;
    s.position := sub.position;
    assert status && sub.bytesWritten == size;
    AdvancedTwice(false, old(s.State()), EncVarint(size % TWO64), mid, payload, s.State());
    return true;
  }

  /** pb_get_encoded_size */
  method GetEncodedSize(fields: seq<Field>, slots: seq<Slot>) returns (size: Option<nat>)
    requires WellTyped(fields, slots)
    ensures size.Some? <==> PbLimits.AllEncodable(fields, slots)
    ensures size.Some? ==> Encode(fields, slots).Ok? && size.value == |Encode(fields, slots).value|
  {
    PbLimits.EncodesExactly(fields, slots);
    var sizing := new OStream(null, 0, 0);
    var ok := EncodeMessage(sizing, fields, slots);
    size := if ok then Some(sizing.bytesWritten) else None;
  }

  /** Encoding into a buffer of `n` bytes succeeds exactly when every array and byte string is within
      its bounds and the encoded size is at most `n`, and then the buffer starts with exactly those bytes. */
  method EncodeToBuffer(buffer: array<Byte>, fields: seq<Field>, slots: seq<Slot>) returns (ok: bool, size: nat)
    requires WellTyped(fields, slots)
    modifies buffer
    ensures PbLimits.AllEncodable(fields, slots) ==> Encode(fields, slots).Ok?
    ensures ok <==> PbLimits.AllEncodable(fields, slots) && |Encode(fields, slots).value| <= buffer.Length
    ensures ok ==> size == |Encode(fields, slots).value| && buffer[..size] == Encode(fields, slots).value
    ensures ok ==> buffer[size..] == old(buffer[size..])
  {
    PbLimits.EncodesExactly(fields, slots);
    var s := new OStream(buffer, 0, buffer.Length);
    ok := EncodeMessage(s, fields, slots);
    size := s.bytesWritten;
  }
}
