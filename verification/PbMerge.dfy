/** What decoding into a struct that already holds something does to each kind of field. */
module PbMerge {
  import opened Basics
  import opened PbFormat
  import opened PbRoundTrip
  import opened PbSchema
  import opened PbWire

  // ----- Repeated fields append -----

  /** The two structs differ only in a repeated field, which in the first one has `before` in front. */
  ghost predicate Ahead(slots: seq<Slot>, own: seq<Slot>, k: nat, before: seq<Value>) {
    && |slots| == |own| && k < |own|
    && slots[k].Rep? && own[k].Rep?
    && slots[k].items == before + own[k].items
    && slots == own[k := slots[k]]
  }

  lemma {:induction false} PackedAppends(lt: LType, max: nat, bs: seq<Byte>, before: seq<Value>, items: seq<Value>)
    requires lt.Packable()
    requires forall j | 0 <= j < |before| :: HasType(lt, before[j])
    requires forall j | 0 <= j < |items| :: HasType(lt, items[j])
    requires DecPacked(lt, max, bs, before + items).Ok?
    ensures DecPacked(lt, max, bs, items).Ok?
    ensures DecPacked(lt, max, bs, before + items).value == before + DecPacked(lt, max, bs, items).value
    decreases |bs|
  {
    if bs != [] {
      var one := DecNumber(lt, bs).value;
      assert before + items + [one.v] == before + (items + [one.v]);
      PackedAppends(lt, max, one.rest, before, items + [one.v]);
    }
  }

  lemma FieldAppends(fields: seq<Field>, j: nat, wt: nat, bs: seq<Byte>, slots: seq<Slot>, own: seq<Slot>, k: nat,
                     before: seq<Value>)
    requires WellFormed(fields) && WellTyped(fields, slots) && WellTyped(fields, own) && j < |fields|
    requires k < |fields| && fields[k].htype.Repeated? && Ahead(slots, own, k, before)
    requires DecField(fields, j, wt, bs, slots).Ok?
    ensures DecField(fields, j, wt, bs, own).Ok?
    ensures var d, e := DecField(fields, j, wt, bs, slots).value, DecField(fields, j, wt, bs, own).value;
            e.rest == d.rest && Ahead(d.v, e.v, k, before)
  {
    assert FieldWellFormed(fields[j]) && SlotHasType(fields[j], slots[j]) && SlotHasType(fields[j], own[j]);
    if PackedInput(fields[j], wt) && j == k {
      assert forall i | 0 <= i < |before| :: before[i] == slots[k].items[i];
      PackedAppends(fields[j].ltype, fields[j].htype.max, DecDelimited(bs).value.v, before, own[j].items);
    }
  }

  lemma {:induction false} LoopAppends(fields: seq<Field>, bs: seq<Byte>, slots: seq<Slot>, own: seq<Slot>, seen: set<nat>,
                                       k: nat, before: seq<Value>)
    requires WellFormed(fields) && WellTyped(fields, slots) && WellTyped(fields, own)
    requires k < |fields| && fields[k].htype.Repeated? && Ahead(slots, own, k, before)
    requires DecLoop(fields, bs, slots, seen).Ok?
    ensures DecLoop(fields, bs, own, seen).Ok?
    ensures Ahead(DecLoop(fields, bs, slots, seen).value.slots, DecLoop(fields, bs, own, seen).value.slots, k, before)
    decreases |bs|
  {
    if bs != [] && DecTag(bs).Tag? {
      var h := DecTag(bs);
      match Find(fields, h.tag)
      case Some(j) =>
        FieldAppends(fields, j, h.wt, h.rest, slots, own, k, before);
        var d, e := DecField(fields, j, h.wt, h.rest, slots).value, DecField(fields, j, h.wt, h.rest, own).value;
        LoopAppends(fields, d.rest, d.v, e.v, if fields[j].htype.Required? then seen + {j} else seen, k, before);
      case None =>
        LoopAppends(fields, Skip(h.wt, h.rest).value, slots, own, seen, k, before);
    }
  }

  /** What a repeated field holds after decoding is what it held before, followed by what the same
      bytes decode to when it starts empty; no other field notices. */
  lemma RepeatedAppends(fields: seq<Field>, bs: seq<Byte>, slots: seq<Slot>, k: nat)
    requires WellFormed(fields) && WellTyped(fields, slots) && k < |fields| && fields[k].htype.Repeated?
    requires DecLoop(fields, bs, slots, {}).Ok?
    ensures WellTyped(fields, slots[k := Rep([])]) && SlotHasType(fields[k], slots[k])
    ensures DecLoop(fields, bs, slots[k := Rep([])], {}).Ok?
    ensures Ahead(DecLoop(fields, bs, slots, {}).value.slots, DecLoop(fields, bs, slots[k := Rep([])], {}).value.slots,
                  k, slots[k].items)
  {
    assert SlotHasType(fields[k], slots[k]) && SlotHasType(fields[k], Rep([]));
    LoopAppends(fields, bs, slots, slots[k := Rep([])], {}, k, slots[k].items);
  }

  // ----- Fields that are not mentioned -----

  /** The fields that decoding comes across. */
  function Mentioned(fields: seq<Field>, bs: seq<Byte>, slots: seq<Slot>): set<nat>
    requires WellFormed(fields) && WellTyped(fields, slots)
    decreases |bs|
  {
    if bs == [] || !DecTag(bs).Tag? then {}
    else
      var h := DecTag(bs);
      match Find(fields, h.tag)
      case Some(k) =>
        var d := DecField(fields, k, h.wt, h.rest, slots);
        {k} + if d.Ok? then Mentioned(fields, d.value.rest, d.value.v) else {}
      case None =>
        if Skip(h.wt, h.rest).Ok? then Mentioned(fields, Skip(h.wt, h.rest).value, slots) else {}
  }

  /** Decoding field `k` may write field `j`: they are the same, or members of one union. */
  predicate Shares(fields: seq<Field>, k: nat, j: nat)
    requires k < |fields| && j < |fields|
  {
    k == j || (fields[k].htype.Oneof? && fields[k].htype == fields[j].htype)
  }

  lemma FieldKeeps(fields: seq<Field>, k: nat, wt: nat, bs: seq<Byte>, slots: seq<Slot>, j: nat)
    requires WellFormed(fields) && WellTyped(fields, slots) && k < |fields| && j < |fields| && !Shares(fields, k, j)
    requires DecField(fields, k, wt, bs, slots).Ok?
    ensures DecField(fields, k, wt, bs, slots).value.v[j] == slots[j]
  {
    assert FieldWellFormed(fields[k]) && SlotHasType(fields[k], slots[k]);
  }

  /** One turn of the loop, and what it adds to the fields mentioned. */
  lemma OneTurn(fields: seq<Field>, bs: seq<Byte>, slots: seq<Slot>, seen: set<nat>)
    requires WellFormed(fields) && WellTyped(fields, slots) && bs != [] && DecTag(bs).Tag?
    requires DecLoop(fields, bs, slots, seen).Ok?
    ensures match Find(fields, DecTag(bs).tag)
            case Some(k) =>
              var d := DecField(fields, k, DecTag(bs).wt, DecTag(bs).rest, slots);
              && d.Ok? && k < |fields| && k in Mentioned(fields, bs, slots)
              && Mentioned(fields, d.value.rest, d.value.v) <= Mentioned(fields, bs, slots)
              && DecLoop(fields, bs, slots, seen) == DecLoop(fields, d.value.rest, d.value.v, SeenWith(fields, k, seen))
            case None =>
              var after := Skip(DecTag(bs).wt, DecTag(bs).rest);
              && after.Ok? && Mentioned(fields, after.value, slots) <= Mentioned(fields, bs, slots)
              && DecLoop(fields, bs, slots, seen) == DecLoop(fields, after.value, slots, seen)
  {
  }

  lemma StopsAtOnce(fields: seq<Field>, bs: seq<Byte>, slots: seq<Slot>, seen: set<nat>)
    requires WellFormed(fields) && WellTyped(fields, slots) && (bs == [] || !DecTag(bs).Tag?)
    ensures DecLoop(fields, bs, slots, seen).Ok? ==> DecLoop(fields, bs, slots, seen).value.slots == slots
  {
  }

  /** A field that is not mentioned, nor another member of its union, keeps what it held. */
  lemma {:induction false} UnmentionedKept(fields: seq<Field>, bs: seq<Byte>, slots: seq<Slot>, seen: set<nat>, j: nat)
    requires WellFormed(fields) && WellTyped(fields, slots) && j < |fields|
    requires DecLoop(fields, bs, slots, seen).Ok?
    requires forall k | k in Mentioned(fields, bs, slots) :: k < |fields| && !Shares(fields, k, j)
    ensures |slots| == |fields| == |DecLoop(fields, bs, slots, seen).value.slots|
    ensures DecLoop(fields, bs, slots, seen).value.slots[j] == slots[j]
    decreases |bs|
  {
    hide WellTyped, WellFormed, DecLoop, DecField, DecTag, Skip, Mentioned, Shares, Find;
    OneSlotEach(fields, slots);
    OneSlotEach(fields, DecLoop(fields, bs, slots, seen).value.slots);
    if bs != [] && DecTag(bs).Tag? {
      var h := DecTag(bs);
      OneTurn(fields, bs, slots, seen);
      match Find(fields, h.tag)
      case Some(k) =>
        FieldKeeps(fields, k, h.wt, h.rest, slots, j);
        var d := DecField(fields, k, h.wt, h.rest, slots).value;
        UnmentionedKept(fields, d.rest, d.v, SeenWith(fields, k, seen), j);
      case None =>
        UnmentionedKept(fields, Skip(h.wt, h.rest).value, slots, seen, j);
    } else {
      StopsAtOnce(fields, bs, slots, seen);
    }
  }

  // ----- Submessages -----

  /** A struct's slot for a submessage. */
  function Held(f: Field, has: bool, slots: seq<Slot>): Slot {
    if f.htype.Required? then Req(Sub(slots)) else Opt(has, Sub(slots))
  }

  /** A submessage that is not in a union or an array is decoded into what the struct holds. */
  lemma SubmessageMerges(fields: seq<Field>, k: nat, data: seq<Byte>, rest: seq<Byte>, slots: seq<Slot>, has: bool,
                         held: seq<Slot>)
    requires WellFormed(fields) && WellTyped(fields, slots) && k < |fields| && |data| < TWO32
    requires fields[k].ltype.Submessage? && (fields[k].htype.Required? || fields[k].htype.Optional?)
    requires slots[k] == Held(fields[k], has, held)
    ensures WellFormed(fields[k].ltype.fields) && WellTyped(fields[k].ltype.fields, held)
    ensures var inner := DecOver(fields[k].ltype.fields, data, held);
            var d := DecField(fields, k, WT_STRING, LengthPrefixed(data) + rest, slots);
            d == if inner.Err? then Err(inner.error)
                 else Ok(Read(slots[k := Held(fields[k], true, inner.value)], rest))
  {
    assert FieldWellFormed(fields[k]) && SlotHasType(fields[k], slots[k]);
    NestedStaysInside(fields[k].ltype.fields, data, rest, held);
  }

  /** One occurrence of a submessage field. */
  function Occurrence(f: Field, data: seq<Byte>): seq<Byte> {
    EncTag(f.tag, WT_STRING) + LengthPrefixed(data)
  }

  lemma OccurrenceDecodes(fields: seq<Field>, k: nat, data: seq<Byte>, rest: seq<Byte>, slots: seq<Slot>, has: bool,
                          held: seq<Slot>, seen: set<nat>)
    requires WellFormed(fields) && WellTyped(fields, slots) && k < |fields| && |data| < TWO32
    requires fields[k].ltype.Submessage? && (fields[k].htype.Required? || fields[k].htype.Optional?)
    requires slots[k] == Held(fields[k], has, held)
    requires WellFormed(fields[k].ltype.fields) && WellTyped(fields[k].ltype.fields, held)
    requires DecOver(fields[k].ltype.fields, data, held).Ok?
    ensures var after := slots[k := Held(fields[k], true, DecOver(fields[k].ltype.fields, data, held).value)];
            && WellTyped(fields, after)
            && DecLoop(fields, Occurrence(fields[k], data) + rest, slots, seen)
               == DecLoop(fields, rest, after, SeenWith(fields, k, seen))
  {
    var bs := Occurrence(fields[k], data) + rest;
    assert bs == EncTag(fields[k].tag, WT_STRING) + (LengthPrefixed(data) + rest);
    assert FieldWellFormed(fields[k]);
    TagRoundTrip(fields[k].tag, WT_STRING, LengthPrefixed(data) + rest);
    FindsItsTag(fields, k);
    SubmessageMerges(fields, k, data, rest, slots, has, held);
  }

  /** Two occurrences of a submessage decode like one whose bytes are those of both. */
  lemma OccurrencesMerge(fields: seq<Field>, k: nat, a: seq<Byte>, b: seq<Byte>, rest: seq<Byte>, slots: seq<Slot>, has: bool,
                         held: seq<Slot>, seen: set<nat>)
    requires WellFormed(fields) && WellTyped(fields, slots) && k < |fields| && |a + b| < TWO32
    requires fields[k].ltype.Submessage? && (fields[k].htype.Required? || fields[k].htype.Optional?)
    requires slots[k] == Held(fields[k], has, held)
    requires WellFormed(fields[k].ltype.fields) && WellTyped(fields[k].ltype.fields, held)
    requires DecOver(fields[k].ltype.fields, a, held).Ok? && DecLoop(fields[k].ltype.fields, a, held, {}).value.clean
    requires DecOver(fields[k].ltype.fields, b, DecOver(fields[k].ltype.fields, a, held).value).Ok?
    ensures DecLoop(fields, Occurrence(fields[k], a) + (Occurrence(fields[k], b) + rest), slots, seen)
         == DecLoop(fields, Occurrence(fields[k], a + b) + rest, slots, seen)
  {
    hide WellTyped, WellFormed, DecLoop, DecOver, Occurrence, SeenWith, Held;
    OneSlotEach(fields, slots);
    var inner := fields[k].ltype.fields;
    var mid := DecOver(inner, a, held).value;
    var first := slots[k := Held(fields[k], true, mid)];
    OccurrenceDecodes(fields, k, a, Occurrence(fields[k], b) + rest, slots, has, held, seen);
    OccurrenceDecodes(fields, k, b, rest, first, true, mid, SeenWith(fields, k, seen));
    OneThenTheOther(inner, a, b, held);
    OccurrenceDecodes(fields, k, a + b, rest, slots, has, held, seen);
    SeenAlready(fields, k, seen);
    var last := Held(fields[k], true, DecOver(inner, b, mid).value);
    assert first[k := last] == slots[k := last];
  }

  /** Where the first part alone has every required field. */
  lemma OneThenTheOther(fields: seq<Field>, a: seq<Byte>, b: seq<Byte>, slots: seq<Slot>)
    requires WellFormed(fields) && WellTyped(fields, slots)
    requires DecOver(fields, a, slots).Ok? && DecLoop(fields, a, slots, {}).value.clean
    requires DecOver(fields, b, DecOver(fields, a, slots).value).Ok?
    ensures DecOver(fields, a + b, slots) == DecOver(fields, b, DecOver(fields, a, slots).value)
  {
    DecodeIsMerge(fields, a, b, slots);
  }

  lemma SeenAlready(fields: seq<Field>, k: nat, seen: set<nat>)
    requires k < |fields|
    ensures SeenWith(fields, k, SeenWith(fields, k, seen)) == SeenWith(fields, k, seen)
  {
  }

  /** A member of a union is decoded from its defaults, whatever the struct holds, and the other
      members are unset. */
  lemma OneofReplaces(fields: seq<Field>, k: nat, wt: nat, bs: seq<Byte>, slots: seq<Slot>, other: seq<Slot>)
    requires WellFormed(fields) && WellTyped(fields, slots) && WellTyped(fields, other)
    requires k < |fields| && fields[k].htype.Oneof? && DecField(fields, k, wt, bs, slots).Ok?
    ensures DecField(fields, k, wt, bs, other).Ok?
    ensures var d, e := DecField(fields, k, wt, bs, slots).value, DecField(fields, k, wt, bs, other).value;
            && d.rest == e.rest
            && d.v[k] == e.v[k] && d.v[k].Alt? && d.v[k].choice.Some?
            && forall j | 0 <= j < |fields| && j != k :: d.v[j] == if fields[j].htype == fields[k].htype then Alt(None) else slots[j]
  {
    assert SlotHasType(fields[k], slots[k]) && SlotHasType(fields[k], other[k]);
  }
}
