/**
 What other writers may send: varints that are not in their shortest form, messages that stop
 early, fields in addition to those described, and messages of a newer description.
 */
module PbCompatibility {
  import opened Basics
  import opened PbFormat
  import opened PbMerge
  import opened PbRoundTrip
  import opened PbSchema
  import opened PbWire

  // ----- Varints of any form -----

  /** Seven bits. */
  type Group = x: int | 0 <= x < 128

  /** Groups, least significant first, each but the last with the continuation bit. */
  function Continued(groups: seq<Group>): seq<Byte>
    requires groups != []
    decreases groups
  {
    var g: int := groups[0];
    if |groups| == 1 then [g] else [g + 128] + Continued(groups[1..])
  }

  function FromGroups(groups: seq<Group>): nat {
    if groups == [] then 0 else groups[0] + 128 * FromGroups(groups[1..])
  }

  /** A varint is the number its groups are the digits of, in whatever form, unless it has too many. */
  lemma {:induction false} GroupsRead(groups: seq<Group>, rest: seq<Byte>, k: nat)
    requires groups != []
    ensures DecGroups(Continued(groups) + rest, k).Value? <==> |groups| <= k
    ensures |groups| <= k ==> DecGroups(Continued(groups) + rest, k) == Value(FromGroups(groups), rest)
    decreases groups
  {
    var bs := Continued(groups) + rest;
    if |groups| == 1 {
      assert bs[1..] == rest;
      assert FromGroups(groups[1..]) == 0;
    } else if k > 0 {
      GroupsRead(groups[1..], rest, k - 1);
      assert bs[1..] == Continued(groups[1..]) + rest;
    }
  }

  /** The two readers take up to ten and up to five groups, and keep the bits their results have room for. */
  lemma AnyVarint(groups: seq<Group>, rest: seq<Byte>)
    requires groups != []
    ensures var d := Dec64(Continued(groups) + rest);
            if |groups| <= 10 then d == Value(FromGroups(groups) % TWO64, rest) else d.Bad?
    ensures var d := Dec32(Continued(groups) + rest);
            if |groups| <= 5 then d == Value(FromGroups(groups) % TWO32, rest) else d.Bad?
  {
    hide Continued, FromGroups, DecGroups;
    GroupsRead(groups, rest, 10);
    GroupsRead(groups, rest, 5);
  }

  // ----- Where a message ends -----

  lemma {:induction false} EndlessGroups(bs: seq<Byte>, k: nat)
    requires forall i | 0 <= i < |bs| && i < k :: bs[i] >= 128
    ensures DecGroups(bs, k) == Bad(if |bs| <= k then [] else bs[k..])
  {
    if k > 0 && bs != [] {
      EndlessGroups(bs[1..], k - 1);
      assert |bs| > k ==> bs[1..][k - 1..] == bs[k..];
    }
  }

  /** Input that stops inside a tag is taken as the message before it. So are five continuation bytes at
      the very end, although they overflow; one byte more and decoding fails. */
  lemma CutInsideTag(fields: seq<Field>, bs: seq<Byte>, cut: seq<Byte>, slots: seq<Slot>)
    requires WellFormed(fields) && WellTyped(fields, slots) && EndsBetween(fields, bs, slots, {})
    requires cut != [] && forall i | 0 <= i < |cut| && i < 5 :: cut[i] >= 128
    ensures |cut| <= 5 ==> DecOver(fields, bs + cut, slots) == DecOver(fields, bs, slots)
    ensures |cut| > 5 ==> DecOver(fields, bs + cut, slots).Err?
  {
    EndlessGroups(cut, 5);
    LoopAppend(fields, bs, cut, slots, {});
  }

  /** A tag that reads as zero ends the message, whatever follows. */
  lemma ZeroEndsMessage(fields: seq<Field>, bs: seq<Byte>, zero: seq<Byte>, slots: seq<Slot>)
    requires WellFormed(fields) && WellTyped(fields, slots) && EndsBetween(fields, bs, slots, {})
    requires Dec32(zero).Value? && Dec32(zero).n == 0
    ensures DecOver(fields, bs + zero, slots) == DecOver(fields, bs, slots)
  {
    assert zero != [];
    LoopAppend(fields, bs, zero, slots, {});
  }

  /** A tag with field number zero, which no field has, is skipped like any unknown field, but with an empty
      description it is an error. */
  lemma ZeroFieldNumber(fields: seq<Field>, bs: seq<Byte>, slots: seq<Slot>, seen: set<nat>)
    requires WellFormed(fields) && WellTyped(fields, slots)
    requires bs != [] && DecTag(bs).Tag? && DecTag(bs).tag == 0
    ensures var after := Skip(DecTag(bs).wt, DecTag(bs).rest);
            DecLoop(fields, bs, slots, seen).Ok?
            <==> fields != [] && after.Ok? && DecLoop(fields, after.value, slots, seen).Ok?
  {
    assert forall k | 0 <= k < |fields| :: FieldWellFormed(fields[k]);
    assert Find(fields, 0) == None;
  }

  // ----- Required fields -----

  lemma {:induction false} SeenAreMentioned(fields: seq<Field>, bs: seq<Byte>, slots: seq<Slot>, seen: set<nat>, k: nat)
    requires WellFormed(fields) && WellTyped(fields, slots) && k < |fields| && fields[k].htype.Required?
    requires DecLoop(fields, bs, slots, seen).Ok?
    ensures k in DecLoop(fields, bs, slots, seen).value.seen <==> k in seen || k in Mentioned(fields, bs, slots)
    decreases |bs|
  {
    if bs != [] && DecTag(bs).Tag? {
      var h := DecTag(bs);
      match Find(fields, h.tag)
      case Some(j) =>
        var d := DecField(fields, j, h.wt, h.rest, slots).value;
        SeenAreMentioned(fields, d.rest, d.v, SeenWith(fields, j, seen), k);
      case None =>
        SeenAreMentioned(fields, Skip(h.wt, h.rest).value, slots, seen, k);
    }
  }

  /** Decoding succeeds exactly when every field in the bytes can be read and every required field is
      among them. */
  lemma SucceedsExactly(fields: seq<Field>, bs: seq<Byte>, slots: seq<Slot>)
    requires WellFormed(fields) && WellTyped(fields, slots)
    ensures DecOver(fields, bs, slots).Ok?
       <==> && DecLoop(fields, bs, slots, {}).Ok?
            && forall k | 0 <= k < |fields| && fields[k].htype.Required? :: k in Mentioned(fields, bs, slots)
  {
    if DecLoop(fields, bs, slots, {}).Ok? {
      forall k | 0 <= k < |fields| && fields[k].htype.Required?
        ensures k in DecLoop(fields, bs, slots, {}).value.seen <==> k in Mentioned(fields, bs, slots)
      {
        SeenAreMentioned(fields, bs, slots, {}, k);
      }
    }
  }

  // ----- Skipping -----

  lemma {:induction false} SkipsVarint(n: nat, rest: seq<Byte>)
    ensures SkipVarint(EncVarint(n) + rest) == Ok(rest)
  {
    var bs := EncVarint(n) + rest;
    if n < 128 {
      assert bs[1..] == rest;
    } else {
      assert bs[1..] == EncVarint(n / 128) + rest;
      SkipsVarint(n / 128, rest);
    }
  }

  /** Fields of the wire types that mark groups cannot be skipped. */
  lemma OnlyFourWireTypes(wt: nat, bs: seq<Byte>)
    ensures Skip(wt, bs).Ok? ==> wt in {0, 1, 2, 5} && |Skip(wt, bs).value| < |bs|
  {
  }

  /** Skipping the value of a field that is not known leaves exactly what follows it. */
  lemma SkipsValue(lt: LType, v: Value, rest: seq<Byte>)
    requires HasType(lt, v) && EncValue(lt, v).Ok? && |EncValue(lt, v).value| < TWO32
    ensures Skip(WireType(lt), EncValue(lt, v).value + rest) == Ok(rest)
  {
    hide EncVarint, SkipVarint, DecDelimited, LengthPrefixed, LittleEndian, CString, EncFrom;
    match lt
    case Varint(_) => SkipsVarint(ToU64(v.i), rest);
    case Uvarint(_) => SkipsVarint(v.i, rest);
    case Svarint(_) => SkipsVarint(ZigZag(v.i), rest);
    case Fixed32 => assert (LittleEndian(v.i, 4) + rest)[4..] == rest;
    case Fixed64 => assert (LittleEndian(v.i, 8) + rest)[8..] == rest;
    case Bytes(_) => DelimitedRoundTrip(v.data, rest);
    case String(_) => DelimitedRoundTrip(CString(v.data), rest);
    case FixedBytes(_) => DelimitedRoundTrip(v.data, rest);
    case Submessage(fields) => DelimitedRoundTrip(EncFrom(fields, v.slots, 0).value, rest);
  }

  lemma TaggedSkipped(fields: seq<Field>, f: Field, v: Value, slots: seq<Slot>, seen: set<nat>)
    requires WellFormed(fields) && WellTyped(fields, slots)
    requires FieldWellFormed(f) && HasType(f.ltype, v) && Find(fields, f.tag) == None
    requires EncTagged(f, v).Ok? && |EncTagged(f, v).value| < TWO32
    ensures DecLoop(fields, EncTagged(f, v).value, slots, seen) == Ok(Loop(slots, seen, true))
  {
    var body := EncValue(f.ltype, v).value;
    TagRoundTrip(f.tag, WireType(f.ltype), body);
    SkipsValue(f.ltype, v, []);
    assert body + [] == body;
  }

  lemma {:induction false} ItemsSkipped(fields: seq<Field>, f: Field, items: seq<Value>, i: nat, slots: seq<Slot>,
                                        seen: set<nat>)
    requires WellFormed(fields) && WellTyped(fields, slots)
    requires FieldWellFormed(f) && Find(fields, f.tag) == None
    requires i <= |items| && forall k | 0 <= k < |items| :: HasType(f.ltype, items[k])
    requires EncItems(f, items, i).Ok? && |EncItems(f, items, i).value| < TWO32
    ensures DecLoop(fields, EncItems(f, items, i).value, slots, seen) == Ok(Loop(slots, seen, true))
    decreases |items| - i
  {
    if i < |items| {
      var one, others := EncTagged(f, items[i]).value, EncItems(f, items, i + 1).value;
      TaggedSkipped(fields, f, items[i], slots, seen);
      ItemsSkipped(fields, f, items, i + 1, slots, seen);
      LoopAppend(fields, one, others, slots, seen);
    }
  }

  lemma PackedSkipped(fields: seq<Field>, f: Field, payload: seq<Byte>, slots: seq<Slot>, seen: set<nat>)
    requires WellFormed(fields) && WellTyped(fields, slots)
    requires FieldWellFormed(f) && Find(fields, f.tag) == None && |payload| < TWO32
    ensures DecLoop(fields, EncTag(f.tag, WT_STRING) + LengthPrefixed(payload), slots, seen) == Ok(Loop(slots, seen, true))
  {
    TagRoundTrip(f.tag, WT_STRING, LengthPrefixed(payload));
    DelimitedRoundTrip(payload, []);
    assert LengthPrefixed(payload) + [] == LengthPrefixed(payload);
  }

  /** Everything a field that is not known wrote is passed over. */
  lemma SlotSkipped(fields: seq<Field>, f: Field, s: Slot, slots: seq<Slot>, seen: set<nat>)
    requires WellFormed(fields) && WellTyped(fields, slots)
    requires FieldWellFormed(f) && SlotHasType(f, s) && Find(fields, f.tag) == None
    requires EncSlot(f, s).Ok? && |EncSlot(f, s).value| < TWO32
    ensures DecLoop(fields, EncSlot(f, s).value, slots, seen) == Ok(Loop(slots, seen, true))
  {
    hide DecLoop, EncTagged, LengthPrefixed, EncPacked, EncTag, WellFormed, WellTyped, HasType, FieldWellFormed;
    match s
    case Req(v) => TaggedSkipped(fields, f, v, slots, seen);
    case Opt(has, v) => if has { TaggedSkipped(fields, f, v, slots, seen); } else { NothingSkipped(fields, slots, seen); }
    case Rep(items) =>
      if items == [] {
        NothingSkipped(fields, slots, seen);
      } else if f.ltype.Packable() {
        PackedSkipped(fields, f, EncPacked(f.ltype, items, 0), slots, seen);
      } else {
        ItemsSkipped(fields, f, items, 0, slots, seen);
      }
    case Alt(c) =>
      if c.Some? { TaggedSkipped(fields, f, c.value, slots, seen); } else { NothingSkipped(fields, slots, seen); }
  }

  lemma NothingSkipped(fields: seq<Field>, slots: seq<Slot>, seen: set<nat>)
    requires WellFormed(fields) && WellTyped(fields, slots)
    ensures DecLoop(fields, [], slots, seen) == Ok(Loop(slots, seen, true))
  {
  }

  // ----- Older readers -----

  /** Which elements a part of a list has, in order. */
  ghost predicate Picks(at: seq<nat>, n: nat) {
    (forall k | 0 <= k < |at| :: at[k] < n) && forall j, k | 0 <= j < k < |at| :: at[j] < at[k]
  }

  function Part<T>(s: seq<T>, at: seq<nat>): (r: seq<T>)
    requires forall k | 0 <= k < |at| :: at[k] < |s|
    ensures |r| == |at| && forall k | 0 <= k < |at| :: r[k] == s[at[k]]
  {
    seq(|at|, k requires 0 <= k < |at| => s[at[k]])
  }

  lemma PartWellTyped(fields: seq<Field>, slots: seq<Slot>, at: seq<nat>)
    requires WellTyped(fields, slots) && AllTerminated(fields, slots) && Picks(at, |fields|)
    ensures WellTyped(Part(fields, at), Part(slots, at)) && AllTerminated(Part(fields, at), Part(slots, at))
  {
    var older, olds := Part(fields, at), Part(slots, at);
    forall k | 0 <= k < |at|
      ensures SlotHasType(older[k], olds[k]) && SlotTerminated(older[k], olds[k])
    {
      assert SlotHasType(fields[at[k]], slots[at[k]]) && SlotTerminated(fields[at[k]], slots[at[k]]);
    }
    forall j, k | 0 <= j < k < |older| && older[j].htype.Oneof? && older[k].htype == older[j].htype
      ensures olds[j] == Alt(None) || olds[k] == Alt(None)
    {
      assert slots[at[j]] == Alt(None) || slots[at[k]] == Alt(None);
    }
  }

  lemma TagsDiffer(fields: seq<Field>, i: nat, j: nat)
    requires DistinctTags(fields) && i < |fields| && j < |fields| && i != j
    ensures fields[i].tag != fields[j].tag
  {
    if i < j {
    } else {
    }
  }

  lemma NotPicked(fields: seq<Field>, at: seq<nat>, i: nat)
    requires DistinctTags(fields) && Picks(at, |fields|) && i < |fields| && i !in at
    ensures Find(Part(fields, at), fields[i].tag) == None
  {
    forall k | 0 <= k < |at|
      ensures fields[at[k]].tag != fields[i].tag
    {
      TagsDiffer(fields, at[k], i);
    }
  }

  /** The first `c` of the picks are those below `i`. */
  ghost predicate SplitsAt(at: seq<nat>, i: nat, c: nat) {
    c <= |at| && (forall k | 0 <= k < c :: at[k] < i) && forall k | c <= k < |at| :: at[k] >= i
  }

  lemma SplitNext(at: seq<nat>, n: nat, i: nat, c: nat)
    requires Picks(at, n) && SplitsAt(at, i, c) && i < n
    ensures if c < |at| && at[c] == i then SplitsAt(at, i + 1, c + 1) else SplitsAt(at, i + 1, c) && i !in at
  {
    forall k | c <= k < |at|
      ensures at[c] <= at[k]
    {
      PicksRise(at, n, c, k);
    }
  }

  lemma PicksRise(at: seq<nat>, n: nat, j: nat, k: nat)
    requires Picks(at, n) && j <= k < |at|
    ensures at[j] <= at[k]
  {
  }

  lemma SplitEnd(at: seq<nat>, n: nat, c: nat)
    requires Picks(at, n) && SplitsAt(at, n, c)
    ensures c == |at|
  {
    if c < |at| {
      PicksBelow(at, n, c);
    }
  }

  lemma PicksBelow(at: seq<nat>, n: nat, k: nat)
    requires Picks(at, n) && k < |at|
    ensures at[k] < n
  {
  }

  lemma {:induction false} OlderReaderFrom(fields: seq<Field>, slots: seq<Slot>, at: seq<nat>, i: nat, c: nat)
    requires WellFormed(fields) && WellTyped(fields, slots) && AllTerminated(fields, slots)
    requires Picks(at, |fields|) && |slots| == |fields| && WellFormed(Part(fields, at))
    requires WellTyped(Part(fields, at), Part(slots, at)) && AllTerminated(Part(fields, at), Part(slots, at))
    requires i <= |fields| && SplitsAt(at, i, c)
    requires EncFrom(fields, slots, i).Ok? && |EncFrom(fields, slots, i).value| < TWO32
    ensures var older, olds := Part(fields, at), Part(slots, at);
            && WellTyped(older, Mixed(older, olds, c))
            && DecLoop(older, EncFrom(fields, slots, i).value, Mixed(older, olds, c), RequiredIndices(older, c))
               == Ok(Loop(Normal(older, olds), RequiredIndices(older, |older|), true))
    decreases |fields| - i
  {
    hide WellFormed, WellTyped, AllTerminated, DecLoop, EncFrom, EncSlot, Mixed, Normal, RequiredIndices, SlotHasType;
    var older, olds := Part(fields, at), Part(slots, at);
    MixedWellTyped(older, olds, c);
    OneSlotEach(fields, slots);
    if i == |fields| {
      SplitEnd(at, i, c);
      NothingToRead(fields, slots);
      NothingLeft(older, olds);
    } else {
      var one, others := MessageSplit(fields, slots, i);
      SplitNext(at, |fields|, i, c);
      if c < |at| && at[c] == i {
        SlotRoundTrip(older, olds, c);
        OlderReaderFrom(fields, slots, at, i + 1, c + 1);
      } else {
        AboutField(fields, i);
        NotPicked(fields, at, i);
        SlotSkipped(older, fields[i], slots[i], Mixed(older, olds, c), RequiredIndices(older, c));
        OlderReaderFrom(fields, slots, at, i + 1, c);
      }
      LoopAppend(older, one, others, Mixed(older, olds, c), RequiredIndices(older, c));
    }
  }

  lemma AboutField(fields: seq<Field>, i: nat)
    requires WellFormed(fields) && i < |fields|
    ensures DistinctTags(fields) && FieldWellFormed(fields[i])
  {
  }

  lemma NothingToRead(fields: seq<Field>, slots: seq<Slot>)
    requires WellTyped(fields, slots)
    ensures EncFrom(fields, slots, |fields|) == Ok([])
  {
  }

  /** A reader whose description has only some of the fields gets exactly those from what was written
      with all of them. */
  lemma OlderReader(fields: seq<Field>, slots: seq<Slot>, at: seq<nat>)
    requires WellFormed(fields) && WellTyped(fields, slots) && AllTerminated(fields, slots)
    requires Picks(at, |fields|) && WellFormed(Part(fields, at))
    requires Encode(fields, slots).Ok? && |Encode(fields, slots).value| < TWO32
    ensures |slots| == |fields|
    ensures Decode(Part(fields, at), Encode(fields, slots).value) == Ok(Normal(Part(fields, at), Part(slots, at)))
  {
    hide DecLoop, EncFrom, WellFormed, AllTerminated, SlotHasType, Normal, Defaults, Mixed, Exclusive;
    var older, olds, bs := Part(fields, at), Part(slots, at), Encode(fields, slots).value;
    PartWellTyped(fields, slots, at);
    OlderReaderFrom(fields, slots, at, 0, 0);
    NothingReadYet(older, olds);
    EndOfLoop(older, bs, Defaults(older), Normal(older, olds));
  }
}
