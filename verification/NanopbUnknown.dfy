/**
 Fields that the reader's table does not have are passed over: a message written with a longer table reads, with
 the shorter one, as the part that the shorter one knows.
 */
module NanopbUnknown {
  import opened Coding
  import opened Entries
  import opened Sequences
  import opened Nanopb
  import opened NanopbDecode
  import opened NanopbRoundTrip

  lemma {:induction false} SkipsVarint(v: nat, rest: Bytes)
    ensures SkipVarint(Varint(v) + rest) == Some(rest)
    decreases v
  {
    var input := Varint(v) + rest;
    if v < 128 {
      assert input[1..] == rest;
    } else {
      assert input[1..] == Varint(v / 128) + rest;
      SkipsVarint(v / 128, rest);
    }
  }

  lemma SkipsPrefix(b: Bytes, rest: Bytes)
    ensures SkipBytes(b + rest, |b|) == Some(rest)
  {
    assert (b + rest)[|b|..] == rest;
  }

  /** A length-prefixed value is passed over as a whole. */
  lemma SkipsPrefixed(b: Bytes, rest: Bytes)
    requires |b| < TWO_32
    ensures SkipField(WireCode(LENGTH), Prefixed(b) + rest) == Some(rest)
  {
    hide DecodeVarint32;
    hide Prefixed;
    PrefixedTakes(b, rest);
    SkipsPrefix(b, rest);
  }

  lemma SkipsValue(t: LType, v: Value, rest: Bytes)
    requires Fits(t, v) && |EncodeValue(t, v)| < TWO_32
    ensures SkipField(WireCode(WireOf(t)), EncodeValue(t, v) + rest) == Some(rest)
  {
    hide Varint;
    hide Fixed;
    hide EncodeMessage;
    hide SkipVarint;
    match t
    case VarintT(_) => SkipsVarint(if v.i < 0 then v.i + TWO_64 else v.i, rest);
    case UVarintT(_) => SkipsVarint(v.i, rest);
    case SVarintT(_) => SkipsVarint(ZigZag(v.i), rest);
    case Fixed32T => SkipsPrefix(Fixed(v.i, 4), rest);
    case Fixed64T => SkipsPrefix(Fixed(v.i, 8), rest);
    case SubmessageT(fields) => SkipsPrefixed(EncodeMessage(fields, v.slots), rest);
    case _ => SkipsPrefixed(v.b, rest);
  }

  /** No field of the table has the tag. */
  predicate Unknown(fields: seq<Field>, tag: nat) {
    forall i :: 0 <= i < |fields| ==> fields[i].tag != tag
  }

  lemma NoIndex(fields: seq<Field>, tag: nat)
    requires Unknown(fields, tag)
    ensures FieldIndex(fields, tag) == |fields|
  {
    var k := FieldIndex(fields, tag);
  }

  lemma UnknownTag(fields: seq<Field>, slots: seq<Slot>, seen: set<nat>, w: WireType, tag: nat, body: Bytes, rest: Bytes)
    requires |fields| == |slots| && Unknown(fields, tag) && 0 < tag <= SIZE_MAX
    requires SkipField(WireCode(w), body + rest) == Some(rest)
    ensures DecodeFields(fields, slots, seen, TagBytes(w, tag) + body + rest) == DecodeFields(fields, slots, seen, rest)
  {
    hide DecodeField;
    hide DecodeVarint32;
    hide TagBytes;
    hide SkipField;
    Assoc(TagBytes(w, tag), body, rest);
    TagReads(w, tag, body + rest);
    NoIndex(fields, tag);
  }

  lemma UnknownValue(fields: seq<Field>, slots: seq<Slot>, seen: set<nat>, f: Field, v: Value, rest: Bytes)
    requires |fields| == |slots| && Unknown(fields, f.tag) && 0 < f.tag <= SIZE_MAX
    requires Fits(f.ltype, v) && |EncodeValue(f.ltype, v)| < TWO_32
    ensures DecodeFields(fields, slots, seen, Tagged(f, v) + rest) == DecodeFields(fields, slots, seen, rest)
  {
    hide EncodeValue;
    hide TagBytes;
    hide SkipField;
    hide DecodeFields;
    SkipsValue(f.ltype, v, rest);
    UnknownTag(fields, slots, seen, WireOf(f.ltype), f.tag, EncodeValue(f.ltype, v), rest);
  }

  lemma {:induction false} UnknownItems(fields: seq<Field>, slots: seq<Slot>, seen: set<nat>, f: Field, vs: seq<Value>, rest: Bytes)
    requires |fields| == |slots| && Unknown(fields, f.tag) && 0 < f.tag <= SIZE_MAX
    requires (forall i :: 0 <= i < |vs| ==> Fits(f.ltype, vs[i])) && |TaggedAll(f, vs)| < TWO_32
    ensures DecodeFields(fields, slots, seen, TaggedAll(f, vs) + rest) == DecodeFields(fields, slots, seen, rest)
    decreases |vs|
  {
    hide DecodeFields;
    hide EncodeValue;
    hide TagBytes;
    if |vs| == 0 {
      assert [] + rest == rest;
    } else {
      Assoc(Tagged(f, vs[0]), TaggedAll(f, vs[1..]), rest);
      UnknownValue(fields, slots, seen, f, vs[0], TaggedAll(f, vs[1..]) + rest);
      UnknownItems(fields, slots, seen, f, vs[1..], rest);
    }
  }

  /** Whatever such a field holds. */
  lemma UnknownSlot(fields: seq<Field>, slots: seq<Slot>, seen: set<nat>, f: Field, s: Slot, rest: Bytes)
    requires |fields| == |slots| && Unknown(fields, f.tag) && FieldOk(f) && SlotFits(f, s) && |EncodeSlot(f, s)| < TWO_32
    ensures DecodeFields(fields, slots, seen, EncodeSlot(f, s) + rest) == DecodeFields(fields, slots, seen, rest)
  {
    hide DecodeFields;
    hide EncodeValue;
    hide TagBytes;
    hide EncodeAll;
    hide SkipField;
    hide Prefixed;
    if EncodeSlot(f, s) == [] {
      assert [] + rest == rest;
    } else if f.htype.Repeated? && Packable(f.ltype) {
      var body := EncodeAll(f.ltype, s.vs);
      PrefixedSize(body);
      SkipsPrefixed(body, rest);
      UnknownTag(fields, slots, seen, LENGTH, f.tag, Prefixed(body), rest);
    } else if f.htype.Repeated? {
      UnknownItems(fields, slots, seen, f, s.vs, rest);
    } else {
      UnknownValue(fields, slots, seen, f, s.v, rest);
    }
  }

  lemma PrefixedSize(b: Bytes)
    ensures |Prefixed(b)| >= |b|
  {}

  // ------------------------------------------------------------------------
  // Messages of a longer table

  /** From the first field that the reader does not know on, everything is passed over. */
  lemma {:induction false} RestUnknown(fields: seq<Field>, known: seq<Slot>, seen: set<nat>, all: seq<Field>, slots: seq<Slot>, i: nat)
    requires |fields| == |known| && |fields| <= i <= |all| && fields <= all && TableOk(all) && MessageFits(all, slots)
    requires |EncodeFrom(all, slots, i)| < TWO_32
    ensures DecodeFields(fields, known, seen, EncodeFrom(all, slots, i)) == Some(Decoded(known, seen))
    decreases |all| - i
  {
    hide EncodeSlot;
    if i < |all| {
      assert SlotFits(all[i], slots[i]) && FieldOk(all[i]);
      forall j | 0 <= j < |fields| ensures fields[j].tag != all[i].tag {
        assert fields[j] == all[j];
      }
      var rest := EncodeFrom(all, slots, i + 1);
      UnknownSlot(fields, known, seen, all[i], slots[i], rest);
      RestUnknown(fields, known, seen, all, slots, i + 1);
    }
  }

  lemma ShorterTable(fields: seq<Field>, all: seq<Field>, slots: seq<Slot>)
    requires fields <= all && TableOk(all) && MessageFits(all, slots) && MessageInBounds(all, slots, true)
    ensures TableOk(fields) && MessageFits(fields, slots[..|fields|]) && MessageInBounds(fields, slots[..|fields|], true)
  {
    var known := slots[..|fields|];
    assert forall i :: 0 <= i < |fields| ==> fields[i] == all[i] && known[i] == slots[i];
    assert TableOk(fields);
    forall i | 0 <= i < |fields| ensures SlotFits(fields[i], known[i]) && SlotInBounds(fields[i], known[i], true) {
      assert SlotFits(all[i], slots[i]) && SlotInBounds(all[i], slots[i], true);
    }
    hide SlotFits;
    hide SlotInBounds;
  }

  lemma {:induction false} KnownFrom(fields: seq<Field>, all: seq<Field>, slots: seq<Slot>, i: nat, seen: set<nat>)
    returns (met: set<nat>)
    requires i <= |fields| && fields <= all && TableOk(all) && MessageFits(all, slots) && MessageInBounds(all, slots, true)
    requires TableOk(fields) && MessageFits(fields, slots[..|fields|])
    requires |EncodeFrom(all, slots, i)| < TWO_32
    requires forall k :: 0 <= k < i && fields[k].htype.Required? ==> k in seen
    ensures DecodeFields(fields, Progress(fields, slots[..|fields|], i), seen, EncodeFrom(all, slots, i))
            == Some(Decoded(Normal(fields, slots[..|fields|]), met))
    ensures forall k :: 0 <= k < |fields| && fields[k].htype.Required? ==> k in met
    decreases |fields| - i
  {
    var known := slots[..|fields|];
    hide DecodeFields;
    if i == |fields| {
      met := seen;
      assert Progress(fields, known, i) == Normal(fields, known);
      RestUnknown(fields, Progress(fields, known, i), seen, all, slots, i);
    } else {
      assert fields[i] == all[i] && known[i] == slots[i] && SlotInBounds(all[i], slots[i], true);
      var rest := EncodeFrom(all, slots, i + 1);
      SlotStep(fields, known, i, seen, rest);
      met := KnownFrom(fields, all, slots, i + 1, if EncodeSlot(fields[i], known[i]) == [] then seen else seen + {i});
    }
  }

  /** A reader with an older table gets the fields it knows. */
  lemma OlderTableReads(fields: seq<Field>, all: seq<Field>, slots: seq<Slot>)
    requires fields <= all && TableOk(all) && MessageFits(all, slots) && MessageInBounds(all, slots, true)
    requires |EncodeMessage(all, slots)| < TWO_32
    ensures MessageFits(fields, slots[..|fields|])
    ensures DecodeMessage(fields, DefaultMessage(fields), EncodeMessage(all, slots))
            == Some(Normal(fields, slots[..|fields|]))
  {
    ShorterTable(fields, all, slots);
    assert Progress(fields, slots[..|fields|], 0) == DefaultMessage(fields);
    var met := KnownFrom(fields, all, slots, 0, {});
  }
}
