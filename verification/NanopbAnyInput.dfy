/**
 What decoding gives for any input, not only for what an encoder wrote: a message that fits its table and its
 storage, in which each oneof holds the member read last.
 */
module NanopbAnyInput {
  import opened Coding
  import opened Entries
  import opened Nanopb
  import opened NanopbDecode
  import opened NanopbDecoder
  import opened NanopbRoundTrip

  // ------------------------------------------------------------------------
  // Storage

  /** The value and all it holds, present or not, fit their storage. */
  ghost predicate Stored(t: LType, v: Value)
    requires Fits(t, v)
    decreases t
  {
    match t
    case BytesT(capacity) => |v.b| <= capacity
    case StringT(dataSize) => |v.b| < dataSize
    case SubmessageT(fields) => MessageStored(fields, v.slots)
    case _ => true
  }

  ghost predicate SlotStored(f: Field, s: Slot)
    requires SlotFits(f, s)
    decreases f
  {
    match f.htype
    case Repeated(arraySize) => |s.vs| <= arraySize && forall i :: 0 <= i < |s.vs| ==> Stored(f.ltype, s.vs[i])
    case _ => Stored(f.ltype, s.v)
  }

  ghost predicate MessageStored(fields: seq<Field>, slots: seq<Slot>)
    requires MessageFits(fields, slots)
    decreases fields
  {
    forall i :: 0 <= i < |fields| ==> SlotStored(fields[i], slots[i])
  }

  /** What is stored may be encoded, and decoded again. */
  lemma {:induction false} StoredInBounds(t: LType, v: Value)
    requires Fits(t, v) && Stored(t, v)
    ensures InBounds(t, v, true)
    decreases t, 0
  {
    if t.SubmessageT? { MessageStoredInBounds(t.fields, v.slots); }
  }

  lemma {:induction false} MessageStoredInBounds(fields: seq<Field>, slots: seq<Slot>)
    requires MessageFits(fields, slots) && MessageStored(fields, slots)
    ensures MessageInBounds(fields, slots, true)
    decreases fields, 1
  {
    forall i | 0 <= i < |fields| ensures SlotInBounds(fields[i], slots[i], true) {
      assert SlotFits(fields[i], slots[i]) && SlotStored(fields[i], slots[i]);
      SlotStoredInBounds(fields[i], slots[i]);
    }
  }

  lemma {:induction false} SlotStoredInBounds(f: Field, s: Slot)
    requires SlotFits(f, s) && SlotStored(f, s)
    ensures SlotInBounds(f, s, true)
    decreases f, 0
  {
    if f.htype.Repeated? {
      forall i | 0 <= i < |s.vs| ensures InBounds(f.ltype, s.vs[i], true) { StoredInBounds(f.ltype, s.vs[i]); }
    } else {
      StoredInBounds(f.ltype, s.v);
    }
  }

  // ------------------------------------------------------------------------
  // Defaults

  lemma {:induction false} DefaultFits(t: LType)
    requires TypeOk(t)
    ensures Fits(t, DefaultValue(t)) && Stored(t, DefaultValue(t))
    decreases t, 0
  {
    if t.SubmessageT? { DefaultMessageFits(t.fields); }
  }

  lemma {:induction false} DefaultMessageFits(fields: seq<Field>)
    requires TableOk(fields)
    ensures MessageFits(fields, DefaultMessage(fields)) && MessageStored(fields, DefaultMessage(fields))
    decreases fields, 1
  {
    forall i | 0 <= i < |fields|
      ensures SlotFits(fields[i], DefaultSlot(fields[i])) && SlotStored(fields[i], DefaultSlot(fields[i]))
    {
      assert FieldOk(fields[i]);
      DefaultSlotFits(fields[i]);
    }
  }

  lemma {:induction false} DefaultSlotFits(f: Field)
    requires FieldOk(f)
    ensures SlotFits(f, DefaultSlot(f)) && SlotStored(f, DefaultSlot(f))
    decreases f, 0
  {
    DefaultFits(f.ltype);
  }

  // ------------------------------------------------------------------------
  // Values

  lemma {:induction false} NoNulUpTo(b: Bytes)
    ensures NoNul(UpToNul(b))
  {
    if |b| > 0 && b[0] != 0 { NoNulUpTo(b[1..]); }
  }

  lemma FixedBounds(b: Bytes)
    ensures |b| == 4 ==> FixedValue(b) < TWO_32
    ensures |b| == 8 ==> FixedValue(b) < TWO_64
  {
    Widths();
  }

  lemma ScalarFits(t: LType, input: Bytes)
    requires TypeOk(t) && !t.SubmessageT? && DecodeScalar(t, input).Some?
    ensures var v := DecodeScalar(t, input).value.value; Fits(t, v) && Stored(t, v)
  {
    hide DecodeVarint32;
    hide TakeVarint64;
    hide FixedValue;
    match t
    case Fixed32T => FixedBounds(input[..4]);
    case Fixed64T => FixedBounds(input[..8]);
    case StringT(dataSize) =>
      var p := DecodeVarint32(input).value;
      NoNulUpTo(p.rest[..p.value]);
    case _ =>
  }

  /** Decoding over a value that fits, or anew. */
  lemma {:induction false} ValueFits(t: LType, before: Value, anew: bool, input: Bytes)
    requires TypeOk(t) && (anew || Fits(t, before)) && DecodeValue(t, before, anew, input).Some?
    ensures var v := DecodeValue(t, before, anew, input).value.value;
            Fits(t, v) && (anew || Stored(t, before) ==> Stored(t, v))
    decreases |input|, 0
  {
    if t.SubmessageT? {
      var s := TakeSubstream(input).value;
      DefaultMessageFits(t.fields);
      var start := if anew then DefaultMessage(t.fields) else before.slots;
      hide TakeSubstream;
      AnyMessage(t.fields, start, s.body);
    } else {
      ScalarFits(t, input);
    }
  }

  lemma {:induction false} PackedFits(t: LType, body: Bytes, vs: seq<Value>, arraySize: nat)
    requires TypeOk(t) && Packable(t) && (forall i :: 0 <= i < |vs| ==> Fits(t, vs[i]))
    requires DecodePacked(t, body, vs, arraySize).Some?
    ensures var r := DecodePacked(t, body, vs, arraySize).value;
            (|vs| <= arraySize ==> |r| <= arraySize) && forall i :: 0 <= i < |r| ==> Fits(t, r[i])
    decreases |body|
  {
    hide DecodeScalar;
    if |body| > 0 {
      ScalarFits(t, body);
      var p := DecodeScalar(t, body).value;
      PackedFits(t, p.rest, vs + [p.value], arraySize);
    }
  }

  // ------------------------------------------------------------------------
  // Fields

  /** One slot changes, and it is not a member of a oneof. */
  lemma OneSlotFits(fields: seq<Field>, slots: seq<Slot>, k: nat, s: Slot)
    requires MessageFits(fields, slots) && k < |fields| && !fields[k].htype.OneOf? && SlotFits(fields[k], s)
    ensures MessageFits(fields, slots[k := s])
    ensures MessageStored(fields, slots) && SlotStored(fields[k], s) ==> MessageStored(fields, slots[k := s])
  {
    hide SlotFits;
    hide SlotStored;
  }

  lemma ChooseFits(fields: seq<Field>, slots: seq<Slot>, k: nat, v: Value)
    requires TableOk(fields) && MessageFits(fields, slots) && k < |fields| && fields[k].htype.OneOf? && Fits(fields[k].ltype, v)
    ensures MessageFits(fields, Choose(fields, slots, k, v))
    ensures MessageStored(fields, slots) && Stored(fields[k].ltype, v) ==> MessageStored(fields, Choose(fields, slots, k, v))
  {
    var r := Choose(fields, slots, k, v);
    forall i | 0 <= i < |fields|
      ensures SlotFits(fields[i], r[i])
      ensures MessageStored(fields, slots) && Stored(fields[k].ltype, v) ==> SlotStored(fields[i], r[i])
    {
      assert FieldOk(fields[i]) && SlotFits(fields[i], slots[i]);
      DefaultSlotFits(fields[i]);
    }
    hide SlotFits;
    hide SlotStored;
  }

  lemma {:induction false} FieldFits(fields: seq<Field>, slots: seq<Slot>, k: nat, wire: nat, input: Bytes)
    requires TableOk(fields) && MessageFits(fields, slots) && k < |fields| && DecodeField(fields, slots, k, wire, input).Some?
    ensures var r := DecodeField(fields, slots, k, wire, input).value.value;
            MessageFits(fields, r) && (MessageStored(fields, slots) ==> MessageStored(fields, r))
    decreases |input|, 1
  {
    var f, s := fields[k], slots[k];
    assert FieldOk(f) && SlotFits(f, s);
    assert MessageStored(fields, slots) ==> SlotStored(f, s);
    if f.htype.Repeated? && wire == 2 && Packable(f.ltype) {
      var sub := TakeSubstream(input).value;
      PackedFits(f.ltype, sub.body, s.vs, f.htype.arraySize);
      hide DecodePacked;
      var r := DecodePacked(f.ltype, sub.body, s.vs, f.htype.arraySize).value;
      assert forall i :: 0 <= i < |r| ==> Fits(f.ltype, r[i]) && Stored(f.ltype, r[i]);
      OneSlotFits(fields, slots, k, Many(r));
    } else {
      var anew := f.htype.Repeated? || f.htype.OneOf?;
      var before := OldValue(s, f.ltype);
      ValueFits(f.ltype, before, anew, input);
      hide DecodeValue;
      var v := DecodeValue(f.ltype, before, anew, input).value.value;
      match f.htype
      case Required => OneSlotFits(fields, slots, k, Plain(v));
      case Singular => OneSlotFits(fields, slots, k, Plain(v));
      case Optional => OneSlotFits(fields, slots, k, Opt(true, v));
      case Repeated(_) => OneSlotFits(fields, slots, k, Many(s.vs + [v]));
      case OneOf(_) => ChooseFits(fields, slots, k, v);
    }
  }

  lemma {:induction false} AnyFields(fields: seq<Field>, slots: seq<Slot>, seen: set<nat>, input: Bytes)
    requires TableOk(fields) && MessageFits(fields, slots) && DecodeFields(fields, slots, seen, input).Some?
    ensures var r := DecodeFields(fields, slots, seen, input).value.slots;
            MessageFits(fields, r) && (MessageStored(fields, slots) ==> MessageStored(fields, r))
    decreases |input|, 2
  {
    assert |fields| == |slots|;
    hide DecodeField;
    hide SkipField;
    hide MessageFits;
    hide MessageStored;
    hide TableOk;
    if |input| > 0 {
      var p := DecodeVarint32(input).value;
      if p.value != 0 {
        var k := FieldIndex(fields, p.value / 8);
        if k == |fields| {
          AnyFields(fields, slots, seen, SkipField(p.value % 8, p.rest).value);
        } else {
          FieldFits(fields, slots, k, p.value % 8, p.rest);
          var q := DecodeField(fields, slots, k, p.value % 8, p.rest).value;
          AnyFields(fields, q.value, seen + {k}, q.rest);
        }
      }
    }
  }

  /** Whatever the input, what is decoded fits its table, at most one member of each oneof chosen, and fits its
      storage if the message did that it was decoded into. */
  lemma {:induction false} AnyMessage(fields: seq<Field>, slots: seq<Slot>, input: Bytes)
    requires TableOk(fields) && MessageFits(fields, slots) && DecodeMessage(fields, slots, input).Some?
    ensures var r := DecodeMessage(fields, slots, input).value;
            MessageFits(fields, r) && (MessageStored(fields, slots) ==> MessageStored(fields, r))
    decreases |input|, 3
  {
    AnyFields(fields, slots, {}, input);
  }

  /** So what was decoded can be encoded, and decodes to the same message again, absent fields as defaults. */
  lemma DecodedRoundTrip(fields: seq<Field>, input: Bytes)
    requires TableOk(fields) && DecodeMessage(fields, DefaultMessage(fields), input).Some?
    ensures var r := DecodeMessage(fields, DefaultMessage(fields), input).value;
            && MessageFits(fields, r) && MessageInBounds(fields, r, true)
            && (|EncodeMessage(fields, r)| < TWO_32 ==>
                  DecodeMessage(fields, DefaultMessage(fields), EncodeMessage(fields, r)) == Some(Normal(fields, r)))
  {
    hide DecodeMessage;
    hide EncodeMessage;
    DefaultMessageFits(fields);
    AnyMessage(fields, DefaultMessage(fields), input);
    var r := DecodeMessage(fields, DefaultMessage(fields), input).value;
    MessageStoredInBounds(fields, r);
    if |EncodeMessage(fields, r)| < TWO_32 { MessageRoundTrip(fields, r); }
  }

  // ------------------------------------------------------------------------
  // Which tags were read

  /** Reading one field touches its own slot and those of its oneof. */
  lemma FieldEffect(fields: seq<Field>, slots: seq<Slot>, k: nat, wire: nat, input: Bytes, i: nat)
    requires |fields| == |slots| && k < |fields| && i < |fields| && DecodeField(fields, slots, k, wire, input).Some?
    ensures var r := DecodeField(fields, slots, k, wire, input).value.value;
            && (i != k && !SameGroup(fields[k], fields[i]) ==> r[i] == slots[i])
            && (i != k && SameGroup(fields[k], fields[i]) ==> r[i].Choice? && !r[i].chosen)
            && (i == k && fields[k].htype.OneOf? ==> r[k].Choice? && r[k].chosen)
            && (i == k && fields[k].htype.Optional? ==> r[k].Opt? && r[k].has)
  {
    hide DecodeValue;
    hide DecodePacked;
    hide TakeSubstream;
  }

  /** The tag belongs to the oneof of field `i`. */
  ghost predicate InGroup(fields: seq<Field>, i: nat, tag: nat)
    requires i < |fields|
  {
    exists j :: 0 <= j < |fields| && SameGroup(fields[i], fields[j]) && fields[j].tag == tag
  }

  /** The tag of field `i` was read, and after it none of another member of its oneof. */
  ghost predicate ReadLast(fields: seq<Field>, i: nat, tags: seq<nat>)
    requires i < |fields|
  {
    exists p :: && 0 <= p < |tags| && tags[p] == fields[i].tag
                && forall q :: p < q < |tags| && InGroup(fields, i, tags[q]) ==> tags[q] == fields[i].tag
  }

  ghost predicate NoneRead(fields: seq<Field>, i: nat, tags: seq<nat>)
    requires i < |fields|
  {
    forall q :: 0 <= q < |tags| ==> !InGroup(fields, i, tags[q])
  }

  lemma ReadLater(fields: seq<Field>, i: nat, tag: nat, tags: seq<nat>)
    requires i < |fields|
    ensures ReadLast(fields, i, tags) || (tag == fields[i].tag && NoneRead(fields, i, tags)) ==>
              ReadLast(fields, i, [tag] + tags)
    ensures NoneRead(fields, i, [tag] + tags) <==> !InGroup(fields, i, tag) && NoneRead(fields, i, tags)
  {
    hide InGroup;
    var all := [tag] + tags;
    assert all[0] == tag && forall q :: 0 < q < |all| ==> all[q] == tags[q - 1];
    assert forall q :: 0 <= q < |tags| ==> all[q + 1] == tags[q];
    if ReadLast(fields, i, tags) {
      var p :| 0 <= p < |tags| && tags[p] == fields[i].tag
               && forall q :: p < q < |tags| && InGroup(fields, i, tags[q]) ==> tags[q] == fields[i].tag;
      assert all[p + 1] == fields[i].tag;
    }
  }

  lemma ReadEarlier(fields: seq<Field>, i: nat, tag: nat, tags: seq<nat>)
    requires i < |fields| && ReadLast(fields, i, [tag] + tags)
    ensures ReadLast(fields, i, tags) || (tag == fields[i].tag && NoneRead(fields, i, tags))
  {
    hide InGroup;
    var all := [tag] + tags;
    assert forall q :: 0 <= q < |tags| ==> tags[q] == all[q + 1];
    var p :| 0 <= p < |all| && all[p] == fields[i].tag
             && forall q :: p < q < |all| && InGroup(fields, i, all[q]) ==> all[q] == fields[i].tag;
    if p > 0 {
      assert tags[p - 1] == fields[i].tag;
    } else if q :| 0 <= q < |tags| && InGroup(fields, i, tags[q]) {
      assert tags[q] == fields[i].tag;
    }
  }

  lemma ReadFirst(fields: seq<Field>, i: nat, tag: nat, tags: seq<nat>)
    requires i < |fields|
    ensures ReadLast(fields, i, [tag] + tags)
            <==> ReadLast(fields, i, tags) || (tag == fields[i].tag && NoneRead(fields, i, tags))
    ensures NoneRead(fields, i, [tag] + tags) <==> !InGroup(fields, i, tag) && NoneRead(fields, i, tags)
  {
    hide ReadLast;
    hide NoneRead;
    ReadLater(fields, i, tag, tags);
    if ReadLast(fields, i, [tag] + tags) { ReadEarlier(fields, i, tag, tags); }
  }

  lemma TagsStep(fields: seq<Field>, slots: seq<Slot>, input: Bytes)
    requires |fields| == |slots| && DecodeVarint32(input).Some? && DecodeVarint32(input).value.value != 0
    ensures var p := DecodeVarint32(input).value; var k := FieldIndex(fields, p.value / 8);
            && (k == |fields| && SkipField(p.value % 8, p.rest).Some? ==>
                  TagsRead(fields, slots, input)
                  == [p.value / 8] + TagsRead(fields, slots, SkipField(p.value % 8, p.rest).value))
            && (k < |fields| && DecodeField(fields, slots, k, p.value % 8, p.rest).Some? ==>
                  var q := DecodeField(fields, slots, k, p.value % 8, p.rest).value;
                  TagsRead(fields, slots, input) == [p.value / 8] + TagsRead(fields, q.value, q.rest))
  {
    hide DecodeField;
    hide SkipField;
    hide FieldIndex;
  }

  /** The member of a oneof that is chosen is the one whose tag was read last; when none was read, nothing changes. */
  lemma {:induction false} LastMemberIsChosen(fields: seq<Field>, slots: seq<Slot>, seen: set<nat>, input: Bytes, i: nat)
    requires TableOk(fields) && MessageFits(fields, slots) && DecodeFields(fields, slots, seen, input).Some?
    requires i < |fields| && fields[i].htype.OneOf?
    ensures var r := DecodeFields(fields, slots, seen, input).value.slots; var tags := TagsRead(fields, slots, input);
            && r[i].Choice? && slots[i].Choice?
            && (NoneRead(fields, i, tags) ==> r[i] == slots[i])
            && (!NoneRead(fields, i, tags) ==> (r[i].chosen <==> ReadLast(fields, i, tags)))
    decreases |input|
  {
    hide DecodeField;
    hide SkipField;
    hide FieldIndex;
    hide InGroup;
    hide ReadLast;
    hide NoneRead;
    hide TagsRead;
    assert SlotFits(fields[i], slots[i]) && |fields| == |slots|;
    hide MessageFits;
    hide TableOk;
    if |input| == 0 {
      NothingRead(fields, slots, input, i);
    } else {
      var p := DecodeVarint32(input).value;
      if p.value == 0 {
        NothingRead(fields, slots, input, i);
      } else {
        var tag := p.value / 8;
        var k := FieldIndex(fields, tag);
        TagsStep(fields, slots, input);
        if k == |fields| {
          var rest := SkipField(p.value % 8, p.rest).value;
          LastMemberIsChosen(fields, slots, seen, rest, i);
          NotInGroup(fields, i, tag);
          ReadFirst(fields, i, tag, TagsRead(fields, slots, rest));
        } else {
          var q := DecodeField(fields, slots, k, p.value % 8, p.rest).value;
          FieldFits(fields, slots, k, p.value % 8, p.rest);
          LastMemberIsChosen(fields, q.value, seen + {k}, q.rest, i);
          FieldEffect(fields, slots, k, p.value % 8, p.rest, i);
          GroupOfField(fields, i, k);
          ReadFirst(fields, i, tag, TagsRead(fields, q.value, q.rest));
          LastIsNotNone(fields, i, TagsRead(fields, q.value, q.rest));
        }
      }
    }
  }

  lemma NothingRead(fields: seq<Field>, slots: seq<Slot>, input: Bytes, i: nat)
    requires |fields| == |slots| && i < |fields|
    requires |input| == 0 || (DecodeVarint32(input).Some? && DecodeVarint32(input).value.value == 0)
    ensures NoneRead(fields, i, TagsRead(fields, slots, input))
  {}

  lemma NotInGroup(fields: seq<Field>, i: nat, tag: nat)
    requires i < |fields| && FieldIndex(fields, tag) == |fields|
    ensures !InGroup(fields, i, tag) && tag != fields[i].tag
  {}

  lemma GroupOfField(fields: seq<Field>, i: nat, k: nat)
    requires TableOk(fields) && i < |fields| && k < |fields| && fields[i].htype.OneOf?
    ensures InGroup(fields, i, fields[k].tag) <==> SameGroup(fields[k], fields[i])
    ensures fields[k].tag == fields[i].tag <==> k == i
  {}

  lemma LastIsNotNone(fields: seq<Field>, i: nat, tags: seq<nat>)
    requires i < |fields| && fields[i].htype.OneOf?
    ensures !(ReadLast(fields, i, tags) && NoneRead(fields, i, tags))
  {
    assert SameGroup(fields[i], fields[i]);
    assert InGroup(fields, i, fields[i].tag);
  }

  /** A field outside a oneof whose tag is not read stays as it was, and an optional one is there exactly when it
      was or its tag is read. */
  lemma {:induction false} UnreadStays(fields: seq<Field>, slots: seq<Slot>, seen: set<nat>, input: Bytes, i: nat)
    requires TableOk(fields) && MessageFits(fields, slots) && DecodeFields(fields, slots, seen, input).Some?
    requires i < |fields| && !fields[i].htype.OneOf?
    ensures var r := DecodeFields(fields, slots, seen, input).value.slots; var tags := TagsRead(fields, slots, input);
            && (fields[i].tag !in tags ==> r[i] == slots[i])
            && (fields[i].htype.Optional? ==>
                  r[i].Opt? && slots[i].Opt? && (r[i].has <==> slots[i].has || fields[i].tag in tags))
    decreases |input|
  {
    hide DecodeField;
    hide SkipField;
    hide FieldIndex;
    hide TagsRead;
    assert SlotFits(fields[i], slots[i]) && |fields| == |slots|;
    if |input| == 0 {
      NoTags(fields, slots, input);
    } else {
      var p := DecodeVarint32(input).value;
      if p.value == 0 {
        NoTags(fields, slots, input);
      } else {
        var k := FieldIndex(fields, p.value / 8);
        TagsStep(fields, slots, input);
        if k == |fields| {
          UnreadStays(fields, slots, seen, SkipField(p.value % 8, p.rest).value, i);
          NotInGroup(fields, i, p.value / 8);
        } else {
          var q := DecodeField(fields, slots, k, p.value % 8, p.rest).value;
          FieldFits(fields, slots, k, p.value % 8, p.rest);
          UnreadStays(fields, q.value, seen + {k}, q.rest, i);
          FieldEffect(fields, slots, k, p.value % 8, p.rest, i);
          assert fields[k].tag == p.value / 8;
        }
      }
    }
  }

  lemma NoTags(fields: seq<Field>, slots: seq<Slot>, input: Bytes)
    requires |fields| == |slots|
    requires |input| == 0 || (DecodeVarint32(input).Some? && DecodeVarint32(input).value.value == 0)
    ensures TagsRead(fields, slots, input) == []
  {}
}
