/**
 Decoding what was encoded gives the message back, absent fields as defaults.
 */
module NanopbRoundTrip {
  import opened Coding
  import opened Entries
  import opened Nanopb
  import opened NanopbDecode
  import opened Sequences

  // ------------------------------------------------------------------------
  // Numbers

  predicate Scale(bitpos: nat, scale: nat) {
    || (bitpos == 7 && scale == 0x80) || (bitpos == 14 && scale == 0x4000)
    || (bitpos == 21 && scale == 0x20_0000) || (bitpos == 28 && scale == 0x1000_0000)
  }

  /** The arithmetic of one seven-bit group. */
  lemma ScaleStep(v: nat, bitpos: nat, scale: nat, result: nat)
    requires Scale(bitpos, scale) && result + v * scale < TWO_32
    ensures result + v * scale == result + v % 128 * scale + v / 128 * (scale * 128)
    ensures v >= 128 ==> Scale(bitpos + 7, scale * 128) && result + v % 128 * scale < TWO_32
    ensures v < 128 ==> v % 128 == v && (bitpos == 28 ==> v < 16)
  {
    if bitpos == 7 {
      assert scale == 0x80;
    } else if bitpos == 14 {
      assert scale == 0x4000;
    } else if bitpos == 21 {
      assert scale == 0x20_0000;
    } else {
      assert scale == 0x1000_0000;
    }
  }

  lemma {:induction false} MoreRoundTrip(v: nat, bitpos: nat, scale: nat, result: nat, rest: Bytes)
    requires Scale(bitpos, scale) && result + v * scale < TWO_32
    ensures MoreVarint32(Varint(v) + rest, bitpos, scale, result) == Some(Parsed(result + v * scale, rest))
    decreases v
  {
    ScaleStep(v, bitpos, scale, result);
    var input := Varint(v) + rest;
    var low := v % 128 * scale;
    if v < 128 {
      assert input[0] == v && input[1..] == rest;
      LastGroup(input, bitpos, scale, result, low);
    } else {
      assert input[0] == v % 128 + 128 && input[1..] == Varint(v / 128) + rest;
      OneGroup(input, bitpos, scale, result, low);
      MoreRoundTrip(v / 128, bitpos + 7, scale * 128, result + low, rest);
    }
  }

  lemma OneGroup(input: Bytes, bitpos: nat, scale: nat, result: nat, low: nat)
    requires |input| > 0 && input[0] >= 128 && bitpos < 32 && low == input[0] % 128 * scale && result + low < TWO_32
    ensures MoreVarint32(input, bitpos, scale, result) == MoreVarint32(input[1..], bitpos + 7, scale * 128, result + low)
  {
    assert AddGroup(result, input[0], scale) == result + low;
    hide AddGroup;
  }

  lemma LastGroup(input: Bytes, bitpos: nat, scale: nat, result: nat, low: nat)
    requires |input| > 0 && input[0] < 128 && bitpos <= 28 && (bitpos == 28 ==> input[0] < 16)
    requires low == input[0] % 128 * scale && result + low < TWO_32
    ensures MoreVarint32(input, bitpos, scale, result) == Some(Parsed(result + low, input[1..]))
  {
    assert AddGroup(result, input[0], scale) == result + low;
    hide AddGroup;
  }

  lemma Varint32RoundTrip(v: nat, rest: Bytes)
    requires v < TWO_32
    ensures DecodeVarint32(Varint(v) + rest) == Some(Parsed(v, rest))
  {
    var input := Varint(v) + rest;
    if v < 128 {
      assert input[1..] == rest;
    } else {
      assert input[1..] == Varint(v / 128) + rest;
      MoreRoundTrip(v / 128, 7, 128, v % 128, rest);
    }
  }

  lemma ZigZagRoundTrip(i: int)
    ensures UnZigZag(ZigZag(i)) == i
  {}

  lemma LowWord(i: int)
    requires -0x8000_0000 <= i < 0
    ensures (i + 0x1_0000_0000_0000_0000) % 0x1_0000_0000 == i + 0x1_0000_0000
  {
    assert i + 0x1_0000_0000_0000_0000 == 0x1_0000_0000 * 0xFFFF_FFFF + (i + 0x1_0000_0000);
  }

  lemma SignedRoundTrip(i: int, size: nat)
    requires SizeOk(size) && -SignedLimit(size) <= i < SignedLimit(size)
    ensures SignedOf(if i < 0 then i + TWO_64 else i, size) == Some(Int(i))
  {
    var value := if i < 0 then i + TWO_64 else i;
    if size == 8 {
      assert value % 0x1_0000_0000_0000_0000 == value;
    } else if i < 0 {
      LowWord(i);
      assert value % 0x1_0000_0000 == i + 0x1_0000_0000;
    } else {
      assert value % 0x1_0000_0000 == i;
    }
  }

  lemma Low32(value: nat, i: int)
    requires (value - i) % 0x1_0000_0000 == 0 && -0x8000_0000 <= i < 0x8000_0000
    ensures value % 0x1_0000_0000 == if i < 0 then i + 0x1_0000_0000 else i
  {
    var q := (value - i) / 0x1_0000_0000;
    assert value == 0x1_0000_0000 * q + i;
  }

  lemma Low64(value: nat, i: int)
    requires (value - i) % 0x1_0000_0000_0000_0000 == 0 && -0x8000_0000_0000_0000 <= i < 0x8000_0000_0000_0000
    ensures value % 0x1_0000_0000_0000_0000 == if i < 0 then i + 0x1_0000_0000_0000_0000 else i
  {
    var q := (value - i) / 0x1_0000_0000_0000_0000;
    assert value == 0x1_0000_0000_0000_0000 * q + i;
  }

  /** Of a number on the wire a signed field takes the low 32 bits, or all 64 when it is that wide, as a signed number;
      one that its storage cannot hold is refused. */
  lemma SignedExact(value: nat, size: nat, i: int)
    requires SizeOk(size)
    requires var half := if size == 8 then 0x8000_0000_0000_0000 else 0x8000_0000;
             -half <= i < half && (value - i) % (2 * half) == 0
    ensures SignedOf(value, size) == if -SignedLimit(size) <= i < SignedLimit(size) then Some(Int(i)) else None
  {
    if size == 8 {
      Low64(value, i);
    } else {
      Low32(value, i);
    }
  }

  lemma UpToNulIs(b: Bytes)
    requires NoNul(b)
    ensures UpToNul(b) == b
  {
    if |b| > 0 {
      UpToNulIs(b[1..]);
      assert b == [b[0]] + b[1..];
    }
  }

  lemma PrefixedTakes(b: Bytes, rest: Bytes)
    requires |b| < TWO_32
    ensures var p := DecodeVarint32(Prefixed(b) + rest);
            && p == Some(Parsed(|b|, b + rest))
            && TakeBytes(b + rest, |b|) == Some(Parsed(b, rest))
    ensures TakeSubstream(Prefixed(b) + rest) == Some(Substream(b, rest))
  {
    hide DecodeVarint32;
    hide Varint;
    Assoc(Varint(|b|), b, rest);
    Varint32RoundTrip(|b|, b + rest);
    assert (b + rest)[..|b|] == b && (b + rest)[|b|..] == rest;
  }

  /** Values that are not messages come back exactly when they fit their storage; a string that fills it has
      no room for its NUL and is refused. */
  lemma ScalarRoundTrip(t: LType, v: Value, rest: Bytes)
    requires !t.SubmessageT? && TypeOk(t) && Fits(t, v)
    ensures DecodeScalar(t, EncodeValue(t, v) + rest) == if InBounds(t, v, true) then Some(Parsed(v, rest)) else None
  {
    hide Varint;
    hide Prefixed;
    hide Fixed;
    hide FixedValue;
    hide DecodeVarint32;
    hide TakeVarint64;
    match t
    case VarintT(size) =>
      Varint64RoundTrip(if v.i < 0 then v.i + TWO_64 else v.i, rest);
      SignedRoundTrip(v.i, size);
    case UVarintT(size) => Varint64RoundTrip(v.i, rest);
    case SVarintT(size) =>
      Varint64RoundTrip(ZigZag(v.i), rest);
      ZigZagRoundTrip(v.i);
    case Fixed32T => FixedTakes(v.i, 4, rest);
    case Fixed64T => FixedTakes(v.i, 8, rest);
    case BytesT(_) => PrefixedTakes(v.b, rest);
    case StringT(_) =>
      PrefixedTakes(v.b, rest);
      UpToNulIs(v.b);
    case FixedBytesT(size) =>
      PrefixedTakes(v.b, rest);
      assert size == 0 ==> v.b == Zeros(0) && v.b + rest == rest;
  }

  lemma FixedTakes(v: nat, n: nat, rest: Bytes)
    requires n == 4 || n == 8
    requires v < if n == 4 then TWO_32 else TWO_64
    ensures TakeBytes(Fixed(v, n) + rest, n) == Some(Parsed(Fixed(v, n), rest)) && FixedValue(Fixed(v, n)) == v
  {
    hide Fixed;
    if n == 4 { Fixed32(v); } else { Fixed64(v); }
    assert (Fixed(v, n) + rest)[..n] == Fixed(v, n) && (Fixed(v, n) + rest)[n..] == rest;
  }

  // ------------------------------------------------------------------------
  // Sizes

  lemma ValueWithin(t: LType, v: Value)
    requires Fits(t, v) && t.SubmessageT?
    ensures |EncodeMessage(t.fields, v.slots)| < |EncodeValue(t, v)|
  {
    hide EncodeMessage;
  }

  // ------------------------------------------------------------------------
  // Values

  /** A value read into a fresh place comes back in its normal form. */
  lemma {:induction false} ValueRoundTrip(t: LType, v: Value, before: Value, anew: bool, rest: Bytes)
    requires TypeOk(t) && Fits(t, v) && InBounds(t, v, true) && |EncodeValue(t, v)| < TWO_32
    requires anew || before == DefaultValue(t)
    ensures DecodeValue(t, before, anew, EncodeValue(t, v) + rest) == Some(Parsed(NormalValue(t, v), rest))
    decreases t, 0
  {
    if t.SubmessageT? {
      var body := EncodeMessage(t.fields, v.slots);
      ValueWithin(t, v);
      MessageRoundTrip(t.fields, v.slots);
      hide DecodeMessage;
      hide EncodeMessage;
      PrefixedTakes(body, rest);
    } else {
      ScalarRoundTrip(t, v, rest);
    }
  }

  // ------------------------------------------------------------------------
  // Fields

  /** The slots after the first `i` fields have been read. */
  function Progress(fields: seq<Field>, slots: seq<Slot>, i: nat): (r: seq<Slot>)
    requires MessageFits(fields, slots) && i <= |fields|
    ensures |r| == |fields|
    ensures forall j :: 0 <= j < |fields| ==> r[j] == if j < i then NormalSlot(fields[j], slots[j]) else DefaultSlot(fields[j])
  {
    seq(|fields|, j requires 0 <= j < |fields| =>
      if j < i then NormalSlot(fields[j], slots[j]) else DefaultSlot(fields[j]))
  }

  lemma TagReads(w: WireType, tag: nat, rest: Bytes)
    requires 0 < tag <= SIZE_MAX
    ensures DecodeVarint32(TagBytes(w, tag) + rest) == Some(Parsed(tag * 8 + WireCode(w), rest))
    ensures (tag * 8 + WireCode(w)) / 8 == tag && (tag * 8 + WireCode(w)) % 8 == WireCode(w) && tag * 8 + WireCode(w) != 0
  {
    hide DecodeVarint32;
    hide Varint;
    Varint32RoundTrip(tag * 8 + WireCode(w), rest);
  }

  /** Reading a tag leads to its field. */
  lemma TagStep(fields: seq<Field>, now: seq<Slot>, seen: set<nat>, i: nat, w: WireType, body: Bytes)
    requires TableOk(fields) && i < |fields| == |now|
    ensures DecodeFields(fields, now, seen, TagBytes(w, fields[i].tag) + body)
            == match DecodeField(fields, now, i, WireCode(w), body)
               case None => None
               case Some(q) => DecodeFields(fields, q.value, seen + {i}, q.rest)
  {
    hide DecodeField;
    hide DecodeVarint32;
    hide TagBytes;
    assert FieldOk(fields[i]);
    TagReads(w, fields[i].tag, body);
  }

  /** The slot has exactly one value to write. */
  predicate Present(f: Field, s: Slot)
    requires !f.htype.Repeated?
  {
    match f.htype
    case Required => true
    case Singular => s.Plain? && !IsDefaultValue(f.ltype, s.v)
    case Optional => s.Opt? && s.has
    case OneOf(_) => s.Choice? && s.chosen
  }

  lemma PresentSlot(f: Field, s: Slot)
    requires SlotFits(f, s) && SlotInBounds(f, s, true) && !f.htype.Repeated?
    ensures Present(f, s) ==> !s.Many? && Fits(f.ltype, s.v) && InBounds(f.ltype, s.v, true) && EncodeSlot(f, s) == Tagged(f, s.v)
    ensures !Present(f, s) ==> EncodeSlot(f, s) == [] && NormalSlot(f, s) == DefaultSlot(f) && !f.htype.Required?
  {
    if f.htype.Singular? && !Present(f, s) { DefaultIsNormal(f.ltype, s.v); }
  }

  lemma {:induction false} FieldRoundTrip(f: Field, v: Value, before: Value, anew: bool, rest: Bytes)
    requires TypeOk(f.ltype) && Fits(f.ltype, v) && InBounds(f.ltype, v, true) && |EncodeValue(f.ltype, v)| < TWO_32
    requires anew || before == DefaultValue(f.ltype)
    ensures DecodeValue(f.ltype, before, anew, EncodeValue(f.ltype, v) + rest) == Some(Parsed(NormalValue(f.ltype, v), rest))
    decreases f, 0
  {
    ValueRoundTrip(f.ltype, v, before, anew, rest);
  }

  /** A field with one value sets its own slot. */
  lemma SetSlot(fields: seq<Field>, slots: seq<Slot>, i: nat, rest: Bytes)
    requires MessageFits(fields, slots) && i < |fields| && !fields[i].htype.Repeated? && Present(fields[i], slots[i])
    requires !slots[i].Many?
    requires var f, s, now := fields[i], slots[i], Progress(fields, slots, i);
             Fits(f.ltype, s.v)
             && DecodeValue(f.ltype, OldValue(now[i], f.ltype), f.htype.OneOf?, EncodeValue(f.ltype, s.v) + rest)
                == Some(Parsed(NormalValue(f.ltype, s.v), rest))
    ensures var f, s := fields[i], slots[i];
            DecodeField(fields, Progress(fields, slots, i), i, WireCode(WireOf(f.ltype)), EncodeValue(f.ltype, s.v) + rest)
            == Some(Parsed(Progress(fields, slots, i + 1), rest))
  {
    hide DecodeValue;
    hide EncodeValue;
    hide NormalValue;
    var f, s, now := fields[i], slots[i], Progress(fields, slots, i);
    var v := NormalValue(f.ltype, s.v);
    if f.htype.OneOf? {
      ChoosesOnly(fields, slots, i, v);
    } else {
      assert SlotFits(f, s);
      assert now[i := NormalSlot(f, s)] == Progress(fields, slots, i + 1);
    }
  }

  /** The other members of the oneof were not chosen. */
  lemma ChoosesOnly(fields: seq<Field>, slots: seq<Slot>, i: nat, v: Value)
    requires MessageFits(fields, slots) && i < |fields| && fields[i].htype.OneOf? && slots[i].Choice? && slots[i].chosen
    requires Fits(fields[i].ltype, slots[i].v)
    requires v == NormalValue(fields[i].ltype, slots[i].v)
    ensures Choose(fields, Progress(fields, slots, i), i, v) == Progress(fields, slots, i + 1)
  {
    hide NormalValue;
    var r := Choose(fields, Progress(fields, slots, i), i, v);
    forall j | 0 <= j < |fields| ensures r[j] == Progress(fields, slots, i + 1)[j] {
      assert SlotFits(fields[j], slots[j]);
    }
  }

  lemma {:induction false} SingleStep(fields: seq<Field>, slots: seq<Slot>, i: nat, seen: set<nat>, rest: Bytes)
    requires TableOk(fields) && MessageFits(fields, slots) && i < |fields|
    requires !fields[i].htype.Repeated? && SlotInBounds(fields[i], slots[i], true) && Present(fields[i], slots[i])
    requires |EncodeSlot(fields[i], slots[i])| < TWO_32
    ensures DecodeFields(fields, Progress(fields, slots, i), seen, EncodeSlot(fields[i], slots[i]) + rest)
            == DecodeFields(fields, Progress(fields, slots, i + 1), seen + {i}, rest)
    decreases fields, 0
  {
    var f, s, now := fields[i], slots[i], Progress(fields, slots, i);
    assert SlotFits(f, s) && FieldOk(f);
    PresentSlot(f, s);
    var body := EncodeValue(f.ltype, s.v);
    Assoc(TagBytes(WireOf(f.ltype), f.tag), body, rest);
    OldIsDefault(f);
    FieldRoundTrip(f, s.v, OldValue(now[i], f.ltype), f.htype.OneOf?, rest);
    SetSlot(fields, slots, i, rest);
    TagStep(fields, now, seen, i, WireOf(f.ltype), body + rest);
  }

  lemma OldIsDefault(f: Field)
    ensures OldValue(DefaultSlot(f), f.ltype) == DefaultValue(f.ltype)
    ensures f.htype.Repeated? ==> OldItems(DefaultSlot(f)) == []
  {}

  // ------------------------------------------------------------------------
  // Repeated fields

  function Normals(t: LType, vs: seq<Value>): (r: seq<Value>)
    requires forall i :: 0 <= i < |vs| ==> Fits(t, vs[i])
    ensures |r| == |vs| && forall i :: 0 <= i < |vs| ==> r[i] == NormalValue(t, vs[i])
  {
    seq(|vs|, i requires 0 <= i < |vs| => NormalValue(t, vs[i]))
  }

  ghost predicate AllInBounds(t: LType, vs: seq<Value>) {
    forall i :: 0 <= i < |vs| ==> Fits(t, vs[i]) && InBounds(t, vs[i], true)
  }

  /** A packed array is read item by item. */
  lemma {:induction false} PackedRoundTrip(t: LType, vs: seq<Value>, n: nat, arraySize: nat)
    requires Packable(t) && TypeOk(t) && AllInBounds(t, vs) && n <= |vs| <= arraySize
    ensures DecodePacked(t, EncodeAll(t, vs[n..]), vs[..n], arraySize) == Some(vs)
    decreases |vs| - n
  {
    if n == |vs| {
      assert vs[..n] == vs && vs[n..] == [];
    } else {
      var rest := EncodeAll(t, vs[n + 1..]);
      assert vs[n..][0] == vs[n] && vs[n..][1..] == vs[n + 1..];
      assert InBounds(t, vs[n], true);
      ScalarRoundTrip(t, vs[n], rest);
      ValueNonEmpty(t, vs[n], rest);
      PackedRoundTrip(t, vs, n + 1, arraySize);
      assert vs[..n] + [vs[n]] == vs[..n + 1];
    }
  }

  lemma ValueNonEmpty(t: LType, v: Value, rest: Bytes)
    requires Packable(t) && Fits(t, v)
    ensures |EncodeValue(t, v) + rest| > 0
  {}

  lemma PackedNormal(t: LType, vs: seq<Value>)
    requires Packable(t) && AllInBounds(t, vs)
    ensures Normals(t, vs) == vs
  {
    forall i | 0 <= i < |vs| ensures NormalValue(t, vs[i]) == vs[i] {}
  }

  lemma PackedStep(fields: seq<Field>, slots: seq<Slot>, i: nat, seen: set<nat>, rest: Bytes)
    requires TableOk(fields) && MessageFits(fields, slots) && i < |fields|
    requires fields[i].htype.Repeated? && Packable(fields[i].ltype) && SlotInBounds(fields[i], slots[i], true)
    requires slots[i].Many? && slots[i].vs != [] && |EncodeSlot(fields[i], slots[i])| < TWO_32
    ensures DecodeFields(fields, Progress(fields, slots, i), seen, EncodeSlot(fields[i], slots[i]) + rest)
            == DecodeFields(fields, Progress(fields, slots, i + 1), seen + {i}, rest)
  {
    var f, vs, now := fields[i], slots[i].vs, Progress(fields, slots, i);
    assert SlotFits(f, slots[i]) && FieldOk(f);
    var body := EncodeAll(f.ltype, vs);
    Assoc(TagBytes(LENGTH, f.tag), Prefixed(body), rest);
    PrefixedTakes(body, rest);
    PackedRoundTrip(f.ltype, vs, 0, f.htype.arraySize);
    assert vs[0..] == vs && vs[..0] == [];
    PackedNormal(f.ltype, vs);
    OldIsDefault(f);
    assert now[i := Many(vs)] == Progress(fields, slots, i + 1);
    hide DecodePacked;
    hide TakeSubstream;
    hide Prefixed;
    hide EncodeAll;
    hide TagBytes;
    hide DecodeFields;
    hide Progress;
    TagStep(fields, now, seen, i, LENGTH, Prefixed(body) + rest);
  }

  /** The slots after `n` items of the repeated field `i`. */
  function Partly(fields: seq<Field>, slots: seq<Slot>, i: nat, n: nat): (r: seq<Slot>)
    requires MessageFits(fields, slots) && i < |fields| && fields[i].htype.Repeated? && slots[i].Many? && n <= |slots[i].vs|
    ensures |r| == |fields|
  {
    assert SlotFits(fields[i], slots[i]);
    Progress(fields, slots, i)[i := Many(Normals(fields[i].ltype, slots[i].vs[..n]))]
  }

  lemma PartlyEnds(fields: seq<Field>, slots: seq<Slot>, i: nat)
    requires MessageFits(fields, slots) && i < |fields| && fields[i].htype.Repeated? && slots[i].Many?
    ensures Partly(fields, slots, i, 0) == Progress(fields, slots, i)
    ensures Partly(fields, slots, i, |slots[i].vs|) == Progress(fields, slots, i + 1)
  {
    assert SlotFits(fields[i], slots[i]);
    var vs := slots[i].vs;
    assert vs[..|vs|] == vs && vs[..0] == [];
    assert Many(Normals(fields[i].ltype, vs)) == NormalSlot(fields[i], slots[i]);
    assert Normals(fields[i].ltype, []) == [];
  }

  /** One item of an unpacked repeated field. */
  lemma ItemStep(fields: seq<Field>, slots: seq<Slot>, i: nat, n: nat, rest: Bytes)
    requires MessageFits(fields, slots) && i < |fields| && fields[i].htype.Repeated? && !Packable(fields[i].ltype)
    requires slots[i].Many? && n < |slots[i].vs| <= fields[i].htype.arraySize
    requires Fits(fields[i].ltype, slots[i].vs[n])
    requires DecodeValue(fields[i].ltype, DefaultValue(fields[i].ltype), true, EncodeValue(fields[i].ltype, slots[i].vs[n]) + rest)
             == Some(Parsed(NormalValue(fields[i].ltype, slots[i].vs[n]), rest))
    ensures DecodeField(fields, Partly(fields, slots, i, n), i, WireCode(WireOf(fields[i].ltype)),
                        EncodeValue(fields[i].ltype, slots[i].vs[n]) + rest)
            == Some(Parsed(Partly(fields, slots, i, n + 1), rest))
  {
    hide DecodeValue;
    hide EncodeValue;
    hide NormalValue;
    assert SlotFits(fields[i], slots[i]);
    var t, vs := fields[i].ltype, slots[i].vs;
    PrefixSnoc(vs, n);
    assert Normals(t, vs[..n + 1]) == Normals(t, vs[..n]) + [NormalValue(t, vs[n])];
    var now := Partly(fields, slots, i, n);
    assert OldItems(now[i]) == Normals(t, vs[..n]);
    assert now[i := Many(Normals(t, vs[..n + 1]))] == Partly(fields, slots, i, n + 1);
  }

  lemma {:induction false} RepeatedFrom(fields: seq<Field>, slots: seq<Slot>, i: nat, n: nat, seen: set<nat>, rest: Bytes)
    requires TableOk(fields) && MessageFits(fields, slots) && i < |fields|
    requires fields[i].htype.Repeated? && !Packable(fields[i].ltype) && SlotInBounds(fields[i], slots[i], true)
    requires slots[i].Many? && n <= |slots[i].vs|
    requires forall k :: n <= k < |slots[i].vs| ==> Fits(fields[i].ltype, slots[i].vs[k])
    requires |TaggedAll(fields[i], slots[i].vs[n..])| < TWO_32
    ensures DecodeFields(fields, Partly(fields, slots, i, n), seen, TaggedAll(fields[i], slots[i].vs[n..]) + rest)
            == DecodeFields(fields, Progress(fields, slots, i + 1), if n < |slots[i].vs| then seen + {i} else seen, rest)
    decreases fields, 0, |slots[i].vs| - n
  {
    var f, vs := fields[i], slots[i].vs;
    if n == |vs| {
      PartlyEnds(fields, slots, i);
      assert vs[n..] == [];
      assert TaggedAll(f, vs[n..]) + rest == rest;
    } else {
      assert FieldOk(f) && InBounds(f.ltype, vs[n], true);
      assert vs[n..][0] == vs[n] && vs[n..][1..] == vs[n + 1..];
      var more := TaggedAll(f, vs[n + 1..]);
      var body := EncodeValue(f.ltype, vs[n]);
      FieldRoundTrip(f, vs[n], DefaultValue(f.ltype), true, more + rest);
      ItemStep(fields, slots, i, n, more + rest);
      Assoc(TagBytes(WireOf(f.ltype), f.tag), body, more);
      Assoc(TagBytes(WireOf(f.ltype), f.tag), body + more, rest);
      Assoc(body, more, rest);
      TagStep(fields, Partly(fields, slots, i, n), seen, i, WireOf(f.ltype), body + (more + rest));
      RepeatedFrom(fields, slots, i, n + 1, seen + {i}, rest);
      assert seen + {i} + {i} == seen + {i};
    }
  }

  // ------------------------------------------------------------------------
  // Messages

  /** Reading what one field wrote. */
  lemma {:induction false} SlotStep(fields: seq<Field>, slots: seq<Slot>, i: nat, seen: set<nat>, rest: Bytes)
    requires TableOk(fields) && MessageFits(fields, slots) && i < |fields|
    requires SlotInBounds(fields[i], slots[i], true) && |EncodeSlot(fields[i], slots[i])| < TWO_32
    ensures var seen' := if EncodeSlot(fields[i], slots[i]) == [] then seen else seen + {i};
            DecodeFields(fields, Progress(fields, slots, i), seen, EncodeSlot(fields[i], slots[i]) + rest)
            == DecodeFields(fields, Progress(fields, slots, i + 1), seen', rest)
    ensures fields[i].htype.Required? ==> EncodeSlot(fields[i], slots[i]) != []
    decreases fields, 1
  {
    var f, s := fields[i], slots[i];
    assert SlotFits(f, s);
    if !f.htype.Repeated? {
      PresentSlot(f, s);
      if Present(f, s) {
        SingleStep(fields, slots, i, seen, rest);
        SlotNonEmpty(f, s);
      } else {
        Unchanged(fields, slots, i, rest);
      }
    } else if s.vs == [] {
      PartlyEnds(fields, slots, i);
      Unchanged(fields, slots, i, rest);
    } else if Packable(f.ltype) {
      PackedStep(fields, slots, i, seen, rest);
      assert |TagBytes(LENGTH, f.tag)| > 0;
    } else {
      PartlyEnds(fields, slots, i);
      assert s.vs[0..] == s.vs;
      RepeatedFrom(fields, slots, i, 0, seen, rest);
      assert |TagBytes(WireOf(f.ltype), f.tag)| > 0;
    }
  }

  lemma SlotNonEmpty(f: Field, s: Slot)
    requires SlotFits(f, s) && !f.htype.Repeated? && Present(f, s)
    ensures EncodeSlot(f, s) != []
  {
    assert |TagBytes(WireOf(f.ltype), f.tag)| > 0;
  }

  lemma Unchanged(fields: seq<Field>, slots: seq<Slot>, i: nat, rest: Bytes)
    requires MessageFits(fields, slots) && i < |fields| && NormalSlot(fields[i], slots[i]) == DefaultSlot(fields[i])
    ensures Progress(fields, slots, i + 1) == Progress(fields, slots, i) && [] + rest == rest
  {
    hide NormalSlot;
    hide DefaultSlot;
    hide MessageFits;
    var a, b := Progress(fields, slots, i), Progress(fields, slots, i + 1);
    assert forall j :: 0 <= j < |a| ==> a[j] == b[j];
  }

  /** Reading from field `i` to the end; every required field is met. */
  lemma {:induction false} FieldsFrom(fields: seq<Field>, slots: seq<Slot>, i: nat, seen: set<nat>) returns (all: set<nat>)
    requires TableOk(fields) && MessageFits(fields, slots) && i <= |fields|
    requires MessageInBounds(fields, slots, true) && |EncodeFrom(fields, slots, i)| < TWO_32
    requires forall k :: 0 <= k < i && fields[k].htype.Required? ==> k in seen
    ensures DecodeFields(fields, Progress(fields, slots, i), seen, EncodeFrom(fields, slots, i))
            == Some(Decoded(Normal(fields, slots), all))
    ensures forall k :: 0 <= k < |fields| && fields[k].htype.Required? ==> k in all
    decreases fields, 2, |fields| - i
  {
    if i == |fields| {
      all := seen;
      assert Progress(fields, slots, i) == Normal(fields, slots);
    } else {
      assert SlotInBounds(fields[i], slots[i], true);
      var rest := EncodeFrom(fields, slots, i + 1);
      SlotStep(fields, slots, i, seen, rest);
      var seen' := if EncodeSlot(fields[i], slots[i]) == [] then seen else seen + {i};
      all := FieldsFrom(fields, slots, i + 1, seen');
    }
  }

  /** Decoding an encoded message gives it back, absent fields as defaults. */
  lemma {:induction false} MessageRoundTrip(fields: seq<Field>, slots: seq<Slot>)
    requires TableOk(fields) && MessageFits(fields, slots) && MessageInBounds(fields, slots, true)
    requires |EncodeMessage(fields, slots)| < TWO_32
    ensures DecodeMessage(fields, DefaultMessage(fields), EncodeMessage(fields, slots)) == Some(Normal(fields, slots))
    decreases fields, 3
  {
    assert Progress(fields, slots, 0) == DefaultMessage(fields);
    var all := FieldsFrom(fields, slots, 0, {});
  }
}
