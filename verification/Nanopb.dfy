/**
 Protocol Buffers messages as nanopb describes them: a table of fields, a record of values, and
 the bytes that the encoder writes for them.

 A struct is modelled as the list of its fields' values; the C string of a string field is what
 stands before its NUL.
 */
module Nanopb {
  import opened Coding

  /** The data type of a field, with the size of its storage. */
  datatype LType =
    | VarintT(size: nat)
    | UVarintT(size: nat)
    | SVarintT(size: nat)
    | Fixed32T
    | Fixed64T
    | BytesT(capacity: nat)
    | StringT(dataSize: nat)
    | SubmessageT(fields: seq<Field>)
    | FixedBytesT(size: nat)

  /** Singular is the proto3 form: optional without a has-flag.  The members of a oneof share a group. */
  datatype HType = Required | Optional | Singular | Repeated(arraySize: nat) | OneOf(group: nat)

  datatype Field = Field(tag: nat, htype: HType, ltype: LType)

  datatype Value = Int(i: int) | Raw(b: Bytes) | Msg(slots: seq<Slot>)

  datatype Slot = Plain(v: Value) | Opt(has: bool, v: Value) | Many(vs: seq<Value>) | Choice(chosen: bool, v: Value)

  const SIZE_MAX: nat := 0xFFFF

  // ------------------------------------------------------------------------
  // Well-formed tables and values

  function SignedLimit(size: nat): int {
    if size == 1 then 0x80 else if size == 2 then 0x8000 else if size == 4 then 0x8000_0000 else 0x8000_0000_0000_0000
  }

  predicate SizeOk(size: nat) {
    size == 1 || size == 2 || size == 4 || size == 8
  }

  ghost predicate TypeOk(t: LType)
    decreases t
  {
    match t
    case VarintT(size) => SizeOk(size)
    case UVarintT(size) => SizeOk(size)
    case SVarintT(size) => SizeOk(size)
    case Fixed32T => true
    case Fixed64T => true
    case BytesT(capacity) => capacity <= SIZE_MAX
    case StringT(dataSize) => 0 < dataSize <= SIZE_MAX
    case SubmessageT(fields) => TableOk(fields)
    case FixedBytesT(size) => size <= SIZE_MAX
  }

  ghost predicate FieldOk(f: Field)
    decreases f
  {
    0 < f.tag <= SIZE_MAX && TypeOk(f.ltype)
  }

  /** Distinct tags, none of them zero. */
  ghost predicate TableOk(fields: seq<Field>)
    decreases fields
  {
    && (forall i :: 0 <= i < |fields| ==> FieldOk(fields[i]))
    && (forall i, j :: 0 <= i < j < |fields| ==> fields[i].tag != fields[j].tag)
  }

  predicate NoNul(b: Bytes) {
    forall i :: 0 <= i < |b| ==> b[i] != 0
  }

  /** The value has the shape its type asks for, and integers are in range. */
  ghost predicate Fits(t: LType, v: Value)
    decreases t
  {
    match t
    case VarintT(size) => v.Int? && -SignedLimit(size) <= v.i < SignedLimit(size)
    case UVarintT(size) => v.Int? && 0 <= v.i < 2 * SignedLimit(size)
    case SVarintT(size) => v.Int? && -SignedLimit(size) <= v.i < SignedLimit(size)
    case Fixed32T => v.Int? && 0 <= v.i < TWO_32
    case Fixed64T => v.Int? && 0 <= v.i < TWO_64
    case BytesT(_) => v.Raw? && |v.b| <= SIZE_MAX
    case StringT(dataSize) => v.Raw? && |v.b| <= dataSize && NoNul(v.b)
    case SubmessageT(fields) => v.Msg? && MessageFits(fields, v.slots)
    case FixedBytesT(size) => v.Raw? && |v.b| == size
  }

  ghost predicate SlotFits(f: Field, s: Slot)
    decreases f
  {
    match f.htype
    case Required => s.Plain? && Fits(f.ltype, s.v)
    case Singular => s.Plain? && Fits(f.ltype, s.v)
    case Optional => s.Opt? && Fits(f.ltype, s.v)
    case Repeated(_) => s.Many? && forall i :: 0 <= i < |s.vs| ==> Fits(f.ltype, s.vs[i])
    case OneOf(_) => s.Choice? && Fits(f.ltype, s.v)
  }

  predicate SameGroup(f: Field, g: Field) {
    f.htype.OneOf? && f.htype == g.htype
  }

  /** At most one member of a oneof is chosen. */
  ghost predicate MessageFits(fields: seq<Field>, slots: seq<Slot>)
    decreases fields
  {
    && |slots| == |fields|
    && (forall i :: 0 <= i < |fields| ==> SlotFits(fields[i], slots[i]))
    && (forall i, j :: 0 <= i < j < |fields| && SameGroup(fields[i], fields[j]) && slots[i].Choice? && slots[j].Choice? ==>
          !(slots[i].chosen && slots[j].chosen))
  }

  // ------------------------------------------------------------------------
  // Defaults

  function Zeros(n: nat): Bytes {
    seq(n, _ => 0)
  }

  function DefaultValue(t: LType): Value
    decreases t
  {
    match t
    case SubmessageT(fields) => Msg(DefaultMessage(fields))
    case BytesT(_) => Raw([])
    case StringT(_) => Raw([])
    case FixedBytesT(size) => Raw(Zeros(size))
    case _ => Int(0)
  }

  function DefaultSlot(f: Field): Slot
    decreases f
  {
    match f.htype
    case Required => Plain(DefaultValue(f.ltype))
    case Singular => Plain(DefaultValue(f.ltype))
    case Optional => Opt(false, DefaultValue(f.ltype))
    case Repeated(_) => Many([])
    case OneOf(_) => Choice(false, DefaultValue(f.ltype))
  }

  function DefaultMessage(fields: seq<Field>): (r: seq<Slot>)
    ensures |r| == |fields|
    decreases fields
  {
    seq(|fields|, i requires 0 <= i < |fields| => DefaultSlot(fields[i]))
  }

  /** The proto3 check: is there nothing to write for this value or slot? */
  predicate IsDefaultValue(t: LType, v: Value)
    decreases t
  {
    match t
    case SubmessageT(fields) =>
      v.Msg? && |v.slots| == |fields| && forall i :: 0 <= i < |fields| ==> IsDefaultSlot(fields[i], v.slots[i])
    case BytesT(_) => v.Raw? && v.b == []
    case StringT(_) => v.Raw? && v.b == []
    case FixedBytesT(size) => size == 0
    case _ => v == Int(0)
  }

  predicate IsDefaultSlot(f: Field, s: Slot)
    decreases f
  {
    match f.htype
    case Required => false
    case Singular => s.Plain? && IsDefaultValue(f.ltype, s.v)
    case Optional => s.Opt? && !s.has
    case Repeated(_) => s.Many? && s.vs == []
    case OneOf(_) => s.Choice? && !s.chosen
  }

  // ------------------------------------------------------------------------
  // Encoding

  datatype WireType = VARINT | BITS64 | LENGTH | BITS32

  function WireCode(w: WireType): nat {
    match w
    case VARINT => 0
    case BITS64 => 1
    case LENGTH => 2
    case BITS32 => 5
  }

  function WireOf(t: LType): WireType {
    match t
    case VarintT(_) => VARINT
    case UVarintT(_) => VARINT
    case SVarintT(_) => VARINT
    case Fixed32T => BITS32
    case Fixed64T => BITS64
    case _ => LENGTH
  }

  predicate Packable(t: LType) {
    t.VarintT? || t.UVarintT? || t.SVarintT? || t.Fixed32T? || t.Fixed64T?
  }

  function TagBytes(w: WireType, tag: nat): Bytes {
    Varint(tag * 8 + WireCode(w))
  }

  /** Small magnitudes become small unsigned numbers. */
  function ZigZag(i: int): (r: nat)
    ensures -0x8000_0000_0000_0000 <= i < 0x8000_0000_0000_0000 ==> r < TWO_64
  {
    if i < 0 then -2 * i - 1 else 2 * i
  }

  function EncodeValue(t: LType, v: Value): Bytes
    requires Fits(t, v)
    decreases t, 0
  {
    match t
    case VarintT(_) => Varint(if v.i < 0 then v.i + TWO_64 else v.i)
    case UVarintT(_) => Varint(v.i)
    case SVarintT(_) => Varint(ZigZag(v.i))
    case Fixed32T => Fixed(v.i, 4)
    case Fixed64T => Fixed(v.i, 8)
    case SubmessageT(fields) => Prefixed(EncodeMessage(fields, v.slots))
    case _ => Prefixed(v.b)
  }

  function EncodeAll(t: LType, vs: seq<Value>): Bytes
    requires forall i :: 0 <= i < |vs| ==> Fits(t, vs[i])
    decreases t, 1 + |vs|
  {
    if |vs| == 0 then [] else EncodeValue(t, vs[0]) + EncodeAll(t, vs[1..])
  }

  function Tagged(f: Field, v: Value): Bytes
    requires Fits(f.ltype, v)
    decreases f, 0
  {
    TagBytes(WireOf(f.ltype), f.tag) + EncodeValue(f.ltype, v)
  }

  function TaggedAll(f: Field, vs: seq<Value>): Bytes
    requires forall i :: 0 <= i < |vs| ==> Fits(f.ltype, vs[i])
    decreases f, 1, |vs|
  {
    if |vs| == 0 then [] else Tagged(f, vs[0]) + TaggedAll(f, vs[1..])
  }

  function EncodeSlot(f: Field, s: Slot): Bytes
    requires SlotFits(f, s)
    decreases f, 2
  {
    match f.htype
    case Required => Tagged(f, s.v)
    case Singular => if IsDefaultValue(f.ltype, s.v) then [] else Tagged(f, s.v)
    case Optional => if s.has then Tagged(f, s.v) else []
    case Repeated(_) =>
      if s.vs == [] then []
      else if Packable(f.ltype) then TagBytes(LENGTH, f.tag) + Prefixed(EncodeAll(f.ltype, s.vs))
      else TaggedAll(f, s.vs)
    case OneOf(_) => if s.chosen then Tagged(f, s.v) else []
  }

  /** The fields from `i` on, in table order. */
  function EncodeFrom(fields: seq<Field>, slots: seq<Slot>, i: nat): Bytes
    requires MessageFits(fields, slots) && i <= |fields|
    decreases fields, |fields| - i
  {
    if i == |fields| then [] else EncodeSlot(fields[i], slots[i]) + EncodeFrom(fields, slots, i + 1)
  }

  function EncodeMessage(fields: seq<Field>, slots: seq<Slot>): Bytes
    requires MessageFits(fields, slots)
    decreases fields, |fields| + 1
  {
    EncodeFrom(fields, slots, 0)
  }

  /** What the encoder checks against the storage sizes, at every nesting depth.  The decoder asks
      for one thing more: room for the NUL of a string. */
  ghost predicate InBounds(t: LType, v: Value, nul: bool)
    requires Fits(t, v)
    decreases t
  {
    match t
    case BytesT(capacity) => |v.b| <= capacity
    case StringT(dataSize) => nul ==> |v.b| < dataSize
    case SubmessageT(fields) => MessageInBounds(fields, v.slots, nul)
    case _ => true
  }

  /** Absent values are not looked at. */
  ghost predicate SlotInBounds(f: Field, s: Slot, nul: bool)
    requires SlotFits(f, s)
    decreases f
  {
    match f.htype
    case Required => InBounds(f.ltype, s.v, nul)
    case Singular => IsDefaultValue(f.ltype, s.v) || InBounds(f.ltype, s.v, nul)
    case Optional => s.has ==> InBounds(f.ltype, s.v, nul)
    case Repeated(arraySize) => |s.vs| <= arraySize && forall i :: 0 <= i < |s.vs| ==> InBounds(f.ltype, s.vs[i], nul)
    case OneOf(_) => s.chosen ==> InBounds(f.ltype, s.v, nul)
  }

  ghost predicate MessageInBounds(fields: seq<Field>, slots: seq<Slot>, nul: bool)
    requires MessageFits(fields, slots)
    decreases fields
  {
    forall i :: 0 <= i < |fields| ==> SlotInBounds(fields[i], slots[i], nul)
  }

  // ------------------------------------------------------------------------
  // What a round trip gives back: absent fields come back as defaults

  function NormalValue(t: LType, v: Value): Value
    requires Fits(t, v)
    decreases t
  {
    match t
    case SubmessageT(fields) => Msg(Normal(fields, v.slots))
    case _ => v
  }

  function NormalSlot(f: Field, s: Slot): Slot
    requires SlotFits(f, s)
    decreases f
  {
    match f.htype
    case Required => Plain(NormalValue(f.ltype, s.v))
    case Singular => Plain(NormalValue(f.ltype, s.v))
    case Optional => if s.has then Opt(true, NormalValue(f.ltype, s.v)) else DefaultSlot(f)
    case Repeated(_) => Many(seq(|s.vs|, i requires 0 <= i < |s.vs| => NormalValue(f.ltype, s.vs[i])))
    case OneOf(_) => if s.chosen then Choice(true, NormalValue(f.ltype, s.v)) else DefaultSlot(f)
  }

  function Normal(fields: seq<Field>, slots: seq<Slot>): (r: seq<Slot>)
    requires MessageFits(fields, slots)
    ensures |r| == |fields|
    decreases fields
  {
    seq(|fields|, i requires 0 <= i < |fields| => NormalSlot(fields[i], slots[i]))
  }

  /** What is not written because it is a default is one: only zero among numbers, and only the empty
      string among strings. */
  lemma ScalarDefaults(t: LType, v: Value)
    requires Fits(t, v)
    ensures Packable(t) ==> (IsDefaultValue(t, v) <==> v.i == 0)
    ensures t.BytesT? || t.StringT? ==> (IsDefaultValue(t, v) <==> |v.b| == 0)
    ensures t.FixedBytesT? ==> (IsDefaultValue(t, v) <==> |v.b| == 0)
  {}

  /** Leaving a default value out loses nothing, at any nesting depth. */
  lemma {:induction false} DefaultIsNormal(t: LType, v: Value)
    requires Fits(t, v) && IsDefaultValue(t, v)
    ensures NormalValue(t, v) == DefaultValue(t)
    decreases t
  {
    match t
    case SubmessageT(fields) =>
      forall i | 0 <= i < |fields| ensures Normal(fields, v.slots)[i] == DefaultMessage(fields)[i] {
        assert SlotFits(fields[i], v.slots[i]) && IsDefaultSlot(fields[i], v.slots[i]);
        DefaultSlotIsNormal(fields[i], v.slots[i]);
      }
    case _ =>
  }

  lemma {:induction false} DefaultSlotIsNormal(f: Field, s: Slot)
    requires SlotFits(f, s) && IsDefaultSlot(f, s)
    ensures NormalSlot(f, s) == DefaultSlot(f)
    decreases f
  {
    if f.htype.Singular? { DefaultIsNormal(f.ltype, s.v); }
  }

  lemma SlotLeftOut(f: Field, s: Slot)
    requires SlotFits(f, s)
    ensures EncodeSlot(f, s) == [] <==> IsDefaultSlot(f, s)
  {
    assert |TagBytes(WireOf(f.ltype), f.tag)| > 0 && |TagBytes(LENGTH, f.tag)| > 0;
    hide TagBytes;
    hide EncodeValue;
    hide EncodeAll;
    hide Prefixed;
    if f.htype.Repeated? && s.vs != [] && !Packable(f.ltype) {
      assert |Tagged(f, s.vs[0])| > 0;
    }
  }

  lemma {:induction false} NothingFrom(fields: seq<Field>, slots: seq<Slot>, i: nat)
    requires MessageFits(fields, slots) && i <= |fields|
    ensures EncodeFrom(fields, slots, i) == [] <==> forall k :: i <= k < |fields| ==> IsDefaultSlot(fields[k], slots[k])
    decreases |fields| - i
  {
    hide EncodeSlot;
    hide IsDefaultSlot;
    if i < |fields| {
      SlotLeftOut(fields[i], slots[i]);
      NothingFrom(fields, slots, i + 1);
      assert |EncodeFrom(fields, slots, i)| == |EncodeSlot(fields[i], slots[i])| + |EncodeFrom(fields, slots, i + 1)|;
    }
  }

  /** A submessage counts as a default exactly when it would be written without any bytes. */
  lemma EmptyIsDefault(t: LType, v: Value)
    requires t.SubmessageT? && Fits(t, v)
    ensures IsDefaultValue(t, v) <==> EncodeMessage(t.fields, v.slots) == []
  {
    hide IsDefaultSlot;
    NothingFrom(t.fields, v.slots, 0);
  }
}
