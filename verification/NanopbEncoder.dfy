/**
 The encoder: one set of procedures that either writes to a buffer or only counts.

 Each procedure is proved to produce the bytes of the specification, and to succeed exactly when
 the values fit their storage and the bytes fit the stream.  Hence the counting pass that precedes
 every submessage agrees with the writing pass, at every nesting depth.
 */
module NanopbEncoder {
  import opened Coding
  import opened Nanopb
  import opened Sequences

  class OStream {
    const sizing: bool
    const maxSize: nat
    var bytesWritten: nat
    var buf: Bytes

    constructor (sizing: bool, maxSize: nat)
      ensures this.sizing == sizing && this.maxSize == maxSize && bytesWritten == 0 && buf == []
    {
      this.sizing, this.maxSize, bytesWritten, buf := sizing, maxSize, 0, [];
    }

    /** There is room for `n` more bytes; a counting stream never fills. */
    predicate Room(n: nat)
      reads this
    {
      sizing || bytesWritten + n <= maxSize
    }

    /** The stream has gone on by exactly these bytes. */
    twostate predicate Advanced(b: Bytes)
      reads this
    {
      bytesWritten == old(bytesWritten) + |b| && buf == if sizing then old(buf) else old(buf) + b
    }

    method Write(b: Bytes) returns (ok: bool)
      modifies this
      ensures ok == old(sizing || bytesWritten + |b| <= maxSize) && (ok ==> Advanced(b))
    {
      if !sizing {
        if bytesWritten + |b| > maxSize {
          return false;
        }
        buf := buf + b;
      }
      bytesWritten := bytesWritten + |b|;
      ok := true;
    }

    /** Counting only. */
    method Skip(n: nat)
      requires sizing
      modifies this
      ensures bytesWritten == old(bytesWritten) + n && buf == old(buf)
    {
      bytesWritten := bytesWritten + n;
    }

    /** Takes over what a substream has written. */
    method TakeOver(sub: OStream)
      requires sub != this && !sizing
      modifies this
      ensures bytesWritten == old(bytesWritten) + sub.bytesWritten && buf == old(buf) + sub.buf
    {
      bytesWritten := bytesWritten + sub.bytesWritten;
      buf := buf + sub.buf;
    }
  }

  /** Every byte gets the continuation bit; the last one loses it again. */
  method VarintBytes(value: nat) returns (b: Bytes)
    ensures b == Varint(value)
  {
    if value <= 0x7F {
      return [value];
    }
    b := [];
    var v: nat := value;
    while v > 0
      invariant v > 0 ==> b + Varint(v) == Varint(value)
      invariant v == 0 ==> |b| > 0 && b[|b| - 1] >= 128 && b[..|b| - 1] + [b[|b| - 1] - 128] == Varint(value)
    {
      assert b + Varint(v) == if v < 128 then b + [v] else (b + [v % 128 + 128]) + Varint(v / 128);
      b := b + [v % 128 + 128];
      v := v / 128;
    }
    b := b[..|b| - 1] + [b[|b| - 1] - 128];
  }

  method EncodeVarint(stream: OStream, value: nat) returns (ok: bool)
    modifies stream
    ensures ok == old(stream.Room(|Varint(value)|)) && (ok ==> stream.Advanced(Varint(value)))
  {
    var b := VarintBytes(value);
    ok := stream.Write(b);
  }

  method EncodeTag(stream: OStream, w: WireType, tag: nat) returns (ok: bool)
    modifies stream
    ensures ok == old(stream.Room(|TagBytes(w, tag)|)) && (ok ==> stream.Advanced(TagBytes(w, tag)))
  {
    ok := EncodeVarint(stream, tag * 8 + WireCode(w));
  }

  method EncodeString(stream: OStream, b: Bytes) returns (ok: bool)
    modifies stream
    ensures ok == old(stream.Room(|Prefixed(b)|)) && (ok ==> stream.Advanced(Prefixed(b)))
  {
    ok := EncodeVarint(stream, |b|);
    if ok {
      ok := stream.Write(b);
      Assoc(old(stream.buf), Varint(|b|), b);
    }
  }

  // ------------------------------------------------------------------------
  // Values and fields

  method EncodeAny(stream: OStream, t: LType, v: Value) returns (ok: bool)
    requires Fits(t, v)
    modifies stream
    ensures ok == (InBounds(t, v, false) && old(stream.Room(|EncodeValue(t, v)|)))
    ensures ok ==> stream.Advanced(EncodeValue(t, v))
    decreases t, 0
  {
    match t
    case VarintT(_) => ok := EncodeVarint(stream, if v.i < 0 then v.i + TWO_64 else v.i);
    case UVarintT(_) => ok := EncodeVarint(stream, v.i);
    case SVarintT(_) => ok := EncodeVarint(stream, if v.i < 0 then -2 * v.i - 1 else 2 * v.i);
    case Fixed32T => ok := stream.Write(Fixed(v.i, 4));
    case Fixed64T => ok := stream.Write(Fixed(v.i, 8));
    case BytesT(capacity) =>
      if |v.b| > capacity {
        ok := false;
      } else {
        ok := EncodeString(stream, v.b);
      }
    case StringT(_) => ok := EncodeString(stream, v.b);
    case FixedBytesT(_) => ok := EncodeString(stream, v.b);
    case SubmessageT(fields) => ok := EncodeSubmessage(stream, fields, v.slots);
  }

  /** A counting pass, the length, then the writing pass into exactly that much room. */
  method EncodeSubmessage(stream: OStream, fields: seq<Field>, slots: seq<Slot>) returns (ok: bool)
    requires MessageFits(fields, slots)
    modifies stream
    ensures ok == (MessageInBounds(fields, slots, false) && old(stream.Room(|Prefixed(EncodeMessage(fields, slots))|)))
    ensures ok ==> stream.Advanced(Prefixed(EncodeMessage(fields, slots)))
    decreases fields, 4
  {
    hide EncodeMessage;
    hide MessageInBounds;
    hide MessageFits;
    ghost var body := EncodeMessage(fields, slots);
    var counting := new OStream(true, 0);
    ok := PbEncode(counting, fields, slots);
    if !ok {
      return;
    }
    var size := counting.bytesWritten;
    ok := EncodeVarint(stream, size);
    if !ok {
      return;
    }
    if stream.sizing {
      stream.Skip(size);
      return true;
    }
    if stream.bytesWritten + size > stream.maxSize {
      return false;
    }
    var sub := new OStream(false, size);
    ok := PbEncode(sub, fields, slots);
    stream.TakeOver(sub);
    ok := ok && sub.bytesWritten == size;
    Assoc(old(stream.buf), Varint(|body|), body);
  }

  method EncodeTagged(stream: OStream, f: Field, v: Value) returns (ok: bool)
    requires Fits(f.ltype, v)
    modifies stream
    ensures ok == (InBounds(f.ltype, v, false) && old(stream.Room(|Tagged(f, v)|)))
    ensures ok ==> stream.Advanced(Tagged(f, v))
    decreases f, 0
  {
    ok := EncodeTag(stream, WireOf(f.ltype), f.tag);
    if ok {
      ok := EncodeAny(stream, f.ltype, v);
      Assoc(old(stream.buf), TagBytes(WireOf(f.ltype), f.tag), EncodeValue(f.ltype, v));
    }
  }

  // ------------------------------------------------------------------------
  // Arrays

  ghost predicate AllIn(t: LType, vs: seq<Value>)
    requires forall i :: 0 <= i < |vs| ==> Fits(t, vs[i])
  {
    forall i :: 0 <= i < |vs| ==> InBounds(t, vs[i], false)
  }

  lemma TakeFirst(f: Field, vs: seq<Value>, i: nat, done: Bytes)
    requires i < |vs| && forall j :: 0 <= j < |vs| ==> Fits(f.ltype, vs[j])
    ensures done + EncodeAll(f.ltype, vs[i..]) == (done + EncodeValue(f.ltype, vs[i])) + EncodeAll(f.ltype, vs[i + 1..])
    ensures done + TaggedAll(f, vs[i..]) == (done + Tagged(f, vs[i])) + TaggedAll(f, vs[i + 1..])
  {
    assert vs[i..][0] == vs[i] && vs[i..][1..] == vs[i + 1..];
    Assoc(done, EncodeValue(f.ltype, vs[i]), EncodeAll(f.ltype, vs[i + 1..]));
    Assoc(done, Tagged(f, vs[i]), TaggedAll(f, vs[i + 1..]));
  }

  /** The items of an array one after the other, without tags. */
  method EncodeItems(stream: OStream, f: Field, vs: seq<Value>) returns (ok: bool)
    requires forall i :: 0 <= i < |vs| ==> Fits(f.ltype, vs[i])
    requires stream.Room(0)
    modifies stream
    ensures ok == (AllIn(f.ltype, vs) && old(stream.Room(|EncodeAll(f.ltype, vs)|)))
    ensures ok ==> stream.Advanced(EncodeAll(f.ltype, vs))
    decreases f, 0
  {
    var i := 0;
    ok := true;
    ghost var done: Bytes := [];
    ghost var all := EncodeAll(f.ltype, vs);
    assert vs[0..] == vs && [] + all == all;
    while i < |vs| && ok
      invariant i <= |vs|
      invariant ok ==> stream.Advanced(done) && stream.Room(0) && all == done + EncodeAll(f.ltype, vs[i..])
      invariant ok ==> forall j :: 0 <= j < i ==> InBounds(f.ltype, vs[j], false)
      invariant !ok ==> !(AllIn(f.ltype, vs) && old(stream.Room(|all|)))
    {
      TakeFirst(f, vs, i, done);
      Assoc(old(stream.buf), done, EncodeValue(f.ltype, vs[i]));
      ok := EncodeAny(stream, f.ltype, vs[i]);
      done := done + EncodeValue(f.ltype, vs[i]);
      i := i + 1;
    }
    assert ok ==> vs[i..] == [] && done + [] == done;
  }

  /** Each item with its own tag. */
  method EncodeTaggedItems(stream: OStream, f: Field, vs: seq<Value>) returns (ok: bool)
    requires forall i :: 0 <= i < |vs| ==> Fits(f.ltype, vs[i])
    requires stream.Room(0)
    modifies stream
    ensures ok == (AllIn(f.ltype, vs) && old(stream.Room(|TaggedAll(f, vs)|)))
    ensures ok ==> stream.Advanced(TaggedAll(f, vs))
    decreases f, 1
  {
    var i := 0;
    ok := true;
    ghost var done: Bytes := [];
    ghost var all := TaggedAll(f, vs);
    assert vs[0..] == vs && [] + all == all;
    while i < |vs| && ok
      invariant i <= |vs|
      invariant ok ==> stream.Advanced(done) && stream.Room(0) && all == done + TaggedAll(f, vs[i..])
      invariant ok ==> forall j :: 0 <= j < i ==> InBounds(f.ltype, vs[j], false)
      invariant !ok ==> !(AllIn(f.ltype, vs) && old(stream.Room(|all|)))
    {
      TakeFirst(f, vs, i, done);
      Assoc(old(stream.buf), done, Tagged(f, vs[i]));
      ok := EncodeTagged(stream, f, vs[i]);
      done := done + Tagged(f, vs[i]);
      i := i + 1;
    }
    assert ok ==> vs[i..] == [] && done + [] == done;
  }

  lemma {:induction false} FixedSizes(t: LType, vs: seq<Value>)
    requires forall i :: 0 <= i < |vs| ==> Fits(t, vs[i])
    ensures t.Fixed32T? ==> |EncodeAll(t, vs)| == 4 * |vs| && AllIn(t, vs)
    ensures t.Fixed64T? ==> |EncodeAll(t, vs)| == 8 * |vs| && AllIn(t, vs)
  {
    if |vs| > 0 { FixedSizes(t, vs[1..]); }
  }

  /** The size of a packed array: known for fixed-width items, counted for the others. */
  method PackedSize(f: Field, vs: seq<Value>) returns (ok: bool, size: nat)
    requires forall i :: 0 <= i < |vs| ==> Fits(f.ltype, vs[i])
    ensures ok == AllIn(f.ltype, vs) && (ok ==> size == |EncodeAll(f.ltype, vs)|)
    decreases f, 1
  {
    FixedSizes(f.ltype, vs);
    ok := true;
    if f.ltype.Fixed32T? {
      size := 4 * |vs|;
    } else if f.ltype.Fixed64T? {
      size := 8 * |vs|;
    } else {
      var counting := new OStream(true, 0);
      ok := EncodeItems(counting, f, vs);
      size := counting.bytesWritten;
    }
  }

  method EncodePacked(stream: OStream, f: Field, vs: seq<Value>) returns (ok: bool)
    requires Packable(f.ltype) && forall i :: 0 <= i < |vs| ==> Fits(f.ltype, vs[i])
    modifies stream
    ensures var bytes := TagBytes(LENGTH, f.tag) + Prefixed(EncodeAll(f.ltype, vs));
            && ok == (AllIn(f.ltype, vs) && old(stream.Room(|bytes|)))
            && (ok ==> stream.Advanced(bytes))
    decreases f, 2
  {
    ghost var tag, body := TagBytes(LENGTH, f.tag), EncodeAll(f.ltype, vs);
    Assoc(old(stream.buf), tag, Varint(|body|) + body);
    Assoc(old(stream.buf) + tag, Varint(|body|), body);
    ok := EncodeTag(stream, LENGTH, f.tag);
    if !ok {
      return;
    }
    var size;
    ok, size := PackedSize(f, vs);
    if !ok {
      return;
    }
    ok := EncodeVarint(stream, size);
    if !ok {
      return;
    }
    if stream.sizing {
      stream.Skip(size);
    } else {
      ok := EncodeItems(stream, f, vs);
    }
  }

  // ------------------------------------------------------------------------
  // Fields and messages

  method EncodeField(stream: OStream, f: Field, s: Slot) returns (ok: bool)
    requires SlotFits(f, s) && stream.Room(0)
    modifies stream
    ensures ok == (SlotInBounds(f, s, false) && old(stream.Room(|EncodeSlot(f, s)|)))
    ensures ok ==> stream.Advanced(EncodeSlot(f, s))
    decreases f, 3
  {
    ok := true;
    assert stream.buf + [] == stream.buf;
    match f.htype
    case Required => ok := EncodeTagged(stream, f, s.v);
    case Optional =>
      if s.has {
        ok := EncodeTagged(stream, f, s.v);
      }
    case Singular =>
      if !IsDefaultValue(f.ltype, s.v) {
        ok := EncodeTagged(stream, f, s.v);
      }
    case Repeated(arraySize) =>
      if |s.vs| == 0 {
        return;
      }
      if |s.vs| > arraySize {
        return false;
      }
      if Packable(f.ltype) {
        ok := EncodePacked(stream, f, s.vs);
      } else {
        ok := EncodeTaggedItems(stream, f, s.vs);
      }
    case OneOf(_) =>
      if s.chosen {
        ok := EncodeTagged(stream, f, s.v);
      }
  }

  /** All fields in table order.  Succeeds exactly when everything is in bounds and there is room. */
  method PbEncode(stream: OStream, fields: seq<Field>, slots: seq<Slot>) returns (ok: bool)
    requires MessageFits(fields, slots) && stream.Room(0)
    modifies stream
    ensures ok == (MessageInBounds(fields, slots, false) && old(stream.Room(|EncodeMessage(fields, slots)|)))
    ensures ok <==> && MessageInBounds(fields, slots, false)
                    && old(stream.sizing || stream.bytesWritten + |EncodeMessage(fields, slots)| <= stream.maxSize)
    ensures ok ==> stream.Advanced(EncodeMessage(fields, slots))
    decreases fields, 3
  {
    var i := 0;
    ok := true;
    ghost var done: Bytes := [];
    ghost var all := EncodeMessage(fields, slots);
    assert [] + all == all;
    while i < |fields| && ok
      invariant i <= |fields|
      invariant ok ==> stream.Advanced(done) && stream.Room(0) && all == done + EncodeFrom(fields, slots, i)
      invariant ok ==> forall j :: 0 <= j < i ==> SlotInBounds(fields[j], slots[j], false)
      invariant !ok ==> !(MessageInBounds(fields, slots, false) && old(stream.Room(|all|)))
    {
      var slot := EncodeSlot(fields[i], slots[i]);
      Assoc(done, slot, EncodeFrom(fields, slots, i + 1));
      Assoc(old(stream.buf), done, slot);
      ok := EncodeField(stream, fields[i], slots[i]);
      done := done + slot;
      i := i + 1;
    }
    assert ok ==> done + [] == done;
  }

  /** The size a message will take, without writing it. */
  method PbGetEncodedSize(fields: seq<Field>, slots: seq<Slot>) returns (ok: bool, size: nat)
    requires MessageFits(fields, slots)
    ensures ok == MessageInBounds(fields, slots, false) && (ok ==> size == |EncodeMessage(fields, slots)|)
  {
    var stream := new OStream(true, 0);
    ok := PbEncode(stream, fields, slots);
    size := stream.bytesWritten;
  }
}
