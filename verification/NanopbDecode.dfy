/**
 Decoding a message: tags are looked up in the table, values are parsed by the field's type, and
 submessages are read from length-limited substreams.
 */
module NanopbDecode {
  import opened Coding
  import opened Entries
  import opened Nanopb

  // ------------------------------------------------------------------------
  // Numbers

  /** Seven more bits, in 32-bit arithmetic. */
  function AddGroup(result: nat, b: byte, scale: nat): nat {
    (result + b % 128 * scale) % TWO_32
  }

  /** One more byte of a 32-bit varint.  Past 32 bits only padding or a sign extension may follow. */
  function MoreVarint32(input: Bytes, bitpos: nat, scale: nat, result: nat): (r: Option<Parsed<nat>>)
    ensures r.Some? ==> |r.value.rest| < |input|
  {
    if |input| == 0 then None
    else
      var b := input[0];
      if bitpos >= 32 && b % 128 != 0 && (result / 0x8000_0000 == 0 || b != if bitpos < 63 then 0xFF else 0x01) then None
      else
        var result' := if bitpos >= 32 then result else AddGroup(result, b, scale);
        if b >= 128 then MoreVarint32(input[1..], bitpos + 7, scale * 128, result')
        else if bitpos + 7 == 35 && b % 128 >= 16 then None
        else Some(Parsed(result', input[1..]))
  }

  function DecodeVarint32(input: Bytes): (r: Option<Parsed<nat>>)
    ensures r.Some? ==> |r.value.rest| < |input|
  {
    if |input| == 0 then None
    else if input[0] < 128 then Some(Parsed(input[0], input[1..]))
    else MoreVarint32(input[1..], 7, 128, input[0] - 128)
  }

  /** Reading a number as a two's complement integer of 8, 4, 2 or 1 bytes. */
  function ToSigned(value: nat, size: nat): int {
    var limit := SignedLimit(size);
    var low := value % (2 * limit);
    if low >= limit then low - 2 * limit else low
  }

  /** Fields of at most four bytes keep the sign of the low 32 bits. */
  function SignedOf(value: nat, size: nat): Option<Value> {
    var s := if size == 8 then ToSigned(value, 8) else ToSigned(value, 4);
    if -SignedLimit(size) <= s < SignedLimit(size) then Some(Int(s)) else None
  }

  function UnsignedOf(value: nat, size: nat): Option<Value> {
    if value < 2 * SignedLimit(size) then Some(Int(value)) else None
  }

  function UnZigZag(value: nat): int {
    if value % 2 == 1 then -(value / 2) - 1 else value / 2
  }

  function ZigZagOf(value: nat, size: nat): Option<Value> {
    var s := UnZigZag(value);
    if -SignedLimit(size) <= s < SignedLimit(size) then Some(Int(s)) else None
  }

  function Read<T>(v: Option<T>, rest: Bytes): Option<Parsed<T>> {
    if v.Some? then Some(Parsed(v.value, rest)) else None
  }

  function UpToNul(b: Bytes): (r: Bytes)
    ensures |r| <= |b|
  {
    if |b| == 0 || b[0] == 0 then [] else [b[0]] + UpToNul(b[1..])
  }

  function TakeBytes(input: Bytes, n: nat): Option<Parsed<Bytes>> {
    if |input| < n then None else Some(Parsed(input[..n], input[n..]))
  }

  /** Values that are not messages. */
  function DecodeScalar(t: LType, input: Bytes): (r: Option<Parsed<Value>>)
    requires !t.SubmessageT?
    ensures r.Some? ==> |r.value.rest| < |input|
  {
    match t
    case VarintT(size) =>
      (match TakeVarint64(input) case None => None case Some(p) => Read(SignedOf(p.value, size), p.rest))
    case UVarintT(size) =>
      (match TakeVarint64(input) case None => None case Some(p) => Read(UnsignedOf(p.value, size), p.rest))
    case SVarintT(size) =>
      (match TakeVarint64(input) case None => None case Some(p) => Read(ZigZagOf(p.value, size), p.rest))
    case Fixed32T =>
      (match TakeBytes(input, 4) case None => None case Some(p) => Some(Parsed(Int(FixedValue(p.value)), p.rest)))
    case Fixed64T =>
      (match TakeBytes(input, 8) case None => None case Some(p) => Some(Parsed(Int(FixedValue(p.value)), p.rest)))
    case BytesT(capacity) =>
      (match DecodeVarint32(input)
       case None => None
       case Some(p) =>
         if p.value > capacity || p.value > SIZE_MAX then None
         else match TakeBytes(p.rest, p.value) case None => None case Some(q) => Some(Parsed(Raw(q.value), q.rest)))
    case StringT(dataSize) =>
      (match DecodeVarint32(input)
       case None => None
       case Some(p) =>
         if p.value + 1 > dataSize then None
         else match TakeBytes(p.rest, p.value) case None => None case Some(q) => Some(Parsed(Raw(UpToNul(q.value)), q.rest)))
    case FixedBytesT(size) =>
      (match DecodeVarint32(input)
       case None => None
       case Some(p) =>
         if p.value > SIZE_MAX then None
         else if p.value == 0 then Some(Parsed(Raw(Zeros(size)), p.rest))
         else if p.value != size then None
         else match TakeBytes(p.rest, size) case None => None case Some(q) => Some(Parsed(Raw(q.value), q.rest)))
  }

  // ------------------------------------------------------------------------
  // Substreams, tags, skipping

  datatype Substream = Substream(body: Bytes, rest: Bytes)

  /** A length and that many bytes. */
  function TakeSubstream(input: Bytes): (r: Option<Substream>)
    ensures r.Some? ==> |r.value.body| < |input| && |r.value.rest| < |input|
  {
    match DecodeVarint32(input)
    case None => None
    case Some(p) => if |p.rest| < p.value then None else Some(Substream(p.rest[..p.value], p.rest[p.value..]))
  }

  datatype Tag = Tag(number: nat, wire: nat)

  function SkipVarint(input: Bytes): (r: Option<Bytes>)
    ensures r.Some? ==> |r.value| < |input|
  {
    if |input| == 0 then None
    else if input[0] >= 128 then SkipVarint(input[1..])
    else Some(input[1..])
  }

  function SkipBytes(input: Bytes, n: nat): (r: Option<Bytes>)
    ensures r.Some? ==> |r.value| <= |input|
  {
    if |input| < n then None else Some(input[n..])
  }

  /** Passes over a field that is not in the table. */
  function SkipField(wire: nat, input: Bytes): (r: Option<Bytes>)
    ensures r.Some? ==> |r.value| <= |input|
  {
    if wire == 0 then SkipVarint(input)
    else if wire == 1 then SkipBytes(input, 8)
    else if wire == 2 then
      match DecodeVarint32(input)
      case None => None
      case Some(p) => SkipBytes(p.rest, p.value)
    else if wire == 5 then SkipBytes(input, 4)
    else None
  }

  /** The field with this tag; the length of the table when there is none. */
  function FieldIndex(fields: seq<Field>, tag: nat): (k: nat)
    ensures k <= |fields|
    ensures k < |fields| ==> fields[k].tag == tag
    ensures forall j :: 0 <= j < k ==> fields[j].tag != tag
  {
    if |fields| == 0 || fields[0].tag == tag then 0
    else
      var k := FieldIndex(fields[1..], tag);
      assert forall j :: 1 <= j < k + 1 ==> fields[j] == fields[1..][j - 1];
      k + 1
  }

  // ------------------------------------------------------------------------
  // Messages

  /** A packed array: items until the substream or the array is used up. */
  function DecodePacked(t: LType, body: Bytes, vs: seq<Value>, arraySize: nat): Option<seq<Value>>
    requires Packable(t)
    decreases |body|
  {
    if |body| == 0 then Some(vs)
    else if |vs| >= arraySize then None
    else
      match DecodeScalar(t, body)
      case None => None
      case Some(p) => DecodePacked(t, p.rest, vs + [p.value], arraySize)
  }

  /** A value of any type.  Submessages are decoded into `before`, or into defaults when `anew`. */
  function DecodeValue(t: LType, before: Value, anew: bool, input: Bytes): (r: Option<Parsed<Value>>)
    ensures r.Some? ==> |r.value.rest| < |input|
    decreases |input|, 0
  {
    if t.SubmessageT? then
      match TakeSubstream(input)
      case None => None
      case Some(s) =>
        var start := if anew || !before.Msg? || |before.slots| != |t.fields| then DefaultMessage(t.fields) else before.slots;
        (match DecodeMessage(t.fields, start, s.body)
         case None => None
         case Some(m) => Some(Parsed(Msg(m), s.rest)))
    else DecodeScalar(t, input)
  }

  /** Setting one member of a oneof unsets the others. */
  function Choose(fields: seq<Field>, slots: seq<Slot>, k: nat, v: Value): (r: seq<Slot>)
    requires k < |fields| == |slots|
    ensures |r| == |fields|
  {
    seq(|fields|, i requires 0 <= i < |fields| =>
      if i == k then Choice(true, v)
      else if SameGroup(fields[k], fields[i]) then DefaultSlot(fields[i])
      else slots[i])
  }

  function OldValue(s: Slot, t: LType): Value {
    match s
    case Plain(v) => v
    case Opt(_, v) => v
    case Choice(_, v) => v
    case Many(_) => DefaultValue(t)
  }

  function OldItems(s: Slot): seq<Value> {
    if s.Many? then s.vs else []
  }

  function DecodeField(fields: seq<Field>, slots: seq<Slot>, k: nat, wire: nat, input: Bytes): (r: Option<Parsed<seq<Slot>>>)
    requires k < |fields| == |slots|
    ensures r.Some? ==> |r.value.rest| < |input| && |r.value.value| == |fields|
    decreases |input|, 1
  {
    var f := fields[k];
    if f.htype.Repeated? && wire == 2 && Packable(f.ltype) then
      match TakeSubstream(input)
      case None => None
      case Some(s) =>
        (match DecodePacked(f.ltype, s.body, OldItems(slots[k]), f.htype.arraySize)
         case None => None
         case Some(vs) => Some(Parsed(slots[k := Many(vs)], s.rest)))
    else if f.htype.Repeated? && |OldItems(slots[k])| >= f.htype.arraySize then None
    else
      match DecodeValue(f.ltype, OldValue(slots[k], f.ltype), f.htype.Repeated? || f.htype.OneOf?, input)
      case None => None
      case Some(p) =>
        match f.htype
        case Required => Some(Parsed(slots[k := Plain(p.value)], p.rest))
        case Singular => Some(Parsed(slots[k := Plain(p.value)], p.rest))
        case Optional => Some(Parsed(slots[k := Opt(true, p.value)], p.rest))
        case Repeated(_) => Some(Parsed(slots[k := Many(OldItems(slots[k]) + [p.value])], p.rest))
        case OneOf(_) => Some(Parsed(Choose(fields, slots, k, p.value), p.rest))
  }

  datatype Decoded = Decoded(slots: seq<Slot>, seen: set<nat>)

  /** Fields until the end of the stream, or a zero tag.  `seen` are the table positions met. */
  function DecodeFields(fields: seq<Field>, slots: seq<Slot>, seen: set<nat>, input: Bytes): (r: Option<Decoded>)
    requires |fields| == |slots|
    ensures r.Some? ==> |r.value.slots| == |fields|
    decreases |input|, 2
  {
    if |input| == 0 then Some(Decoded(slots, seen))
    else
      match DecodeVarint32(input)
      case None => None
      case Some(p) =>
        if p.value == 0 then Some(Decoded(slots, seen))
        else if |fields| == 0 && p.value / 8 == 0 then None   // an empty table's terminator has tag 0
        else
          var k := FieldIndex(fields, p.value / 8);
          if k == |fields| then
            (match SkipField(p.value % 8, p.rest)
             case None => None
             case Some(rest) => DecodeFields(fields, slots, seen, rest))
          else
            match DecodeField(fields, slots, k, p.value % 8, p.rest)
            case None => None
            case Some(q) => DecodeFields(fields, q.value, seen + {k}, q.rest)
  }

  const MAX_REQUIRED: nat := 64

  /** How many required fields stand before position `k`. */
  function RequiredBefore(fields: seq<Field>, k: nat): nat
    requires k <= |fields|
  {
    if k == 0 then 0 else RequiredBefore(fields, k - 1) + if fields[k - 1].htype.Required? then 1 else 0
  }

  /** Each of the first 64 required fields was met. */
  predicate RequiredSeen(fields: seq<Field>, seen: set<nat>) {
    forall k :: 0 <= k < |fields| && fields[k].htype.Required? && RequiredBefore(fields, k) < MAX_REQUIRED ==> k in seen
  }

  /** Decoding without initialisation: into the slots given. */
  function DecodeMessage(fields: seq<Field>, slots: seq<Slot>, input: Bytes): (r: Option<seq<Slot>>)
    requires |fields| == |slots|
    ensures r.Some? ==> |r.value| == |fields|
    decreases |input|, 3
  {
    match DecodeFields(fields, slots, {}, input)
    case None => None
    case Some(d) => if RequiredSeen(fields, d.seen) then Some(d.slots) else None
  }
}
