/**
 The decoding loop as the code has it: an iterator that wraps around the table and counts the
 required fields it passes, and a bitset of the required fields met.

 It is proved equal to `DecodeMessage`, which keeps a plain set.
 */
module NanopbDecoder {
  import opened Bits
  import opened Coding
  import opened Entries
  import opened Nanopb
  import opened NanopbDecode

  // ------------------------------------------------------------------------
  // The iterator

  class FieldIter {
    const fields: seq<Field>
    var pos: nat
    var requiredIndex: nat

    /** The running index counts the required fields before the position. */
    ghost predicate Valid()
      reads this
    {
      && (pos < |fields| || (pos == 0 && |fields| == 0))
      && requiredIndex == RequiredBefore(fields, pos)
    }

    constructor (fields: seq<Field>)
      ensures Valid() && pos == 0 && this.fields == fields
    {
      this.fields, pos, requiredIndex := fields, 0, 0;
    }

    /** Steps to the next field; false when that means wrapping around to the first. */
    method Next() returns (more: bool)
      requires Valid()
      modifies this
      ensures Valid() && more == (old(pos) + 1 < |fields|)
      ensures pos == if more then old(pos) + 1 else 0
    {
      if |fields| == 0 {
        return false;
      }
      var required := fields[pos].htype.Required?;
      pos := pos + 1;
      if pos == |fields| {
        pos, requiredIndex := 0, 0;
        return false;
      }
      if required {
        requiredIndex := requiredIndex + 1;
      }
      more := true;
    }

    /** Looks for a tag from the current position on, around the table. */
    method Find(tag: nat) returns (found: bool)
      requires Valid() && TableOk(fields) && (|fields| > 0 || tag != 0)
      modifies this
      ensures Valid()
      ensures found <==> FieldIndex(fields, tag) < |fields|
      ensures found ==> pos == FieldIndex(fields, tag)
    {
      if |fields| == 0 {
        return false;
      }
      var start := pos;
      ghost var steps: nat := 0;
      while true
        invariant Valid() && steps < |fields|
        invariant pos == if start + steps < |fields| then start + steps else start + steps - |fields|
        invariant forall j :: 0 <= j < |fields| && Passed(start, steps, j) ==> fields[j].tag != tag
        decreases |fields| - steps
      {
        if fields[pos].tag == tag {
          return true;
        }
        var _ := Next();
        steps := steps + 1;
        if pos == start {
          return false;
        }
      }
    }

    /** The positions looked at in the first `steps` steps. */
    predicate Passed(start: nat, steps: nat, j: nat) {
      (start <= j < start + steps) || j + |fields| < start + steps
    }

  }

  // ------------------------------------------------------------------------
  // The set of required fields met

  ghost predicate MetRequired(fields: seq<Field>, seen: set<nat>, r: nat) {
    exists k: nat :: k in seen && k < |fields| && fields[k].htype.Required? && RequiredBefore(fields, k) == r
  }

  /** Bit `r` says whether the required field number `r` was met. */
  ghost predicate BitsAgree(fields: seq<Field>, seen: set<nat>, bits: seq<bool>) {
    |bits| == MAX_REQUIRED && forall r: nat :: r < MAX_REQUIRED ==> bits[r] == MetRequired(fields, seen, r)
  }

  predicate WordsHold(words: seq<nat>, bits: seq<bool>)
    requires |bits| == MAX_REQUIRED
  {
    |words| == 2 && words[0] == WordOf(bits[..32]) && words[1] == WordOf(bits[32..])
  }

  lemma {:induction false} RequiredAscends(fields: seq<Field>, j: nat, k: nat)
    requires j < k <= |fields| && fields[j].htype.Required?
    ensures RequiredBefore(fields, j) < RequiredBefore(fields, k)
  {
    if j + 1 < k { RequiredAscends(fields, j, k - 1); }
  }

  /** The required fields are numbered without gaps. */
  lemma {:induction false} NthRequired(fields: seq<Field>, n: nat, r: nat) returns (k: nat)
    requires n <= |fields| && r < RequiredBefore(fields, n)
    ensures k < n && fields[k].htype.Required? && RequiredBefore(fields, k) == r
  {
    if fields[n - 1].htype.Required? && RequiredBefore(fields, n - 1) == r {
      k := n - 1;
    } else {
      k := NthRequired(fields, n - 1, r);
    }
  }

  /** All of the first 64 required fields were met exactly when their bits are set; no other bit is. */
  lemma SeenIsBits(fields: seq<Field>, seen: set<nat>, bits: seq<bool>)
    requires BitsAgree(fields, seen, bits)
    ensures RequiredSeen(fields, seen)
            <==> forall r :: 0 <= r < MAX_REQUIRED && r < RequiredBefore(fields, |fields|) ==> bits[r]
    ensures forall r: nat :: r < MAX_REQUIRED && r >= RequiredBefore(fields, |fields|) ==> !bits[r]
  {
    var total := RequiredBefore(fields, |fields|);
    forall r: nat | r < MAX_REQUIRED && r >= total ensures !bits[r] {
      forall k: nat | k < |fields| && fields[k].htype.Required? ensures RequiredBefore(fields, k) != r {
        RequiredAscends(fields, k, |fields|);
      }
    }
    if RequiredSeen(fields, seen) {
      forall r: nat | r < MAX_REQUIRED && r < total ensures bits[r] {
        var k := NthRequired(fields, |fields|, r);
        assert k in seen;
      }
    }
    if forall r :: 0 <= r < MAX_REQUIRED && r < total ==> bits[r] {
      forall k | 0 <= k < |fields| && fields[k].htype.Required? && RequiredBefore(fields, k) < MAX_REQUIRED ensures k in seen {
        RequiredAscends(fields, k, |fields|);
        assert MetRequired(fields, seen, RequiredBefore(fields, k));
        SameNumber(fields, seen, k);
      }
    }
  }

  lemma SameNumber(fields: seq<Field>, seen: set<nat>, k: nat)
    requires k < |fields| && fields[k].htype.Required? && MetRequired(fields, seen, RequiredBefore(fields, k))
    ensures k in seen
  {
    var j: nat :| j in seen && j < |fields| && fields[j].htype.Required? && RequiredBefore(fields, j) == RequiredBefore(fields, k);
    var low, high := if j < k then j else k, if j < k then k else j;
    if low < high { RequiredAscends(fields, low, high); }
  }

  /** The tags that the decoding loop reads, in order. */
  function TagsRead(fields: seq<Field>, slots: seq<Slot>, input: Bytes): seq<nat>
    requires |fields| == |slots|
    decreases |input|
  {
    if |input| == 0 then []
    else
      match DecodeVarint32(input)
      case None => []
      case Some(p) =>
        if p.value == 0 then []
        else
          var k := FieldIndex(fields, p.value / 8);
          [p.value / 8] +
          if k == |fields| then
            (match SkipField(p.value % 8, p.rest)
             case None => []
             case Some(rest) => TagsRead(fields, slots, rest))
          else
            match DecodeField(fields, slots, k, p.value % 8, p.rest)
            case None => []
            case Some(q) => TagsRead(fields, q.value, q.rest)
  }

  /** The fields seen are those whose tags were read. */
  lemma {:induction false} SeenAreTags(fields: seq<Field>, slots: seq<Slot>, seen: set<nat>, input: Bytes, k: nat)
    requires TableOk(fields) && |fields| == |slots| && k < |fields|
    requires DecodeFields(fields, slots, seen, input).Some?
    ensures k in DecodeFields(fields, slots, seen, input).value.seen
            <==> k in seen || fields[k].tag in TagsRead(fields, slots, input)
    decreases |input|
  {
    hide DecodeField;
    hide SkipField;
    if |input| > 0 {
      var p := DecodeVarint32(input).value;
      if p.value != 0 {
        var j := FieldIndex(fields, p.value / 8);
        if j == |fields| {
          SeenAreTags(fields, slots, seen, SkipField(p.value % 8, p.rest).value, k);
        } else {
          var q := DecodeField(fields, slots, j, p.value % 8, p.rest).value;
          SeenAreTags(fields, q.value, seen + {j}, q.rest, k);
          assert fields[k].tag == p.value / 8 <==> k == j;
        }
      }
    }
  }

  /** Decoding succeeds exactly when the fields decode and each of the first 64 required ones occurs. */
  lemma RequiredFieldsOccur(fields: seq<Field>, slots: seq<Slot>, input: Bytes)
    requires TableOk(fields) && |fields| == |slots|
    ensures DecodeMessage(fields, slots, input).Some?
            <==> DecodeFields(fields, slots, {}, input).Some?
                 && forall k :: 0 <= k < |fields| && fields[k].htype.Required? && RequiredBefore(fields, k) < MAX_REQUIRED ==>
                      fields[k].tag in TagsRead(fields, slots, input)
  {
    hide DecodeFields;
    hide TagsRead;
    if DecodeFields(fields, slots, {}, input).Some? {
      forall k | 0 <= k < |fields|
        ensures k in DecodeFields(fields, slots, {}, input).value.seen <==> fields[k].tag in TagsRead(fields, slots, input)
      {
        SeenAreTags(fields, slots, {}, input, k);
      }
    }
  }

  /** Sets the bit of required field `index`. */
  method MarkSeen(words: seq<nat>, index: nat, ghost bits: seq<bool>) returns (words': seq<nat>)
    requires |bits| == MAX_REQUIRED && WordsHold(words, bits) && index < MAX_REQUIRED
    ensures WordsHold(words', bits[index := true])
  {
    var i := index / 32;
    words' := words[i := SetBit(words[i], index % 32)];
    if i == 0 {
      SetBitSets(bits[..32], index);
      assert bits[index := true][..32] == bits[..32][index := true] && bits[index := true][32..] == bits[32..];
    } else {
      SetBitSets(bits[32..], index - 32);
      assert bits[index := true][32..] == bits[32..][index - 32 := true] && bits[index := true][..32] == bits[..32];
    }
  }

  ghost predicate AllSet(bits: seq<bool>, n: nat)
    requires n <= |bits|
  {
    forall r :: 0 <= r < n ==> bits[r]
  }

  /** Whole words against all ones, the remaining bits against a shorter mask. */
  method CheckWords(words: seq<nat>, count: nat, ghost bits: seq<bool>) returns (ok: bool)
    requires |bits| == MAX_REQUIRED && WordsHold(words, bits) && count <= MAX_REQUIRED
    requires forall r :: count <= r < MAX_REQUIRED ==> !bits[r]
    ensures ok <==> AllSet(bits, count)
  {
    hide WordsHold;
    hide AllSet;
    Masks();
    WordsTell(words, bits, count);
    var i := 0;
    while i < count / 32
      invariant i <= count / 32
      invariant forall j :: 0 <= j < i ==> words[j] == ALL_BITS
    {
      if words[i] != ALL_BITS {
        assert BitsIn(i, count) == 32 && !WordFull(words, i, count);
        return false;
      }
      i := i + 1;
    }
    ok := count % 32 == 0 || words[count / 32] == ALL_BITS / Pow2(32 - count % 32);
    if count % 32 != 0 {
      assert BitsIn(count / 32, count) == count % 32;
      assert ok <==> WordFull(words, count / 32, count);
    }
    assert forall j :: 0 <= j < count / 32 ==> BitsIn(j, count) == 32 && WordFull(words, j, count);
  }

  /** Word `w` equals its mask. */
  predicate WordFull(words: seq<nat>, w: nat, count: nat)
    requires w < |words|
  {
    words[w] == Pow2(BitsIn(w, count)) - 1
  }

  lemma WordsTell(words: seq<nat>, bits: seq<bool>, count: nat)
    requires |bits| == MAX_REQUIRED && WordsHold(words, bits) && count <= MAX_REQUIRED
    requires forall r :: count <= r < MAX_REQUIRED ==> !bits[r]
    ensures |words| == 2
    ensures AllSet(bits, count) <==> WordFull(words, 0, count) && WordFull(words, 1, count)
    ensures forall w :: 0 <= w < 2 && BitsIn(w, count) == 0 ==> WordFull(words, w, count)
  {
    hide WordOf;
    hide Pow2;
    WordTells(bits, 0, count);
    WordTells(bits, 1, count);
  }

  /** How many of the first `count` bits fall into word `w`. */
  function BitsIn(w: nat, count: nat): nat {
    if count <= 32 * w then 0 else if count >= 32 * w + 32 then 32 else count - 32 * w
  }

  function Half(bits: seq<bool>, w: nat): (r: seq<bool>)
    requires |bits| == MAX_REQUIRED && w < 2
    ensures |r| == 32
  {
    if w == 0 then bits[..32] else bits[32..]
  }

  lemma WordTells(bits: seq<bool>, w: nat, count: nat)
    requires |bits| == MAX_REQUIRED && w < 2 && count <= MAX_REQUIRED
    requires forall r :: count <= r < MAX_REQUIRED ==> !bits[r]
    ensures WordOf(Half(bits, w)) == Pow2(BitsIn(w, count)) - 1 <==> forall r :: 32 * w <= r < 32 * w + 32 && r < count ==> bits[r]
  {
    var half, n := Half(bits, w), BitsIn(w, count);
    MaskTells(half, n);
    assert forall k :: 0 <= k < 32 ==> half[k] == bits[32 * w + k];
    if forall r :: 32 * w <= r < 32 * w + 32 && r < count ==> bits[r] {
      forall k | 0 <= k < 32 ensures half[k] == (k < n) {}
    }
    if forall k :: 0 <= k < 32 ==> half[k] == (k < n) {
      forall r | 32 * w <= r < 32 * w + 32 && r < count ensures bits[r] {
        assert half[r - 32 * w] == bits[r];
      }
    }
  }

  // ------------------------------------------------------------------------
  // The decoding loop

  /** What is left of the loop from here on. */
  ghost function Rest(fields: seq<Field>, slots: seq<Slot>, seen: set<nat>, input: Bytes): Option<seq<Slot>>
    requires |fields| == |slots|
  {
    match DecodeFields(fields, slots, seen, input)
    case None => None
    case Some(d) => if RequiredSeen(fields, d.seen) then Some(d.slots) else None
  }

  /** A packed array: items until the substream or the array is used up. */
  method DecodeItems(t: LType, body: Bytes, before: seq<Value>, arraySize: nat) returns (r: Option<seq<Value>>)
    requires Packable(t)
    ensures r == DecodePacked(t, body, before, arraySize)
  {
    hide DecodeScalar;
    var stream, items := body, before;
    while |stream| > 0 && |items| < arraySize
      invariant DecodePacked(t, body, before, arraySize) == DecodePacked(t, stream, items, arraySize)
      decreases |stream|
    {
      var p := DecodeScalar(t, stream);
      if p.None? {
        return None;
      }
      stream, items := p.value.rest, items + [p.value.value];
    }
    r := if |stream| > 0 then None else Some(items);
  }

  /** A submessage goes through the stream loop again, on its own substream. */
  method DecodeAnyValue(t: LType, before: Value, anew: bool, input: Bytes) returns (r: Option<Parsed<Value>>)
    requires TypeOk(t)
    ensures r == DecodeValue(t, before, anew, input)
    decreases |input|, 0
  {
    if t.SubmessageT? {
      var s := TakeSubstream(input);
      if s.None? {
        return None;
      }
      var start := if anew || !before.Msg? || |before.slots| != |t.fields| then DefaultMessage(t.fields) else before.slots;
      var m := PbDecodeNoinit(t.fields, start, s.value.body);
      r := if m.None? then None else Some(Parsed(Msg(m.value), s.value.rest));
    } else {
      r := DecodeScalar(t, input);
    }
  }

  method DecodeStaticField(fields: seq<Field>, slots: seq<Slot>, k: nat, wire: nat, input: Bytes)
    returns (r: Option<Parsed<seq<Slot>>>)
    requires k < |fields| == |slots| && TableOk(fields)
    ensures r == DecodeField(fields, slots, k, wire, input)
    decreases |input|, 1
  {
    hide DecodeValue;
    hide DecodePacked;
    hide TakeSubstream;
    var f := fields[k];
    assert FieldOk(f);
    if f.htype.Repeated? && wire == 2 && Packable(f.ltype) {
      var s := TakeSubstream(input);
      if s.None? {
        return None;
      }
      var vs := DecodeItems(f.ltype, s.value.body, OldItems(slots[k]), f.htype.arraySize);
      return if vs.None? then None else Some(Parsed(slots[k := Many(vs.value)], s.value.rest));
    }
    if f.htype.Repeated? && |OldItems(slots[k])| >= f.htype.arraySize {
      return None;
    }
    var p := DecodeAnyValue(f.ltype, OldValue(slots[k], f.ltype), f.htype.Repeated? || f.htype.OneOf?, input);
    if p.None? {
      return None;
    }
    match f.htype
    case Required => r := Some(Parsed(slots[k := Plain(p.value.value)], p.value.rest));
    case Singular => r := Some(Parsed(slots[k := Plain(p.value.value)], p.value.rest));
    case Optional => r := Some(Parsed(slots[k := Opt(true, p.value.value)], p.value.rest));
    case Repeated(_) => r := Some(Parsed(slots[k := Many(OldItems(slots[k]) + [p.value.value])], p.value.rest));
    case OneOf(_) => r := Some(Parsed(Choose(fields, slots, k, p.value.value), p.value.rest));
  }

  method PbDecodeNoinit(fields: seq<Field>, slots: seq<Slot>, input: Bytes) returns (r: Option<seq<Slot>>)
    requires TableOk(fields) && |slots| == |fields|
    ensures r == DecodeMessage(fields, slots, input)
    decreases |input|, 3
  {
    var iter := new FieldIter(fields);
    var words: seq<nat> := [0, 0];
    var stream, now, ended := input, slots, false;
    ghost var seen: set<nat> := {};
    ghost var bits: seq<bool> := seq(MAX_REQUIRED, _ => false);
    NothingSeen(fields, bits);
    hide DecodeFields;
    hide DecodeField;
    hide TableOk;
    hide WordsHold;
    hide BitsAgree;
    hide RequiredSeen;
    while stream != [] && !ended
      invariant fresh(iter) && iter.Valid() && iter.fields == fields && |now| == |fields|
      invariant |stream| <= |input|
      invariant BitsAgree(fields, seen, bits) && |bits| == MAX_REQUIRED && WordsHold(words, bits)
      invariant DecodeMessage(fields, slots, input)
                == if ended then (if RequiredSeen(fields, seen) then Some(now) else None) else Rest(fields, now, seen, stream)
      decreases !ended, |stream|
    {
      var tag := DecodeVarint32(stream);
      if tag.None? {
        return None;
      }
      if tag.value.value == 0 {
        ended := true;
      } else if |fields| == 0 && tag.value.value / 8 == 0 {
        return None;
      } else {
        var found := iter.Find(tag.value.value / 8);
        if !found {
          var rest := SkipField(tag.value.value % 8, tag.value.rest);
          if rest.None? {
            return None;
          }
          stream := rest.value;
        } else {
          words, bits := MeetRequired(iter, seen, words, bits);
          var q := DecodeStaticField(fields, now, iter.pos, tag.value.value % 8, tag.value.rest);
          seen := seen + {iter.pos};
          if q.None? {
            return None;
          }
          now, stream := q.value.value, q.value.rest;
        }
      }
    }
    if !ended { AtEnd(fields, now, seen); }
    var ok := CheckRequired(iter, seen, words, bits);
    r := if ok then Some(now) else None;
  }

  lemma NothingSeen(fields: seq<Field>, bits: seq<bool>)
    requires bits == seq(MAX_REQUIRED, _ => false)
    ensures BitsAgree(fields, {}, bits) && WordsHold([0, 0], bits)
  {
    assert Pow2(0) == 1;
    MaskTells(bits[..32], 0);
    MaskTells(bits[32..], 0);
  }

  lemma AtEnd(fields: seq<Field>, now: seq<Slot>, seen: set<nat>)
    requires |now| == |fields|
    ensures Rest(fields, now, seen, []) == if RequiredSeen(fields, seen) then Some(now) else None
  {}

  method MeetRequired(iter: FieldIter, ghost seen: set<nat>, words: seq<nat>, ghost bits: seq<bool>)
    returns (words': seq<nat>, ghost bits': seq<bool>)
    requires iter.Valid() && iter.pos < |iter.fields|
    requires BitsAgree(iter.fields, seen, bits) && |bits| == MAX_REQUIRED && WordsHold(words, bits)
    ensures |bits'| == MAX_REQUIRED && BitsAgree(iter.fields, seen + {iter.pos}, bits') && WordsHold(words', bits')
  {
    words', bits' := words, bits;
    if iter.fields[iter.pos].htype.Required? && iter.requiredIndex < MAX_REQUIRED {
      words' := MarkSeen(words, iter.requiredIndex, bits);
      bits' := bits[iter.requiredIndex := true];
    }
  }

  /** Runs to the end of the table to count the required fields, then checks the bits. */
  method CheckRequired(iter: FieldIter, ghost seen: set<nat>, words: seq<nat>, ghost bits: seq<bool>) returns (ok: bool)
    requires iter.Valid() && BitsAgree(iter.fields, seen, bits) && |bits| == MAX_REQUIRED && WordsHold(words, bits)
    modifies iter
    ensures ok == RequiredSeen(iter.fields, seen)
  {
    SeenIsBits(iter.fields, seen, bits);
    var count := iter.requiredIndex;
    var lastRequired := |iter.fields| > 0 && iter.fields[iter.pos].htype.Required?;
    var more := iter.Next();
    while more
      invariant iter.Valid()
      invariant if more then 0 < iter.pos < |iter.fields|
                else count + (if lastRequired then 1 else 0) == RequiredBefore(iter.fields, |iter.fields|)
      decreases more, |iter.fields| - iter.pos
    {
      count := iter.requiredIndex;
      lastRequired := iter.fields[iter.pos].htype.Required?;
      more := iter.Next();
    }
    if lastRequired {
      count := count + 1;
    }
    if count > MAX_REQUIRED {
      count := MAX_REQUIRED;
    }
    ok := CheckWords(words, count, bits);
  }
}
