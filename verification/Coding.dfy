/**
 Byte-level coding shared by the log, the write batch, the version edit and the block:
 little-endian fixed-width numbers, base-128 varints and length-prefixed byte strings.
 */
module Coding {
  import opened Entries

  type byte = x: int | 0 <= x < 256
  type Bytes = seq<byte>
  type Word = w: Bytes | |w| == 4 witness [0, 0, 0, 0]

  const TWO_32: nat := 0x1_0000_0000
  const TWO_64: nat := 0x1_0000_0000_0000_0000

  // ------------------------------------------------------------------------
  // Fixed width

  function Pow256(n: nat): (p: nat)
    ensures p > 0
  {
    if n == 0 then 1 else 256 * Pow256(n - 1)
  }

  lemma Widths()
    ensures Pow256(4) == TWO_32 && Pow256(8) == TWO_64
  {
    assert Pow256(2) == 65536 && Pow256(4) == 65536 * Pow256(2) && Pow256(8) == 65536 * Pow256(6);
    assert Pow256(6) == 65536 * Pow256(4);
  }

  function Fixed(v: nat, n: nat): (b: Bytes)
    ensures |b| == n
  {
    if n == 0 then [] else [v % 256] + Fixed(v / 256, n - 1)
  }

  function FixedValue(b: Bytes): (v: nat)
    ensures v < Pow256(|b|)
  {
    if |b| == 0 then 0 else b[0] + 256 * FixedValue(b[1..])
  }

  lemma {:induction false} FixedRoundTrip(v: nat, n: nat)
    requires v < Pow256(n)
    ensures FixedValue(Fixed(v, n)) == v
  {
    if n > 0 {
      FixedRoundTrip(v / 256, n - 1);
      assert Fixed(v, n)[1..] == Fixed(v / 256, n - 1);
    }
  }

  lemma Fixed32(v: nat)
    requires v < TWO_32
    ensures FixedValue(Fixed(v, 4)) == v
  {
    Widths();
    FixedRoundTrip(v, 4);
  }

  lemma Fixed64(v: nat)
    requires v < TWO_64
    ensures FixedValue(Fixed(v, 8)) == v
  {
    Widths();
    FixedRoundTrip(v, 8);
  }

  // ------------------------------------------------------------------------
  // Varints

  function Varint(v: nat): (b: Bytes)
    ensures |b| > 0
  {
    if v < 128 then [v] else [v % 128 + 128] + Varint(v / 128)
  }

  datatype Parsed<+T> = Parsed(value: T, rest: Bytes)

  /** Takes a varint of at most `n` bytes off the front. */
  function TakeVarint(input: Bytes, n: nat): (r: Option<Parsed<nat>>)
    ensures r.Some? ==> |r.value.rest| < |input|
  {
    if n == 0 || |input| == 0 then None
    else if input[0] < 128 then Some(Parsed(input[0], input[1..]))
    else
      match TakeVarint(input[1..], n - 1)
      case None => None
      case Some(p) => Some(Parsed(input[0] - 128 + 128 * p.value, p.rest))
  }

  function Pow128(n: nat): (p: nat)
    ensures p > 0
  {
    if n == 0 then 1 else 128 * Pow128(n - 1)
  }

  lemma VarintWidths()
    ensures TWO_32 <= Pow128(5) && TWO_64 <= Pow128(10)
  {
    assert Pow128(2) == 16384 && Pow128(4) == 16384 * Pow128(2);
    assert Pow128(6) == 16384 * Pow128(4) && Pow128(8) == 16384 * Pow128(6) && Pow128(10) == 16384 * Pow128(8);
  }

  lemma FewerGroups(v: nat, n: nat)
    requires n > 0 && 128 <= v < Pow128(n)
    ensures n > 1 && v / 128 < Pow128(n - 1)
  {}

  lemma {:induction false} VarintRoundTrip(v: nat, n: nat, rest: Bytes)
    requires n > 0 && v < Pow128(n)
    ensures TakeVarint(Varint(v) + rest, n) == Some(Parsed(v, rest))
  {
    if v < 128 {
      assert (Varint(v) + rest)[1..] == rest;
    } else {
      FewerGroups(v, n);
      hide Pow128;
      VarintRoundTrip(v / 128, n - 1, rest);
      assert (Varint(v) + rest)[1..] == Varint(v / 128) + rest;
    }
  }

  /** The five cases of the 32-bit encoder are one recursion. */
  method EncodeVarint32(v: nat) returns (b: Bytes)
    requires v < TWO_32
    ensures b == Varint(v)
  {
    Shifts(v);
    if v < 0x80 {
      b := [v];
    } else if v < 0x4000 {
      b := [v % 128 + 128, v / 0x80];
      Split2(v);
    } else if v < 0x20_0000 {
      b := [v % 128 + 128, v / 0x80 % 128 + 128, v / 0x4000];
      Split3(v);
    } else if v < 0x1000_0000 {
      b := [v % 128 + 128, v / 0x80 % 128 + 128, v / 0x4000 % 128 + 128, v / 0x20_0000];
      Split4(v);
    } else {
      b := [v % 128 + 128, v / 0x80 % 128 + 128, v / 0x4000 % 128 + 128, v / 0x20_0000 % 128 + 128, v / 0x1000_0000];
      Split5(v);
    }
  }

  lemma Shifts(v: nat)
    ensures v / 0x4000 == v / 0x80 / 128
    ensures v / 0x20_0000 == v / 0x4000 / 128
    ensures v / 0x1000_0000 == v / 0x20_0000 / 128
  {}

  lemma Split2(v: nat)
    requires 128 <= v < 0x4000
    ensures Varint(v) == [v % 128 + 128, v / 128]
  {}

  lemma Split3(v: nat)
    requires 0x4000 <= v < 0x20_0000
    ensures Varint(v) == [v % 128 + 128, v / 0x80 % 128 + 128, v / 0x4000]
  {
    Shifts(v);
    Split2(v / 128);
    assert Varint(v) == [v % 128 + 128] + Varint(v / 128);
  }

  lemma Split4(v: nat)
    requires 0x20_0000 <= v < 0x1000_0000
    ensures Varint(v) == [v % 128 + 128, v / 0x80 % 128 + 128, v / 0x4000 % 128 + 128, v / 0x20_0000]
  {
    Shifts(v);
    Shifts(v / 128);
    Split3(v / 128);
    assert Varint(v) == [v % 128 + 128] + Varint(v / 128);
  }

  lemma Split5(v: nat)
    requires 0x1000_0000 <= v < TWO_32
    ensures Varint(v) == [v % 128 + 128, v / 0x80 % 128 + 128, v / 0x4000 % 128 + 128, v / 0x20_0000 % 128 + 128, v / 0x1000_0000]
  {
    Shifts(v);
    Shifts(v / 128);
    Split4(v / 128);
    assert Varint(v) == [v % 128 + 128] + Varint(v / 128);
  }

  method EncodeVarint64(v: nat) returns (b: Bytes)
    ensures b == Varint(v)
  {
    b := [];
    var w := v;
    while w >= 128
      invariant b + Varint(w) == Varint(v)
    {
      assert b + Varint(w) == (b + [w % 128 + 128]) + Varint(w / 128);
      b := b + [w % 128 + 128];
      w := w / 128;
    }
    b := b + [w];
  }

  /** The decoding loop: at most `n` bytes, each contributing seven bits. */
  method DecodeVarint(input: Bytes, n: nat) returns (r: Option<Parsed<nat>>)
    ensures r == TakeVarint(input, n)
  {
    hide TakeVarint;
    hide Scaled;
    hide AddSeven;
    var result: nat, scale: nat, i: nat := 0, 1, 0;
    assert input[0..] == input;
    NotScaled(TakeVarint(input, n));
    while i < n && i < |input|
      invariant i <= n && i <= |input| && scale > 0
      invariant TakeVarint(input, n) == Scaled(result, scale, TakeVarint(input[i..], n - i))
    {
      var b := input[i];
      TakeStep(input, n, i);
      if b < 128 {
        LastScaled(result, scale, b, input[i + 1..]);
        return Some(Parsed(result + scale * b, input[i + 1..]));
      }
      ScaledStep(result, scale, b, TakeVarint(input[i + 1..], n - i - 1));
      result := result + scale * (b - 128);
      scale := scale * 128;
      i := i + 1;
    }
    TakeEnds(input, n, i);
    NoneScaled(result, scale);
    r := None;
  }

  lemma TakeStep(input: Bytes, n: nat, i: nat)
    requires i < n && i < |input|
    ensures TakeVarint(input[i..], n - i)
            == if input[i] < 128 then Some(Parsed(input[i], input[i + 1..]))
               else AddSeven(input[i], TakeVarint(input[i + 1..], n - i - 1))
  {
    assert input[i..][1..] == input[i + 1..];
  }

  lemma TakeEnds(input: Bytes, n: nat, i: nat)
    requires i <= n && i <= |input| && (i == n || i == |input|)
    ensures TakeVarint(input[i..], n - i) == None
  {}

  ghost function Scaled(result: nat, scale: nat, r: Option<Parsed<nat>>): Option<Parsed<nat>> {
    if r.Some? then Some(Parsed(result + scale * r.value.value, r.value.rest)) else None
  }

  ghost function AddSeven(b: byte, tail: Option<Parsed<nat>>): Option<Parsed<nat>>
    requires b >= 128
  {
    if tail.Some? then Some(Parsed(b - 128 + 128 * tail.value.value, tail.value.rest)) else None
  }

  lemma NotScaled(r: Option<Parsed<nat>>)
    ensures Scaled(0, 1, r) == r
  {}

  lemma LastScaled(result: nat, scale: nat, b: byte, rest: Bytes)
    ensures Scaled(result, scale, Some(Parsed(b, rest))) == Some(Parsed(result + scale * b, rest))
  {}

  lemma NoneScaled(result: nat, scale: nat)
    ensures Scaled(result, scale, None) == None
  {}

  lemma ScaledStep(result: nat, scale: nat, b: byte, tail: Option<Parsed<nat>>)
    requires b >= 128
    ensures scale * (b - 128) >= 0
    ensures Scaled(result, scale, AddSeven(b, tail))
            == Scaled(result + scale * (b - 128), scale * 128, tail)
  {
    if tail.Some? {
      var t := tail.value.value;
      assert scale * (b - 128 + 128 * t) == scale * (b - 128) + scale * (128 * t);
      assert scale * (128 * t) == (scale * 128) * t;
    }
  }

  function TakeVarint32(input: Bytes): (r: Option<Parsed<nat>>)
    ensures r.Some? ==> |r.value.rest| < |input|
  {
    match TakeVarint(input, 5)
    case None => None
    case Some(p) => Some(Parsed(p.value % TWO_32, p.rest))
  }

  function TakeVarint64(input: Bytes): (r: Option<Parsed<nat>>)
    ensures r.Some? ==> |r.value.rest| < |input|
  {
    match TakeVarint(input, 10)
    case None => None
    case Some(p) => Some(Parsed(p.value % TWO_64, p.rest))
  }

  lemma Varint32RoundTrip(v: nat, rest: Bytes)
    requires v < TWO_32
    ensures TakeVarint32(Varint(v) + rest) == Some(Parsed(v, rest))
  {
    hide Varint;
    hide TakeVarint;
    hide Pow128;
    VarintWidths();
    VarintRoundTrip(v, 5, rest);
  }

  lemma Varint64RoundTrip(v: nat, rest: Bytes)
    requires v < TWO_64
    ensures TakeVarint64(Varint(v) + rest) == Some(Parsed(v, rest))
  {
    hide Varint;
    hide TakeVarint;
    hide Pow128;
    VarintWidths();
    VarintRoundTrip(v, 10, rest);
  }

  // ------------------------------------------------------------------------
  // Length-prefixed byte strings

  function Prefixed(s: Bytes): (b: Bytes)
    ensures |b| > |s|
  {
    Varint(|s|) + s
  }

  function TakePrefixed(input: Bytes): (r: Option<Parsed<Bytes>>)
    ensures r.Some? ==> |r.value.rest| < |input|
  {
    match TakeVarint32(input)
    case None => None
    case Some(p) =>
      if |p.rest| >= p.value then Some(Parsed(p.rest[..p.value], p.rest[p.value..])) else None
  }

  lemma PrefixedRoundTrip(s: Bytes, rest: Bytes)
    requires |s| < TWO_32
    ensures TakePrefixed(Prefixed(s) + rest) == Some(Parsed(s, rest))
  {
    assert Prefixed(s) + rest == Varint(|s|) + (s + rest);
    Varint32RoundTrip(|s|, s + rest);
    assert (s + rest)[..|s|] == s && (s + rest)[|s|..] == rest;
  }

  // ------------------------------------------------------------------------
  // Prefixes

  function CommonPrefix(a: Bytes, b: Bytes): (n: nat)
    ensures n <= |a| && n <= |b| && a[..n] == b[..n]
    ensures n < |a| && n < |b| ==> a[n] != b[n]
  {
    if |a| == 0 || |b| == 0 || a[0] != b[0] then 0
    else
      var n := CommonPrefix(a[1..], b[1..]);
      assert a[..n + 1] == [a[0]] + a[1..][..n] && b[..n + 1] == [b[0]] + b[1..][..n];
      n + 1
  }
}
