/**
 Bloom filters: a key put into a filter is never reported absent.
 */
module Bloom {
  import opened Bits
  import opened Coding

  /** The hash function, and the number of bits per key. */
  datatype Policy = Policy(hash: Bytes -> nat, bitsPerKey: nat)

  const MAX_PROBES: nat := 30

  function Probes(p: Policy): (k: nat)
    ensures 1 <= k <= MAX_PROBES
  {
    var k := p.bitsPerKey * 69 / 100;
    if k < 1 then 1 else if k > MAX_PROBES then MAX_PROBES else k
  }

  function Hash(p: Policy, key: Bytes): (h: nat)
    ensures h < TWO_32
  {
    p.hash(key) % TWO_32
  }

  /** Rotation of a 32-bit word by 17 bits to the right. */
  function Delta(h: nat): nat {
    h / 0x2_0000 + h % 0x2_0000 * 0x8000
  }

  /** The hash value at probe `j`. */
  function ProbeHash(h: nat, j: nat): nat {
    if j == 0 then h else (ProbeHash(h, j - 1) + Delta(h)) % TWO_32
  }

  function Size(p: Policy, n: nat): (bytes: nat)
    ensures bytes >= 8
  {
    var bits := if n * p.bitsPerKey < 64 then 64 else n * p.bitsPerKey;
    (bits + 7) / 8
  }

  /** Bit number `pos` of an array of bytes. */
  predicate BitIn(array_: seq<byte>, pos: nat)
    requires pos / 8 < |array_|
  {
    BitAt(array_[pos / 8], pos % 8)
  }

  lemma ProbeInArray(h: nat, n: nat)
    requires n > 0
    ensures h % (8 * n) / 8 < n
  {}

  ghost predicate BitAtProbe(a: seq<byte>, h: nat, j: nat)
    requires |a| > 0
  {
    ProbeInArray(ProbeHash(h, j), |a|);
    BitIn(a, ProbeHash(h, j) % (8 * |a|))
  }

  /** The first `k` probes of a hash value all hit. */
  ghost predicate Hits(array_: seq<byte>, h: nat, k: nat)
    requires |array_| > 0
  {
    forall j :: 0 <= j < k ==> BitAtProbe(array_, h, j)
  }

  /** What the filter says of a key. */
  ghost predicate MayMatch(p: Policy, key: Bytes, filter: Bytes) {
    if |filter| < 2 then false
    else
      var k := filter[|filter| - 1];
      k > MAX_PROBES || Hits(filter[..|filter| - 1], Hash(p, key), k)
  }

  method KeyMayMatch(p: Policy, key: Bytes, filter: Bytes) returns (r: bool)
    ensures r == MayMatch(p, key, filter)
  {
    var len := |filter|;
    if len < 2 {
      return false;
    }
    var bits := (len - 1) * 8;
    var k := filter[len - 1];
    if k > MAX_PROBES {
      return true;
    }
    var h := Hash(p, key);
    var delta := Delta(h);
    var g := h;
    var j := 0;
    while j < k
      invariant j <= k && g == ProbeHash(h, j)
      invariant Hits(filter[..len - 1], h, j)
    {
      var bitpos := g % bits;
      if !BitAt(filter[bitpos / 8], bitpos % 8) {
        assert !BitAtProbe(filter[..len - 1], h, j);
        return false;
      }
      g := (g + delta) % TWO_32;
      j := j + 1;
    }
    r := true;
  }

  /** Setting a bit of the array keeps every bit that is set. */
  lemma SetKeeps(a: seq<byte>, pos: nat, x: byte, other: nat)
    requires pos / 8 < |a| && other / 8 < |a| && x == SetBit(a[pos / 8], pos % 8)
    ensures BitIn(a[pos / 8 := x], other) <==> other == pos || BitIn(a, other)
  {
    SetBitAt(a[pos / 8], pos % 8, pos % 8);
    SetBitAt(a[pos / 8], pos % 8, other % 8);
  }

  /** `b` has the bits of `a` and those of the first `k` probes. */
  ghost predicate Adds(a: seq<byte>, b: seq<byte>, h: nat, k: nat) {
    && |a| == |b| > 0
    && forall pos: nat :: pos / 8 < |a| ==> (BitIn(b, pos) <==> BitIn(a, pos) || Probed(h, k, 8 * |a|, pos))
  }

  lemma OneMoreProbe(a: seq<byte>, b: seq<byte>, c: seq<byte>, h: nat, k: nat)
    requires Adds(a, b, h, k) && |c| == |b|
    requires forall pos: nat :: pos / 8 < |b| ==> (BitIn(c, pos) <==> pos == ProbeHash(h, k) % (8 * |a|) || BitIn(b, pos))
    ensures Adds(a, c, h, k + 1)
  {
    hide BitIn;
    hide ProbeHash;
    forall pos: nat | pos / 8 < |a|
      ensures Probed(h, k + 1, 8 * |a|, pos) <==> Probed(h, k, 8 * |a|, pos) || ProbeHash(h, k) % (8 * |a|) == pos
    {}
  }

  /** The bit is one of the first `k` probes of the hash value. */
  ghost predicate Probed(h: nat, k: nat, bits: nat, pos: nat)
    requires bits > 0
  {
    exists j :: 0 <= j < k && ProbeHash(h, j) % bits == pos
  }

  ghost predicate ProbedByAny(p: Policy, keys: seq<Bytes>, bits: nat, pos: nat)
    requires bits > 0
  {
    exists m :: 0 <= m < |keys| && Probed(Hash(p, keys[m]), Probes(p), bits, pos)
  }

  /** The bits set are those that some key probes, and no others. */
  ghost predicate BitsOf(p: Policy, keys: seq<Bytes>, a: seq<byte>)
    requires |a| > 0
  {
    forall pos: nat :: pos / 8 < |a| ==>
      (BitIn(a, pos) <==> ProbedByAny(p, keys, 8 * |a|, pos))
  }

  /** The filter of these keys: its bits, and the number of probes. */
  ghost predicate IsFilter(p: Policy, keys: seq<Bytes>, filter: Bytes) {
    && |filter| == Size(p, |keys|) + 1 && filter[|filter| - 1] == Probes(p)
    && BitsOf(p, keys, filter[..|filter| - 1])
  }

  /** So it admits its keys... */
  lemma FilterAdmitsKeys(p: Policy, keys: seq<Bytes>, filter: Bytes, i: nat)
    requires IsFilter(p, keys, filter) && i < |keys|
    ensures MayMatch(p, keys[i], filter)
  {
    var a := filter[..|filter| - 1];
    var bits := 8 * |a|;
    forall j | 0 <= j < Probes(p) ensures BitAtProbe(a, Hash(p, keys[i]), j) {
      ProbeInArray(ProbeHash(Hash(p, keys[i]), j), |a|);
      assert Probed(Hash(p, keys[i]), Probes(p), bits, ProbeHash(Hash(p, keys[i]), j) % bits);
    }
  }

  /** ...and another key exactly when each of its probes is one of theirs. */
  lemma FilterExact(p: Policy, keys: seq<Bytes>, filter: Bytes, key: Bytes)
    requires IsFilter(p, keys, filter)
    ensures MayMatch(p, key, filter)
            <==> forall j :: 0 <= j < Probes(p) ==>
                   ProbedByAny(p, keys, 8 * (|filter| - 1), ProbeHash(Hash(p, key), j) % (8 * (|filter| - 1)))
  {
    hide ProbedByAny;
    hide BitIn;
    var a := filter[..|filter| - 1];
    var h, bits := Hash(p, key), 8 * (|filter| - 1);
    assert bits == 8 * |a|;
    forall j | 0 <= j < Probes(p) ensures BitOfProbe(p, keys, a, h, j) { ProbeInArray(ProbeHash(h, j), |a|); }
    if MayMatch(p, key, filter) {
      forall j | 0 <= j < Probes(p) ensures ProbedByAny(p, keys, bits, ProbeHash(h, j) % bits) {
        assert BitOfProbe(p, keys, a, h, j);
      }
    } else {
      var j :| 0 <= j < Probes(p) && !BitAtProbe(a, h, j);
      assert BitOfProbe(p, keys, a, h, j);
      assert !ProbedByAny(p, keys, bits, ProbeHash(h, j) % bits);
    }
  }

  ghost predicate BitOfProbe(p: Policy, keys: seq<Bytes>, a: seq<byte>, h: nat, j: nat)
    requires |a| > 0
  {
    BitAtProbe(a, h, j) <==> ProbedByAny(p, keys, 8 * |a|, ProbeHash(h, j) % (8 * |a|))
  }

  method CreateFilter(p: Policy, keys: seq<Bytes>, dst: Bytes) returns (dst': Bytes)
    ensures |dst| <= |dst'| && dst'[..|dst|] == dst
    ensures IsFilter(p, keys, dst'[|dst|..])
    ensures forall i :: 0 <= i < |keys| ==> MayMatch(p, keys[i], dst'[|dst|..])
  {
    var bytes := Size(p, |keys|);
    var k := Probes(p);
    var a := new byte[bytes](_ => 0);
    NoBits(p, a[..]);
    var i := 0;
    while i < |keys|
      invariant i <= |keys| && BitsOf(p, keys[..i], a[..])
    {
      ghost var before := a[..];
      SetProbes(a, Hash(p, keys[i]), k);
      OneMoreKey(p, keys, i, before, a[..]);
      i := i + 1;
    }
    assert keys[..|keys|] == keys;
    var filter := a[..] + [k as byte];
    assert filter[..|filter| - 1] == a[..];
    dst' := dst + filter;
    assert dst'[|dst|..] == filter;
    forall m | 0 <= m < |keys| ensures MayMatch(p, keys[m], filter) { FilterAdmitsKeys(p, keys, filter, m); }
  }

  lemma NoBits(p: Policy, a: seq<byte>)
    requires |a| > 0 && forall i :: 0 <= i < |a| ==> a[i] == 0
    ensures BitsOf(p, [], a)
  {
    forall pos: nat | pos / 8 < |a| ensures !BitIn(a, pos) { ZeroBits(pos % 8); }
  }

  lemma {:induction false} ZeroBits(b: nat)
    ensures !BitAt(0, b)
  {
    if b > 0 { ZeroBits(b - 1); }
  }

  lemma OneMoreKey(p: Policy, keys: seq<Bytes>, i: nat, a: seq<byte>, b: seq<byte>)
    requires i < |keys| && |a| > 0 && BitsOf(p, keys[..i], a) && Adds(a, b, Hash(p, keys[i]), Probes(p))
    ensures BitsOf(p, keys[..i + 1], b)
  {
    hide Probed;
    hide BitIn;
    var less, more := keys[..i], keys[..i + 1];
    assert more[i] == keys[i] && forall m :: 0 <= m < i ==> more[m] == less[m];
    forall pos: nat | pos / 8 < |b|
      ensures BitIn(b, pos) <==> ProbedByAny(p, more, 8 * |b|, pos)
    {
      assert BitIn(b, pos) <==> BitIn(a, pos) || Probed(Hash(p, keys[i]), Probes(p), 8 * |a|, pos);
    }
  }

  /** Sets the bits of all probes of one hash value. */
  method SetProbes(a: array<byte>, h: nat, k: nat)
    requires a.Length > 0
    modifies a
    ensures Adds(old(a[..]), a[..], h, k)
  {
    var bits := a.Length * 8;
    var delta := Delta(h);
    var g := h;
    var j := 0;
    while j < k
      invariant j <= k && g == ProbeHash(h, j)
      invariant Adds(old(a[..]), a[..], h, j)
    {
      ghost var before := a[..];
      var bitpos := g % bits;
      var x := a[bitpos / 8];
      SetFits(x, bitpos % 8);
      a[bitpos / 8] := SetBit(x, bitpos % 8);
      OneSet(before, a[..], bitpos);
      OneMoreProbe(old(a[..]), before, a[..], h, j);
      g := (g + delta) % TWO_32;
      j := j + 1;
    }
  }

  lemma SetFits(x: byte, b: nat)
    requires b < 8
    ensures SetBit(x, b) < 256
  {
    assert Pow2(8) == 256;
    SetBitFits(x, b, 8);
  }

  lemma OneSet(a: seq<byte>, b: seq<byte>, pos: nat)
    requires pos / 8 < |a| == |b| && SetBit(a[pos / 8], pos % 8) < 256
    requires b == a[pos / 8 := SetBit(a[pos / 8], pos % 8)]
    ensures forall other: nat :: other / 8 < |a| ==> (BitIn(b, other) <==> other == pos || BitIn(a, other))
  {
    forall other: nat | other / 8 < |a| ensures BitIn(b, other) <==> other == pos || BitIn(a, other) {
      SetKeeps(a, pos, SetBit(a[pos / 8], pos % 8), other);
    }
  }
}
