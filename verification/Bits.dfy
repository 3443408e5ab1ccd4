/** Words as numbers: setting a bit, testing a bit, masks of ones. */
module Bits {

  /** The number whose bits these are, lowest first. */
  function WordOf(bits: seq<bool>): nat {
    if |bits| == 0 then 0 else (if bits[0] then 1 else 0) + 2 * WordOf(bits[1..])
  }

  function Pow2(n: nat): (p: nat)
    ensures p > 0
  {
    if n == 0 then 1 else 2 * Pow2(n - 1)
  }

  /** `word | (1 << b)`. */
  function SetBit(word: nat, b: nat): nat {
    if b == 0 then (if word % 2 == 0 then word + 1 else word) else word % 2 + 2 * SetBit(word / 2, b - 1)
  }

  /** `(word >> b) & 1`. */
  predicate BitAt(word: nat, b: nat) {
    if b == 0 then word % 2 == 1 else BitAt(word / 2, b - 1)
  }

  /** Setting a bit sets that bit and no other. */
  lemma {:induction false} SetBitAt(word: nat, b: nat, c: nat)
    ensures BitAt(SetBit(word, b), c) <==> b == c || BitAt(word, c)
  {
    if b > 0 {
      assert SetBit(word, b) / 2 == SetBit(word / 2, b - 1);
      if c > 0 { SetBitAt(word / 2, b - 1, c - 1); }
    } else {
      assert SetBit(word, 0) / 2 == word / 2;
    }
  }

  /** A word of `n` bits stays one. */
  lemma {:induction false} SetBitFits(word: nat, b: nat, n: nat)
    requires b < n && word < Pow2(n)
    ensures SetBit(word, b) < Pow2(n)
  {
    if b > 0 { SetBitFits(word / 2, b - 1, n - 1); }
  }

  lemma {:induction false} SetBitSets(bits: seq<bool>, b: nat)
    requires b < |bits|
    ensures SetBit(WordOf(bits), b) == WordOf(bits[b := true])
  {
    assert WordOf(bits) % 2 == (if bits[0] then 1 else 0) && WordOf(bits) / 2 == WordOf(bits[1..]);
    if b == 0 {
      assert bits[0 := true][1..] == bits[1..];
    } else {
      SetBitSets(bits[1..], b - 1);
      assert bits[b := true][1..] == bits[1..][b - 1 := true];
    }
  }

  /** Comparing with a mask of `n` ones asks whether exactly the first `n` bits are set. */
  lemma {:induction false} MaskTells(bits: seq<bool>, n: nat)
    requires n <= |bits|
    ensures WordOf(bits) == Pow2(n) - 1 <==> (forall k :: 0 <= k < |bits| ==> bits[k] == (k < n))
  {
    if |bits| > 0 {
      var tail := bits[1..];
      assert forall k :: 0 <= k < |tail| ==> tail[k] == bits[k + 1];
      if n == 0 {
        MaskTells(tail, 0);
        assert (forall k :: 0 <= k < |bits| ==> !bits[k]) <==> !bits[0] && (forall k :: 0 <= k < |tail| ==> !tail[k]);
      } else {
        MaskTells(tail, n - 1);
        HeadAndTail(bits, n);
      }
    }
  }

  lemma HeadAndTail(bits: seq<bool>, n: nat)
    requires 0 < n <= |bits|
    ensures (forall k :: 0 <= k < |bits| ==> bits[k] == (k < n))
            <==> bits[0] && (forall k :: 0 <= k < |bits[1..]| ==> bits[1..][k] == (k < n - 1))
  {
    var tail := bits[1..];
    if bits[0] && (forall k :: 0 <= k < |tail| ==> tail[k] == (k < n - 1)) {
      forall k | 0 <= k < |bits| ensures bits[k] == (k < n) {
        assert k > 0 ==> bits[k] == tail[k - 1];
      }
    }
    if forall k :: 0 <= k < |bits| ==> bits[k] == (k < n) {
      forall k | 0 <= k < |tail| ensures tail[k] == (k < n - 1) {
        assert tail[k] == bits[k + 1];
      }
    }
  }

  const ALL_BITS: nat := 0xFFFF_FFFF

  lemma Masks()
    ensures Pow2(32) - 1 == ALL_BITS
    ensures forall r {:trigger Pow2(r)} :: 0 < r < 32 ==> Pow2(r) - 1 == ALL_BITS / Pow2(32 - r)
  {
    Powers();
    forall r {:trigger Pow2(r)} | 0 < r < 32 ensures Pow2(r) - 1 == ALL_BITS / Pow2(32 - r) {
      MaskOf(r);
    }
  }

  /** Shifting all ones right leaves a shorter run of ones. */
  lemma MaskOf(r: nat)
    requires 0 < r < 32
    ensures Pow2(r) - 1 == ALL_BITS / Pow2(32 - r)
  {
    Powers();
    PowersMultiply(r, 32 - r);
    OneLess(ALL_BITS, Pow2(r), Pow2(32 - r));
  }

  lemma OneLess(n: nat, p: nat, q: nat)
    requires p > 0 && q > 0 && p * q == n + 1
    ensures n / q == p - 1
  {
    assert (p - 1) * q == p * q - q;
    Quotient(n, p - 1, q);
  }

  lemma Powers()
    ensures Pow2(32) == 0x1_0000_0000
  {
    PowersMultiply(16, 16);
    PowersMultiply(8, 8);
    PowersMultiply(4, 4);
  }

  lemma {:induction false} PowersMultiply(a: nat, b: nat)
    ensures Pow2(a) * Pow2(b) == Pow2(a + b)
  {
    if a > 0 {
      PowersMultiply(a - 1, b);
      assert Pow2(a) * Pow2(b) == 2 * (Pow2(a - 1) * Pow2(b));
    }
  }

  lemma Quotient(n: nat, q: nat, d: nat)
    requires d > 0 && q * d <= n < q * d + d
    ensures n / d == q
  {
    var q' := n / d;
    assert n == q' * d + n % d;
    if q' < q {
      assert (q' + 1) * d <= q * d by { Monotone(q' + 1, q, d); }
    } else if q < q' {
      assert (q + 1) * d <= q' * d by { Monotone(q + 1, q', d); }
    }
  }

  lemma Monotone(a: nat, b: nat, d: nat)
    requires a <= b
    ensures a * d <= b * d
  {}
}
