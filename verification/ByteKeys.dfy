/**
 Byte strings as user keys: the bytewise order, the shortened keys that separate blocks, and the
 numbering that lets the rest of the model speak of keys as ranks.
 */
module ByteKeys {
  import opened Coding
  import opened Sequences

  /** memcmp on the common length, then the shorter string first. */
  predicate Before(a: Bytes, b: Bytes) {
    if |b| == 0 then false
    else if |a| == 0 then true
    else if a[0] != b[0] then a[0] < b[0]
    else Before(a[1..], b[1..])
  }

  lemma {:induction false} Irreflexive(a: Bytes)
    ensures !Before(a, a)
  {
    if |a| > 0 { Irreflexive(a[1..]); }
  }

  lemma {:induction false} Transitive(a: Bytes, b: Bytes, c: Bytes)
    requires Before(a, b) && Before(b, c)
    ensures Before(a, c)
  {
    if |a| > 0 && |b| > 0 && |c| > 0 && a[0] == b[0] == c[0] { Transitive(a[1..], b[1..], c[1..]); }
  }

  lemma {:induction false} Total(a: Bytes, b: Bytes)
    ensures a == b || Before(a, b) || Before(b, a)
  {
    if |a| > 0 && |b| > 0 && a[0] == b[0] {
      Total(a[1..], b[1..]);
      assert a == [a[0]] + a[1..] && b == [b[0]] + b[1..];
    }
  }

  predicate AtOrBefore(a: Bytes, b: Bytes) {
    a == b || Before(a, b)
  }

  // ------------------------------------------------------------------------
  // Ranks

  /** The rank of a key among the keys of a run. */
  function Rank(keys: seq<Bytes>, k: Bytes): nat {
    if |keys| == 0 then 0 else (if Before(keys[0], k) then 1 else 0) + Rank(keys[1..], k)
  }

  /** Ranks order the keys of any finite run as the comparator does. */
  lemma {:induction false} RankIsMonotone(keys: seq<Bytes>, a: Bytes, b: Bytes)
    requires Before(a, b)
    ensures Rank(keys, a) <= Rank(keys, b)
    ensures a in keys ==> Rank(keys, a) < Rank(keys, b)
  {
    if |keys| > 0 {
      RankIsMonotone(keys[1..], a, b);
      if Before(keys[0], a) { Transitive(keys[0], a, b); }
      if keys[0] == a { Irreflexive(a); }
      assert keys == [keys[0]] + keys[1..];
    }
  }

  // ------------------------------------------------------------------------
  // Shortened keys

  function Separator(start: Bytes, limit: Bytes): Bytes {
    var d := CommonPrefix(start, limit);
    if d < |start| && d < |limit| && start[d] < 0xFF && start[d] + 1 < limit[d] then start[..d] + [start[d] + 1]
    else start
  }

  method FindShortestSeparator(start: Bytes, limit: Bytes) returns (r: Bytes)
    ensures r == Separator(start, limit)
  {
    r := start;
    var minLength := if |start| < |limit| then |start| else |limit|;
    var diffIndex := 0;
    while diffIndex < minLength && start[diffIndex] == limit[diffIndex]
      invariant diffIndex <= minLength
      invariant CommonPrefix(start, limit) == diffIndex + CommonPrefix(start[diffIndex..], limit[diffIndex..])
    {
      assert start[diffIndex..][1..] == start[diffIndex + 1..] && limit[diffIndex..][1..] == limit[diffIndex + 1..];
      diffIndex := diffIndex + 1;
    }
    if diffIndex < minLength {
      var diffByte := start[diffIndex];
      if diffByte < 0xFF && diffByte + 1 < limit[diffIndex] {
        r := r[diffIndex := diffByte + 1];
        r := r[..diffIndex + 1];
      }
    }
  }

  /** Strings compare by their first difference. */
  lemma {:induction false} ComparesAt(a: Bytes, b: Bytes, d: nat)
    requires d <= |a| && d <= |b| && a[..d] == b[..d]
    ensures Before(a, b) <==> Before(a[d..], b[d..])
  {
    if d > 0 {
      assert a[..d][0] == a[0] && b[..d][0] == b[0];
      assert a[1..][..d - 1] == a[..d][1..] && b[1..][..d - 1] == b[..d][1..];
      ComparesAt(a[1..], b[1..], d - 1);
      assert a[1..][d - 1..] == a[d..] && b[1..][d - 1..] == b[d..];
    } else {
      assert a[0..] == a && b[0..] == b;
    }
  }

  /** The separator lies at or after the start and before the limit, and is no longer than the start. */
  lemma SeparatorSeparates(start: Bytes, limit: Bytes)
    requires Before(start, limit)
    ensures AtOrBefore(start, Separator(start, limit)) && Before(Separator(start, limit), limit)
    ensures |Separator(start, limit)| <= |start|
  {
    var d, s := CommonPrefix(start, limit), Separator(start, limit);
    if s != start {
      assert s[..d] == start[..d];
      ComparesAt(start, s, d);
      ComparesAt(s, limit, d);
    }
  }

  function Successor(key: Bytes): Bytes {
    if |key| == 0 then []
    else if key[0] != 0xFF then [key[0] + 1]
    else [key[0]] + Successor(key[1..])
  }

  method FindShortSuccessor(key: Bytes) returns (r: Bytes)
    ensures r == Successor(key)
  {
    r := key;
    var i := 0;
    while i < |key|
      invariant i <= |key| && r == key
      invariant Successor(key) == key[..i] + Successor(key[i..])
    {
      assert key[i..][1..] == key[i + 1..];
      if key[i] != 0xFF {
        r := r[i := key[i] + 1];
        r := r[..i + 1];
        return;
      }
      PrefixSnoc(key, i);
      Assoc(key[..i], [key[i]], Successor(key[i + 1..]));
      i := i + 1;
    }
    assert key[..|key|] == key;
  }

  lemma {:induction false} SuccessorIsAfter(key: Bytes)
    ensures AtOrBefore(key, Successor(key)) && |Successor(key)| <= |key|
  {
    if |key| > 0 && key[0] == 0xFF {
      SuccessorIsAfter(key[1..]);
      assert Successor(key)[1..] == Successor(key[1..]) && key == [key[0]] + key[1..];
    }
  }

  /** When the key is shortened, and to what: at the first byte where the two differ, if there is room between. */
  lemma SeparatorExact(start: Bytes, limit: Bytes, d: nat)
    requires d < |start| && d < |limit| && start[..d] == limit[..d] && start[d] != limit[d]
    ensures Separator(start, limit) == if start[d] < 0xFF && start[d] + 1 < limit[d] then start[..d] + [start[d] + 1] else start
  {
    PrefixEndsAt(start, limit, d);
  }

  lemma {:induction false} PrefixEndsAt(a: Bytes, b: Bytes, d: nat)
    requires d < |a| && d < |b| && a[..d] == b[..d] && a[d] != b[d]
    ensures CommonPrefix(a, b) == d
  {
    if d > 0 {
      assert a[..d][0] == b[..d][0];
      assert a[1..][..d - 1] == a[..d][1..] && b[1..][..d - 1] == b[..d][1..];
      PrefixEndsAt(a[1..], b[1..], d - 1);
    }
  }

  /** Without such a byte one key begins with the other, and nothing is shortened. */
  lemma NoSeparator(start: Bytes, limit: Bytes)
    requires start <= limit || limit <= start
    ensures Separator(start, limit) == start
  {
    var d := CommonPrefix(start, limit);
  }

  /** The successor raises the first byte that can be raised and ends there. */
  lemma {:induction false} SuccessorExact(key: Bytes, i: nat)
    requires i <= |key| && (forall j :: 0 <= j < i ==> key[j] == 0xFF) && (i < |key| ==> key[i] != 0xFF)
    ensures Successor(key) == if i < |key| then key[..i] + [key[i] + 1] else key
  {
    if i > 0 {
      SuccessorExact(key[1..], i - 1);
      assert key == [key[0]] + key[1..];
      assert key[..i] == [key[0]] + key[1..][..i - 1];
    }
  }
}
