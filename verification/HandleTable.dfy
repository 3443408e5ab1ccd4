/**
 The cache's hash table.  A bucket is the list of its entries; the table grows so that there are
 no more entries than buckets.  It is proved to be a map from keys to entries.
 */
module HandleTables {
  import opened Coding

  class Handle {
    const key: Bytes
    const value: int
    const charge: nat
    const hash: nat
    var next: Handle   // an entry on no list points to itself
    var prev: Handle
    var inCache: bool
    var refs: nat

    constructor (key: Bytes, value: int, charge: nat, hash: nat)
      ensures this.key == key && this.value == value && this.charge == charge && this.hash == hash
      ensures !inCache && refs == 1 && next == this && prev == this
    {
      this.key, this.value, this.charge, this.hash := key, value, charge, hash;
      next, prev, inCache, refs := this, this, false, 1;
    }
  }

  type Buckets = seq<seq<Handle>>

  ghost predicate Holds(list: Buckets, m: map<Bytes, Handle>, b: nat, i: nat)
    requires b < |list| && i < |list[b]|
  {
    var h := list[b][i];
    h.hash % |list| == b && h.key in m && m[h.key] == h
  }

  ghost predicate Stored(list: Buckets, h: Handle)
    requires |list| > 0
  {
    h in list[h.hash % |list|]
  }

  predicate Distinct(bucket: seq<Handle>) {
    forall i, j :: 0 <= i < j < |bucket| ==> bucket[i] != bucket[j]
  }

  /** The hash stored in an entry is that of its key. */
  ghost predicate Hashed(m: map<Bytes, Handle>, hashOf: Bytes -> nat) {
    forall k :: k in m ==> m[k].key == k && m[k].hash == hashOf(k)
  }

  ghost predicate TableOk(list: Buckets, m: map<Bytes, Handle>) {
    && |list| > 0
    && (forall b: nat, i: nat :: b < |list| && i < |list[b]| ==> Holds(list, m, b, i))
    && (forall k :: k in m ==> m[k].key == k && Stored(list, m[k]))
    && (forall b :: 0 <= b < |list| ==> Distinct(list[b]))
  }

  /** Putting an entry with a new key into its bucket. */
  lemma PushOk(list: Buckets, m: map<Bytes, Handle>, h: Handle, bucket: seq<Handle>)
    requires TableOk(list, m) && h.key !in m
    requires var b := h.hash % |list|; bucket == [h] + list[b] || bucket == list[b] + [h]
    ensures TableOk(list[h.hash % |list| := bucket], m[h.key := h])
  {
    var b := h.hash % |list|;
    var list', m' := list[b := bucket], m[h.key := h];
    NewEntry(list, m, h);
    forall c: nat, i: nat | c < |list'| && i < |list'[c]| ensures Holds(list', m', c, i) {
      if c != b {
        assert Holds(list, m, c, i);
      } else if list'[c][i] != h {
        assert list'[c][i] in list[b];
        var j :| 0 <= j < |list[b]| && list[b][j] == list'[c][i];
        assert Holds(list, m, b, j);
      }
    }
    forall k | k in m' ensures m'[k].key == k && Stored(list', m'[k]) {
      if k != h.key { assert Stored(list, m[k]); }
    }
  }

  lemma NewEntry(list: Buckets, m: map<Bytes, Handle>, h: Handle)
    requires TableOk(list, m) && h.key !in m
    ensures h !in list[h.hash % |list|]
  {
    var b := h.hash % |list|;
    forall i: nat | i < |list[b]| ensures list[b][i] != h {
      assert Holds(list, m, b, i);
    }
  }

  function RemoveAt<T>(s: seq<T>, i: nat): (r: seq<T>)
    requires i < |s|
    ensures |r| == |s| - 1
    ensures forall k :: 0 <= k < i ==> r[k] == s[k]
    ensures forall k :: i <= k < |r| ==> r[k] == s[k + 1]
  {
    s[..i] + s[i + 1..]
  }

  lemma TakeOutOk(list: Buckets, m: map<Bytes, Handle>, b: nat, i: nat)
    requires TableOk(list, m) && b < |list| && i < |list[b]|
    ensures TableOk(list[b := RemoveAt(list[b], i)], m - {list[b][i].key})
  {
    var h := list[b][i];
    assert Holds(list, m, b, i);
    var list', m' := list[b := RemoveAt(list[b], i)], m - {h.key};
    forall c: nat, j: nat | c < |list'| && j < |list'[c]| ensures Holds(list', m', c, j) {
      var j0 := if c == b && j >= i then j + 1 else j;
      assert Holds(list, m, c, j0);
      assert c == b ==> list[b][j0] != h;
    }
    forall k | k in m' ensures m'[k].key == k && Stored(list', m'[k]) {
      assert Stored(list, m[k]);
      var c := m[k].hash % |list|;
      var j :| 0 <= j < |list[c]| && list[c][j] == m[k];
      assert c == b ==> list'[c][if j < i then j else j - 1] == m[k];
    }
  }

  class HandleTable {
    const hashOf: Bytes -> nat
    var list: Buckets
    var elems: nat
    ghost var m: map<Bytes, Handle>

    ghost predicate Valid()
      reads this
    {
      TableOk(list, m) && Hashed(m, hashOf) && elems == |m|
    }

    constructor (hashOf: Bytes -> nat)
      ensures Valid() && m == map[] && this.hashOf == hashOf
    {
      this.hashOf := hashOf;
      list, elems, m := [[], [], [], []], 0, map[];
    }

    lemma KeysMatch()
      requires Valid()
      ensures forall k :: k in m ==> m[k].key == k
    {}

    /** The slot that holds the entry for `key`, or the end of its bucket. */
    method FindPointer(key: Bytes, hash: nat) returns (b: nat, i: nat)
      requires Valid() && hash == hashOf(key)
      ensures b == hash % |list| && i <= |list[b]|
      ensures if key in m then i < |list[b]| && list[b][i] == m[key] else i == |list[b]|
    {
      b := hash % |list|;
      i := 0;
      while i < |list[b]| && (list[b][i].hash != hash || list[b][i].key != key)
        invariant i <= |list[b]|
        invariant forall j :: 0 <= j < i ==> list[b][j].hash != hash || list[b][j].key != key
      {
        i := i + 1;
      }
      FoundOrNot(key, b, i);
    }

    lemma FoundOrNot(key: Bytes, b: nat, i: nat)
      requires Valid() && b == hashOf(key) % |list| && i <= |list[b]|
      requires forall j :: 0 <= j < i ==> list[b][j].hash != hashOf(key) || list[b][j].key != key
      requires i < |list[b]| ==> list[b][i].key == key
      ensures if key in m then i < |list[b]| && list[b][i] == m[key] else i == |list[b]|
    {
      assert i < |list[b]| ==> Holds(list, m, b, i);
      if key in m {
        assert Stored(list, m[key]);
        var j :| 0 <= j < |list[b]| && list[b][j] == m[key];
        assert i <= j;
      }
    }

    method Lookup(key: Bytes, hash: nat) returns (h: Handle?)
      requires Valid() && hash == hashOf(key)
      ensures h == if key in m then m[key] else null
    {
      var b, i := FindPointer(key, hash);
      h := if i < |list[b]| then list[b][i] else null;
    }

    /** Replaces the entry with the same key, if any, and returns it. */
    method Insert(h: Handle) returns (old_: Handle?)
      requires Valid() && h.hash == hashOf(h.key)
      modifies this
      ensures Valid() && m == old(m)[h.key := h]
      ensures old_ == if h.key in old(m) then old(m)[h.key] else null
    {
      var b, i := FindPointer(h.key, h.hash);
      assert b < |list| && (i < |list[b]| ==> h.key in m && list[b][i].key == h.key);
      hide TableOk;
      if i < |list[b]| {
        old_ := list[b][i];
        ReplaceOk(list, m, b, i, h);
        list := list[b := list[b][i := h]];
        m := m[h.key := h];
      } else {
        old_ := null;
        PushOk(list, m, h, list[b] + [h]);
        list := list[b := list[b] + [h]];
        elems := elems + 1;
        m := m[h.key := h];
        if elems > |list| {
          Resize();
        }
      }
    }

    method Remove(key: Bytes, hash: nat) returns (result: Handle?)
      requires Valid() && hash == hashOf(key)
      modifies this
      ensures Valid() && m == old(m) - {key}
      ensures result == if key in old(m) then old(m)[key] else null
    {
      var b, i := FindPointer(key, hash);
      if i < |list[b]| {
        result := list[b][i];
        TakeOutOk(list, m, b, i);
        list := list[b := list[b][..i] + list[b][i + 1..]];
        elems := elems - 1;
        m := m - {key};
      } else {
        result := null;
        assert m - {key} == m;
      }
    }

    /** Moves every entry into a larger table. */
    method Resize()
      requires Valid()
      modifies this`list
      ensures Valid() && |list| >= elems && (|list| == 4 || |list| < 2 * elems)
    {
      hide TableOk;
      hide Moved;
      var newLength := 4;
      while newLength < elems
        invariant newLength == 4 || 4 < newLength < 2 * elems
        modifies {}
      {
        newLength := newLength * 2;
      }
      var newList: Buckets := seq(newLength, _ => []);
      ghost var moved: map<Bytes, Handle> := map[];
      NothingMoved(newList);
      var i := 0;
      while i < |list|
        invariant i <= |list| && |newList| == newLength
        invariant TableOk(newList, moved) && Moved(moved, i, 0)
        modifies {}
      {
        var j := 0;
        while j < |list[i]|
          invariant j <= |list[i]| && |newList| == newLength
          invariant TableOk(newList, moved) && Moved(moved, i, j)
          modifies {}
        {
          var h := list[i][j];
          var b := h.hash % newLength;
          NotMovedTwice(moved, i, j);
          PushOk(newList, moved, h, [h] + newList[b]);
          newList := newList[b := [h] + newList[b]];
          moved := moved[h.key := h];
          j := j + 1;
        }
        NextBucket(moved, i);
        i := i + 1;
      }
      AllMoved(moved);
      list := newList;
    }

    lemma NothingMoved(newList: Buckets)
      requires |newList| > 0 && forall b :: 0 <= b < |newList| ==> newList[b] == []
      ensures TableOk(newList, map[]) && Moved(map[], 0, 0)
    {}

    lemma NextBucket(moved: map<Bytes, Handle>, i: nat)
      requires i < |list| && Moved(moved, i, |list[i]|)
      ensures Moved(moved, i + 1, 0)
    {}

    /** The entries of the first `i` buckets and of the first `j` slots of bucket `i`. */
    ghost predicate Before(b: nat, k: nat, i: nat, j: nat) {
      b < i || (b == i && k < j)
    }

    ghost predicate Moved(moved: map<Bytes, Handle>, i: nat, j: nat)
      reads this
    {
      && (forall k :: k in moved ==> k in m && moved[k] == m[k])
      && (forall b: nat, k: nat :: b < |list| && k < |list[b]| ==> (list[b][k].key in moved <==> Before(b, k, i, j)))
    }

    lemma NotMovedTwice(moved: map<Bytes, Handle>, i: nat, j: nat)
      requires Valid() && i < |list| && j < |list[i]| && Moved(moved, i, j)
      ensures list[i][j].key !in moved && list[i][j].key in m && m[list[i][j].key] == list[i][j]
      ensures Moved(moved[list[i][j].key := list[i][j]], i, j + 1)
    {
      var h := list[i][j];
      assert Holds(list, m, i, j);
      forall b: nat, k: nat | b < |list| && k < |list[b]|
        ensures list[b][k].key == h.key <==> b == i && k == j
      {
        assert Holds(list, m, b, k);
      }
    }

    lemma AllMoved(moved: map<Bytes, Handle>)
      requires Valid() && Moved(moved, |list|, 0)
      ensures moved == m
    {
      forall k | k in m ensures k in moved {
        assert Stored(list, m[k]);
        var b := m[k].hash % |list|;
        var i :| 0 <= i < |list[b]| && list[b][i] == m[k];
      }
    }
  }

  lemma ReplaceOk(list: Buckets, m: map<Bytes, Handle>, b: nat, i: nat, h: Handle)
    requires TableOk(list, m) && b < |list| && i < |list[b]| && b == h.hash % |list|
    requires list[b][i].key == h.key
    ensures TableOk(list[b := list[b][i := h]], m[h.key := h])
  {
    hide Distinct;
    var list', m' := list[b := list[b][i := h]], m[h.key := h];
    SlotOfKey(list, m, b, i);
    forall c: nat, j: nat | c < |list'| && j < |list'[c]| ensures Holds(list', m', c, j) {
      assert Holds(list, m, c, j);
    }
    forall k | k in m' ensures m'[k].key == k && Stored(list', m'[k]) {
      StillStored(list, m, b, i, h, k);
    }
    StillDistinct(list, m, b, i, h);
  }

  /** A key occurs in one slot only. */
  lemma SlotOfKey(list: Buckets, m: map<Bytes, Handle>, b: nat, i: nat)
    requires TableOk(list, m) && b < |list| && i < |list[b]|
    ensures forall c: nat, j: nat :: c < |list| && j < |list[c]| && list[c][j].key == list[b][i].key ==> c == b && j == i
  {
    assert Holds(list, m, b, i);
    forall c: nat, j: nat | c < |list| && j < |list[c]| && list[c][j].key == list[b][i].key ensures c == b && j == i {
      assert Holds(list, m, c, j);
    }
  }

  lemma StillStored(list: Buckets, m: map<Bytes, Handle>, b: nat, i: nat, h: Handle, k: Bytes)
    requires TableOk(list, m) && b < |list| && i < |list[b]| && b == h.hash % |list|
    requires list[b][i].key == h.key && (k in m || k == h.key)
    ensures var m' := m[h.key := h]; m'[k].key == k && Stored(list[b := list[b][i := h]], m'[k])
  {
    var list' := list[b := list[b][i := h]];
    assert Holds(list, m, b, i);
    if k == h.key {
      assert list'[b][i] == h;
    } else {
      assert Stored(list, m[k]);
      var c := m[k].hash % |list|;
      var j :| 0 <= j < |list[c]| && list[c][j] == m[k];
      assert list'[c][j] == m[k];
    }
  }

  lemma StillDistinct(list: Buckets, m: map<Bytes, Handle>, b: nat, i: nat, h: Handle)
    requires TableOk(list, m) && b < |list| && i < |list[b]| && list[b][i].key == h.key
    ensures Distinct(list[b][i := h])
  {
    SlotOfKey(list, m, b, i);
  }
}
