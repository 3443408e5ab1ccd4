/**
 The merging iterator: n sorted children, one cursor each, read as one sorted list in both
 directions.

 It is proved to be a cursor over the union of its children: `Seek` and `Next` land on the
 least entry beyond a fence, `SeekToLast` and `Prev` on the greatest entry before one, in any
 order of calls.
 */
module Merger {
  import opened Entries

  /** Splits the key space: everything is high, keys >= key, keys > key, nothing is high. */
  datatype Fence = Start | AtOrAfter(key: InternalKey) | After(key: InternalKey) | End

  predicate High(f: Fence, k: InternalKey) {
    match f
    case Start => true
    case AtOrAfter(key) => LessEq(key, k)
    case After(key) => Less(key, k)
    case End => false
  }

  /** The first `n` entries are below the fence, the others above. */
  predicate CutAt(es: seq<Entry>, n: int, f: Fence) {
    && 0 <= n <= |es|
    && (forall k :: 0 <= k < n ==> !High(f, es[k].key))
    && (forall k :: n <= k < |es| ==> High(f, es[k].key))
  }

  predicate InSome(children: seq<seq<Entry>>, e: Entry) {
    exists i :: 0 <= i < |children| && e in children[i]
  }

  /** `e` is the first entry above the fence. */
  ghost predicate FirstAbove(children: seq<seq<Entry>>, f: Fence, e: Option<Entry>) {
    && (e.Some? ==> InSome(children, e.value) && High(f, e.value.key))
    && (forall i, k :: 0 <= i < |children| && 0 <= k < |children[i]| && High(f, children[i][k].key) ==>
          e.Some? && LessEq(e.value.key, children[i][k].key))
  }

  /** `e` is the last entry below the fence. */
  ghost predicate LastBelow(children: seq<seq<Entry>>, f: Fence, e: Option<Entry>) {
    && (e.Some? ==> InSome(children, e.value) && !High(f, e.value.key))
    && (forall i, k :: 0 <= i < |children| && 0 <= k < |children[i]| && !High(f, children[i][k].key) ==>
          e.Some? && LessEq(children[i][k].key, e.value.key))
  }

  /** No key occurs in two children. */
  predicate DistinctKeys(children: seq<seq<Entry>>) {
    forall i, j, k, l ::
      0 <= i < |children| && 0 <= j < |children| && 0 <= k < |children[i]| && 0 <= l < |children[j]|
      ==> children[i][k].key == children[j][l].key ==> i == j
  }

  datatype Direction = Forward | Reverse

  class MergingIterator {
    const children: seq<seq<Entry>>
    const pos: array<int>  // cursor of each child; outside its range when the child is invalid
    var current: int       // index of the current child, or -1
    var direction: Direction

    constructor (children: seq<seq<Entry>>)
      requires forall i :: 0 <= i < |children| ==> Sorted(children[i])
      requires DistinctKeys(children)
      ensures Valid() && this.children == children && current == -1 && fresh(pos)
    {
      this.children := children;
      pos := new int[|children|](_ => -1);
      current := -1;
      direction := Forward;
    }

    predicate ChildValid(i: nat)
      requires i < |children| && pos.Length == |children|
      reads pos
    {
      0 <= pos[i] < |children[i]|
    }

    function Entry(): Option<Entry>
      requires pos.Length == |children| && (current >= 0 ==> current < |children| && ChildValid(current))
      reads this, pos
    {
      if current < 0 then None else Some(children[current][pos[current]])
    }

    /** Moving forward, every other child stands just after the current key; moving back, just before it. */
    ghost predicate Valid()
      reads this, pos
    {
      && pos.Length == |children|
      && (forall i :: 0 <= i < |children| ==> Sorted(children[i]))
      && DistinctKeys(children)
      && -1 <= current < |children|
      && (current >= 0 ==>
            && ChildValid(current)
            && var key := children[current][pos[current]].key;
               forall i :: 0 <= i < |children| && i != current ==>
                 if direction.Forward? then CutAt(children[i], pos[i], After(key))
                 else CutAt(children[i], pos[i] + 1, AtOrAfter(key)))
    }

    /** Every child stands at the fence, ready to go forward. */
    ghost predicate ReadyForward(f: Fence)
      reads this, pos
    {
      && pos.Length == |children|
      && (forall i :: 0 <= i < |children| ==> Sorted(children[i]))
      && DistinctKeys(children)
      && (forall i :: 0 <= i < |children| ==> CutAt(children[i], pos[i], f))
    }

    ghost predicate ReadyReverse(f: Fence)
      reads this, pos
    {
      && pos.Length == |children|
      && (forall i :: 0 <= i < |children| ==> Sorted(children[i]))
      && DistinctKeys(children)
      && (forall i :: 0 <= i < |children| ==> CutAt(children[i], pos[i] + 1, f))
    }

    static lemma WaitsBefore(es: seq<Entry>, n: int, f: Fence, key: InternalKey)
      requires Sorted(es) && CutAt(es, n, f) && !High(f, key)
      requires n > 0 ==> Less(es[n - 1].key, key)
      ensures CutAt(es, n, AtOrAfter(key))
    {
      if n > 0 {
        assert forall k :: 0 <= k < n - 1 ==> Less(es[k].key, es[n - 1].key);
      }
    }

    method FindSmallest(ghost f: Fence)
      requires ReadyForward(f)
      modifies this
      ensures direction == Forward && Valid() && FirstAbove(children, f, Entry())
    {
      var smallest := -1;
      for i := 0 to |children|
        invariant -1 <= smallest < i
        invariant smallest >= 0 ==> ChildValid(smallest)
        invariant forall k :: 0 <= k < i && ChildValid(k) ==>
                    smallest >= 0 && LessEq(children[smallest][pos[smallest]].key, children[k][pos[k]].key)
      {
        if ChildValid(i) {
          if smallest < 0 || Less(children[i][pos[i]].key, children[smallest][pos[smallest]].key) {
            smallest := i;
          }
        }
      }
      current := smallest;
      direction := Forward;
      if current >= 0 {
        var key := children[current][pos[current]].key;
        forall i | 0 <= i < |children| && i != current ensures CutAt(children[i], pos[i], After(key)) {}
        assert children[current][pos[current]] in children[current];
      }
      forall i, k | 0 <= i < |children| && 0 <= k < |children[i]| && High(f, children[i][k].key)
        ensures current >= 0 && LessEq(children[current][pos[current]].key, children[i][k].key)
      {
        assert ChildValid(i);
        assert k == pos[i] || Less(children[i][pos[i]].key, children[i][k].key);
      }
    }

    method FindLargest(ghost f: Fence)
      requires ReadyReverse(f)
      modifies this
      ensures direction == Reverse && Valid() && LastBelow(children, f, Entry())
    {
      var largest := -1;
      for i := |children| downto 0
        invariant largest == -1 || i <= largest < |children|
        invariant largest >= 0 ==> ChildValid(largest)
        invariant forall k :: i <= k < |children| && ChildValid(k) ==>
                    largest >= 0 && LessEq(children[k][pos[k]].key, children[largest][pos[largest]].key)
      {
        if ChildValid(i) {
          if largest < 0 || Less(children[largest][pos[largest]].key, children[i][pos[i]].key) {
            largest := i;
          }
        }
      }
      current := largest;
      direction := Reverse;
      if current >= 0 {
        var key := children[current][pos[current]].key;
        forall i | 0 <= i < |children| && i != current ensures CutAt(children[i], pos[i] + 1, AtOrAfter(key)) {
          WaitsBefore(children[i], pos[i] + 1, f, key);
        }
        assert children[current][pos[current]] in children[current];
      }
      forall i, k | 0 <= i < |children| && 0 <= k < |children[i]| && !High(f, children[i][k].key)
        ensures current >= 0 && LessEq(children[i][k].key, children[current][pos[current]].key)
      {
        assert ChildValid(i);
        assert k == pos[i] || Less(children[i][k].key, children[i][pos[i]].key);
      }
    }

    method SeekToFirst()
      requires Valid()
      modifies this, pos
      ensures Valid() && direction == Forward && FirstAbove(children, Start, Entry())
    {
      for i := 0 to |children|
        invariant pos.Length == |children| && forall k :: 0 <= k < i ==> pos[k] == 0
      {
        pos[i] := 0;
      }
      FindSmallest(Start);
    }

    method SeekToLast()
      requires Valid()
      modifies this, pos
      ensures Valid() && direction == Reverse && LastBelow(children, End, Entry())
    {
      for i := 0 to |children|
        invariant pos.Length == |children| && forall k :: 0 <= k < i ==> pos[k] == |children[k]| - 1
      {
        pos[i] := |children[i]| - 1;
      }
      FindLargest(End);
    }

    method Seek(target: InternalKey)
      requires Valid()
      modifies this, pos
      ensures Valid() && direction == Forward && FirstAbove(children, AtOrAfter(target), Entry())
    {
      for i := 0 to |children|
        invariant pos.Length == |children|
        invariant forall k :: 0 <= k < i ==> CutAt(children[k], pos[k], AtOrAfter(target))
      {
        pos[i] := FirstAtOrAfter(children[i], target);
        SeekCuts(children[i], target);
      }
      FindSmallest(AtOrAfter(target));
    }

    static lemma SeekCuts(es: seq<Entry>, target: InternalKey)
      requires Sorted(es)
      ensures CutAt(es, FirstAtOrAfter(es, target), AtOrAfter(target))
    {
      var n := FirstAtOrAfter(es, target);
      forall k | n <= k < |es| ensures High(AtOrAfter(target), es[k].key) {
        assert k == n || Less(es[n].key, es[k].key);
      }
    }

    /** Puts a child just after `key`. */
    method SeekPast(i: nat, key: InternalKey)
      requires i < |children| == pos.Length && Sorted(children[i])
      modifies pos
      ensures CutAt(children[i], pos[i], After(key))
      ensures forall k :: 0 <= k < pos.Length && k != i ==> pos[k] == old(pos[k])
    {
      SeekCuts(children[i], key);
      pos[i] := FirstAtOrAfter(children[i], key);
      PastKey(children[i], pos[i], key);
      if ChildValid(i) && children[i][pos[i]].key == key {
        pos[i] := pos[i] + 1;
      }
    }

    /** Puts a child just before `key`. */
    method SeekBefore(i: nat, key: InternalKey)
      requires i < |children| == pos.Length && Sorted(children[i])
      modifies pos
      ensures CutAt(children[i], pos[i] + 1, AtOrAfter(key))
      ensures forall k :: 0 <= k < pos.Length && k != i ==> pos[k] == old(pos[k])
    {
      SeekCuts(children[i], key);
      pos[i] := FirstAtOrAfter(children[i], key);
      if ChildValid(i) {
        pos[i] := pos[i] - 1;
      } else {
        pos[i] := |children[i]| - 1;
      }
    }

    /** After a turn, every other child is sought to the current key and stepped past it. */
    method Next()
      requires Valid() && current >= 0
      modifies this, pos
      ensures Valid() && direction == Forward
      ensures FirstAbove(children, After(old(Entry()).value.key), Entry())
    {
      var cur := current;
      var key := children[cur][pos[cur]].key;
      if direction != Forward {
        for i := 0 to |children|
          invariant pos.Length == |children| && pos[cur] == old(pos[cur])
          invariant forall k :: 0 <= k < i && k != cur ==> CutAt(children[k], pos[k], After(key))
        {
          if i != cur {
            SeekPast(i, key);
          }
        }
      }
      OwnCut(children[cur], pos[cur]);
      pos[cur] := pos[cur] + 1;
      FindSmallest(After(key));
    }

    static lemma PastKey(es: seq<Entry>, n: nat, key: InternalKey)
      requires Sorted(es) && CutAt(es, n, AtOrAfter(key))
      ensures if n < |es| && es[n].key == key then CutAt(es, n + 1, After(key)) else CutAt(es, n, After(key))
    {
      if n < |es| {
        assert forall k :: n < k < |es| ==> Less(es[n].key, es[k].key);
      }
    }

    static lemma OwnCut(es: seq<Entry>, n: nat)
      requires Sorted(es) && n < |es|
      ensures CutAt(es, n + 1, After(es[n].key)) && CutAt(es, n, AtOrAfter(es[n].key))
    {
      assert forall k :: n < k < |es| ==> Less(es[n].key, es[k].key);
      assert forall k :: 0 <= k < n ==> Less(es[k].key, es[n].key);
    }

    method Prev()
      requires Valid() && current >= 0
      modifies this, pos
      ensures Valid() && direction == Reverse
      ensures LastBelow(children, AtOrAfter(old(Entry()).value.key), Entry())
    {
      var cur := current;
      var key := children[cur][pos[cur]].key;
      if direction != Reverse {
        for i := 0 to |children|
          invariant pos.Length == |children| && pos[cur] == old(pos[cur])
          invariant forall k :: 0 <= k < i && k != cur ==> CutAt(children[k], pos[k] + 1, AtOrAfter(key))
        {
          if i != cur {
            SeekBefore(i, key);
          }
        }
      }
      OwnCut(children[cur], pos[cur]);
      pos[cur] := pos[cur] - 1;
      FindLargest(AtOrAfter(key));
    }
  }

  ghost function AllOf(children: seq<seq<Entry>>): set<Entry> {
    set i, e | 0 <= i < |children| && e in children[i] :: e
  }

  /** `merged` lists what the children hold, in order. */
  ghost predicate Merged(children: seq<seq<Entry>>, merged: seq<Entry>) {
    Sorted(merged) && Elements(merged) == AllOf(children)
  }

  /** Walking the iterator from the front yields every entry once, in order. */
  method MergeAll(children: seq<seq<Entry>>) returns (merged: seq<Entry>)
    requires forall i :: 0 <= i < |children| ==> Sorted(children[i])
    requires DistinctKeys(children)
    ensures Merged(children, merged)
  {
    var it := new MergingIterator(children);
    it.SeekToFirst();
    merged := [];
    ghost var fence := Start;
    while it.current >= 0
      invariant it.Valid() && it.children == children && fresh(it) && fresh(it.pos)
      invariant it.direction.Forward? && FirstAbove(children, fence, it.Entry())
      invariant Sorted(merged)
      invariant forall e :: e in merged <==> e in AllOf(children) && !High(fence, e.key)
      decreases AllOf(children) - Elements(merged)
    {
      var e := it.Entry().value;
      ghost var before := merged;
      StepAbove(children, fence, e, merged);
      merged := merged + [e];
      it.Next();
      fence := After(e.key);
      assert e in AllOf(children) - Elements(before) && e !in AllOf(children) - Elements(merged);
    }
    forall e | e in AllOf(children) ensures e in merged {
      var i :| 0 <= i < |children| && e in children[i];
      var k :| 0 <= k < |children[i]| && children[i][k] == e;
      assert !High(fence, children[i][k].key);
    }
  }

  /** Appending the first entry above the fence moves the fence past it. */
  lemma StepAbove(children: seq<seq<Entry>>, f: Fence, e: Entry, merged: seq<Entry>)
    requires FirstAbove(children, f, Some(e)) && Sorted(merged)
    requires forall i :: 0 <= i < |children| ==> Sorted(children[i])
    requires DistinctKeys(children)
    requires forall x :: x in merged <==> x in AllOf(children) && !High(f, x.key)
    ensures Sorted(merged + [e]) && e in AllOf(children) && e !in merged
    ensures forall x :: x in merged + [e] <==> x in AllOf(children) && !High(After(e.key), x.key)
  {
    forall k | 0 <= k < |merged| ensures Less(merged[k].key, e.key) {
      assert merged[k] in merged;
      assert !High(f, merged[k].key);
    }
    assert e in AllOf(children);
    forall x ensures x in merged + [e] <==> x in AllOf(children) && !High(After(e.key), x.key) {
      if x in merged {
        var k :| 0 <= k < |merged| && merged[k] == x;
      }
    }
  }

  // ------------------------------------------------------------------------
  // Positions in the merged list

  /** The entry the iterator finds above a fence is the one at the fence's place in the merged list. */
  lemma AboveIsPlace(children: seq<seq<Entry>>, merged: seq<Entry>, n: nat, f: Fence, e: Option<Entry>)
    requires Merged(children, merged) && CutAt(merged, n, f) && FirstAbove(children, f, e)
    ensures e == if n < |merged| then Some(merged[n]) else None
  {
    if n < |merged| {
      assert merged[n] in AllOf(children);
      var i :| 0 <= i < |children| && merged[n] in children[i];
      var k :| 0 <= k < |children[i]| && children[i][k] == merged[n];
      assert High(f, children[i][k].key);
    }
    if e.Some? {
      assert e.value in AllOf(children);
      var m :| 0 <= m < |merged| && merged[m] == e.value;
      SamePlace(merged, n, m);
    }
  }

  lemma BelowIsPlace(children: seq<seq<Entry>>, merged: seq<Entry>, n: nat, f: Fence, e: Option<Entry>)
    requires Merged(children, merged) && CutAt(merged, n, f) && LastBelow(children, f, e)
    ensures e == if n > 0 then Some(merged[n - 1]) else None
  {
    if n > 0 {
      assert merged[n - 1] in AllOf(children);
      var i :| 0 <= i < |children| && merged[n - 1] in children[i];
      var k :| 0 <= k < |children[i]| && children[i][k] == merged[n - 1];
      assert !High(f, children[i][k].key);
    }
    if e.Some? {
      assert e.value in AllOf(children);
      var m :| 0 <= m < |merged| && merged[m] == e.value;
      SamePlace(merged, m, n - 1);
    }
  }

  /** Stepping the merging iterator steps through the merged list, in either direction. */
  lemma StepsAreNeighbours(children: seq<seq<Entry>>, merged: seq<Entry>, n: nat, next: Option<Entry>, prev: Option<Entry>)
    requires Merged(children, merged) && n < |merged|
    requires FirstAbove(children, After(merged[n].key), next) && LastBelow(children, AtOrAfter(merged[n].key), prev)
    ensures next == if n + 1 < |merged| then Some(merged[n + 1]) else None
    ensures prev == if n > 0 then Some(merged[n - 1]) else None
  {
    MergingIterator.OwnCut(merged, n);
    AboveIsPlace(children, merged, n + 1, After(merged[n].key), next);
    BelowIsPlace(children, merged, n, AtOrAfter(merged[n].key), prev);
  }

  /** Seeking lands where a search of the merged list does. */
  lemma SeekIsSearch(children: seq<seq<Entry>>, merged: seq<Entry>, target: InternalKey, e: Option<Entry>)
    requires Merged(children, merged) && FirstAbove(children, AtOrAfter(target), e)
    ensures var n := FirstAtOrAfter(merged, target); e == if n < |merged| then Some(merged[n]) else None
  {
    MergingIterator.SeekCuts(merged, target);
    AboveIsPlace(children, merged, FirstAtOrAfter(merged, target), AtOrAfter(target), e);
  }
}
