/**
 The two-level iterator: an iterator over an index, and one over the block that the current index
 entry leads to.

 It is proved to be a cursor over the concatenation of the blocks, in both directions, whichever of
 them are empty; for a finished table that is the list of entries added to it.
 */
module TwoLevelIterators {
  import opened Bloom
  import opened Entries
  import opened Table

  type Contents = map<nat, seq<TEntry>>

  predicate HandlesKnown(index: seq<IndexEntry>, contents: Contents) {
    forall i :: 0 <= i < |index| ==> index[i].handle in contents
  }

  function BlockAt(index: seq<IndexEntry>, contents: Contents, i: nat): seq<TEntry>
    requires HandlesKnown(index, contents) && i < |index|
  {
    contents[index[i].handle]
  }

  /** The entries of the first `n` blocks. */
  function FirstBlocks(index: seq<IndexEntry>, contents: Contents, n: nat): seq<TEntry>
    requires HandlesKnown(index, contents) && n <= |index|
  {
    if n == 0 then [] else FirstBlocks(index, contents, n - 1) + BlockAt(index, contents, n - 1)
  }

  function All(index: seq<IndexEntry>, contents: Contents): seq<TEntry>
    requires HandlesKnown(index, contents)
  {
    FirstBlocks(index, contents, |index|)
  }

  /** Where block `i` starts in the concatenation. */
  function StartOf(index: seq<IndexEntry>, contents: Contents, i: nat): nat
    requires HandlesKnown(index, contents) && i <= |index|
  {
    |FirstBlocks(index, contents, i)|
  }

  lemma {:induction false} EntryAt(index: seq<IndexEntry>, contents: Contents, n: nat, i: nat, j: nat)
    requires HandlesKnown(index, contents) && i < n <= |index| && j < |BlockAt(index, contents, i)|
    ensures StartOf(index, contents, i) + j < StartOf(index, contents, n)
    ensures FirstBlocks(index, contents, n)[StartOf(index, contents, i) + j] == BlockAt(index, contents, i)[j]
  {
    if i < n - 1 { EntryAt(index, contents, n - 1, i, j); }
  }

  /** The block and place of a position of the concatenation. */
  lemma {:induction false} PlaceOf(index: seq<IndexEntry>, contents: Contents, n: nat, k: nat) returns (i: nat, j: nat)
    requires HandlesKnown(index, contents) && n <= |index| && k < StartOf(index, contents, n)
    ensures i < n && j < |BlockAt(index, contents, i)| && k == StartOf(index, contents, i) + j
  {
    if k < StartOf(index, contents, n - 1) {
      i, j := PlaceOf(index, contents, n - 1, k);
    } else {
      i, j := n - 1, k - StartOf(index, contents, n - 1);
    }
  }

  lemma {:induction false} StartsGrow(index: seq<IndexEntry>, contents: Contents, i: nat, n: nat)
    requires HandlesKnown(index, contents) && i <= n <= |index|
    ensures StartOf(index, contents, i) <= StartOf(index, contents, n)
    decreases n
  {
    if i < n { StartsGrow(index, contents, i, n - 1); }
  }

  /** Index key `i` is at or after every entry of its block, and before the entries of later ones. */
  ghost predicate Separates(index: seq<IndexEntry>, contents: Contents, i: nat)
    requires HandlesKnown(index, contents) && i < |index|
  {
    && (forall j :: 0 <= j < |BlockAt(index, contents, i)| ==> IAtOrBefore(BlockAt(index, contents, i)[j].key, index[i].key))
    && forall k: nat, j :: i < k < |index| && 0 <= j < |BlockAt(index, contents, k)| ==>
         IBefore(index[i].key, BlockAt(index, contents, k)[j].key)
  }

  ghost predicate SeekOk(index: seq<IndexEntry>, contents: Contents)
    requires HandlesKnown(index, contents)
  {
    forall i: nat :: i < |index| ==> Separates(index, contents, i) && SortedEntries(BlockAt(index, contents, i))
  }

  /** Position `p` splits the list at the target. */
  ghost predicate SplitsAt(es: seq<TEntry>, p: nat, target: IKey) {
    && p <= |es| && (forall k :: 0 <= k < p ==> IBefore(es[k].key, target))
    && (p < |es| ==> IAtOrBefore(target, es[p].key))
  }

  /** Seeking in the index and then in the block splits the whole list. */
  lemma SeekSplits(index: seq<IndexEntry>, contents: Contents, target: IKey, b: nat, j: nat)
    requires HandlesKnown(index, contents) && SeekOk(index, contents) && b < |index|
    requires forall k :: 0 <= k < b ==> IBefore(index[k].key, target)
    requires IAtOrBefore(target, index[b].key)
    requires SplitsAt(BlockAt(index, contents, b), j, target)
    ensures SplitsAt(All(index, contents), StartOf(index, contents, b) + j, target)
  {
    var p, all := StartOf(index, contents, b) + j, All(index, contents);
    StartsGrow(index, contents, b + 1, |index|);
    forall k | 0 <= k < p ensures IBefore(all[k].key, target) {
      var i, l := PlaceOf(index, contents, |index|, k);
      EntryAt(index, contents, |index|, i, l);
      SeekBefore(index, contents, target, b, j, i, l);
    }
    if p < |all| {
      var i, l := PlaceOf(index, contents, |index|, p);
      EntryAt(index, contents, |index|, i, l);
      if i < b { StartsGrow(index, contents, i + 1, b); }
      if i > b {
        assert Separates(index, contents, b);
        IMixed(target, index[b].key, all[p].key);
        ITotal(target, all[p].key);
      }
    }
  }

  lemma SeekBefore(index: seq<IndexEntry>, contents: Contents, target: IKey, b: nat, j: nat, i: nat, l: nat)
    requires HandlesKnown(index, contents) && SeekOk(index, contents) && b < |index| && i < |index|
    requires forall k :: 0 <= k < b ==> IBefore(index[k].key, target)
    requires SplitsAt(BlockAt(index, contents, b), j, target) && l < |BlockAt(index, contents, i)|
    requires StartOf(index, contents, i) + l < StartOf(index, contents, b) + j
    ensures IBefore(BlockAt(index, contents, i)[l].key, target)
  {
    if i < b {
      assert Separates(index, contents, i);
      IMixed(BlockAt(index, contents, i)[l].key, index[i].key, target);
    } else if i > b {
      StartsGrow(index, contents, b + 1, i);
    }
  }

  lemma AllBefore(index: seq<IndexEntry>, contents: Contents, target: IKey)
    requires HandlesKnown(index, contents) && SeekOk(index, contents)
    requires forall k :: 0 <= k < |index| ==> IBefore(index[k].key, target)
    ensures SplitsAt(All(index, contents), |All(index, contents)|, target)
  {
    var all := All(index, contents);
    forall k | 0 <= k < |all| ensures IBefore(all[k].key, target) {
      var i, l := PlaceOf(index, contents, |index|, k);
      EntryAt(index, contents, |index|, i, l);
      assert Separates(index, contents, i);
      IMixed(all[k].key, index[i].key, target);
    }
  }

  class TwoLevelIterator {
    const index: seq<IndexEntry>
    const contents: Contents
    var indexPos: nat                 // |index| when the index iterator is not valid
    var data: Option<seq<TEntry>>     // the block under the data iterator, if there is one
    var dataPos: nat                  // its length when the data iterator is not valid
    var dataHandle: nat               // of that block

    ghost predicate Known()
      reads this
    {
      && HandlesKnown(index, contents) && indexPos <= |index|
      && (data.Some? ==> dataHandle in contents && data.value == contents[dataHandle] && dataPos <= |data.value|)
    }

    /** The data iterator is on the block of the current index entry. */
    ghost predicate Aligned()
      reads this
    {
      && Known() && (data.Some? <==> indexPos < |index|)
      && (data.Some? ==> dataHandle == index[indexPos].handle)
    }

    predicate IsValid()
      reads this
    {
      data.Some? && dataPos < |data.value|
    }

    ghost predicate Valid()
      reads this
    {
      Known() && (IsValid() ==> Aligned()) && (data.Some? ==> IsValid())
    }

    /** The place in the concatenation; its length when not valid. */
    ghost function Position(): (p: nat)
      requires Valid()
      reads this
      ensures IsValid() <==> p < |All(index, contents)|
      ensures IsValid() ==> All(index, contents)[p] == data.value[dataPos]
    {
      if IsValid() then
        EntryAt(index, contents, |index|, indexPos, dataPos);
        StartOf(index, contents, indexPos) + dataPos
      else |All(index, contents)|
    }

    constructor (index: seq<IndexEntry>, contents: Contents)
      requires HandlesKnown(index, contents)
      ensures Valid() && !IsValid() && this.index == index && this.contents == contents
    {
      this.index, this.contents := index, contents;
      indexPos, data, dataPos, dataHandle := |index|, None, 0, 0;
    }

    method InitDataBlock()
      requires Known()
      modifies `data, `dataPos, `dataHandle
      ensures Aligned()
    {
      if indexPos == |index| {
        data := None;
      } else {
        var handle := index[indexPos].handle;
        if data.Some? && handle == dataHandle {
          // The data iterator is on this block already.
        } else {
          dataHandle := handle;
          data := Some(contents[handle]);
          dataPos := |data.value|;
        }
      }
    }

    method SkipEmptyDataBlocksForward(ghost p: nat)
      requires Aligned()
      requires p == StartOf(index, contents, indexPos) + if data.Some? then dataPos else 0
      modifies this
      ensures Valid() && Position() == p
    {
      while data.None? || dataPos == |data.value|
        invariant Aligned()
        invariant p == StartOf(index, contents, indexPos) + if data.Some? then dataPos else 0
        decreases |index| - indexPos, if data.Some? then 1 else 0
      {
        if indexPos == |index| {
          data := None;
          return;
        }
        indexPos := indexPos + 1;
        InitDataBlock();
        if data.Some? {
          dataPos := 0;
        }
      }
    }

    /** `p` is the position wanted plus one, so zero when it is before the first entry. */
    ghost predicate Behind(p: nat)
      requires Aligned()
      reads this
    {
      if data.None? then p == 0
      else if dataPos < |data.value| then p == StartOf(index, contents, indexPos) + dataPos + 1
      else p == StartOf(index, contents, indexPos)
    }

    method SkipEmptyDataBlocksBackward(ghost p: nat)
      requires Aligned() && Behind(p)
      modifies this
      ensures Valid() && Position() == if p == 0 then |All(index, contents)| else p - 1
    {
      while data.None? || dataPos == |data.value|
        invariant Aligned() && Behind(p)
        decreases if indexPos < |index| then indexPos + 1 else 0, if data.Some? then 1 else 0
      {
        if indexPos == |index| {
          data := None;
          return;
        }
        indexPos := if indexPos == 0 then |index| else indexPos - 1;
        InitDataBlock();
        if data.Some? {
          dataPos := if |data.value| == 0 then 0 else |data.value| - 1;
        }
      }
    }

    method SeekToFirst()
      requires Valid()
      modifies this
      ensures Valid() && Position() == 0
    {
      indexPos := 0;
      InitDataBlock();
      if data.Some? {
        dataPos := 0;
      }
      SkipEmptyDataBlocksForward(0);
    }

    method SeekToLast()
      requires Valid()
      modifies this
      ensures Valid()
      ensures var n := |All(index, contents)|; Position() == if n == 0 then n else n - 1
    {
      indexPos := if |index| == 0 then 0 else |index| - 1;
      InitDataBlock();
      if data.Some? {
        dataPos := if |data.value| == 0 then 0 else |data.value| - 1;
      }
      SkipEmptyDataBlocksBackward(|All(index, contents)|);
    }

    method Next()
      requires Valid() && IsValid()
      modifies this
      ensures Valid() && Position() == old(Position()) + 1
    {
      ghost var p := Position() + 1;
      dataPos := dataPos + 1;
      SkipEmptyDataBlocksForward(p);
    }

    method Prev()
      requires Valid() && IsValid()
      modifies this
      ensures Valid()
      ensures Position() == if old(Position()) == 0 then |All(index, contents)| else old(Position()) - 1
    {
      ghost var p := Position();
      dataPos := if dataPos == 0 then |data.value| else dataPos - 1;
      SkipEmptyDataBlocksBackward(p);
    }

    method Seek(target: IKey)
      requires Valid() && SeekOk(index, contents)
      modifies this
      ensures Valid() && SplitsAt(All(index, contents), Position(), target)
    {
      indexPos := SeekIndex(index, target);
      InitDataBlock();
      if data.Some? {
        assert Separates(index, contents, indexPos) && SortedEntries(BlockAt(index, contents, indexPos));
        dataPos := SeekEntry(data.value, target);
        SeekSplits(index, contents, target, indexPos, dataPos);
      } else {
        AllBefore(index, contents, target);
      }
      SkipEmptyDataBlocksForward(StartOf(index, contents, indexPos) + if data.Some? then dataPos else 0);
    }
  }

  // ------------------------------------------------------------------------
  // The iterator of a finished table

  /** The blocks of a table by their handles. */
  ghost predicate ContentsOf(t: Built, contents: Contents) {
    forall i :: 0 <= i < |t.blocks| ==> t.blocks[i].offset in contents && contents[t.blocks[i].offset] == t.blocks[i].entries
  }

  lemma TableHandles(p: Policy, t: Built, contents: Contents, i: nat)
    requires TableOk(p, t) && ContentsOf(t, contents) && i < |t.index|
    ensures t.index[i].handle in contents && contents[t.index[i].handle] == t.blocks[i].entries
  {
    assert IndexOk(t.blocks, t.index, i);
  }

  lemma {:induction false} TableFirstBlocks(p: Policy, t: Built, contents: Contents, n: nat)
    requires TableOk(p, t) && ContentsOf(t, contents) && HandlesKnown(t.index, contents) && n <= |t.index|
    ensures FirstBlocks(t.index, contents, n) == Flat(t.blocks[..n])
  {
    if n > 0 {
      TableFirstBlocks(p, t, contents, n - 1);
      TableHandles(p, t, contents, n - 1);
      assert t.blocks[..n][..n - 1] == t.blocks[..n - 1];
    }
  }

  /** Over a finished table the iterator walks all its entries, and seeks find their place. */
  lemma WalksTheTable(p: Policy, t: Built, contents: Contents)
    requires TableOk(p, t) && ContentsOf(t, contents)
    ensures HandlesKnown(t.index, contents) && SeekOk(t.index, contents)
    ensures All(t.index, contents) == Flat(t.blocks)
  {
    forall i | 0 <= i < |t.index| ensures t.index[i].handle in contents {
      TableHandles(p, t, contents, i);
    }
    TableFirstBlocks(p, t, contents, |t.index|);
    assert t.blocks[..|t.index|] == t.blocks;
    forall i: nat | i < |t.index| ensures Separates(t.index, contents, i) && SortedEntries(BlockAt(t.index, contents, i)) {
      TableSeparates(p, t, contents, i);
    }
  }

  lemma TableSeparates(p: Policy, t: Built, contents: Contents, i: nat)
    requires TableOk(p, t) && ContentsOf(t, contents) && HandlesKnown(t.index, contents) && i < |t.index|
    ensures Separates(t.index, contents, i) && SortedEntries(BlockAt(t.index, contents, i))
  {
    TableHandles(p, t, contents, i);
    assert BlockSorted(t.blocks, i);
    LastIsCovered(p, t, i);
    forall j | 0 <= j < |t.blocks[i].entries| ensures IAtOrBefore(t.blocks[i].entries[j].key, t.index[i].key) {
      WithinBlock(t.blocks, i, j);
      var e, last, k := t.blocks[i].entries[j].key, LastKey(t.blocks[i]), t.index[i].key;
      IMixed(k, e, last);
      IMixed(last, k, e);
      ITotal(e, k);
      ITotal(e, last);
      ITotal(last, k);
    }
    forall k: nat, j | i < k < |t.index| && 0 <= j < |BlockAt(t.index, contents, k)|
      ensures IBefore(t.index[i].key, BlockAt(t.index, contents, k)[j].key)
    {
      TableHandles(p, t, contents, k);
      BeforeLater(p, t, i, k, j);
    }
  }

  lemma BeforeLater(p: Policy, t: Built, i: nat, k: nat, j: nat)
    requires TableOk(p, t) && i < k < |t.index| && j < |t.blocks[k].entries|
    ensures IBefore(t.index[i].key, t.blocks[k].entries[j].key)
  {
    BlockOrder(t.blocks, i, i + 1);
    assert IndexOk(t.blocks, t.index, i) && BlockSorted(t.blocks, i) && BlockSorted(t.blocks, i + 1);
    var first := t.blocks[i + 1].entries[0].key;
    SeparatorHides(LastKey(t.blocks[i]), first, first);
    if i + 1 < k || 0 < j {
      EntryOrder(t.blocks, i + 1, 0, k, j);
      ITransitive(t.index[i].key, first, t.blocks[k].entries[j].key);
    }
  }

  /** What a scan of the table's entries finds first is what a lookup through index and filter delivers. */
  lemma ScanFindsFirst(p: Policy, t: Built, contents: Contents, target: IKey, k: nat)
    requires TableOk(p, t) && ContentsOf(t, contents)
    requires k < |Flat(t.blocks)| && SplitsAt(Flat(t.blocks), k, target)
    ensures IsFirst(t.blocks, target, Flat(t.blocks)[k])
  {
    hide TableOk;
    WalksTheTable(p, t, contents);
    var n := |t.index|;
    var e := Flat(t.blocks)[k];
    var i, j := PlaceOf(t.index, contents, n, k);
    EntryAt(t.index, contents, n, i, j);
    SameBlocks(p, t, contents);
    TableHandles(p, t, contents, i);
    assert t.blocks[i].entries[j] == e;
    forall i', j' | 0 <= i' < |t.blocks| && 0 <= j' < |t.blocks[i'].entries|
      ensures IBefore(t.blocks[i'].entries[j'].key, target) || IAtOrBefore(e.key, t.blocks[i'].entries[j'].key)
    {
      TableHandles(p, t, contents, i');
      EntryAt(t.index, contents, n, i', j');
      var q := StartOf(t.index, contents, i') + j';
      if q >= k {
        InFlatOrder(p, t, contents, i, j, i', j');
      }
    }
  }

  lemma SameBlocks(p: Policy, t: Built, contents: Contents)
    requires TableOk(p, t)
    ensures |t.index| == |t.blocks|
  {}

  lemma InFlatOrder(p: Policy, t: Built, contents: Contents, i: nat, j: nat, i': nat, j': nat)
    requires TableOk(p, t) && ContentsOf(t, contents) && HandlesKnown(t.index, contents)
    requires i < |t.blocks| && j < |t.blocks[i].entries| && i' < |t.blocks| && j' < |t.blocks[i'].entries|
    requires StartOf(t.index, contents, i) + j <= StartOf(t.index, contents, i') + j'
    ensures IAtOrBefore(t.blocks[i].entries[j].key, t.blocks[i'].entries[j'].key)
  {
    var a, b := t.blocks[i].entries[j].key, t.blocks[i'].entries[j'].key;
    ITotal(a, b);
    if i' < i {
      TableHandles(p, t, contents, i');
      EntryAt(t.index, contents, i, i', j');
    } else if i < i' || j < j' {
      EntryOrder(t.blocks, i, j, i', j');
    }
  }
}
