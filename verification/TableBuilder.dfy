/**
 Building a table: a block is written when it is full, and its index entry waits for the first key
 of the next block.  Whatever sorted entries are added, the finished table is one that lookups can
 rely on.
 */
module TableBuilders {
  import opened Bloom
  import opened ByteKeys
  import opened Coding
  import opened Entries
  import opened FilterBlock
  import opened Sequences
  import opened Table

  const TRAILER_SIZE: nat := 5

  /** The filter that a block's offset selects, finished or being gathered, has this key. */
  ghost predicate FilterHas(groups: seq<seq<Bytes>>, keys: seq<Bytes>, offset: nat, user: Bytes) {
    var i := offset / BASE;
    if i < |groups| then user in groups[i] else i == |groups| && user in keys
  }

  ghost predicate BlockInFilter(groups: seq<seq<Bytes>>, keys: seq<Bytes>, b: DataBlock) {
    forall j :: 0 <= j < |b.entries| ==> FilterHas(groups, keys, b.offset, b.entries[j].key.user)
  }

  /** The blocks written and the one being filled. */
  function WithCurrent(blocks: seq<DataBlock>, offset: nat, current: seq<TEntry>): seq<DataBlock> {
    if current == [] then blocks else blocks + [DataBlock(offset, current)]
  }

  ghost predicate BuiltSoFar(blocks: seq<DataBlock>, index: seq<IndexEntry>, offset: nat, current: seq<TEntry>) {
    var all := WithCurrent(blocks, offset, current);
    && BlocksOk(all) && |index| <= |blocks|
    && (forall i :: 0 <= i < |blocks| ==> blocks[i].offset < offset)
    && (forall i: nat :: i < |index| ==> IndexOk(all, index, i) && i + 1 < |all|)
  }

  /** The first entry of a new block: the previous block gets its index entry. */
  lemma StartsBlock(blocks: seq<DataBlock>, index: seq<IndexEntry>, offset: nat, e: TEntry)
    requires BuiltSoFar(blocks, index, offset, []) && e.key.tag <= MAX_TAG
    requires |blocks| > 0 ==> |index| + 1 == |blocks| && |blocks[|blocks| - 1].entries| > 0 && IBefore(LastKey(blocks[|blocks| - 1]), e.key)
    requires |blocks| == 0 ==> |index| == 0
    ensures var index' := if |blocks| == 0 then index
                          else index + [IndexEntry(ISeparator(LastKey(blocks[|blocks| - 1]), e.key), blocks[|blocks| - 1].offset)];
            BuiltSoFar(blocks, index', offset, [e])
  {
    var n := |blocks|;
    var all := blocks + [DataBlock(offset, [e])];
    forall i: nat | i < |all| ensures BlockSorted(all, i) {
      if i < n { assert BlockSorted(blocks, i); }
    }
    var index' := if n == 0 then index else index + [IndexEntry(ISeparator(LastKey(blocks[n - 1]), e.key), blocks[n - 1].offset)];
    forall i: nat | i < |index'| ensures IndexOk(all, index', i) && i + 1 < |all| {
      if i < |index| { assert IndexOk(blocks, index, i) && BlockSorted(blocks, i + 1); }
    }
  }

  /** A later entry of the block being filled. */
  lemma GrowsBlock(blocks: seq<DataBlock>, index: seq<IndexEntry>, offset: nat, current: seq<TEntry>, e: TEntry)
    requires BuiltSoFar(blocks, index, offset, current) && |current| > 0 && |index| == |blocks|
    requires e.key.tag <= MAX_TAG && IBefore(current[|current| - 1].key, e.key)
    ensures BuiltSoFar(blocks, index, offset, current + [e])
  {
    var n := |blocks|;
    var all, all' := blocks + [DataBlock(offset, current)], blocks + [DataBlock(offset, current + [e])];
    assert WithCurrent(blocks, offset, current + [e]) == all';
    GrownSorted(blocks, offset, current, e);
    forall i: nat | i < |index| ensures IndexOk(all', index, i) && i + 1 < |all'| {
      assert IndexOk(all, index, i) && BlockSorted(all, i + 1);
    }
  }

  lemma GrownSorted(blocks: seq<DataBlock>, offset: nat, current: seq<TEntry>, e: TEntry)
    requires BlocksOk(blocks + [DataBlock(offset, current)]) && |current| > 0
    requires e.key.tag <= MAX_TAG && IBefore(current[|current| - 1].key, e.key)
    ensures BlocksOk(blocks + [DataBlock(offset, current + [e])])
  {
    var n := |blocks|;
    var all, all' := blocks + [DataBlock(offset, current)], blocks + [DataBlock(offset, current + [e])];
    assert BlockSorted(all, n);
    EntriesSnoc(current, e);
    forall i: nat | i < |all'| ensures BlockSorted(all', i) {
      assert BlockSorted(all, i);
    }
    forall i, j | 0 <= i < j < |all'| ensures all'[i].offset < all'[j].offset {
      assert all[i].offset < all[j].offset;
    }
  }

  lemma EntriesSnoc(es: seq<TEntry>, e: TEntry)
    requires SortedEntries(es) && TagsOk(es) && e.key.tag <= MAX_TAG
    requires |es| > 0 ==> IBefore(es[|es| - 1].key, e.key)
    ensures SortedEntries(es + [e]) && TagsOk(es + [e])
  {
    forall i, j | 0 <= i < j < |es + [e]| ensures IBefore((es + [e])[i].key, (es + [e])[j].key) {
      if j == |es| && i < |es| - 1 { ITransitive(es[i].key, es[|es| - 1].key, e.key); }
    }
  }

  /** The last block's index entry. */
  lemma EndsIndex(blocks: seq<DataBlock>, index: seq<IndexEntry>, offset: nat)
    requires BuiltSoFar(blocks, index, offset, []) && |blocks| > 0 && |index| + 1 == |blocks|
    requires |blocks[|blocks| - 1].entries| > 0
    ensures var index' := index + [IndexEntry(ISuccessor(LastKey(blocks[|blocks| - 1])), blocks[|blocks| - 1].offset)];
            forall i: nat :: i < |blocks| ==> IndexOk(blocks, index', i)
  {
    var index' := index + [IndexEntry(ISuccessor(LastKey(blocks[|blocks| - 1])), blocks[|blocks| - 1].offset)];
    SuccessorCovers(LastKey(blocks[|blocks| - 1]));
    forall i: nat | i < |blocks| ensures IndexOk(blocks, index', i) {
      if i < |index| { assert IndexOk(blocks, index, i); }
    }
  }

  /** The blocks are indexed up to the last one, whose entry is pending until the next key or the end. */
  ghost predicate IndexedOk(blocks: seq<DataBlock>, index: seq<IndexEntry>, offset: nat, current: seq<TEntry>, pending: bool, handle: nat) {
    && BuiltSoFar(blocks, index, offset, current)
    && if pending then current == [] && |index| + 1 == |blocks| && handle == blocks[|blocks| - 1].offset
       else |index| == |blocks| && (current == [] ==> blocks == [])
  }

  /** The entries added so far are those of the blocks and of the block being filled. */
  ghost predicate KeysOk(blocks: seq<DataBlock>, current: seq<TEntry>, added: seq<TEntry>, count: nat, last: IKey) {
    && added == Flat(blocks) + current && count == |added|
    && (count > 0 <==> blocks != [] || current != [])
    && (current != [] ==> last == current[|current| - 1].key)
    && (current == [] && blocks != [] ==> |blocks[|blocks| - 1].entries| > 0 && last == LastKey(blocks[|blocks| - 1]))
  }

  /** The index after a key is added. */
  function IndexWith(index: seq<IndexEntry>, last: IKey, key: IKey, pending: bool, handle: nat): seq<IndexEntry> {
    if pending then index + [IndexEntry(ISeparator(last, key), handle)] else index
  }

  lemma AppendIndexed(blocks: seq<DataBlock>, index: seq<IndexEntry>, offset: nat, current: seq<TEntry>, pending: bool,
                      handle: nat, added: seq<TEntry>, count: nat, last: IKey, e: TEntry)
    requires IndexedOk(blocks, index, offset, current, pending, handle) && KeysOk(blocks, current, added, count, last)
    requires e.key.tag <= MAX_TAG && (count > 0 ==> IBefore(last, e.key))
    ensures IndexedOk(blocks, IndexWith(index, last, e.key, pending, handle), offset, current + [e], false, handle)
  {
    hide BuiltSoFar;
    hide Flat;
    hide IBefore;
    if current == [] {
      StartsBlock(blocks, index, offset, e);
      assert current + [e] == [e];
    } else {
      GrowsBlock(blocks, index, offset, current, e);
    }
  }

  lemma AppendKeys(blocks: seq<DataBlock>, current: seq<TEntry>, added: seq<TEntry>, count: nat, last: IKey, e: TEntry)
    requires KeysOk(blocks, current, added, count, last)
    ensures KeysOk(blocks, current + [e], added + [e], count + 1, e.key)
  {
    Assoc(Flat(blocks), current, [e]);
  }

  lemma FlushIndexed(blocks: seq<DataBlock>, index: seq<IndexEntry>, offset: nat, current: seq<TEntry>, pending: bool,
                     handle: nat, offset': nat)
    requires IndexedOk(blocks, index, offset, current, pending, handle) && current != [] && offset < offset'
    ensures !pending
    ensures IndexedOk(blocks + [DataBlock(offset, current)], index, offset', [], true, offset)
  {
    hide BlocksOk;
    hide IndexOk;
  }

  lemma FlushKeys(blocks: seq<DataBlock>, offset: nat, current: seq<TEntry>, added: seq<TEntry>, count: nat, last: IKey)
    requires KeysOk(blocks, current, added, count, last) && current != []
    ensures KeysOk(blocks + [DataBlock(offset, current)], [], added, count, last)
  {
    assert Flat(blocks + [DataBlock(offset, current)]) + [] == Flat(blocks + [DataBlock(offset, current)]);
  }

  lemma Finished(blocks: seq<DataBlock>, index: seq<IndexEntry>, offset: nat, pending: bool, handle: nat,
                 added: seq<TEntry>, count: nat, last: IKey)
    requires IndexedOk(blocks, index, offset, [], pending, handle) && KeysOk(blocks, [], added, count, last)
    ensures var index' := if pending then index + [IndexEntry(ISuccessor(last), handle)] else index;
            BlocksOk(blocks) && |index'| == |blocks| && forall i: nat :: i < |blocks| ==> IndexOk(blocks, index', i)
    ensures Flat(blocks) == added
  {
    assert Flat(blocks) + [] == Flat(blocks);
    if pending { EndsIndex(blocks, index, offset); }
  }

  // ------------------------------------------------------------------------
  // The filter of a table under construction

  /** Starting the filters of a new offset keeps what earlier blocks put in. */
  lemma StartKeeps(groups: seq<seq<Bytes>>, keys: seq<Bytes>, groups': seq<seq<Bytes>>, keys': seq<Bytes>, b: DataBlock)
    requires BlockInFilter(groups, keys, b) && groups <= groups'
    requires if |groups| < |groups'| then keys' == [] && groups'[|groups|] == keys else keys' == keys
    ensures BlockInFilter(groups', keys', b)
  {
    forall j | 0 <= j < |b.entries| ensures FilterHas(groups', keys', b.offset, b.entries[j].key.user) {
      assert FilterHas(groups, keys, b.offset, b.entries[j].key.user);
    }
  }

  /** An entry whose key is in the filter joins its block. */
  lemma EntryKeeps(groups: seq<seq<Bytes>>, keys: seq<Bytes>, offset: nat, current: seq<TEntry>, e: TEntry)
    requires BlockInFilter(groups, keys, DataBlock(offset, current)) && FilterHas(groups, keys, offset, e.key.user)
    ensures BlockInFilter(groups, keys, DataBlock(offset, current + [e]))
  {
    var b, b' := DataBlock(offset, current), DataBlock(offset, current + [e]);
    forall j | 0 <= j < |b'.entries| ensures FilterHas(groups, keys, offset, b'.entries[j].key.user) {
      if j < |current| { assert FilterHas(groups, keys, offset, b.entries[j].key.user); }
    }
  }

  lemma NothingHeld(groups: seq<seq<Bytes>>, keys: seq<Bytes>, offset: nat)
    ensures BlockInFilter(groups, keys, DataBlock(offset, []))
  {}

  /** A finished filter block admits every key of the block. */
  lemma FinishedAdmits(p: Policy, result: Bytes, offsets: seq<nat>, groups: seq<seq<Bytes>>, b: DataBlock)
    requires |result| < TWO_32 && |groups| == |offsets|
    requires forall i: nat :: i < |offsets| ==> FilterOk(p, result, offsets, i, groups[i])
    requires BlockInFilter(groups, [], b)
    ensures FilterAdmits(p, Open(Layout(result, offsets)), b)
  {
    forall j | 0 <= j < |b.entries| ensures BlockMayMatch(p, Open(Layout(result, offsets)), b.offset, b.entries[j].key.user) {
      assert FilterHas(groups, [], b.offset, b.entries[j].key.user);
      NoFalseNegatives(p, result, offsets, groups, b.offset, b.entries[j].key.user);
    }
  }

  class TableBuilder {
    const policy: Policy
    const useFilter: bool
    const blockSize: nat
    const sizeOf: seq<TEntry> -> nat     // the size of a finished block
    const filter: FilterBlockBuilder
    var dataBlock: seq<TEntry>
    var blocks: seq<DataBlock>           // the blocks in the file
    var index: seq<IndexEntry>
    var lastKey: IKey
    var numEntries: nat
    var pendingIndexEntry: bool
    var pendingHandle: nat
    var offset: nat
    ghost var added: seq<TEntry>

    /** The filter block has the keys of every block written, and gathers those of offset `at`. */
    ghost predicate FilterBehind(at: nat)
      reads `blocks, filter
    {
      useFilter ==>
        && filter.policy == policy && filter.Valid() && |filter.offsets| == at / BASE
        && forall i :: 0 <= i < |blocks| ==> BlockInFilter(filter.groups, filter.keys, blocks[i])
    }

    ghost predicate FilterState()
      reads `blocks, `offset, filter
    {
      FilterBehind(offset)
    }

    ghost predicate CurrentInFilter()
      reads `offset, `dataBlock, filter
    {
      useFilter ==> BlockInFilter(filter.groups, filter.keys, DataBlock(offset, dataBlock))
    }

    ghost predicate IndexState()
      reads this
    {
      IndexedOk(blocks, index, offset, dataBlock, pendingIndexEntry, pendingHandle)
    }

    ghost predicate KeyState()
      reads this
    {
      KeysOk(blocks, dataBlock, added, numEntries, lastKey)
    }

    ghost predicate Valid()
      reads this, filter
    {
      FilterState() && CurrentInFilter() && IndexState() && KeyState()
    }

    constructor (policy: Policy, useFilter: bool, blockSize: nat, sizeOf: seq<TEntry> -> nat)
      ensures Valid() && added == [] && this.policy == policy && this.useFilter == useFilter && fresh(filter)
    {
      this.policy, this.useFilter, this.blockSize, this.sizeOf := policy, useFilter, blockSize, sizeOf;
      var f := new FilterBlockBuilder(policy);
      f.StartBlock(0);
      filter := f;
      dataBlock, blocks, index, lastKey := [], [], [], IKey([], 0);
      numEntries, pendingIndexEntry, pendingHandle, offset := 0, false, 0, 0;
      added := [];
    }

    method Add(key: IKey, value: Bytes)
      requires Valid() && key.tag <= MAX_TAG && (numEntries > 0 ==> IBefore(lastKey, key))
      modifies this, filter
      ensures Valid() && added == old(added) + [TEntry(key, value)] && lastKey == key
      ensures var full := old(dataBlock) + [TEntry(key, value)];
              if sizeOf(full) >= blockSize then
                && dataBlock == [] && blocks == old(blocks) + [DataBlock(old(offset), full)]
                && offset == old(offset) + sizeOf(full) + TRAILER_SIZE
              else
                dataBlock == full && blocks == old(blocks) && offset == old(offset)
    {
      hide KeyState;
      hide IndexState;
      if useFilter {
        AddToFilter(key.user);
      }
      Append(key, value);
      if sizeOf(dataBlock) >= blockSize {
        Flush();
      }
    }

    method AddToFilter(user: Bytes)
      requires useFilter && FilterState() && CurrentInFilter()
      modifies filter`keys
      ensures FilterState() && CurrentInFilter() && FilterHas(filter.groups, filter.keys, offset, user)
    {
      ghost var keys0 := filter.keys;
      filter.AddKey(user);
      forall i | 0 <= i < |blocks| ensures BlockInFilter(filter.groups, filter.keys, blocks[i]) {}
      assert filter.keys[|filter.keys| - 1] == user;
    }

    /** The pending index entry, if any, gets its key; then the entry joins the block being filled. */
    method Append(key: IKey, value: Bytes)
      requires IndexState() && KeyState() && FilterState() && CurrentInFilter()
      requires key.tag <= MAX_TAG && (numEntries > 0 ==> IBefore(lastKey, key))
      requires useFilter ==> FilterHas(filter.groups, filter.keys, offset, key.user)
      modifies `index, `pendingIndexEntry, `lastKey, `numEntries, `dataBlock, `added
      ensures Valid() && added == old(added) + [TEntry(key, value)] && lastKey == key
      ensures dataBlock != [] && dataBlock == old(dataBlock) + [TEntry(key, value)]
    {
      hide KeysOk;
      hide IndexedOk;
      hide BlockInFilter;
      hide FilterHas;
      hide FilterBehind;
      hide FilterState;
      hide ISeparator;
      hide IBefore;
      ghost var e := TEntry(key, value);
      AppendIndexed(blocks, index, offset, dataBlock, pendingIndexEntry, pendingHandle, added, numEntries, lastKey, e);
      AppendKeys(blocks, dataBlock, added, numEntries, lastKey, e);
      if useFilter {
        EntryKeeps(filter.groups, filter.keys, offset, dataBlock, e);
      }
      if pendingIndexEntry {
        var separator := FindInternalSeparator(lastKey, key);
        index := index + [IndexEntry(separator, pendingHandle)];
        pendingIndexEntry := false;
      }
      lastKey := key;
      numEntries := numEntries + 1;
      dataBlock := dataBlock + [TEntry(key, value)];
      added := added + [e];
    }

    /** Writes the block being filled. */
    method Flush()
      requires Valid()
      modifies this, filter
      ensures Valid() && added == old(added) && lastKey == old(lastKey) && dataBlock == []
      ensures if old(dataBlock) == [] then blocks == old(blocks) && offset == old(offset)
              else
                && blocks == old(blocks) + [DataBlock(old(offset), old(dataBlock))]
                && offset == old(offset) + sizeOf(old(dataBlock)) + TRAILER_SIZE
    {
      hide KeysOk;
      hide IndexedOk;
      hide BlockInFilter;
      if dataBlock == [] {
        return;
      }
      var start, offset' := offset, offset + sizeOf(dataBlock) + TRAILER_SIZE;
      FlushIndexed(blocks, index, offset, dataBlock, pendingIndexEntry, pendingHandle, offset');
      FlushKeys(blocks, offset, dataBlock, added, numEntries, lastKey);
      WriteBlock(offset');
      pendingIndexEntry := true;
      if useFilter {
        NextFilter(start);
        NothingHeld(filter.groups, filter.keys, offset);
      }
    }

    /** The block goes to the file, and its handle is kept for the index. */
    method WriteBlock(offset': nat)
      requires offset' == offset + sizeOf(dataBlock) + TRAILER_SIZE && FilterBehind(offset) && CurrentInFilter()
      modifies `blocks, `dataBlock, `pendingHandle, `offset
      ensures blocks == old(blocks) + [DataBlock(old(offset), old(dataBlock))] && dataBlock == []
      ensures pendingHandle == old(offset) && offset == offset' && FilterBehind(old(offset))
    {
      hide BlockInFilter;
      pendingHandle := offset;
      blocks := blocks + [DataBlock(offset, dataBlock)];
      dataBlock := [];
      offset := offset';
    }

    method NextFilter(at: nat)
      requires useFilter && FilterBehind(at) && at <= offset
      modifies filter
      ensures FilterState()
    {
      hide BlockInFilter;
      ghost var groups0, keys0 := filter.groups, filter.keys;
      filter.StartBlock(offset);
      forall i | 0 <= i < |blocks| ensures BlockInFilter(filter.groups, filter.keys, blocks[i]) {
        StartKeeps(groups0, keys0, filter.groups, filter.keys, blocks[i]);
      }
    }

    /** The finished table holds exactly the entries added, and lookups can rely on it. */
    method Finish() returns (t: Built)
      requires Valid()
      modifies this, filter
      ensures Flat(t.blocks) == old(added) && (t.filter.Some? <==> useFilter)
      ensures t.blocks == old(blocks) + (if old(dataBlock) == [] then [] else [DataBlock(old(offset), old(dataBlock))])
      ensures (t.filter.Some? ==> |t.filter.value.data| < TWO_32) ==> TableOk(policy, t)
    {
      hide BlockInFilter;
      hide FilterAdmits;
      hide IndexedOk;
      hide ISuccessor;
      hide Flat;
      hide IndexOk;
      hide IBefore;
      Flush();
      Finished(blocks, index, offset, pendingIndexEntry, pendingHandle, added, numEntries, lastKey);
      var reader := FinishFilter();
      if pendingIndexEntry {
        var successor := FindInternalSuccessor(lastKey);
        index := index + [IndexEntry(successor, pendingHandle)];
        pendingIndexEntry := false;
      }
      t := Built(blocks, index, reader);
    }

    method FinishFilter() returns (reader: Option<Reader>)
      requires FilterState()
      modifies filter
      ensures reader.Some? <==> useFilter
      ensures reader.Some? && |reader.value.data| < TWO_32 ==>
                forall i :: 0 <= i < |blocks| ==> FilterAdmits(policy, reader.value, blocks[i])
      ensures reader.Some? ==> var r := reader.value; r.num > 0 ==> r.arrayAt + 4 * r.num + 4 <= |r.data|
    {
      if !useFilter {
        return None;
      }
      ghost var groups0, keys0 := filter.groups, filter.keys;
      var contents := filter.Finish();
      reader := Some(Open(contents));
      if |contents| < TWO_32 {
        forall i | 0 <= i < |blocks| ensures FilterAdmits(policy, reader.value, blocks[i]) {
          FinishedAdmits(policy, filter.result, filter.offsets, filter.groups, blocks[i]);
        }
      }
    }
  }

  /** A key that lies between two blocks: no longer than the first one's last key, and hiding no key
      that has the next block's user key. */
  method FindInternalSeparator(start: IKey, limit: IKey) returns (r: IKey)
    ensures r == ISeparator(start, limit) && |r.user| <= |start.user|
    ensures IBefore(start, limit) && start.tag <= MAX_TAG ==> IAtOrBefore(start, r) && IBefore(r, limit)
    ensures IBefore(start, limit) && start.tag <= MAX_TAG ==>
              forall k: IKey :: k.tag <= MAX_TAG && IBefore(start, k) && IAtOrBefore(k, r) ==> k.user != limit.user
  {
    if IBefore(start, limit) && start.tag <= MAX_TAG {
      SeparatorHides(start, limit, start);
      forall k: IKey | k.tag <= MAX_TAG && IBefore(start, k) && IAtOrBefore(k, ISeparator(start, limit))
        ensures k.user != limit.user
      {
        SeparatorHides(start, limit, k);
      }
    }
    var tmp := FindShortestSeparator(start.user, limit.user);
    r := if |tmp| < |start.user| && Before(start.user, tmp) then IKey(tmp, MAX_TAG) else start;
  }

  method FindInternalSuccessor(key: IKey) returns (r: IKey)
    ensures r == ISuccessor(key) && |r.user| <= |key.user|
    ensures IAtOrBefore(key, r)
  {
    SuccessorCovers(key);
    var tmp := FindShortSuccessor(key.user);
    r := if |tmp| < |key.user| && Before(key.user, tmp) then IKey(tmp, MAX_TAG) else key;
  }
}
