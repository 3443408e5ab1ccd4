/**
 Tables: entries are cut into blocks, an index of shortened keys leads to the block of a key, and a
 filter may rule the block out.

 `InternalGet` is proved to find the first entry at or after a lookup key whenever that entry has the
 looked-up user key, in spite of shortened keys and filters.
 */
module Table {
  import opened Bloom
  import opened ByteKeys
  import opened Coding
  import opened Entries
  import opened FilterBlock

  /** An internal key: user key, and sequence number and kind packed into one tag. */
  datatype IKey = IKey(user: Bytes, tag: nat)

  datatype TEntry = TEntry(key: IKey, value: Bytes)

  /** The largest sequence number, with the kind used for seeks. */
  const MAX_TAG: nat := MAX_SEQUENCE * 256 + 1

  /** Increasing user key, then decreasing tag. */
  predicate IBefore(a: IKey, b: IKey) {
    Before(a.user, b.user) || (a.user == b.user && a.tag > b.tag)
  }

  predicate IAtOrBefore(a: IKey, b: IKey) {
    !IBefore(b, a)
  }

  lemma ITransitive(a: IKey, b: IKey, c: IKey)
    requires IBefore(a, b) && IBefore(b, c)
    ensures IBefore(a, c)
  {
    if Before(a.user, b.user) && Before(b.user, c.user) { Transitive(a.user, b.user, c.user); }
  }

  lemma ITotal(a: IKey, b: IKey)
    ensures a == b || IBefore(a, b) || IBefore(b, a)
    ensures !(IBefore(a, b) && IBefore(b, a)) && !IBefore(a, a)
  {
    Total(a.user, b.user);
    Irreflexive(a.user);
    if Before(a.user, b.user) && Before(b.user, a.user) { Transitive(a.user, b.user, a.user); }
  }

  lemma IMixed(a: IKey, b: IKey, c: IKey)
    ensures IAtOrBefore(a, b) && IBefore(b, c) ==> IBefore(a, c)
    ensures IBefore(a, b) && IAtOrBefore(b, c) ==> IBefore(a, c)
  {
    ITotal(a, b);
    ITotal(b, c);
    if IBefore(a, b) && IBefore(b, c) { ITransitive(a, b, c); }
  }

  // ------------------------------------------------------------------------
  // Index keys

  function ISeparator(start: IKey, limit: IKey): IKey {
    var tmp := Separator(start.user, limit.user);
    if |tmp| < |start.user| && Before(start.user, tmp) then IKey(tmp, MAX_TAG) else start
  }

  function ISuccessor(key: IKey): IKey {
    var tmp := Successor(key.user);
    if |tmp| < |key.user| && Before(key.user, tmp) then IKey(tmp, MAX_TAG) else key
  }

  /** The index key lies between the blocks, and no key it hides has the next block's user key. */
  lemma SeparatorHides(start: IKey, limit: IKey, k: IKey)
    requires IBefore(start, limit) && start.tag <= MAX_TAG && k.tag <= MAX_TAG
    ensures IAtOrBefore(start, ISeparator(start, limit)) && IBefore(ISeparator(start, limit), limit)
    ensures IBefore(start, k) && IAtOrBefore(k, ISeparator(start, limit)) ==> k.user != limit.user
  {
    var s := ISeparator(start, limit);
    ITotal(start, start);
    ITotal(start, k);
    if s != start {
      if start.user == limit.user {
      } else {
        SeparatorSeparates(start.user, limit.user);
      }
      ITotal(start, s);
      Irreflexive(limit.user);
      Total(k.user, s.user);
      if Before(k.user, s.user) { Transitive(k.user, s.user, limit.user); }
    }
  }

  lemma SuccessorCovers(key: IKey)
    ensures IAtOrBefore(key, ISuccessor(key))
  {
    ITotal(key, key);
    ITotal(key, ISuccessor(key));
    SuccessorIsAfter(key.user);
  }

  // ------------------------------------------------------------------------
  // Tables

  datatype DataBlock = DataBlock(offset: nat, entries: seq<TEntry>)

  datatype IndexEntry = IndexEntry(key: IKey, handle: nat)

  datatype Built = Built(blocks: seq<DataBlock>, index: seq<IndexEntry>, filter: Option<Reader>)

  ghost predicate SortedEntries(es: seq<TEntry>) {
    forall i, j :: 0 <= i < j < |es| ==> IBefore(es[i].key, es[j].key)
  }

  predicate TagsOk(es: seq<TEntry>) {
    forall i :: 0 <= i < |es| ==> es[i].key.tag <= MAX_TAG
  }

  function Flat(blocks: seq<DataBlock>): seq<TEntry> {
    if |blocks| == 0 then [] else Flat(blocks[..|blocks| - 1]) + blocks[|blocks| - 1].entries
  }

  function LastKey(b: DataBlock): IKey
    requires |b.entries| > 0
  {
    b.entries[|b.entries| - 1].key
  }

  ghost predicate BlockSorted(blocks: seq<DataBlock>, i: nat)
    requires i < |blocks|
  {
    && |blocks[i].entries| > 0 && SortedEntries(blocks[i].entries) && TagsOk(blocks[i].entries)
    && (i + 1 < |blocks| && |blocks[i + 1].entries| > 0 ==> IBefore(LastKey(blocks[i]), blocks[i + 1].entries[0].key))
  }

  ghost predicate BlocksOk(blocks: seq<DataBlock>) {
    && (forall i: nat :: i < |blocks| ==> BlockSorted(blocks, i))
    && (forall i, j :: 0 <= i < j < |blocks| ==> blocks[i].offset < blocks[j].offset)
  }

  /** The index entry of block `i`: its handle, and a key that separates it from the next block. */
  ghost predicate IndexOk(blocks: seq<DataBlock>, index: seq<IndexEntry>, i: nat)
    requires i < |blocks| && i < |index|
  {
    && index[i].handle == blocks[i].offset && |blocks[i].entries| > 0
    && if i + 1 < |blocks| && |blocks[i + 1].entries| > 0 then index[i].key == ISeparator(LastKey(blocks[i]), blocks[i + 1].entries[0].key)
       else IAtOrBefore(LastKey(blocks[i]), index[i].key)
  }

  /** The filter admits every user key of a block at the block's offset. */
  ghost predicate FilterAdmits(p: Policy, r: Reader, b: DataBlock) {
    && (r.num > 0 ==> r.arrayAt + 4 * r.num + 4 <= |r.data|)
    && forall i :: 0 <= i < |b.entries| ==> BlockMayMatch(p, r, b.offset, b.entries[i].key.user)
  }

  ghost predicate TableOk(p: Policy, t: Built) {
    && BlocksOk(t.blocks) && |t.index| == |t.blocks|
    && (forall i: nat :: i < |t.blocks| ==> IndexOk(t.blocks, t.index, i))
    && (t.filter.Some? ==> forall i :: 0 <= i < |t.blocks| ==> FilterAdmits(p, t.filter.value, t.blocks[i]))
    && (t.filter.Some? ==> var r := t.filter.value; r.num > 0 ==> r.arrayAt + 4 * r.num + 4 <= |r.data|)
  }

  // ------------------------------------------------------------------------
  // Lookup

  /** Where a seek for `target` lands in a sorted list. */
  method SeekEntry(es: seq<TEntry>, target: IKey) returns (j: nat)
    requires SortedEntries(es)
    ensures j <= |es|
    ensures forall k :: 0 <= k < j ==> IBefore(es[k].key, target)
    ensures j < |es| ==> IAtOrBefore(target, es[j].key)
  {
    j := 0;
    while j < |es| && IBefore(es[j].key, target)
      invariant j <= |es|
      invariant forall k :: 0 <= k < j ==> IBefore(es[k].key, target)
    {
      j := j + 1;
    }
  }

  method SeekIndex(index: seq<IndexEntry>, target: IKey) returns (i: nat)
    ensures i <= |index|
    ensures forall k :: 0 <= k < i ==> IBefore(index[k].key, target)
    ensures i < |index| ==> IAtOrBefore(target, index[i].key)
  {
    i := 0;
    while i < |index| && IBefore(index[i].key, target)
      invariant i <= |index|
      invariant forall k :: 0 <= k < i ==> IBefore(index[k].key, target)
    {
      i := i + 1;
    }
  }

  /** The block a handle leads to. */
  method BlockReader(blocks: seq<DataBlock>, handle: nat) returns (i: nat)
    requires exists k :: 0 <= k < |blocks| && blocks[k].offset == handle
    requires BlocksOk(blocks)
    ensures i < |blocks| && blocks[i].offset == handle
  {
    i := 0;
    while i < |blocks| && blocks[i].offset != handle
      invariant i <= |blocks| && forall k :: 0 <= k < i ==> blocks[k].offset != handle
    {
      i := i + 1;
    }
  }

  /** `e` is the first entry of the table at or after `target`. */
  ghost predicate IsFirst(blocks: seq<DataBlock>, target: IKey, e: TEntry) {
    && (exists i, j :: 0 <= i < |blocks| && 0 <= j < |blocks[i].entries| && blocks[i].entries[j] == e)
    && IAtOrBefore(target, e.key)
    && forall i, j :: 0 <= i < |blocks| && 0 <= j < |blocks[i].entries| ==>
         IBefore(blocks[i].entries[j].key, target) || IAtOrBefore(e.key, blocks[i].entries[j].key)
  }

  lemma {:induction false} BlockOrder(blocks: seq<DataBlock>, i: nat, k: nat)
    requires BlocksOk(blocks) && i < k < |blocks|
    ensures |blocks[i].entries| > 0 && |blocks[k].entries| > 0
    ensures IBefore(LastKey(blocks[i]), blocks[k].entries[0].key)
  {
    assert BlockSorted(blocks, i) && BlockSorted(blocks, k) && BlockSorted(blocks, k - 1);
    if i + 1 < k {
      BlockOrder(blocks, i, k - 1);
      WithinBlock(blocks, k - 1, 0);
      ITransitive2(LastKey(blocks[i]), blocks[k - 1].entries[0].key, LastKey(blocks[k - 1]), blocks[k].entries[0].key);
    }
  }

  lemma ITransitive2(a: IKey, b: IKey, c: IKey, d: IKey)
    requires IBefore(a, b) && IAtOrBefore(b, c) && IBefore(c, d)
    ensures IBefore(a, d)
  {
    IMixed(a, b, c);
    ITransitive(a, c, d);
  }

  /** An entry lies between the first and the last of its block. */
  lemma WithinBlock(blocks: seq<DataBlock>, i: nat, j: nat)
    requires BlocksOk(blocks) && i < |blocks| && j < |blocks[i].entries|
    ensures IAtOrBefore(blocks[i].entries[0].key, blocks[i].entries[j].key)
    ensures IAtOrBefore(blocks[i].entries[j].key, LastKey(blocks[i]))
  {
    assert BlockSorted(blocks, i);
    ITotal(blocks[i].entries[0].key, blocks[i].entries[j].key);
    ITotal(blocks[i].entries[j].key, LastKey(blocks[i]));
  }

  /** Entries are in order across blocks and within them. */
  lemma EntryOrder(blocks: seq<DataBlock>, i: nat, j: nat, i': nat, j': nat)
    requires BlocksOk(blocks) && i < |blocks| && j < |blocks[i].entries| && i' < |blocks| && j' < |blocks[i'].entries|
    requires i < i' || (i == i' && j < j')
    ensures IBefore(blocks[i].entries[j].key, blocks[i'].entries[j'].key)
  {
    if i == i' {
      assert BlockSorted(blocks, i);
    } else {
      BlockOrder(blocks, i, i');
      WithinBlock(blocks, i, j);
      WithinBlock(blocks, i', j');
      var a, b, c, d := blocks[i].entries[j].key, LastKey(blocks[i]), blocks[i'].entries[0].key, blocks[i'].entries[j'].key;
      IMixed(a, b, c);
      IMixed(a, c, d);
    }
  }

  /** Blocks whose index keys are before the target hold only entries before it. */
  lemma BeforeRegion(p: Policy, t: Built, target: IKey, i: nat, j: nat)
    requires TableOk(p, t) && i < |t.blocks| && j < |t.blocks[i].entries| && IBefore(t.index[i].key, target)
    ensures IBefore(t.blocks[i].entries[j].key, target)
  {
    assert IndexOk(t.blocks, t.index, i) && BlockSorted(t.blocks, i);
    WithinBlock(t.blocks, i, j);
    LastIsCovered(p, t, i);
    IMixed(LastKey(t.blocks[i]), t.index[i].key, target);
    IMixed(t.blocks[i].entries[j].key, LastKey(t.blocks[i]), target);
  }

  lemma LastIsCovered(p: Policy, t: Built, i: nat)
    requires TableOk(p, t) && i < |t.blocks|
    ensures |t.blocks[i].entries| > 0 && IAtOrBefore(LastKey(t.blocks[i]), t.index[i].key)
  {
    assert IndexOk(t.blocks, t.index, i) && BlockSorted(t.blocks, i);
    var last := LastKey(t.blocks[i]);
    if i + 1 < |t.blocks| && |t.blocks[i + 1].entries| > 0 {
      SeparatorHides(last, t.blocks[i + 1].entries[0].key, last);
    }
  }

  /** The first entry is in the region that the index points to, or later. */
  lemma FirstPlace(p: Policy, t: Built, target: IKey, b: nat, e: TEntry) returns (i: nat, j: nat)
    requires TableOk(p, t) && b <= |t.blocks| && IsFirst(t.blocks, target, e)
    requires forall k :: 0 <= k < b ==> IBefore(t.index[k].key, target)
    ensures b <= i < |t.blocks| && j < |t.blocks[i].entries| && t.blocks[i].entries[j] == e
  {
    i, j :| 0 <= i < |t.blocks| && 0 <= j < |t.blocks[i].entries| && t.blocks[i].entries[j] == e;
    if IBefore(t.index[i].key, target) { BeforeRegion(p, t, target, i, j); }
    assert i >= b;
  }

  lemma NothingLeft(p: Policy, t: Built, target: IKey)
    requires TableOk(p, t) && forall k :: 0 <= k < |t.index| ==> IBefore(t.index[k].key, target)
    ensures forall e :: !IsFirst(t.blocks, target, e)
  {
    forall i, j | 0 <= i < |t.blocks| && 0 <= j < |t.blocks[i].entries| ensures IBefore(t.blocks[i].entries[j].key, target) {
      BeforeRegion(p, t, target, i, j);
    }
  }

  /** An entry of the block where the search ends is the first one. */
  lemma Found(p: Policy, t: Built, target: IKey, b: nat, j: nat)
    requires TableOk(p, t) && b < |t.blocks| && j < |t.blocks[b].entries|
    requires forall k :: 0 <= k < b ==> IBefore(t.index[k].key, target)
    requires forall k :: 0 <= k < j ==> IBefore(t.blocks[b].entries[k].key, target)
    requires IAtOrBefore(target, t.blocks[b].entries[j].key)
    ensures IsFirst(t.blocks, target, t.blocks[b].entries[j])
    ensures forall e :: IsFirst(t.blocks, target, e) ==> e == t.blocks[b].entries[j]
  {
    var e := t.blocks[b].entries[j];
    forall i, k | 0 <= i < |t.blocks| && 0 <= k < |t.blocks[i].entries|
      ensures IBefore(t.blocks[i].entries[k].key, target) || IAtOrBefore(e.key, t.blocks[i].entries[k].key)
    {
      ITotal(e.key, t.blocks[i].entries[k].key);
      if i < b {
        BeforeRegion(p, t, target, i, k);
      } else if b < i || j < k {
        EntryOrder(t.blocks, b, j, i, k);
      }
    }
    forall e' | IsFirst(t.blocks, target, e') ensures e' == e {
      OneFirst(t.blocks, target, e, e');
    }
  }

  lemma OneFirst(blocks: seq<DataBlock>, target: IKey, e: TEntry, e': TEntry)
    requires BlocksOk(blocks) && IsFirst(blocks, target, e) && IsFirst(blocks, target, e')
    ensures e == e'
  {
    var i, j :| 0 <= i < |blocks| && 0 <= j < |blocks[i].entries| && blocks[i].entries[j] == e;
    var i', j' :| 0 <= i' < |blocks| && 0 <= j' < |blocks[i'].entries| && blocks[i'].entries[j'] == e';
    ITotal(e.key, e'.key);
    if i < i' || (i == i' && j < j') {
      EntryOrder(blocks, i, j, i', j');
    } else if i' < i || (i == i' && j' < j) {
      EntryOrder(blocks, i', j', i, j);
    }
  }

  /** The target lies past its block: the first entry starts the next block and has another user key. */
  lemma InGap(p: Policy, t: Built, target: IKey, b: nat)
    requires TableOk(p, t) && b < |t.blocks| && target.tag <= MAX_TAG
    requires forall k :: 0 <= k < b ==> IBefore(t.index[k].key, target)
    requires IAtOrBefore(target, t.index[b].key)
    requires forall k :: 0 <= k < |t.blocks[b].entries| ==> IBefore(t.blocks[b].entries[k].key, target)
    ensures forall e :: IsFirst(t.blocks, target, e) ==> e.key.user != target.user
  {
    forall e | IsFirst(t.blocks, target, e) ensures e.key.user != target.user {
      var i, j := FirstPlace(p, t, target, b, e);
      assert i > b;
      PastGap(p, t, target, b, e, i, j);
    }
  }

  lemma PastGap(p: Policy, t: Built, target: IKey, b: nat, e: TEntry, i: nat, j: nat)
    requires TableOk(p, t) && b < i < |t.blocks| && j < |t.blocks[i].entries| && t.blocks[i].entries[j] == e
    requires target.tag <= MAX_TAG && IsFirst(t.blocks, target, e)
    requires IAtOrBefore(target, t.index[b].key)
    requires forall k :: 0 <= k < |t.blocks[b].entries| ==> IBefore(t.blocks[b].entries[k].key, target)
    ensures e.key.user != target.user
  {
    BlockOrder(t.blocks, b, b + 1);
    assert IndexOk(t.blocks, t.index, b) && BlockSorted(t.blocks, b) && BlockSorted(t.blocks, b + 1);
    var last, first := LastKey(t.blocks[b]), t.blocks[b + 1].entries[0].key;
    SeparatorHides(last, first, target);
    IMixed(target, t.index[b].key, first);
    ITotal(target, first);
    ITotal(e.key, first);
    if b + 1 < i || 0 < j { EntryOrder(t.blocks, b + 1, 0, i, j); }
    assert e.key == first;
  }

  /** A block that the filter rules out does not hold the first entry with the looked-up user key. */
  lemma Filtered(p: Policy, t: Built, target: IKey, b: nat)
    requires TableOk(p, t) && t.filter.Some? && b < |t.blocks| && target.tag <= MAX_TAG
    requires forall k :: 0 <= k < b ==> IBefore(t.index[k].key, target)
    requires IAtOrBefore(target, t.index[b].key)
    requires !BlockMayMatch(p, t.filter.value, t.blocks[b].offset, target.user)
    ensures forall e :: IsFirst(t.blocks, target, e) ==> e.key.user != target.user
  {
    hide BlockMayMatch;
    assert FilterAdmits(p, t.filter.value, t.blocks[b]);
    forall e | IsFirst(t.blocks, target, e) ensures e.key.user != target.user {
      var i, j := FirstPlace(p, t, target, b, e);
      if i > b {
        forall k | 0 <= k < |t.blocks[b].entries| ensures IBefore(t.blocks[b].entries[k].key, target) {
          EntryOrder(t.blocks, b, k, i, j);
        }
        PastGap(p, t, target, b, e, i, j);
      }
    }
  }

  /** Delivers the first entry at or after the target if that entry has the target's user key; an
      entry it delivers is always that first one. */
  method InternalGet(p: Policy, t: Built, target: IKey) returns (r: Option<TEntry>)
    requires TableOk(p, t) && target.tag <= MAX_TAG
    ensures r.Some? ==> IsFirst(t.blocks, target, r.value)
    ensures forall e :: IsFirst(t.blocks, target, e) && e.key.user == target.user ==> r == Some(e)
  {
    var b := SeekIndex(t.index, target);
    if b == |t.index| {
      NothingLeft(p, t, target);
      return None;
    }
    assert IndexOk(t.blocks, t.index, b) && BlockSorted(t.blocks, b);
    if t.filter.Some? {
      var may := FilterKeyMayMatch(p, t.filter.value, t.index[b].handle, target.user);
      if !may {
        Filtered(p, t, target, b);
        return None;
      }
    }
    var i := BlockReader(t.blocks, t.index[b].handle);
    assert i == b;
    var j := SeekEntry(t.blocks[b].entries, target);
    if j < |t.blocks[b].entries| {
      Found(p, t, target, b, j);
      r := Some(t.blocks[b].entries[j]);
    } else {
      InGap(p, t, target, b);
      r := None;
    }
  }
}
