/**
 How the byte strings of tables and logs are named in the store, whose user keys are ranks.

 For the keys that occur, and are looked up, in a run the naming keeps the order of internal keys, so
 that a search among bytes is a search among ranks.
 */
module RankedKeys {
  import opened Bloom
  import opened ByteKeys
  import opened Coding
  import opened Entries
  import opened CompactionWork
  import opened VersionSet
  import opened Table

  /** The user keys of a run, and what value each byte string stands for. */
  datatype Naming = Naming(keys: seq<Bytes>, text: Bytes -> UserValue)

  const TAG_BASE := 256

  /** The tag packs sequence number and kind; both kinds are small. */
  function KindOf(tag: nat): Kind {
    if tag % TAG_BASE == 0 then Deletion else Value
  }

  predicate KeyOk(n: Naming, k: IKey) {
    k.user in n.keys && k.tag % TAG_BASE <= 1 && k.tag <= MAX_TAG
  }

  function KeyNamed(n: Naming, k: IKey): InternalKey {
    InternalKey(Rank(n.keys, k.user), k.tag / TAG_BASE, KindOf(k.tag))
  }

  function EntryNamed(n: Naming, e: TEntry): Entry {
    Entry(KeyNamed(n, e.key), n.text(e.value))
  }

  function EntriesNamed(n: Naming, es: seq<TEntry>): (r: seq<Entry>)
    ensures |r| == |es| && forall i :: 0 <= i < |es| ==> r[i] == EntryNamed(n, es[i])
  {
    seq(|es|, i requires 0 <= i < |es| => EntryNamed(n, es[i]))
  }

  predicate EntriesOk(n: Naming, es: seq<TEntry>) {
    forall i :: 0 <= i < |es| ==> KeyOk(n, es[i].key)
  }

  lemma TagOrder(a: nat, b: nat)
    requires a % TAG_BASE <= 1 && b % TAG_BASE <= 1
    ensures a > b <==> a / TAG_BASE > b / TAG_BASE || (a / TAG_BASE == b / TAG_BASE && KindOf(a).Value? && KindOf(b).Deletion?)
  {}

  lemma SameRank(keys: seq<Bytes>, a: Bytes, b: Bytes)
    requires a in keys && b in keys
    ensures Rank(keys, a) == Rank(keys, b) <==> a == b
    ensures Rank(keys, a) < Rank(keys, b) <==> Before(a, b)
  {
    Total(a, b);
    if Before(a, b) { RankIsMonotone(keys, a, b); }
    if Before(b, a) { RankIsMonotone(keys, b, a); }
    Irreflexive(a);
  }

  /** Internal keys are named in order. */
  lemma KeyOrder(n: Naming, a: IKey, b: IKey)
    requires KeyOk(n, a) && KeyOk(n, b)
    ensures IBefore(a, b) <==> Less(KeyNamed(n, a), KeyNamed(n, b))
    ensures a.user == b.user <==> KeyNamed(n, a).user == KeyNamed(n, b).user
  {
    hide Rank;
    hide Before;
    SameRank(n.keys, a.user, b.user);
    TagOrder(a.tag, b.tag);
    if a.user == b.user { Irreflexive(a.user); }
  }

  lemma NamedSorted(n: Naming, es: seq<TEntry>)
    requires EntriesOk(n, es) && SortedEntries(es)
    ensures Sorted(EntriesNamed(n, es))
  {
    hide IBefore;
    hide Less;
    hide KeyNamed;
    forall i, j | 0 <= i < j < |es| ensures Less(EntryNamed(n, es[i]).key, EntryNamed(n, es[j]).key) {
      KeyOrder(n, es[i].key, es[j].key);
    }
  }

  // ------------------------------------------------------------------------
  // Tables

  /** The file that a table of such entries makes. */
  lemma NamedFileOk(n: Naming, es: seq<TEntry>, number: nat, size: nat)
    requires EntriesOk(n, es) && SortedEntries(es) && |es| > 0
    ensures WellFormedFile(MakeFile(number, size, EntriesNamed(n, es)))
  {
    NamedSorted(n, es);
    assert KeyOk(n, es[|es| - 1].key);
  }

  function LookupKey(u: Bytes, snapshot: nat): IKey {
    IKey(u, snapshot * TAG_BASE + 1)
  }

  lemma LookupKeyNamed(n: Naming, u: Bytes, snapshot: nat)
    requires u in n.keys && snapshot <= MAX_SEQUENCE
    ensures KeyOk(n, LookupKey(u, snapshot))
    ensures KeyNamed(n, LookupKey(u, snapshot)) == InternalKey(Rank(n.keys, u), snapshot, SEEK_KIND)
  {}

  /** Where the first entry at or after a lookup key lies in the whole table. */
  lemma FirstIsPlace(n: Naming, t: Built, target: IKey, i: nat)
    requires BlocksOk(t.blocks) && EntriesOk(n, Flat(t.blocks)) && KeyOk(n, target)
    requires i == FirstAtOrAfter(EntriesNamed(n, Flat(t.blocks)), KeyNamed(n, target)) < |Flat(t.blocks)|
    ensures IsFirst(t.blocks, target, Flat(t.blocks)[i])
  {
    hide IBefore;
    hide Less;
    hide KeyNamed;
    var all := Flat(t.blocks);
    var e := all[i];
    FlatMembers(t.blocks);
    assert e in all;
    KeyOrder(n, e.key, target);
    forall b, j | 0 <= b < |t.blocks| && 0 <= j < |t.blocks[b].entries|
      ensures IBefore(t.blocks[b].entries[j].key, target) || IAtOrBefore(e.key, t.blocks[b].entries[j].key)
    {
      var x := t.blocks[b].entries[j];
      assert x in all;
      var k :| 0 <= k < |all| && all[k] == x;
      KeyOrder(n, x.key, target);
      KeyOrder(n, x.key, e.key);
      FlatSorted(t.blocks);
      if k >= i { NotBeforeLater(all, i, k); }
    }
  }

  lemma NotBeforeLater(es: seq<TEntry>, i: nat, k: nat)
    requires SortedEntries(es) && i <= k < |es|
    ensures IAtOrBefore(es[i].key, es[k].key)
  {
    ITotal(es[i].key, es[k].key);
  }

  lemma {:induction false} FlatMembers(blocks: seq<DataBlock>)
    ensures forall e :: e in Flat(blocks) <==> exists b, j :: 0 <= b < |blocks| && 0 <= j < |blocks[b].entries| && blocks[b].entries[j] == e
  {
    if |blocks| > 0 {
      var n := |blocks| - 1;
      FlatMembers(blocks[..n]);
      forall e
        ensures e in Flat(blocks)
                <==> exists b, j :: 0 <= b < |blocks| && 0 <= j < |blocks[b].entries| && blocks[b].entries[j] == e
      {
        if e in Flat(blocks[..n]) {
          var b, j :| 0 <= b < n && 0 <= j < |blocks[..n][b].entries| && blocks[..n][b].entries[j] == e;
          assert blocks[b].entries[j] == e;
        } else if e in blocks[n].entries {
          var j :| 0 <= j < |blocks[n].entries| && blocks[n].entries[j] == e;
        }
        if b, j :| 0 <= b < |blocks| && 0 <= j < |blocks[b].entries| && blocks[b].entries[j] == e {
          if b < n { assert blocks[..n][b].entries[j] == e; }
        }
      }
    }
  }

  /** The entries of a table are in order as a whole. */
  lemma {:induction false} FlatSorted(blocks: seq<DataBlock>)
    requires BlocksOk(blocks)
    ensures SortedEntries(Flat(blocks))
  {
    if |blocks| > 0 {
      var n := |blocks| - 1;
      FewerBlocksOk(blocks);
      FlatSorted(blocks[..n]);
      FlatMembers(blocks[..n]);
      assert BlockSorted(blocks, n);
      var front, back := Flat(blocks[..n]), blocks[n].entries;
      forall i, j | 0 <= i < |front| && 0 <= j < |back| ensures IBefore(front[i].key, back[j].key) {
        assert front[i] in front;
        var b, k :| 0 <= b < n && 0 <= k < |blocks[..n][b].entries| && blocks[..n][b].entries[k] == front[i];
        EntryOrder(blocks, b, k, n, j);
      }
      JoinSorted(front, back);
    }
  }

  lemma FewerBlocksOk(blocks: seq<DataBlock>)
    requires BlocksOk(blocks) && |blocks| > 0
    ensures BlocksOk(blocks[..|blocks| - 1])
  {
    var n := |blocks| - 1;
    forall i: nat | i < n ensures BlockSorted(blocks[..n], i) {
      assert BlockSorted(blocks, i);
    }
  }

  lemma JoinSorted(a: seq<TEntry>, b: seq<TEntry>)
    requires SortedEntries(a) && SortedEntries(b)
    requires forall i, j :: 0 <= i < |a| && 0 <= j < |b| ==> IBefore(a[i].key, b[j].key)
    ensures SortedEntries(a + b)
  {}

  /** A lookup in the bytes of a file's table is the lookup among the file's entries. */
  method TableGet(p: Policy, t: Built, n: Naming, ghost entries: seq<Entry>, u: Bytes, snapshot: nat) returns (r: Option<Entry>)
    requires TableOk(p, t) && EntriesOk(n, Flat(t.blocks)) && entries == EntriesNamed(n, Flat(t.blocks))
    requires u in n.keys && snapshot <= MAX_SEQUENCE
    ensures r == SeekUser(entries, Rank(n.keys, u), snapshot)
  {
    hide TableOk;
    hide IsFirst;
    hide Rank;
    var e := InternalGet(p, t, LookupKey(u, snapshot));
    r := if e.Some? && e.value.key.user == u then Some(EntryNamed(n, e.value)) else None;
    TableAnswers(p, t, n, u, snapshot, e);
  }

  lemma TableAnswers(p: Policy, t: Built, n: Naming, u: Bytes, snapshot: nat, e: Option<TEntry>)
    requires TableOk(p, t) && EntriesOk(n, Flat(t.blocks)) && u in n.keys && snapshot <= MAX_SEQUENCE
    requires e.Some? ==> IsFirst(t.blocks, LookupKey(u, snapshot), e.value)
    requires forall x :: IsFirst(t.blocks, LookupKey(u, snapshot), x) && x.key.user == u ==> e == Some(x)
    ensures SeekUser(EntriesNamed(n, Flat(t.blocks)), Rank(n.keys, u), snapshot)
            == if e.Some? && e.value.key.user == u then Some(EntryNamed(n, e.value)) else None
  {
    hide IsFirst;
    hide BlocksOk;
    hide Rank;
    hide IBefore;
    hide Less;
    var all := Flat(t.blocks);
    var target := LookupKey(u, snapshot);
    LookupKeyNamed(n, u, snapshot);
    TableBlocks(p, t);
    var i := FirstAtOrAfter(EntriesNamed(n, all), KeyNamed(n, target));
    if i < |all| {
      FirstIsPlace(n, t, target, i);
      KeyOrder(n, all[i].key, target);
      if e.Some? { OneFirst(t.blocks, target, e.value, all[i]); }
    } else if e.Some? {
      FirstIsIn(t.blocks, target, e.value);
      var k :| 0 <= k < |all| && all[k] == e.value;
      KeyOrder(n, all[k].key, target);
    }
  }

  lemma TableBlocks(p: Policy, t: Built)
    requires TableOk(p, t)
    ensures BlocksOk(t.blocks)
  {}

  lemma FirstIsIn(blocks: seq<DataBlock>, target: IKey, e: TEntry)
    requires IsFirst(blocks, target, e)
    ensures e in Flat(blocks) && IAtOrBefore(target, e.key)
  {
    FlatMembers(blocks);
  }
}
