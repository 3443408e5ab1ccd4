/**
 The sources an iterator over the whole store merges: the memtables, each level-0 file, and each
 deeper level as one list.

 They are sorted, share no key, and together hold everything stored.
 */
module InternalIterator {
  import opened Entries
  import opened Sequences
  import opened VersionSet
  import opened CompactionWork
  import opened Layers
  import opened Store
  import opened StoreSteps
  import opened CompactionStep
  import opened CompactionTheorem
  import opened Merger

  /** `list` may be merged, and merging it yields `all`. */
  ghost predicate Merges(list: seq<seq<Entry>>, all: set<Entry>) {
    && (forall i :: 0 <= i < |list| ==> Sorted(list[i]))
    && DistinctKeys(list)
    && AllOf(list) == all
  }

  lemma OneSource(es: seq<Entry>)
    requires Sorted(es)
    ensures Merges([es], Elements(es))
  {
    assert [es][0] == es;
    forall e ensures e in AllOf([es]) <==> e in Elements(es) {
      if e in Elements(es) { assert e in [es][0]; }
    }
  }

  /** Sources may be joined when those in front hold only newer entries: no key occurs on both sides. */
  lemma JoinSources(a: seq<seq<Entry>>, b: seq<seq<Entry>>, x: set<Entry>, y: set<Entry>)
    requires Merges(a, x) && Merges(b, y) && Above(x, y)
    ensures Merges(a + b, x + y)
  {
    var list: seq<seq<Entry>> := a + b;
    forall i: nat, j: nat, k: nat, l: nat |
      i < |list| && j < |list| && k < |list[i]| && l < |list[j]| && list[i][k].key == list[j][l].key
      ensures i == j
    {
      SourceSide(a, b, i, k);
      SourceSide(a, b, j, l);
    }
    JoinedContents(a, b);
  }

  lemma SourceSide(a: seq<seq<Entry>>, b: seq<seq<Entry>>, i: nat, k: nat)
    requires i < |a + b| && k < |(a + b)[i]|
    ensures if i < |a| then (a + b)[i] == a[i] && a[i][k] in AllOf(a)
            else (a + b)[i] == b[i - |a|] && b[i - |a|][k] in AllOf(b)
  {
    var e := (a + b)[i][k];
    if i < |a| {
      assert e in a[i];
    } else {
      assert e in b[i - |a|];
    }
  }

  lemma JoinedContents(a: seq<seq<Entry>>, b: seq<seq<Entry>>)
    ensures AllOf(a + b) == AllOf(a) + AllOf(b)
  {
    forall e | e in AllOf(a) ensures e in AllOf(a + b) {
      var i :| 0 <= i < |a| && e in a[i];
      assert (a + b)[i] == a[i];
    }
    forall e | e in AllOf(b) ensures e in AllOf(a + b) {
      var i :| 0 <= i < |b| && e in b[i];
      assert (a + b)[|a| + i] == b[i];
    }
    forall e | e in AllOf(a + b) ensures e in AllOf(a) + AllOf(b) {
      var i :| 0 <= i < |a + b| && e in (a + b)[i];
      assert (a + b)[i] == if i < |a| then a[i] else b[i - |a|];
    }
  }

  /** Sources for the first `n` layers take in those of one more. */
  lemma JoinLayer(st: State, n: nat, list: seq<seq<Entry>>, more: seq<seq<Entry>>)
    requires Inv(st) && n < |LayersOf(st)|
    requires Merges(list, Union(LayersOf(st)[..n])) && Merges(more, LayersOf(st)[n])
    ensures Merges(list + more, Union(LayersOf(st)[..n + 1]))
  {
    hide Merges;
    PrefixAbove(LayersOf(st), n);
    JoinSources(list, more, Union(LayersOf(st)[..n]), LayersOf(st)[n]);
  }

  // ------------------------------------------------------------------------
  // A level as sources

  lemma {:induction false} AllEntriesSorted(files: seq<File>, nextFile: nat)
    requires FilesOk(files, nextFile) && Disjoint(files)
    ensures Sorted(AllEntries(files))
  {
    if |files| > 0 {
      var init, last := files[..|files| - 1], files[|files| - 1];
      Unsnoc(files);
      AllEntriesSorted(init, nextFile);
      ContentsOfAll(init);
      forall x, y | x in AllEntries(init) && y in last.entries ensures Less(x.key, y.key) {
        assert x in Contents(init);
        var f :| f in init && x in f.entries;
        var k :| 0 <= k < |init| && init[k] == f;
        assert Less(files[k].largest, files[|files| - 1].smallest);
        assert FileOk(f, nextFile) && FileOk(last, nextFile);
        EntryInRange(f, x);
        EntryInRange(last, y);
      }
      assert FileOk(last, nextFile);
      SortedConcat(AllEntries(init), last.entries);
    }
  }

  lemma SortedConcat(a: seq<Entry>, b: seq<Entry>)
    requires Sorted(a) && Sorted(b)
    requires forall x, y :: x in a && y in b ==> Less(x.key, y.key)
    ensures Sorted(a + b)
  {
    forall i, j | 0 <= i < j < |a + b| ensures Less((a + b)[i].key, (a + b)[j].key) {
      if i < |a| <= j {
        assert a[i] in a && b[j - |a|] in b;
      }
    }
  }

  lemma LevelAsOne(st: State, l: nat)
    requires Inv(st) && 1 <= l < NUM_LEVELS
    ensures Merges([AllEntries(st.levels[l])], Contents(st.levels[l]))
  {
    AllEntriesSorted(st.levels[l], st.nextFile);
    ContentsOfAll(st.levels[l]);
    OneSource(AllEntries(st.levels[l]));
  }

  function FileSources(files: seq<File>): (r: seq<seq<Entry>>)
    ensures |r| == |files| && forall i :: 0 <= i < |files| ==> r[i] == files[i].entries
  {
    seq(|files|, i requires 0 <= i < |files| => files[i].entries)
  }

  lemma LevelZeroApart(st: State)
    requires Inv(st)
    ensures Merges(FileSources(st.levels[0]), Contents(st.levels[0]))
  {
    var files := st.levels[0];
    var list: seq<seq<Entry>> := FileSources(files);
    forall i | 0 <= i < |list| ensures Sorted(list[i]) {
      assert files[i] in files && FileOk(files[i], st.nextFile);
    }
    forall i: nat, j: nat, k: nat, l: nat |
      i < |list| && j < |list| && k < |list[i]| && l < |list[j]| && list[i][k].key == list[j][l].key
      ensures i == j
    {
      SameKeySameFile(st, i, j, k, l);
    }
    FileContentsAll(files);
  }

  lemma FileContentsAll(files: seq<File>)
    ensures AllOf(FileSources(files)) == Contents(files)
  {
    var list := FileSources(files);
    forall e | e in AllOf(list) ensures e in Contents(files) {
      var i :| 0 <= i < |list| && e in list[i];
      assert files[i] in files;
    }
    forall e | e in Contents(files) ensures e in AllOf(list) {
      var f :| f in files && e in f.entries;
      var i :| 0 <= i < |files| && files[i] == f;
      assert e in list[i];
    }
  }

  /** A key names one entry, and an entry lies in one file of the level. */
  lemma SameKeySameFile(st: State, i: nat, j: nat, k: nat, l: nat)
    requires Inv(st) && i < |st.levels[0]| && j < |st.levels[0]|
    requires var files := st.levels[0];
             k < |files[i].entries| && l < |files[j].entries| && files[i].entries[k].key == files[j].entries[l].key
    ensures i == j
  {
    hide LayersOk;
    var f, g := st.levels[0][i], st.levels[0][j];
    var x, y := f.entries[k], g.entries[l];
    assert f in st.levels[0] && g in st.levels[0] && x in f.entries && y in g.entries;
    assert x in LayersOf(st)[2] && y in LayersOf(st)[2];
    LayerStored(st, 2);
    assert x == y;
    LevelsShareNothing(st.levels, st.nextFile, 0);
    assert f == g;
  }

  // ------------------------------------------------------------------------
  // The sources of the whole store

  method AddIterators(levels: seq<seq<File>>, list: seq<seq<Entry>>, ghost st: State) returns (iters: seq<seq<Entry>>)
    requires Inv(st) && levels == st.levels && Merges(list, Union(LayersOf(st)[..2]))
    ensures Merges(iters, Stored(st))
  {
    hide Inv;
    hide Merges;
    hide Union;
    AllLevels(st);
    iters := list;
    for i := 0 to |levels[0]|
      invariant iters == list + FileSources(levels[0][..i])
    {
      FileSourcesSnoc(levels[0], i);
      AppendOne(list, FileSources(levels[0][..i]), levels[0][i].entries);
      iters := iters + [levels[0][i].entries];
    }
    assert levels[0][..|levels[0]|] == levels[0];
    LevelZeroApart(st);
    JoinLayer(st, 2, list, FileSources(levels[0]));
    for level := 1 to NUM_LEVELS
      invariant Merges(iters, Union(LayersOf(st)[..level + 2]))
    {
      assert LayersOf(st)[level + 2] == Contents(levels[level]);
      if |levels[level]| > 0 {
        LevelAsOne(st, level);
        JoinLayer(st, level + 2, iters, [AllEntries(levels[level])]);
        iters := iters + [AllEntries(levels[level])];
      } else {
        NoSources(levels[level]);
        JoinLayer(st, level + 2, iters, []);
        assert iters + [] == iters;
      }
    }
    assert LayersOf(st)[..NUM_LEVELS + 2] == LayersOf(st);
  }

  lemma AllLevels(st: State)
    requires Inv(st)
    ensures |st.levels| == NUM_LEVELS
  {}

  lemma FileSourcesSnoc(files: seq<File>, i: nat)
    requires i < |files|
    ensures FileSources(files[..i + 1]) == FileSources(files[..i]) + [files[i].entries]
  {}

  lemma NoSources(files: seq<File>)
    requires |files| == 0
    ensures Merges([], Contents(files))
  {}

  /** The memtables first, then the files. */
  method NewInternalIterator(mem: seq<Entry>, imm: Option<seq<Entry>>, levels: seq<seq<File>>, ghost st: State)
    returns (list: seq<seq<Entry>>)
    requires Inv(st) && mem == st.mem && imm == st.imm && levels == st.levels
    ensures Merges(list, Stored(st))
  {
    list := [mem];
    if imm.Some? {
      list := list + [imm.value];
    }
    MemSources(st, list);
    list := AddIterators(levels, list, st);
  }

  lemma MemSources(st: State, list: seq<seq<Entry>>)
    requires Inv(st) && list == [st.mem] + (if st.imm.Some? then [st.imm.value] else [])
    ensures Merges(list, Union(LayersOf(st)[..2]))
  {
    var ls := LayersOf(st);
    OneSource(st.mem);
    assert ls[..1] == [Elements(st.mem)];
    UnionOfOne(Elements(st.mem));
    if st.imm.Some? {
      OneSource(st.imm.value);
      JoinLayer(st, 1, [st.mem], [st.imm.value]);
    } else {
      NoSources([]);
      assert Contents([]) == {} == ls[1];
      JoinLayer(st, 1, [st.mem], []);
      assert [st.mem] + [] == list;
    }
  }

  lemma UnionOfOne(s: set<Entry>)
    ensures Union([s]) == s
  {
    forall e | e in s ensures e in Union([s]) {
      assert e in [s][0];
    }
  }
}
