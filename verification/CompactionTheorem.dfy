/**
 When a compaction preserves what readers see.

 `CompactionExact` is the main result: the step from a faithful state is faithful again
 exactly when no deleted key is resurrected.  `ClosedBelowIsSafe` gives a test a caller can
 make on the file ranges alone, and `ResurrectionExample` an input on which the code fails it.
 */
module CompactionTheorem {
  import opened Entries
  import opened Sequences
  import opened VersionSet
  import opened CompactionInputs
  import opened CompactionWork
  import opened Layers
  import opened Store
  import opened CompactionMeaning
  import opened CompactionStep

  // ------------------------------------------------------------------------
  // From layers to a split

  ghost function SplitOf(st: State, level: nat, in0: seq<File>, in1: seq<File>): Split
    requires |st.levels| == NUM_LEVELS && level + 1 < NUM_LEVELS
  {
    SplitLayers(LayersOf(st), level + 2, Contents(in0), Contents(in1))
  }

  ghost function SplitLayers(ls: seq<set<Entry>>, a: nat, i0: set<Entry>, i1: set<Entry>): Split
    requires a + 1 < |ls|
  {
    Split(Union(ls[..a]), ls[a] - i0, i0, i1, ls[a + 1] - i1, Union(ls[a + 2..]))
  }

  lemma SplitLayersOk(ls: seq<set<Entry>>, a: nat, i0: set<Entry>, i1: set<Entry>)
    requires LayersOk(ls) && a + 1 < |ls| && UniqueSeqNos(Union(ls))
    requires i0 <= ls[a] && i1 <= ls[a + 1] && Above(ls[a] - i0, i0)
    requires forall x, y :: x in ls[a + 1] - i1 && y in i0 ==> x.key.user != y.key.user
    ensures SplitLayers(ls, a, i0, i1).Before() == Union(ls)
    ensures SplitLayers(ls, a, i0, i1).Layered()
  {
    var p := SplitLayers(ls, a, i0, i1);
    assert p.left0 + p.in0 == ls[a] && p.in1 + p.left1 == ls[a + 1];
    CutUnion(ls, a, ls[a], ls[a + 1]);
    assert ls[a := ls[a]][a + 1 := ls[a + 1]] == ls;
    CutAbove(ls, a);
  }

  lemma CutUnion(ls: seq<set<Entry>>, a: nat, x: set<Entry>, y: set<Entry>)
    requires a + 1 < |ls|
    ensures Union(ls[a := x][a + 1 := y]) == Union(ls[..a]) + x + y + Union(ls[a + 2..])
  {
    var ls' := ls[a := x][a + 1 := y];
    forall e ensures e in Union(ls') <==> e in Union(ls[..a]) + x + y + Union(ls[a + 2..]) {
      if e in Union(ls') {
        var k :| 0 <= k < |ls'| && e in ls'[k];
        assert k < a ==> ls[..a][k] == ls'[k];
        assert k > a + 1 ==> ls[a + 2..][k - a - 2] == ls'[k];
      }
      if e in Union(ls[..a]) {
        var k :| 0 <= k < a && e in ls[..a][k];
        assert e in ls'[k];
      }
      if e in Union(ls[a + 2..]) {
        var k :| 0 <= k < |ls| - a - 2 && e in ls[a + 2..][k];
        assert e in ls'[k + a + 2];
      }
      assert ls'[a] == x && ls'[a + 1] == y;
    }
  }

  lemma CutAbove(ls: seq<set<Entry>>, a: nat)
    requires LayersOk(ls) && a + 1 < |ls|
    ensures Above(Union(ls[..a]), ls[a]) && Above(Union(ls[..a]), ls[a + 1])
    ensures Above(Union(ls[..a]), Union(ls[a + 2..]))
    ensures Above(ls[a], ls[a + 1]) && Above(ls[a], Union(ls[a + 2..])) && Above(ls[a + 1], Union(ls[a + 2..]))
  {
    UnionAbove(ls, a, a);
    UnionAbove(ls, a, a + 1);
    forall k | 0 <= k < a + 2 ensures Above(ls[k], Union(ls[a + 2..])) {
      AboveUnion(ls, a + 2, k);
    }
    forall x, y | x in Union(ls[..a]) && y in Union(ls[a + 2..]) && x.key.user == y.key.user
      ensures x.key.seqNo > y.key.seqNo
    {
      var k :| 0 <= k < a && x in ls[..a][k];
      assert x in ls[k] && Above(ls[k], Union(ls[a + 2..]));
    }
  }

  // ------------------------------------------------------------------------
  // What the compaction loop produced

  /** `outputs` is what the loop makes of the merged inputs. */
  ghost predicate CompactionOutput(st: State, level: nat, in0: seq<File>, in1: seq<File>,
                                   input: seq<Entry>, outputs: seq<File>)
    requires |st.levels| == NUM_LEVELS
  {
    && Sorted(input) && Elements(input) == Contents(in0) + Contents(in1)
    && OutputsFrom(outputs, st.nextFile)
    && AllEntries(outputs) == KeptUpTo(input, |input|, SmallestSnapshot(st), BaseLevel(st.levels, level))
  }

  lemma {:induction false} OutputsWellFormed(outputs: seq<File>, first: nat)
    requires OutputsFrom(outputs, first) && Sorted(AllEntries(outputs))
    requires forall e :: e in AllEntries(outputs) ==> e.key.seqNo <= MAX_SEQUENCE
    ensures FilesOk(outputs, first + |outputs|) && Disjoint(outputs)
  {
    if |outputs| > 0 {
      var n := |outputs| - 1;
      var init, last := outputs[..n], outputs[n];
      Unsnoc(outputs);
      SortedParts(AllEntries(init), last.entries);
      OutputsWellFormed(init, first);
      ContentsOfAll(init);
      assert last.entries[|last.entries| - 1] in AllEntries(outputs);
      assert FileOk(last, first + n + 1);
      forall f | f in init ensures FileOk(f, first + n + 1) && Less(f.largest, last.smallest) {
        assert FileOk(f, first + n);
        var e := f.entries[|f.entries| - 1];
        assert e in f.entries && e in Contents(init);
        assert e in Elements(AllEntries(init));
      }
      forall i | 0 <= i < n ensures Less(outputs[i].largest, last.smallest) {
        assert init[i] in init;
      }
      assert Disjoint(init + [last]);
    }
  }

  lemma {:induction false} ContentsOfAll(files: seq<File>)
    ensures Contents(files) == Elements(AllEntries(files))
  {
    if |files| > 0 {
      var init, last := files[..|files| - 1], files[|files| - 1];
      ContentsOfAll(init);
      Unsnoc(files);
      assert Contents(files) == Contents(init) + Elements(last.entries);
    }
  }

  lemma SortedParts(a: seq<Entry>, b: seq<Entry>)
    requires Sorted(a + b)
    ensures Sorted(a) && Sorted(b)
    ensures forall x, y :: x in a && y in b ==> Less(x.key, y.key)
  {
    var all := a + b;
    assert forall k :: 0 <= k < |a| ==> all[k] == a[k];
    assert forall k :: 0 <= k < |b| ==> all[|a| + k] == b[k];
    forall x, y | x in a && y in b ensures Less(x.key, y.key) {
      var i :| 0 <= i < |a| && a[i] == x;
      var j :| 0 <= j < |b| && b[j] == y;
      assert Less(all[i].key, all[|a| + j].key);
    }
  }

  lemma CompactionOutputOk(st: State, level: nat, in0: seq<File>, in1: seq<File>, input: seq<Entry>, outputs: seq<File>)
    requires Inv(st) && level + 1 < NUM_LEVELS && GoodInputs(st.levels, level, in0, in1)
    requires CompactionOutput(st, level, in0, in1, input, outputs)
    ensures OutputsOk(st.nextFile, in0, in1, outputs, st.nextFile + |outputs|)
    ensures Contents(outputs)
            == SplitOf(st, level, in0, in1).Kept(SmallestSnapshot(st), BaseLevel(st.levels, level))
  {
    InputSets(st, level, in0, in1);
    LayerStored(st, level + 2);
    LayerStored(st, level + 3);
    assert Elements(input) <= Stored(st);
    UniqueInSubset(Elements(input), Stored(st));
    OutputIsKept(input, outputs, st.nextFile, SmallestSnapshot(st), BaseLevel(st.levels, level));
  }

  lemma OutputIsKept(input: seq<Entry>, outputs: seq<File>, first: nat, smallestSnapshot: nat, base: UserKey -> bool)
    requires Sorted(input) && UniqueSeqNos(Elements(input)) && smallestSnapshot < MAX_SEQUENCE
    requires forall e :: e in Elements(input) ==> e.key.seqNo <= MAX_SEQUENCE
    requires OutputsFrom(outputs, first)
    requires AllEntries(outputs) == KeptUpTo(input, |input|, smallestSnapshot, base)
    ensures FilesOk(outputs, first + |outputs|) && Disjoint(outputs)
    ensures Contents(outputs) == set e | e in Elements(input) && !ObsoleteIn(Elements(input), e, smallestSnapshot, base)
    ensures forall f, g :: f in outputs && g in outputs && f.number == g.number ==> f == g
  {
    KeptIs(input, smallestSnapshot, base);
    OutputsWellFormed(outputs, first);
    ContentsOfAll(outputs);
    OutputsDistinct(outputs, first);
  }

  lemma KeptIs(input: seq<Entry>, smallestSnapshot: nat, base: UserKey -> bool)
    requires Sorted(input) && UniqueSeqNos(Elements(input)) && smallestSnapshot < MAX_SEQUENCE
    ensures Sorted(KeptUpTo(input, |input|, smallestSnapshot, base))
    ensures Elements(KeptUpTo(input, |input|, smallestSnapshot, base))
            == set e | e in Elements(input) && !ObsoleteIn(Elements(input), e, smallestSnapshot, base)
    ensures forall e :: e in KeptUpTo(input, |input|, smallestSnapshot, base) ==> e in Elements(input)
  {
    assert input[..|input|] == input;
    KeptSorted(input, |input|, smallestSnapshot, base);
    KeptElements(input, |input|, smallestSnapshot, base);
  }

  lemma OutputsDistinct(outputs: seq<File>, first: nat)
    requires OutputsFrom(outputs, first)
    ensures forall f, g :: f in outputs && g in outputs && f.number == g.number ==> f == g
  {
    forall f, g | f in outputs && g in outputs && f.number == g.number ensures f == g {
      var i :| 0 <= i < |outputs| && outputs[i] == f;
      var j :| 0 <= j < |outputs| && outputs[j] == g;
    }
  }

  // ------------------------------------------------------------------------
  // The theorem

  /** `u` was deleted, this compaction drops the deletion, and an older value stays behind. */
  ghost predicate ResurrectsKey(st: State, level: nat, in0: seq<File>, in1: seq<File>, u: UserKey)
    requires |st.levels| == NUM_LEVELS && level + 1 < NUM_LEVELS
  {
    SplitOf(st, level, in0, in1).Resurrects(u, SmallestSnapshot(st), BaseLevel(st.levels, level))
  }

  function Compacted(st: State, level: nat, in0: seq<File>, in1: seq<File>, outputs: seq<File>): State
    requires level + 1 < |st.levels|
  {
    Rearranged(st, level, in0, in1, outputs, st.nextFile + |outputs|)
  }

  /** A compaction always keeps the invariant; readers notice nothing exactly when no key
      is resurrected. */
  lemma CompactionExact(st: State, level: nat, in0: seq<File>, in1: seq<File>, input: seq<Entry>, outputs: seq<File>)
    requires Inv(st) && Faithful(st) && level + 1 < NUM_LEVELS
    requires GoodInputs(st.levels, level, in0, in1) && CompactionOutput(st, level, in0, in1, input, outputs)
    ensures Inv(Compacted(st, level, in0, in1, outputs))
    ensures Faithful(Compacted(st, level, in0, in1, outputs))
            <==> forall u :: !ResurrectsKey(st, level, in0, in1, u)
  {
    var smallest := SmallestSnapshot(st);
    var st' := Compacted(st, level, in0, in1, outputs);
    CompactionOutputOk(st, level, in0, in1, input, outputs);
    RearrangeOk(st, level, in0, in1, outputs, st.nextFile + |outputs|);
    CompactionReads(st, level, in0, in1, outputs);
    SameReadsChain(Stored(st), Stored(st'), st.history, smallest);
  }

  /** Nothing obsolete is written: of the entries of a user key that every reader may see only the newest is left, and
      a deletion mark that they all see only where a deeper file reaches over its key. */
  lemma OutputsAreLean(st: State, level: nat, in0: seq<File>, in1: seq<File>, input: seq<Entry>, outputs: seq<File>,
                       a: Entry, b: Entry)
    requires Inv(st) && level + 1 < NUM_LEVELS && GoodInputs(st.levels, level, in0, in1)
    requires CompactionOutput(st, level, in0, in1, input, outputs) && a in Contents(outputs) && b in Contents(outputs)
    ensures a.key.user == b.key.user && a.key.seqNo < b.key.seqNo ==> b.key.seqNo > SmallestSnapshot(st)
    ensures a.key.kind.Deletion? && a.key.seqNo <= SmallestSnapshot(st) ==>
              exists l, f :: && level + 2 <= l < NUM_LEVELS && f in st.levels[l]
                             && f.smallest.user <= a.key.user <= f.largest.user
  {
    hide LayersOk;
    hide GoodInputs;
    hide KeptUpTo;
    hide OutputsOk;
    CompactionOutputOk(st, level, in0, in1, input, outputs);
    var p := SplitOf(st, level, in0, in1);
    assert !p.Obsolete(a, SmallestSnapshot(st), BaseLevel(st.levels, level));
    assert b in p.in0 + p.in1;
    if a.key.kind.Deletion? && a.key.seqNo <= SmallestSnapshot(st) {
      var l :| level + 2 <= l < NUM_LEVELS && CoveredAt(st.levels[l], a.key.user);
      var i :| 0 <= i < |st.levels[l]| && st.levels[l][i].smallest.user <= a.key.user <= st.levels[l][i].largest.user;
      assert st.levels[l][i] in st.levels[l];
    }
  }

  lemma CompactionReads(st: State, level: nat, in0: seq<File>, in1: seq<File>, outputs: seq<File>)
    requires Inv(st) && level + 1 < NUM_LEVELS && GoodInputs(st.levels, level, in0, in1)
    requires Contents(outputs) == SplitOf(st, level, in0, in1).Kept(SmallestSnapshot(st), BaseLevel(st.levels, level))
    ensures SameReads(Stored(st), Stored(Compacted(st, level, in0, in1, outputs)), SmallestSnapshot(st))
            <==> forall u :: !ResurrectsKey(st, level, in0, in1, u)
  {
    CompactedStored(st, level, in0, in1, outputs);
    SplitExact(st, level, in0, in1);
  }

  lemma SplitExact(st: State, level: nat, in0: seq<File>, in1: seq<File>)
    requires Inv(st) && level + 1 < NUM_LEVELS && GoodInputs(st.levels, level, in0, in1)
    ensures SameReads(Stored(st), SplitOf(st, level, in0, in1).After(SmallestSnapshot(st), BaseLevel(st.levels, level)),
                      SmallestSnapshot(st))
            <==> forall u :: !ResurrectsKey(st, level, in0, in1, u)
  {
    var p := SplitOf(st, level, in0, in1);
    SplitIsLayered(st, level, in0, in1);
    DropRulesExact(p, SmallestSnapshot(st), BaseLevel(st.levels, level));
    assert forall u :: ResurrectsKey(st, level, in0, in1, u) <==> p.Resurrects(u, SmallestSnapshot(st), BaseLevel(st.levels, level));
  }

  lemma SplitIsLayered(st: State, level: nat, in0: seq<File>, in1: seq<File>)
    requires Inv(st) && level + 1 < NUM_LEVELS && GoodInputs(st.levels, level, in0, in1)
    ensures SplitOf(st, level, in0, in1).Layered()
    ensures SplitOf(st, level, in0, in1).BaseOk(BaseLevel(st.levels, level))
    ensures SplitOf(st, level, in0, in1).Before() == Stored(st)
  {
    InputSets(st, level, in0, in1);
    SplitLayersOk(LayersOf(st), level + 2, Contents(in0), Contents(in1));
    DeepIsCovered(st, level);
  }

  lemma CompactedStored(st: State, level: nat, in0: seq<File>, in1: seq<File>, outputs: seq<File>)
    requires Inv(st) && level + 1 < NUM_LEVELS && GoodInputs(st.levels, level, in0, in1)
    requires Contents(outputs) == SplitOf(st, level, in0, in1).Kept(SmallestSnapshot(st), BaseLevel(st.levels, level))
    ensures Stored(Compacted(st, level, in0, in1, outputs))
            == SplitOf(st, level, in0, in1).After(SmallestSnapshot(st), BaseLevel(st.levels, level))
  {
    RearrangedLayers(st, level, in0, in1, outputs, st.nextFile + |outputs|);
    AfterLayers(LayersOf(st), level + 2, Contents(in0), Contents(in1), Contents(outputs),
                SmallestSnapshot(st), BaseLevel(st.levels, level));
  }

  lemma AfterLayers(ls: seq<set<Entry>>, a: nat, i0: set<Entry>, i1: set<Entry>, kept: set<Entry>,
                    smallestSnapshot: nat, base: UserKey -> bool)
    requires a + 1 < |ls| && kept == SplitLayers(ls, a, i0, i1).Kept(smallestSnapshot, base)
    ensures Union(ls[a := ls[a] - i0][a + 1 := ls[a + 1] - i1 + kept])
            == SplitLayers(ls, a, i0, i1).After(smallestSnapshot, base)
  {
    CutUnion(ls, a, ls[a] - i0, ls[a + 1] - i1 + kept);
  }

  lemma SameReadsChain(s: set<Entry>, s': set<Entry>, history: set<Entry>, floor: nat)
    requires SameReads(s, history, floor)
    ensures SameReads(s, s', floor) <==> SameReads(s', history, floor)
  {}

  /** Keys the base test accepts have nothing below. */
  lemma DeepIsCovered(st: State, level: nat)
    requires LevelsOk(st.levels, st.nextFile) && level + 1 < NUM_LEVELS
    ensures forall x :: x in Union(LayersOf(st)[level + 4..]) ==> !BaseLevel(st.levels, level)(x.key.user)
  {
    forall x | x in Union(LayersOf(st)[level + 4..]) ensures Covered(st.levels, level, x.key.user) {
      var k :| 0 <= k < LAYERS - level - 4 && x in LayersOf(st)[level + 4..][k];
      var l := k + level + 2;
      assert x in Contents(st.levels[l]);
      var f :| f in st.levels[l] && x in f.entries;
      assert FileOk(f, st.nextFile);
      EntryInRange(f, x);
      assert CoveredAt(st.levels[l], x.key.user);
    }
  }

  /** The `level + 1` inputs leave no file behind that starts with the last user key of one of them. */
  predicate ClosedBelow(levels: seq<seq<File>>, level: nat, in1: seq<File>)
    requires level + 1 < |levels|
  {
    forall f, g :: f in in1 && g in levels[level + 1] && g !in in1 ==> f.largest.user != g.smallest.user
  }

  /** Closing the `level + 1` inputs under boundary user keys, as is done for `level`, would be enough. */
  lemma ClosedBelowIsSafe(st: State, level: nat, in0: seq<File>, in1: seq<File>)
    requires Inv(st) && level + 1 < NUM_LEVELS && GoodInputs(st.levels, level, in0, in1)
    requires ClosedBelow(st.levels, level, in1)
    ensures forall u :: !ResurrectsKey(st, level, in0, in1, u)
  {
    if u :| ResurrectsKey(st, level, in0, in1, u) {
      SplitIsLayered(st, level, in0, in1);
      var t, x := ResurrectionWitness(SplitOf(st, level, in0, in1), SmallestSnapshot(st), BaseLevel(st.levels, level), u);
      BoundaryShared(st.levels, st.nextFile, level, in0, in1, t, x);
    }
  }

  lemma BoundaryShared(levels: seq<seq<File>>, n: nat, level: nat, in0: seq<File>, in1: seq<File>, t: Entry, x: Entry)
    requires LevelsOk(levels, n) && level + 1 < NUM_LEVELS && GoodInputs(levels, level, in0, in1)
    requires t in Contents(in1) && x in Contents(levels[level + 1]) - Contents(in1)
    requires t.key.user == x.key.user && x.key.seqNo < t.key.seqNo
    ensures !ClosedBelow(levels, level, in1)
  {
    InputsInLevels(levels, level, in0, in1);
    var f :| f in in1 && t in f.entries;
    var g :| g in levels[level + 1] && x in g.entries;
    assert g !in in1;
    assert FileOk(f, n) && FileOk(g, n);
    EntryInRange(f, t);
    EntryInRange(g, x);
    InOrder(levels[level + 1], f, g);
  }

  // ------------------------------------------------------------------------
  // Trivial move

  /** A single file that meets nothing at the next level moves down as it is. */
  function Moved(st: State, level: nat, f: File): State
    requires level + 1 < |st.levels|
  {
    Rearranged(st, level, [f], [], [f], st.nextFile)
  }

  lemma TrivialMoveOk(st: State, level: nat, f: File)
    requires Inv(st) && level + 1 < NUM_LEVELS && GoodInputs(st.levels, level, [f], [])
    ensures Inv(Moved(st, level, f)) && Stored(Moved(st, level, f)) == Stored(st)
  {
    RearrangeOk(st, level, [f], [], [f], st.nextFile);
    RearrangedLayers(st, level, [f], [], [f], st.nextFile);
    InputSets(st, level, [f], []);
    SinkAll(LayersOf(st), level + 2, Contents([f]));
  }

  lemma SinkAll(ls: seq<set<Entry>>, a: nat, moved: set<Entry>)
    requires LayersOk(ls) && a + 1 < |ls| && moved <= ls[a] && Above(ls[a] - moved, moved)
    ensures Union(ls[a := ls[a] - moved][a + 1 := ls[a + 1] - Contents([]) + moved]) == Union(ls)
  {
    MoveDown(ls, a, a + 1, moved);
    assert Contents([]) == {};
    assert ls[a + 1] - Contents([]) + moved == ls[a + 1] + moved;
  }
}
