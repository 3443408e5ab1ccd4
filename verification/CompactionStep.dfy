/**
 A compaction (or a trivial move) as a step of the store: it always keeps the invariant,
 and it changes what readers see exactly when it resurrects a deleted key.
 */
module CompactionStep {
  import opened Entries
  import opened VersionSet
  import opened CompactionInputs
  import opened LevelEdits
  import opened Layers
  import opened Store
  import opened StoreSteps
  import opened CompactionMeaning

  /** Inputs leave both levels; the outputs join `level + 1`. */
  function EditLevels(levels: seq<seq<File>>, level: nat, in0: seq<File>, in1: seq<File>, outputs: seq<File>): seq<seq<File>>
    requires level + 1 < |levels|
  {
    levels[level := DropFiles(levels[level], Numbers(in0))]
          [level + 1 := AddFiles(DropFiles(levels[level + 1], Numbers(in1)), outputs)]
  }

  function Rearranged(st: State, level: nat, in0: seq<File>, in1: seq<File>, outputs: seq<File>, nextFile: nat): State
    requires level + 1 < |st.levels|
  {
    st.(levels := EditLevels(st.levels, level, in0, in1, outputs), nextFile := nextFile)
  }

  /** Outputs carry new numbers, or are inputs of `level` moved as they are. */
  ghost predicate OutputsOk(n: nat, in0: seq<File>, in1: seq<File>, outputs: seq<File>, nextFile: nat) {
    && n <= nextFile
    && FilesOk(outputs, nextFile) && Disjoint(outputs)
    && (forall f :: f in outputs ==> f.number >= n || f in in0)
    && (forall f, g :: f in outputs && g in outputs && f.number == g.number ==> f == g)
    && Contents(outputs) <= Contents(in0) + Contents(in1)
  }

  // ------------------------------------------------------------------------
  // What the choice of inputs guarantees

  lemma InputsInLevels(levels: seq<seq<File>>, level: nat, in0: seq<File>, in1: seq<File>)
    requires |levels| == NUM_LEVELS && level + 1 < NUM_LEVELS && GoodInputs(levels, level, in0, in1)
    ensures forall f :: f in in0 ==> f in levels[level]
    ensures forall f :: f in in1 <==> f in levels[level + 1] && Overlaps(f, HullLo(in0), HullHi(in0))
  {
    FilterMembers(levels[level + 1], HullLo(in0), HullHi(in0));
  }

  lemma InputEntryInHull(levels: seq<seq<File>>, nextFile: nat, level: nat, in0: seq<File>, e: Entry)
    requires LevelsOk(levels, nextFile) && level < NUM_LEVELS && ClosedInputs(levels, level, in0)
    requires e in Contents(in0)
    ensures HullLo(in0).value <= e.key.user <= HullHi(in0).value
  {
    var g :| g in in0 && e in g.entries;
    var q :| 0 <= q < |in0| && in0[q] == g;
    assert g in levels[level] && FileOk(g, nextFile);
    EntryInRange(g, e);
    HullCovers(in0, q);
  }

  /** Entries left at `level` are newer than the inputs with the same user key. */
  lemma LeftIsNewer(levels: seq<seq<File>>, nextFile: nat, level: nat, in0: seq<File>)
    requires LevelsOk(levels, nextFile) && level < NUM_LEVELS && ClosedInputs(levels, level, in0)
    requires UniqueSeqNos(Contents(levels[level]))
    ensures Above(Contents(levels[level]) - Contents(in0), Contents(in0))
  {
    var files := levels[level];
    forall a, b | a in Contents(files) - Contents(in0) && b in Contents(in0) && a.key.user == b.key.user
      ensures a.key.seqNo > b.key.seqNo
    {
      var f :| f in files && a in f.entries;
      assert f !in in0;
      assert FileOk(f, nextFile);
      EntryInRange(f, a);
      if level == 0 {
        InputEntryInHull(levels, nextFile, level, in0, b);
        MeetsClosed(files, in0, f, a.key.user);
      } else {
        var g :| g in in0 && b in g.entries;
        assert g in files && FileOk(g, nextFile);
        EntryInRange(g, b);
        LevelsHaveRanges(levels, nextFile);
        LeftBefore(files, in0, f, g, a.key.user);
      }
    }
  }

  lemma MeetsClosed(files: seq<File>, in0: seq<File>, f: File, u: UserKey)
    requires |in0| > 0 && OverlapClosed(files, in0) && f in files
    requires f.smallest.user <= u <= f.largest.user && HullLo(in0).value <= u <= HullHi(in0).value
    ensures f in in0
  {
    assert Overlaps(f, HullLo(in0), HullHi(in0));
  }

  /** A file left out of a closed run that shares a user key with it comes before it. */
  lemma LeftBefore(files: seq<File>, run: seq<File>, f: File, g: File, u: UserKey)
    requires Disjoint(files) && RangesOk(files)
    requires |run| > 0 && exists i: nat :: ClosedRun(files, run, i)
    requires f in files && f !in run && g in run
    requires f.smallest.user <= u <= f.largest.user && g.smallest.user <= u <= g.largest.user
    ensures Less(f.largest, g.smallest)
  {
    var i: nat :| ClosedRun(files, run, i);
    var p :| 0 <= p < |files| && files[p] == f;
    var q :| 0 <= q < |run| && run[q] == g;
    assert files[i + q] == g;
    OutsideRun(files, run, i, p);
    LargestIncreasing(files, i + |run| - 1);
    assert run[|run| - 1] == files[i + |run| - 1];
  }

  /** Where a file of the level stands to a closed run: before it, in it, or beyond its user keys. */
  lemma OutsideRun(files: seq<File>, run: seq<File>, i: nat, p: nat)
    requires Disjoint(files) && RangesOk(files) && p < |files|
    requires |run| > 0 && ClosedRun(files, run, i)
    ensures p < i || files[p] in run || files[p].smallest.user > run[|run| - 1].largest.user
  {
    var e := i + |run|;
    if i <= p < e {
      assert run[p - i] == files[p];
    } else if p > e {
      assert RangeOk(files[e]) && Less(files[e].largest, files[p].smallest);
    }
  }

  /** A file left at `level + 1` lies on one side of all inputs. */
  lemma LeftApart(levels: seq<seq<File>>, nextFile: nat, level: nat, in0: seq<File>, in1: seq<File>, r: File)
    requires LevelsOk(levels, nextFile) && level + 1 < NUM_LEVELS && GoodInputs(levels, level, in0, in1)
    requires r in levels[level + 1] && r !in in1
    ensures (forall e :: e in Contents(in0) + Contents(in1) ==> Less(r.largest, e.key))
            || (forall e :: e in Contents(in0) + Contents(in1) ==> Less(e.key, r.smallest))
    ensures forall e :: e in Contents(in0) ==> !(r.smallest.user <= e.key.user <= r.largest.user)
  {
    var lo, hi := HullLo(in0).value, HullHi(in0).value;
    InputsInLevels(levels, level, in0, in1);
    assert FileOk(r, nextFile);
    forall e | e in Contents(in0) ensures lo <= e.key.user <= hi {
      InputEntryInHull(levels, nextFile, level, in0, e);
    }
    if r.largest.user < lo {
      forall e | e in Contents(in1) ensures Less(r.largest, e.key) {
        SideOfInput(levels, nextFile, level, in0, in1, r, e);
      }
    } else {
      forall e | e in Contents(in1) ensures Less(e.key, r.smallest) {
        SideOfInput(levels, nextFile, level, in0, in1, r, e);
      }
    }
  }

  lemma SideOfInput(levels: seq<seq<File>>, nextFile: nat, level: nat, in0: seq<File>, in1: seq<File>, r: File, e: Entry)
    requires LevelsOk(levels, nextFile) && level + 1 < NUM_LEVELS && GoodInputs(levels, level, in0, in1)
    requires r in levels[level + 1] && r !in in1 && e in Contents(in1)
    ensures if r.largest.user < HullLo(in0).value then Less(r.largest, e.key) else Less(e.key, r.smallest)
  {
    var files := levels[level + 1];
    InputsInLevels(levels, level, in0, in1);
    var f :| f in in1 && e in f.entries;
    assert FileOk(r, nextFile) && FileOk(f, nextFile);
    EntryInRange(f, e);
    RangeIsOk(r);
    RangeIsOk(f);
    var p :| 0 <= p < |files| && files[p] == r;
    var q :| 0 <= q < |files| && files[q] == f;
    assert p < q ==> Less(files[p].largest, files[q].smallest);
    assert q < p ==> Less(files[q].largest, files[p].smallest);
  }

  // ------------------------------------------------------------------------
  // The levels stay well formed

  lemma RearrangeLevels(levels: seq<seq<File>>, n: nat, level: nat, in0: seq<File>, in1: seq<File>,
                        outputs: seq<File>, nextFile: nat)
    requires LevelsOk(levels, n) && level + 1 < NUM_LEVELS
    requires GoodInputs(levels, level, in0, in1) && OutputsOk(n, in0, in1, outputs, nextFile)
    ensures LevelsOk(EditLevels(levels, level, in0, in1, outputs), nextFile)
  {
    var levels' := EditLevels(levels, level, in0, in1, outputs);
    forall l | 0 <= l < NUM_LEVELS ensures FilesOk(levels'[l], nextFile) {
      forall f | f in levels'[l] ensures FileOk(f, nextFile) {
        EditedMember(levels, n, level, in0, in1, outputs, l, f);
        assert f in levels[l] ==> FileOk(f, n);
      }
    }
    RearrangeNumbers(levels, n, level, in0, in1, outputs, nextFile);
    RearrangeDisjoint(levels, n, level, in0, in1, outputs, nextFile);
    forall f | f in levels'[0] ensures f in levels[0] {
      EditedMember(levels, n, level, in0, in1, outputs, 0, f);
    }
    DropNoDup(levels[0], Numbers(in0));
  }

  /** After the edit, a file of a level is an output or an old file that was no input. */
  ghost predicate OutputOrLeft(levels: seq<seq<File>>, level: nat, in0: seq<File>, in1: seq<File>,
                               outputs: seq<File>, l: nat, f: File)
    requires l < |levels|
  {
    || (l == level + 1 && f in outputs)
    || (f in levels[l] && (l == level ==> f !in in0) && (l == level + 1 ==> f !in in1))
  }

  lemma EditedMember(levels: seq<seq<File>>, n: nat, level: nat, in0: seq<File>, in1: seq<File>,
                     outputs: seq<File>, l: nat, f: File)
    requires LevelsOk(levels, n) && level + 1 < NUM_LEVELS && GoodInputs(levels, level, in0, in1)
    requires l < NUM_LEVELS && f in EditLevels(levels, level, in0, in1, outputs)[l]
    ensures OutputOrLeft(levels, level, in0, in1, outputs, l, f)
  {
    if l == level {
      DropMembers(levels[level], Numbers(in0));
    } else if l == level + 1 {
      AddMembers(DropFiles(levels[level + 1], Numbers(in1)), outputs);
      DropMembers(levels[level + 1], Numbers(in1));
    }
  }

  lemma RearrangeNumbers(levels: seq<seq<File>>, n: nat, level: nat, in0: seq<File>, in1: seq<File>,
                         outputs: seq<File>, nextFile: nat)
    requires LevelsOk(levels, n) && level + 1 < NUM_LEVELS
    requires GoodInputs(levels, level, in0, in1) && OutputsOk(n, in0, in1, outputs, nextFile)
    ensures NumbersUnique(EditLevels(levels, level, in0, in1, outputs))
  {
    var levels' := EditLevels(levels, level, in0, in1, outputs);
    forall k: nat, l: nat, m: nat, g, h | Names(levels', k, l, g) && Names(levels', k, m, h)
      ensures l == m && g == h
    {
      EditedMember(levels, n, level, in0, in1, outputs, l, g);
      EditedMember(levels, n, level, in0, in1, outputs, m, h);
      if l == level + 1 && g in outputs {
        if !(m == level + 1 && h in outputs) {
          OldNotOutput(levels, n, level, in0, in1, m, h, g);
        }
      } else if m == level + 1 && h in outputs {
        OldNotOutput(levels, n, level, in0, in1, l, g, h);
      } else {
        SameNumber(levels, l, m, g, h);
      }
    }
  }

  lemma OldNotOutput(levels: seq<seq<File>>, n: nat, level: nat, in0: seq<File>, in1: seq<File>, l: nat, g: File, out: File)
    requires LevelsOk(levels, n) && level + 1 < NUM_LEVELS && l < NUM_LEVELS
    requires GoodInputs(levels, level, in0, in1)
    requires g in levels[l] && (l == level ==> g !in in0)
    requires out.number >= n || out in in0
    ensures g.number != out.number
  {
    assert FileOk(g, n);
    if g.number == out.number {
      InputsInLevels(levels, level, in0, in1);
      SameNumber(levels, l, level, g, out);
    }
  }

  lemma RearrangeDisjoint(levels: seq<seq<File>>, n: nat, level: nat, in0: seq<File>, in1: seq<File>,
                          outputs: seq<File>, nextFile: nat)
    requires LevelsOk(levels, n) && level + 1 < NUM_LEVELS
    requires GoodInputs(levels, level, in0, in1) && OutputsOk(n, in0, in1, outputs, nextFile)
    ensures Disjoint(EditLevels(levels, level, in0, in1, outputs)[level + 1])
    ensures level > 0 ==> Disjoint(EditLevels(levels, level, in0, in1, outputs)[level])
  {
    LevelsHaveRanges(levels, n);
    var rest := DropFiles(levels[level + 1], Numbers(in1));
    DropDisjoint(levels[level + 1], Numbers(in1));
    if level > 0 {
      DropDisjoint(levels[level], Numbers(in0));
    }
    forall f | f in outputs ensures RangeOk(f) {
      assert FileOk(f, nextFile);
      RangeIsOk(f);
    }
    forall f, r | f in outputs && r in rest ensures Apart(f, r) {
      OutputApart(levels, n, level, in0, in1, outputs, nextFile, f, r);
    }
    AddDisjoint(rest, outputs);
  }

  lemma OutputApart(levels: seq<seq<File>>, n: nat, level: nat, in0: seq<File>, in1: seq<File>,
                    outputs: seq<File>, nextFile: nat, f: File, r: File)
    requires LevelsOk(levels, n) && level + 1 < NUM_LEVELS
    requires GoodInputs(levels, level, in0, in1) && OutputsOk(n, in0, in1, outputs, nextFile)
    requires f in outputs && r in DropFiles(levels[level + 1], Numbers(in1))
    ensures Apart(f, r)
  {
    DropMembers(levels[level + 1], Numbers(in1));
    var first, last := Ends(outputs, nextFile, f);
    assert first in Contents(in0) + Contents(in1) && last in Contents(in0) + Contents(in1);
    LeftApart(levels, n, level, in0, in1, r);
  }

  lemma Ends(files: seq<File>, nextFile: nat, f: File) returns (first: Entry, last: Entry)
    requires FilesOk(files, nextFile) && f in files
    ensures first in Contents(files) && first.key == f.smallest
    ensures last in Contents(files) && last.key == f.largest
  {
    assert FileOk(f, nextFile);
    first, last := f.entries[0], f.entries[|f.entries| - 1];
    assert first in f.entries && last in f.entries;
  }

  // ------------------------------------------------------------------------
  // The layers stay in order

  lemma RearrangedLayers(st: State, level: nat, in0: seq<File>, in1: seq<File>, outputs: seq<File>, nextFile: nat)
    requires LevelsOk(st.levels, st.nextFile) && level + 1 < NUM_LEVELS && GoodInputs(st.levels, level, in0, in1)
    ensures LayersOf(Rearranged(st, level, in0, in1, outputs, nextFile))
            == LayersOf(st)[level + 2 := LayersOf(st)[level + 2] - Contents(in0)]
                           [level + 3 := LayersOf(st)[level + 3] - Contents(in1) + Contents(outputs)]
  {
    var levels := st.levels;
    InputsInLevels(levels, level, in0, in1);
    ContentsDrop(levels, st.nextFile, level, in0);
    ContentsDrop(levels, st.nextFile, level + 1, in1);
    ContentsAdd(DropFiles(levels[level + 1], Numbers(in1)), outputs);
    LayersEdited(st, level, levels[level := DropFiles(levels[level], Numbers(in0))]
                           [level + 1 := AddFiles(DropFiles(levels[level + 1], Numbers(in1)), outputs)], nextFile);
  }

  lemma LayersEdited(st: State, level: nat, levels': seq<seq<File>>, nextFile: nat)
    requires |levels'| == |st.levels| && level + 1 < |st.levels|
    requires forall l :: 0 <= l < |levels'| && l != level && l != level + 1 ==> levels'[l] == st.levels[l]
    ensures LayersOf(st.(levels := levels', nextFile := nextFile))
            == LayersOf(st)[level + 2 := Contents(levels'[level])][level + 3 := Contents(levels'[level + 1])]
  {}

  lemma RearrangeOk(st: State, level: nat, in0: seq<File>, in1: seq<File>, outputs: seq<File>, nextFile: nat)
    requires Inv(st) && level + 1 < NUM_LEVELS
    requires GoodInputs(st.levels, level, in0, in1) && OutputsOk(st.nextFile, in0, in1, outputs, nextFile)
    ensures Inv(Rearranged(st, level, in0, in1, outputs, nextFile))
    ensures Stored(Rearranged(st, level, in0, in1, outputs, nextFile)) <= Stored(st)
  {
    RearrangeLevels(st.levels, st.nextFile, level, in0, in1, outputs, nextFile);
    RearrangeLayers(st, level, in0, in1, outputs, nextFile);
    hide LayersOk;
    hide LayersOf;
    hide Stored;
    hide LevelsOk;
    hide GoodInputs;
    hide OutputsOk;
    hide EditLevels;
    hide SeqNosOk;
    SeqNosInSubset(Stored(Rearranged(st, level, in0, in1, outputs, nextFile)), Stored(st), st.history, st.lastSequence);
  }

  lemma RearrangeLayers(st: State, level: nat, in0: seq<File>, in1: seq<File>, outputs: seq<File>, nextFile: nat)
    requires Inv(st) && level + 1 < NUM_LEVELS
    requires GoodInputs(st.levels, level, in0, in1) && OutputsOk(st.nextFile, in0, in1, outputs, nextFile)
    ensures LayersOk(LayersOf(Rearranged(st, level, in0, in1, outputs, nextFile)))
    ensures Stored(Rearranged(st, level, in0, in1, outputs, nextFile)) <= Stored(st)
  {
    assert |st.levels| == NUM_LEVELS && |LayersOf(st)| == NUM_LEVELS + 2;
    hide LayersOk;
    hide LayersOf;
    hide LevelsOk;
    hide GoodInputs;
    hide Contents;
    hide EditLevels;
    hide Union;
    hide SeqNosOk;
    hide Above;
    RearrangedLayers(st, level, in0, in1, outputs, nextFile);
    InputSets(st, level, in0, in1);
    SinkAndShrink(LayersOf(st), level + 2, Contents(in0), LayersOf(st)[level + 3] - Contents(in1) + Contents(outputs));
  }

  lemma SeqNosInSubset(less: set<Entry>, stored: set<Entry>, history: set<Entry>, lastSequence: nat)
    requires less <= stored && SeqNosOk(stored, history, lastSequence)
    ensures SeqNosOk(less, history, lastSequence)
  {
    UniqueInSubset(less, stored);
  }

  lemma SinkAndShrink(ls: seq<set<Entry>>, a: nat, moved: set<Entry>, below: set<Entry>)
    requires LayersOk(ls) && a + 1 < |ls| && moved <= ls[a] && Above(ls[a] - moved, moved)
    requires below <= ls[a + 1] + moved
    ensures LayersOk(ls[a := ls[a] - moved][a + 1 := below])
    ensures Union(ls[a := ls[a] - moved][a + 1 := below]) <= Union(ls)
  {
    MoveDown(ls, a, a + 1, moved);
    var ls1 := ls[a := ls[a] - moved][a + 1 := ls[a + 1] + moved];
    Shrink(ls1, a + 1, below);
    assert ls1[a + 1 := below] == ls[a := ls[a] - moved][a + 1 := below];
  }

  /** The inputs as entry sets. */
  lemma InputSets(st: State, level: nat, in0: seq<File>, in1: seq<File>)
    requires Inv(st) && level + 1 < NUM_LEVELS && GoodInputs(st.levels, level, in0, in1)
    ensures Contents(in0) <= LayersOf(st)[level + 2] && Contents(in1) <= LayersOf(st)[level + 3]
    ensures Above(LayersOf(st)[level + 2] - Contents(in0), Contents(in0))
    ensures forall x, y :: x in LayersOf(st)[level + 3] - Contents(in1) && y in Contents(in0) ==> x.key.user != y.key.user
  {
    var levels := st.levels;
    InputsInLevels(levels, level, in0, in1);
    LayerStored(st, level + 2);
    UniqueInSubset(Contents(levels[level]), Stored(st));
    LeftIsNewer(levels, st.nextFile, level, in0);
    forall x, y | x in Contents(levels[level + 1]) - Contents(in1) && y in Contents(in0) ensures x.key.user != y.key.user {
      LeftHasOtherUsers(levels, st.nextFile, level, in0, in1, x, y);
    }
  }

  lemma LeftHasOtherUsers(levels: seq<seq<File>>, n: nat, level: nat, in0: seq<File>, in1: seq<File>, x: Entry, y: Entry)
    requires LevelsOk(levels, n) && level + 1 < NUM_LEVELS && GoodInputs(levels, level, in0, in1)
    requires x in Contents(levels[level + 1]) && x !in Contents(in1) && y in Contents(in0)
    ensures x.key.user != y.key.user
  {
    var r: File :| r in levels[level + 1] && x in r.entries;
    assert r !in in1 && FileOk(r, n);
    LeftApart(levels, n, level, in0, in1, r);
    EntryInRange(r, x);
  }

  lemma LayerStored(st: State, k: nat)
    requires k < |LayersOf(st)|
    ensures LayersOf(st)[k] <= Stored(st)
  {}
}
