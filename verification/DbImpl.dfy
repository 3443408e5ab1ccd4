/**
 The database object: its methods change the fields in place, and each is proved to make
 exactly one step of `Runs`.
 */
module DbImpl {
  import opened Entries
  import opened Sequences
  import opened VersionSet
  import opened CompactionInputs
  import opened CompactionWork
  import opened LevelEdits
  import opened Store
  import opened StoreSteps
  import opened CompactionStep
  import opened CompactionTheorem
  import opened Merger
  import opened InternalIterator
  import opened GrowingList
  import opened OutputCuts
  import opened Choices
  import opened NextLevel
  import DbIter
  import Lookup
  import Runs

  /** How far down a flushed memtable may go without passing anything it overlaps. */
  method PickLevelForMemTableOutput(levels: seq<seq<File>>, lo: UserKey, hi: UserKey, maxGrandParentOverlap: nat)
    returns (level: nat)
    requires LevelRanges(levels) && lo <= hi
    ensures FlushLevel(levels, level, lo, hi, maxGrandParentOverlap)
  {
    level := 0;
    var overlap := SomeFileOverlapsRange(false, levels[0], Some(lo), Some(hi));
    if !overlap {
      while level < MAX_MEM_COMPACT_LEVEL
        invariant level <= MAX_MEM_COMPACT_LEVEL
        invariant forall l :: 1 <= l <= level ==> MayEnter(levels, l, lo, hi, maxGrandParentOverlap)
      {
        overlap := SomeFileOverlapsRange(true, levels[level + 1], Some(lo), Some(hi));
        if overlap {
          break;
        }
        if level + 2 < NUM_LEVELS {
          var overlaps, l, h := GetOverlappingInputs(false, levels[level + 2], Some(lo), Some(hi));
          if TotalFileSize(overlaps) > maxGrandParentOverlap {
            break;
          }
        }
        level := level + 1;
      }
    }
  }

  /** Nothing on the way down is passed that the new file overlaps. */
  lemma FlushPassesNothing(levels: seq<seq<File>>, level: nat, lo: UserKey, hi: UserKey, overlap: nat)
    requires |levels| == NUM_LEVELS && FlushLevel(levels, level, lo, hi, overlap)
    ensures NoOverlapUpTo(levels, level, lo, hi)
  {
    if level > 0 {
      forall l, g | 0 <= l <= level && g in levels[l] ensures !Overlaps(g, Some(lo), Some(hi)) {
        assert !OverlapsLevel(levels[0], lo, hi);
        assert l > 0 ==> MayEnter(levels, l, lo, hi, overlap);
      }
    }
  }

  /** The children of a compaction's input: one per file at level 0, one per level above. */
  function InputChildren(level: nat, in0: seq<File>, in1: seq<File>): seq<seq<Entry>> {
    (if level == 0 then seq(|in0|, i requires 0 <= i < |in0| => in0[i].entries) else [AllEntries(in0)])
    + [AllEntries(in1)]
  }

  class DB {
    var mem: seq<Entry>
    var imm: Option<seq<Entry>>
    var levels: seq<seq<File>>
    var lastSequence: nat
    var snapshots: seq<nat>
    var nextFile: nat
    ghost var history: set<Entry>

    ghost function Abs(): State
      reads this
    {
      State(mem, imm, levels, lastSequence, snapshots, nextFile, history)
    }

    ghost predicate Valid()
      reads this
    {
      Runs.Good(Abs())
    }

    constructor ()
      ensures Valid() && Abs() == Runs.EMPTY && Faithful(Abs())
    {
      mem, imm, levels := [], None, [[], [], [], [], [], [], []];
      lastSequence, snapshots, nextFile := 0, [], 2;
      history := {};
      new;
      Runs.EmptyOk();
    }

    /** Applies a batch: one entry per operation, consecutive sequence numbers. */
    method Write(ops: seq<Op>)
      requires Valid() && lastSequence + |ops| < MAX_SEQUENCE
      modifies this
      ensures Valid() && Abs() == Runs.Apply(old(Abs()), Runs.WriteBatch(ops))
      ensures old(Faithful(Abs())) ==> Faithful(Abs())
    {
      Runs.StepOk(Abs(), Runs.WriteBatch(ops));
      InsertInto(ops);
    }

    method InsertInto(ops: seq<Op>)
      modifies this
      ensures Abs() == Store.Write(old(Abs()), ops)
    {
      for i := 0 to |ops|
        invariant Abs() == Store.Write(old(Abs()), ops[..i])
      {
        PrefixSnoc(ops, i);
        var e := EntryOf(ops[i], lastSequence + 1);
        mem := InsertSorted(mem, e);
        lastSequence := lastSequence + 1;
        history := history + {e};
      }
      assert ops[..|ops|] == ops;
    }

    method Get(u: UserKey, snapshot: nat) returns (value: Option<UserValue>)
      requires Valid()
      ensures Faithful(Abs()) && snapshot >= SmallestSnapshot(Abs()) ==> value == Read(history, u, snapshot)
    {
      value := Lookup.Get(mem, imm, levels, Abs(), u, snapshot);
    }

    /** An iterator at the given snapshot, or at the present: it shows what the history held then.  `later` is
        what its sources will hold as time goes on, while others write. */
    method NewIterator(snapshot: Option<nat>, later: nat -> seq<Entry>, ghost bound: nat) returns (it: DbIter.DBIter)
      requires Valid() && Faithful(Abs()) && (snapshot.Some? ==> snapshot.value in snapshots)
      requires WritesGoOn(Stored(Abs()), later, if snapshot.Some? then snapshot.value else lastSequence, bound)
      ensures it.Valid() && fresh(it) && it.Current() == None
      ensures it.sequence == (if snapshot.Some? then snapshot.value else lastSequence)
      ensures it.all == history && it.later == later
    {
      var list := NewInternalIterator(mem, imm, levels, Abs());
      var merged := MergeAll(list);
      var sequence := if snapshot.Some? then snapshot.value else lastSequence;
      NotShorter(merged, later(0), sequence);
      it := new DbIter.DBIter(merged, sequence, later, bound, history);
    }

    method GetSnapshot() returns (snapshot: nat)
      requires Valid()
      modifies this`snapshots
      ensures Valid() && snapshot == lastSequence && Abs() == Runs.Apply(old(Abs()), Runs.Snapshot)
      ensures old(Faithful(Abs())) ==> Faithful(Abs())
    {
      Runs.StepOk(Abs(), Runs.Snapshot);
      snapshot := lastSequence;
      snapshots := snapshots + [snapshot];
    }

    /** Gives back the snapshot at place `i` of the list; the others are held on. */
    method ReleaseSnapshot(i: nat)
      requires Valid() && i < |snapshots|
      modifies this`snapshots
      ensures Valid() && Abs() == Runs.Apply(old(Abs()), Runs.Release(i))
      ensures multiset(snapshots) == multiset(old(snapshots)) - multiset{old(snapshots)[i]}
      ensures old(Faithful(Abs())) ==> Faithful(Abs())
    {
      Runs.StepOk(Abs(), Runs.Release(i));
      OthersStay(Abs(), i);
      snapshots := snapshots[..i] + snapshots[i + 1..];
    }

    /** MakeRoomForWrite when the memtable is full and no other one is waiting. */
    method SwitchMemTable()
      requires Valid() && imm.None?
      modifies this
      ensures Valid() && Abs() == Runs.Apply(old(Abs()), Runs.Switch)
      ensures old(Faithful(Abs())) ==> Faithful(Abs())
    {
      Runs.StepOk(Abs(), Runs.Switch);
      imm := Some(mem);
      mem := [];
    }

    /** Writes the immutable memtable as a table of the picked level. */
    method CompactMemTable(o: Options)
      requires Valid() && imm.Some?
      modifies this
      ensures Valid()
      ensures exists level, size :: IsChosen(old(Abs()), Runs.Flush(level, size), Abs(), o, false)
      ensures old(Faithful(Abs())) ==> Faithful(Abs())
    {
      var size := o.sizeOf(imm.value);
      var level := PickFlushLevel(o, size);
      Runs.StepOk(Abs(), Runs.Flush(level, size));
      if |imm.value| > 0 {
        var f := MakeFile(nextFile, size, imm.value);
        nextFile := nextFile + 1;
        levels := levels[level := InsertFile(levels[level], f)];
      }
      imm := None;
      assert IsChosen(old(Abs()), Runs.Flush(level, size), Abs(), o, false);
    }

    method PickFlushLevel(o: Options, ghost size: nat) returns (level: nat)
      requires Valid() && imm.Some?
      ensures Runs.Enabled(Abs(), Runs.Flush(level, size)) && Chosen(Abs(), Runs.Flush(level, size), o, false)
    {
      var es := imm.value;
      level := 0;
      if |es| > 0 {
        LevelsHaveRanges(levels, nextFile);
        assert |es| == 1 || Less(es[0].key, es[|es| - 1].key);
        level := PickLevelForMemTableOutput(levels, es[0].key.user, es[|es| - 1].key.user, o.overlap);
        FlushPassesNothing(levels, level, es[0].key.user, es[|es| - 1].key.user, o.overlap);
      }
    }

    static ghost predicate IsStep(before: State, s: Runs.Step, after: State)
      requires |before.levels| == NUM_LEVELS
    {
      Runs.Enabled(before, s) && after == Runs.Apply(before, s)
    }

    static ghost predicate IsChosen(before: State, s: Runs.Step, after: State, o: Options, manual: bool)
      requires |before.levels| == NUM_LEVELS
    {
      IsStep(before, s, after) && Chosen(before, s, o, manual)
    }

    static lemma MoveIsChosen(before: State, level: nat, f: File, after: State, o: Options)
      requires |before.levels| == NUM_LEVELS && IsStep(before, Runs.Move(level, f), after)
      requires IsTrivialMove(before.levels, level, [f], [], o)
      ensures IsChosen(before, Runs.Move(level, f), after, o, false)
    {}

    static lemma CompactionIsChosen(before: State, level: nat, in0: seq<File>, in1: seq<File>, input: seq<Entry>,
                                    outputs: seq<File>, after: State, o: Options, manual: bool)
      requires |before.levels| == NUM_LEVELS && IsStep(before, Runs.Compact(level, in0, in1, input, outputs), after)
      requires |in0| > 0 && CutAsTold(LimitsOf(before.levels, level, in0, in1, o), input, outputs)
      requires manual || !IsTrivialMove(before.levels, level, in0, in1, o)
      ensures IsChosen(before, Runs.Compact(level, in0, in1, input, outputs), after, o, manual)
    {}

    /** The step is a compaction of the level, or a move, and these files are among its inputs there. */
    static predicate TakesFiles(s: Runs.Step, level: nat, files: seq<File>) {
      match s
      case Move(l, f) => l == level && forall g :: g in files ==> g == f
      case Compact(l, in0, _, _, _) => l == level && forall g :: g in files ==> g in in0
      case _ => false
    }

    static lemma FilesTaken(level: nat, files: seq<File>, in0: seq<File>)
      requires forall f :: f in files ==> f in in0
      ensures |in0| == 1 ==> TakesFiles(Runs.Move(level, in0[0]), level, files)
      ensures forall in1, input, outputs :: TakesFiles(Runs.Compact(level, in0, in1, input, outputs), level, files)
    {}

    /** One compaction of `level`, from the picked files to the installed result. */
    method BackgroundCompaction(level: nat, start: seq<File>, isManual: bool, sizeLimit: int, o: Options)
      returns (ghost step: Runs.Step)
      requires Valid() && level + 1 < NUM_LEVELS && StartInputs(levels, level, start)
      modifies this
      ensures Valid()
      ensures TakesFiles(step, level, start) && IsChosen(old(Abs()), step, Abs(), o, isManual)
      ensures old(Faithful(Abs())) && Runs.Safe(old(Abs()), step) ==> Faithful(Abs())
    {
      LevelsHaveRanges(levels, nextFile);
      var in0, in1, grandparents, _ := SetupOtherInputs(levels, level, start, sizeLimit);
      FilesTaken(level, start, in0);
      assert |in0| > 0 && |levels| == NUM_LEVELS;
      hide TakesFiles;
      hide MeetsAny;
      hide IsChosen;
      hide CutAsTold;
      if !isManual && |in0| == 1 && |in1| == 0 && TotalFileSize(grandparents) <= o.overlap {
        assert in0 == [in0[0]] && in1 == [];
        step := Runs.Move(level, in0[0]);
        MoveDown(level, in0[0]);
        MoveIsChosen(old(Abs()), level, in0[0], Abs(), o);
      } else {
        ghost var input, outputs := DoCompaction(level, in0, in1, grandparents, o);
        step := Runs.Compact(level, in0, in1, input, outputs);
        CompactionIsChosen(old(Abs()), level, in0, in1, input, outputs, Abs(), o, isManual);
      }
    }

    method MoveDown(level: nat, f: File)
      requires Valid() && level + 1 < NUM_LEVELS && GoodInputs(levels, level, [f], [])
      modifies this`levels
      ensures Valid() && IsStep(old(Abs()), Runs.Move(level, f), Abs())
      ensures old(Faithful(Abs())) ==> Faithful(Abs())
    {
      Runs.StepOk(Abs(), Runs.Move(level, f));
      levels := EditLevels(levels, level, [f], [], [f]);
    }

    method DoCompaction(level: nat, in0: seq<File>, in1: seq<File>, grandparents: seq<File>, o: Options)
      returns (ghost merged: seq<Entry>, ghost outputs: seq<File>)
      requires Valid() && level + 1 < NUM_LEVELS && GoodInputs(levels, level, in0, in1)
      requires grandparents == Grandparents(levels, level, in0, in1)
      modifies this
      ensures Valid() && IsStep(old(Abs()), Runs.Compact(level, in0, in1, merged, outputs), Abs())
      ensures CutAsTold(LimitsOf(old(levels), level, in0, in1, o), merged, outputs)
      ensures level + 2 < NUM_LEVELS ==>
                forall f :: f in outputs ==>
                  TotalFileSize(Ending(old(levels)[level + 2], f.smallest, f.largest)) <= o.overlap
      ensures old(Faithful(Abs())) && Runs.Safe(old(Abs()), Runs.Compact(level, in0, in1, merged, outputs)) ==>
                Faithful(Abs())
    {
      var input := MakeInput(level, in0, in1);
      LevelsHaveRanges(levels, nextFile);
      var c := new Compaction(levels, level, grandparents, o.overlap, o.fileSize);
      var smallest := if |snapshots| == 0 then lastSequence else snapshots[0];
      var files := DoCompactionWork(c, input, smallest, o.sizeOf, nextFile);
      merged, outputs := input, files;
      OutputsAreBounded(Abs(), level, in0, in1, input, files, o);
      Install(level, in0, in1, input, files);
    }

    method Install(level: nat, in0: seq<File>, in1: seq<File>, ghost input: seq<Entry>, outputs: seq<File>)
      requires Valid() && Runs.Enabled(Abs(), Runs.Compact(level, in0, in1, input, outputs))
      modifies this
      ensures Valid() && IsStep(old(Abs()), Runs.Compact(level, in0, in1, input, outputs), Abs())
      ensures old(Faithful(Abs())) && Runs.Safe(old(Abs()), Runs.Compact(level, in0, in1, input, outputs)) ==> Faithful(Abs())
    {
      Runs.StepOk(Abs(), Runs.Compact(level, in0, in1, input, outputs));
      InstallCompactionResults(level, in0, in1, outputs);
    }

    method InstallCompactionResults(level: nat, in0: seq<File>, in1: seq<File>, outputs: seq<File>)
      requires level + 1 < |levels|
      modifies this
      ensures Abs() == Compacted(old(Abs()), level, in0, in1, outputs)
    {
      levels := EditLevels(levels, level, in0, in1, outputs);
      nextFile := nextFile + |outputs|;
    }

    method MakeInput(level: nat, in0: seq<File>, in1: seq<File>) returns (input: seq<Entry>)
      requires Valid() && level + 1 < NUM_LEVELS && GoodInputs(levels, level, in0, in1)
      ensures Sorted(input) && Elements(input) == Contents(in0) + Contents(in1)
    {
      ChildrenOk(Abs(), level, in0, in1);
      input := MergeAll(InputChildren(level, in0, in1));
    }
  }

  /** The children are sorted, share no key, and together hold exactly the inputs. */
  lemma ChildrenOk(st: State, level: nat, in0: seq<File>, in1: seq<File>)
    requires Inv(st) && level + 1 < NUM_LEVELS && GoodInputs(st.levels, level, in0, in1)
    ensures forall i :: 0 <= i < |InputChildren(level, in0, in1)| ==> Sorted(InputChildren(level, in0, in1)[i])
    ensures DistinctKeys(InputChildren(level, in0, in1))
    ensures AllOf(InputChildren(level, in0, in1)) == Contents(in0) + Contents(in1)
  {
    InputsInLevels(st.levels, level, in0, in1);
    InputsSorted(st, level, in0, in1);
    ChildrenContents(level, in0, in1);
    var children: seq<seq<Entry>> := InputChildren(level, in0, in1);
    forall i: nat, j: nat, k: nat, l: nat |
      i < |children| && j < |children| && k < |children[i]| && l < |children[j]| && children[i][k].key == children[j][l].key
      ensures i == j
    {
      OneChild(st, level, in0, in1, i, j, k, l);
    }
  }

  lemma InputsSorted(st: State, level: nat, in0: seq<File>, in1: seq<File>)
    requires Inv(st) && level + 1 < NUM_LEVELS && GoodInputs(st.levels, level, in0, in1)
    ensures Sorted(AllEntries(in1)) && (level > 0 ==> Sorted(AllEntries(in0)))
    ensures forall i :: 0 <= i < |in0| ==> Sorted(in0[i].entries)
  {
    InputsInLevels(st.levels, level, in0, in1);
    LevelsHaveRanges(st.levels, st.nextFile);
    var a := FilterIsRun(st.levels[level + 1], HullLo(in0), HullHi(in0));
    RunIsDisjoint(st.levels[level + 1], in1, a);
    assert forall f :: f in in1 ==> FileOk(f, st.nextFile);
    AllEntriesSorted(in1, st.nextFile);
    forall i | 0 <= i < |in0| ensures FileOk(in0[i], st.nextFile) {
      assert in0[i] in in0;
    }
    if level > 0 {
      var i: nat :| ClosedRun(st.levels[level], in0, i);
      RunIsDisjoint(st.levels[level], in0, i);
      AllEntriesSorted(in0, st.nextFile);
    }
  }

  lemma RunIsDisjoint(files: seq<File>, run: seq<File>, i: nat)
    requires Disjoint(files) && IsRun(files, run, i)
    ensures Disjoint(run)
  {
    assert forall k :: 0 <= k < |run| ==> run[k] == files[i + k];
  }

  lemma ChildrenContents(level: nat, in0: seq<File>, in1: seq<File>)
    ensures AllOf(InputChildren(level, in0, in1)) == Contents(in0) + Contents(in1)
  {
    ContentsOfAll(in0);
    ContentsOfAll(in1);
    var children: seq<seq<Entry>> := InputChildren(level, in0, in1);
    assert children[|children| - 1] == AllEntries(in1);
    forall e | e in Contents(in0) ensures e in AllOf(children) {
      if level == 0 {
        var f :| f in in0 && e in f.entries;
        var i :| 0 <= i < |in0| && in0[i] == f;
        assert e in children[i];
      } else {
        assert children[0] == AllEntries(in0);
        assert e in children[0];
      }
    }
    forall e | e in AllOf(children) ensures e in Contents(in0) + Contents(in1) {
      var i :| 0 <= i < |children| && e in children[i];
      if i < |children| - 1 && level == 0 {
        assert in0[i] in in0 && e in in0[i].entries;
      }
    }
  }

  /** Equal keys mean one entry, and an entry lies in one file of one level. */
  lemma OneChild(st: State, level: nat, in0: seq<File>, in1: seq<File>, i: nat, j: nat, k: nat, l: nat)
    requires Inv(st) && level + 1 < NUM_LEVELS && GoodInputs(st.levels, level, in0, in1)
    requires var c := InputChildren(level, in0, in1);
             i < |c| && j < |c| && k < |c[i]| && l < |c[j]| && c[i][k].key == c[j][l].key
    ensures i == j
  {
    var c: seq<seq<Entry>> := InputChildren(level, in0, in1);
    var n := |c| - 1;
    ContentsOfAll(in0);
    ContentsOfAll(in1);
    InputSets(st, level, in0, in1);
    LayerStored(st, level + 2);
    LayerStored(st, level + 3);
    var x, y := c[i][k], c[j][l];
    ChildIn(level, in0, in1, i, x);
    ChildIn(level, in0, in1, j, y);
    assert x == y;
    if i < n && j < n && level == 0 {
      InputsInLevels(st.levels, level, in0, in1);
      LevelsShareNothing(st.levels, st.nextFile, 0);
      assert in0[i] in in0 && in0[j] in in0;
      assert x in in0[i].entries && x in in0[j].entries;
      assert in0[i] == in0[j];
    } else if (i < n) != (j < n) {
      assert Above(LayersOf(st)[level + 2], LayersOf(st)[level + 3]);
    }
  }

  lemma ChildIn(level: nat, in0: seq<File>, in1: seq<File>, i: nat, x: Entry)
    requires var c := InputChildren(level, in0, in1); i < |c| && x in c[i]
    ensures if i < |InputChildren(level, in0, in1)| - 1 then x in Contents(in0) else x in Contents(in1)
  {
    ContentsOfAll(in0);
    ContentsOfAll(in1);
    if i < |InputChildren(level, in0, in1)| - 1 && level == 0 {
      assert in0[i] in in0 && x in in0[i].entries;
    } else if i < |InputChildren(level, in0, in1)| - 1 {
      assert x in Elements(AllEntries(in0));
    } else {
      assert x in Elements(AllEntries(in1));
    }
  }
}
