/**
 The run that leads from the empty store to the state of `ResurrectionExample`: every step is enabled
 and safe, and one that the database takes.  One more compaction then brings a deleted key back.

 A file of a far key comes to lie in level 3, by a flush to level 2 and a trivial move.  Keys 1 and 2 are
 flushed to level 2, and a compaction of the whole key range, which the far file makes reach level 2,
 cuts them into two files of level 3 between the deletion of key 2 and its older value, because a
 snapshot still needs both and a file is full.
 */
module ResurrectionRun {
  import opened Entries
  import opened VersionSet
  import opened CompactionInputs
  import opened CompactionWork
  import opened OutputCuts
  import opened LevelEdits
  import opened Store
  import opened StoreSteps
  import opened CompactionTheorem
  import opened ResurrectionExample
  import opened Choices
  import opened Runs

  /** A table is as large as it has entries, and full with two of them. */
  const OPTIONS := Options(20, 2, (es: seq<Entry>) => |es|)

  const NO_FILES: seq<seq<File>> := [[], [], [], [], [], [], []]
  const OLDEST := MakeFile(3, 3, [OLD1, GONE2, OLD2])
  const FAR_HIGH: seq<seq<File>> := [[], [], [FAR], [], [], [], []]
  const FAR_LOW: seq<seq<File>> := [[], [], [], [FAR], [], [], []]
  const TWO_FILES: seq<seq<File>> := [[], [], [OLDEST], [FAR], [], [], []]
  const CUT: seq<seq<File>> := [[], [], [], [LEFT, RIGHT, FAR], [], [], []]

  const STARTED := State([FAR9], None, NO_FILES, 1, [], 2, {FAR9})
  const MOVABLE := State([], None, FAR_HIGH, 1, [], 3, {FAR9})
  const MOVED := State([], None, FAR_LOW, 1, [], 3, {FAR9})
  const WRITTEN := State([OLD1, OLD2], None, FAR_LOW, 3, [], 3, {FAR9, OLD1, OLD2})
  const DELETED := State([OLD1, GONE2, OLD2], None, FAR_LOW, 4, [3], 3, LOWER)
  const FLUSHED := State([], None, TWO_FILES, 4, [3], 4, LOWER)
  const SPLIT := State([], None, CUT, 4, [3], 6, LOWER)
  const REWRITTEN := State([NEW1], None, CUT, 5, [], 6, ALL)

  // ------------------------------------------------------------------------
  // Writing

  lemma InsertBetween(front: seq<Entry>, back: seq<Entry>, e: Entry)
    requires forall k :: 0 <= k < |front| ==> Less(front[k].key, e.key)
    requires forall k :: 0 <= k < |back| ==> LessEq(e.key, back[k].key)
    ensures InsertSorted(front + back, e) == front + [e] + back
  {
    var es := front + back;
    var i := FirstAtOrAfter(es, e.key);
    assert forall k :: 0 <= k < |front| ==> es[k] == front[k];
    assert |front| < |es| ==> es[|front|] == back[0];
    assert i == |front|;
    assert es[..|front|] == front && es[|front|..] == back;
  }

  lemma InsertFirst(e: Entry)
    ensures InsertSorted([], e) == [e]
  {
    var none: seq<Entry> := [];
    InsertBetween(none, none, e);
    assert none + [e] + none == [e] && none + none == none;
  }

  lemma OneOp(st: State, op: Op)
    ensures Write(st, [op]) == WriteOne(st, op)
  {
    assert [op][..0] == [];
  }

  lemma FarWrite()
    ensures Write(EMPTY, [Put(9, "far")]) == STARTED
  {
    OneOp(EMPTY, Put(9, "far"));
    InsertFirst(FAR9);
    assert {} + {FAR9} == {FAR9};
  }

  lemma FirstWrite()
    ensures Write(MOVED, [Put(1, "old"), Put(2, "back")]) == WRITTEN
  {
    var ops := [Put(1, "old"), Put(2, "back")];
    assert ops[..1] == [Put(1, "old")];
    OneOp(MOVED, Put(1, "old"));
    InsertFirst(OLD1);
    InsertBetween([OLD1], [], OLD2);
    assert [OLD1] + [] == [OLD1] && [OLD1] + [OLD2] + [] == [OLD1, OLD2];
    assert {FAR9} + {OLD1} + {OLD2} == {FAR9, OLD1, OLD2};
  }

  lemma SecondWrite()
    ensures Write(TakeSnapshot(WRITTEN), [Delete(2)]) == DELETED
  {
    OneOp(TakeSnapshot(WRITTEN), Delete(2));
    InsertBetween([OLD1], [OLD2], GONE2);
    assert [OLD1] + [OLD2] == WRITTEN.mem && [OLD1] + [GONE2] + [OLD2] == DELETED.mem;
    assert {FAR9, OLD1, OLD2} + {GONE2} == LOWER;
  }

  lemma ThirdWrite()
    ensures Write(ReleaseSnapshot(SPLIT, 0), [Put(1, "new")]) == REWRITTEN
  {
    OneOp(ReleaseSnapshot(SPLIT, 0), Put(1, "new"));
    InsertFirst(NEW1);
    assert LOWER + {NEW1} == ALL;
  }

  // ------------------------------------------------------------------------
  // Flushing

  /** With nothing above level 3, a flush goes to level 2 if level 3 does not hold too much below it. */
  lemma GoesToTwo(levels: seq<seq<File>>, lo: UserKey, hi: UserKey)
    requires |levels| == NUM_LEVELS && forall l :: 0 <= l <= 2 ==> levels[l] == []
    requires TotalFileSize(OverlapFilter(levels[3], Some(lo), Some(hi))) <= OPTIONS.overlap
    ensures FlushLevel(levels, 2, lo, hi, OPTIONS.overlap)
  {
    assert MayEnter(levels, 1, lo, hi, OPTIONS.overlap) && MayEnter(levels, 2, lo, hi, OPTIONS.overlap);
  }

  lemma FarFlush()
    ensures Runs.Enabled(SwitchMemTable(STARTED), Flush(2, 1)) && Taken(SwitchMemTable(STARTED), Flush(2, 1), OPTIONS)
    ensures Flushed(SwitchMemTable(STARTED), 2, 1) == MOVABLE
  {
    assert forall l :: 0 <= l < NUM_LEVELS ==> NO_FILES[l] == [];
    assert InsertFile([], FAR) == [FAR];
    assert NO_FILES[2 := [FAR]] == FAR_HIGH;
    GoesToTwo(NO_FILES, 9, 9);
  }

  lemma FirstFlush()
    ensures Runs.Enabled(SwitchMemTable(DELETED), Flush(2, 3)) && Taken(SwitchMemTable(DELETED), Flush(2, 3), OPTIONS)
    ensures Flushed(SwitchMemTable(DELETED), 2, 3) == FLUSHED
  {
    assert forall l :: 0 <= l <= 2 ==> FAR_LOW[l] == [];
    assert InsertFile([], OLDEST) == [OLDEST];
    assert FAR_LOW[2 := [OLDEST]] == TWO_FILES;
    FarApart();
    GoesToTwo(FAR_LOW, 1, 2);
  }

  lemma FarApart()
    ensures OverlapFilter([FAR], Some(1), Some(2)) == [] && OverlapFilter([FAR], Some(1), Some(1)) == []
  {
    assert [FAR][..0] == [];
  }

  lemma SecondFlush()
    ensures Runs.Enabled(SwitchMemTable(REWRITTEN), Flush(2, 1)) && Taken(SwitchMemTable(REWRITTEN), Flush(2, 1), OPTIONS)
    ensures Flushed(SwitchMemTable(REWRITTEN), 2, 1) == STATE
  {
    assert forall l :: 0 <= l <= 2 ==> CUT[l] == [];
    assert InsertFile([], UPPER) == [UPPER];
    assert CUT[2 := [UPPER]] == LEVELS;
    ExampleMet();
    assert [LEFT][..0] == [] && TotalFileSize([LEFT]) == 2;
    GoesToTwo(CUT, 1, 1);
  }

  // ------------------------------------------------------------------------
  // Moving the far file

  lemma FarMove()
    ensures Runs.Enabled(MOVABLE, Move(2, FAR)) && Taken(MOVABLE, Move(2, FAR), OPTIONS)
    ensures Moved(MOVABLE, 2, FAR) == MOVED
  {
    assert ClosedRun(FAR_HIGH[2], [FAR], 0);
    assert OverlapFilter(FAR_HIGH[3], HullLo([FAR]), HullHi([FAR])) == [];
    assert Grandparents(FAR_HIGH, 2, [FAR], []) == [];
    DropsLone(FAR);
    DropsNone([]);
    AddOne(FAR);
    assert FAR_HIGH[2 := []][3 := [FAR]] == FAR_LOW;
  }

  lemma DropsLone(f: File)
    ensures DropFiles([f], Numbers([f])) == []
  {
    assert f in [f] && f.number in Numbers([f]);
    assert [f][1..] == [];
    assert DropFiles([f][1..], Numbers([f])) == [];
  }

  lemma {:induction false} DropsNone(files: seq<File>)
    ensures DropFiles(files, Numbers([])) == files
  {
    if |files| > 0 {
      DropsNone(files[1..]);
      assert files == [files[0]] + files[1..];
    }
  }

  lemma AddOne(f: File)
    ensures AddFiles([], [f]) == [f]
  {
    assert [f][..0] == [];
    assert AddFiles([], []) == [] && InsertFile([], f) == [f];
  }

  // ------------------------------------------------------------------------
  // Compacting the whole range

  lemma AllKept(base: UserKey -> bool)
    ensures KeptUpTo([OLD1, GONE2, OLD2], 3, 3, base) == [OLD1, GONE2, OLD2]
  {
    var input := [OLD1, GONE2, OLD2];
    assert !Drops(input, 0, 3, base) && !Drops(input, 1, 3, base) && !Drops(input, 2, 3, base);
    assert KeptUpTo(input, 1, 3, base) == [OLD1];
    assert KeptUpTo(input, 2, 3, base) == [OLD1] + [GONE2];
  }

  lemma CutInputs()
    ensures GoodInputs(TWO_FILES, 2, [OLDEST], [])
  {
    assert ClosedRun(TWO_FILES[2], [OLDEST], 0);
    FarApart();
    assert HullLo([OLDEST]) == Some(1) && HullHi([OLDEST]) == Some(2);
  }

  lemma CutOutput()
    ensures CompactionOutput(FLUSHED, 2, [OLDEST], [], [OLD1, GONE2, OLD2], [LEFT, RIGHT])
  {
    AllKept(BaseLevel(TWO_FILES, 2));
    FileContents(OLDEST);
    assert Contents([OLDEST]) + Contents([]) == Elements([OLD1, GONE2, OLD2]);
    assert [LEFT, RIGHT][..1] == [LEFT] && [LEFT][..0] == [];
    assert AllEntries([LEFT]) == AllEntries([]) + [OLD1, GONE2] == [OLD1, GONE2];
    assert AllEntries([LEFT, RIGHT]) == AllEntries([LEFT]) + [OLD2];
  }

  /** Without grandparents nothing is ever passed. */
  lemma NoStops(l: Limits, input: seq<Entry>)
    requires l.grandparents == []
    ensures forall i: nat :: i < |input| ==> !Stops(l, input, i)
  {}

  lemma CutAtTwo()
    requires Runs.Enabled(FLUSHED, Compact(2, [OLDEST], [], [OLD1, GONE2, OLD2], [LEFT, RIGHT]))
    ensures Taken(FLUSHED, Compact(2, [OLDEST], [], [OLD1, GONE2, OLD2], [LEFT, RIGHT]), OPTIONS)
  {
    var l := LimitsOf(TWO_FILES, 2, [OLDEST], [], OPTIONS);
    var input := [OLD1, GONE2, OLD2];
    assert l.grandparents == [];
    NoStops(l, input);
    assert OneFile(l, input, LEFT) && OneFile(l, input, RIGHT) && Ended(l, input, LEFT, RIGHT.smallest);
    assert |TWO_FILES[3]| > 0;
  }

  lemma AddedHalves()
    ensures AddFiles([FAR], [LEFT, RIGHT]) == [LEFT, RIGHT, FAR]
  {
    assert [LEFT, RIGHT][..1] == [LEFT] && [LEFT][..0] == [] && [LEFT, FAR][1..] == [FAR];
    assert AddFiles([FAR], [LEFT]) == InsertFile(AddFiles([FAR], []), LEFT) == [LEFT, FAR];
    assert AddFiles([FAR], [LEFT, RIGHT]) == InsertFile([LEFT, FAR], RIGHT);
    assert InsertFile([FAR], RIGHT) == [RIGHT, FAR];
    assert InsertFile([LEFT, FAR], RIGHT) == [LEFT] + InsertFile([FAR], RIGHT);
  }

  lemma CutLevels()
    ensures Compacted(FLUSHED, 2, [OLDEST], [], [LEFT, RIGHT]) == SPLIT
  {
    hide DropFiles;
    hide AddFiles;
    DropsLone(OLDEST);
    DropsNone([FAR]);
    AddedHalves();
    assert TWO_FILES[2] == [OLDEST] && TWO_FILES[3] == [FAR];
    assert TWO_FILES[2 := []][3 := [LEFT, RIGHT, FAR]] == CUT;
  }

  lemma CutIsSafe()
    ensures forall u :: !ResurrectsKey(FLUSHED, 2, [OLDEST], [], u)
  {
    assert SplitOf(FLUSHED, 2, [OLDEST], []).in1 == {};
  }

  // ------------------------------------------------------------------------
  // The run

  lemma Reaches(st: State, s: Step, t: State)
    requires Reached(st, OPTIONS) && |st.levels| == NUM_LEVELS && Runs.Enabled(st, s) && Safe(st, s)
    requires Taken(st, s, OPTIONS) && t == Runs.Apply(st, s)
    ensures Reached(t, OPTIONS)
  {
    StepIsReached(st, s, OPTIONS);
  }

  lemma UntilMoved()
    ensures Reached(MOVED, OPTIONS)
  {
    hide Reached;
    StartIsReached(OPTIONS);
    FarWrite();
    Reaches(EMPTY, WriteBatch([Put(9, "far")]), STARTED);
    Reaches(STARTED, Switch, SwitchMemTable(STARTED));
    FarFlush();
    Reaches(SwitchMemTable(STARTED), Flush(2, 1), MOVABLE);
    FarMove();
    Reaches(MOVABLE, Move(2, FAR), MOVED);
  }

  lemma UntilFlushed()
    ensures Reached(FLUSHED, OPTIONS)
  {
    hide Reached;
    UntilMoved();
    FirstWrite();
    Reaches(MOVED, WriteBatch([Put(1, "old"), Put(2, "back")]), WRITTEN);
    Reaches(WRITTEN, Snapshot, TakeSnapshot(WRITTEN));
    SecondWrite();
    Reaches(TakeSnapshot(WRITTEN), WriteBatch([Delete(2)]), DELETED);
    Reaches(DELETED, Switch, SwitchMemTable(DELETED));
    FirstFlush();
    Reaches(SwitchMemTable(DELETED), Flush(2, 3), FLUSHED);
  }

  /** Compacting a key range first flushes the memtable, which is empty here. */
  lemma NothingToFlush()
    requires Reached(FLUSHED, OPTIONS)
    ensures Flushed(SwitchMemTable(FLUSHED), 0, 0) == FLUSHED && Reached(SwitchMemTable(FLUSHED), OPTIONS)
  {
    hide Reached;
    Reaches(FLUSHED, Switch, SwitchMemTable(FLUSHED));
    Reaches(SwitchMemTable(FLUSHED), Flush(0, 0), FLUSHED);
  }

  lemma UntilSplit()
    ensures Reached(SPLIT, OPTIONS)
  {
    hide Reached;
    hide ResurrectsKey;
    hide Taken;
    UntilFlushed();
    NothingToFlush();
    CutInputs();
    CutOutput();
    CutIsSafe();
    CutAtTwo();
    CutLevels();
    Reaches(FLUSHED, Compact(2, [OLDEST], [], [OLD1, GONE2, OLD2], [LEFT, RIGHT]), SPLIT);
  }

  lemma ExampleIsReachable()
    ensures Reached(STATE, OPTIONS)
  {
    hide Reached;
    UntilSplit();
    Reaches(SPLIT, Release(0), ReleaseSnapshot(SPLIT, 0));
    ThirdWrite();
    Reaches(ReleaseSnapshot(SPLIT, 0), WriteBatch([Put(1, "new")]), REWRITTEN);
    Reaches(REWRITTEN, Switch, SwitchMemTable(REWRITTEN));
    SecondFlush();
    Reaches(SwitchMemTable(REWRITTEN), Flush(2, 1), STATE);
  }

  const LAST := Compact(2, [UPPER], [LEFT], [NEW1, OLD1, GONE2], [OUTPUT])

  /** The last compaction merges two files, and its one output is cut by the end of the input. */
  lemma LastIsChosen(st: State)
    requires st.levels == LEVELS && Runs.Enabled(st, LAST)
    ensures Chosen(st, LAST, OPTIONS, false)
  {
    var l := LimitsOf(LEVELS, 2, [UPPER], [LEFT], OPTIONS);
    assert l.grandparents == [];
    NoStops(l, [NEW1, OLD1, GONE2]);
    assert OneFile(l, [NEW1, OLD1, GONE2], OUTPUT);
  }

  /** After a run of safe steps, a compaction that the database takes makes the store unfaithful: key 2,
      deleted for good, reads as present. */
  lemma RunBringsKeyBack()
    ensures Reached(STATE, OPTIONS) && Faithful(STATE) && Read(STATE.history, 2, 5) == None
    ensures Runs.Enabled(STATE, LAST) && Chosen(STATE, LAST, OPTIONS, false)
    ensures !Faithful(Runs.Apply(STATE, LAST)) && Read(Stored(Runs.Apply(STATE, LAST)), 2, 5).Some?
  {
    hide Reached;
    hide Inv;
    hide GoodInputs;
    hide CompactionOutput;
    hide Faithful;
    hide Compacted;
    hide Stored;
    hide Chosen;
    ExampleIsReachable();
    DeletedKeyReturns();
    LastIsChosen(STATE);
  }
}
