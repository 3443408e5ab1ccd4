/**
 What a crash leaves of the store: all files, and of the memtables whatever the logs still hold.

 Compactions drop entries because of newer ones; the lemmas here show that those are in the files too,
 so that the store reopens to exactly the history without the writes that were lost.  That asks a little
 more of a compaction than readers do: a newer entry that only a log holds does not excuse it for leaving
 an older one in view.
 */
module CrashSafety {
  import opened Entries
  import opened VersionSet
  import opened CompactionInputs
  import opened CompactionWork
  import opened LevelEdits
  import opened Layers
  import opened Store
  import opened StoreSteps
  import opened CompactionStep
  import opened CompactionTheorem
  import opened Runs

  // ------------------------------------------------------------------------
  // How far the files go

  /** The largest sequence number among the entries, or `least`. */
  function Highest(es: seq<Entry>, least: nat): (r: nat)
    ensures r >= least && forall e :: e in es ==> e.key.seqNo <= r
    ensures r == least || exists e :: e in es && e.key.seqNo == r
  {
    if |es| == 0 then least
    else
      var rest := Highest(es[1..], least);
      assert es == [es[0]] + es[1..];
      if es[0].key.seqNo > rest then es[0].key.seqNo else rest
  }

  ghost function FlushedAfter(st: State, s: Step, flushed: nat): nat {
    if s.Flush? && st.imm.Some? then Highest(st.imm.value, flushed) else flushed
  }

  /** The largest sequence number flushed in the first `k` steps. */
  ghost function FlushedUpTo(states: seq<State>, steps: seq<Step>, k: nat): nat
    requires k <= |steps| < |states|
  {
    if k == 0 then 0 else FlushedAfter(states[k - 1], steps[k - 1], FlushedUpTo(states, steps, k - 1))
  }

  /** What is in no file yet. */
  ghost function MemEntries(st: State): set<Entry> {
    Elements(st.mem) + ImmElements(st.imm)
  }

  ghost function UpTo(s: set<Entry>, n: nat): set<Entry> {
    set e | e in s && e.key.seqNo <= n
  }

  ghost function Beyond(s: set<Entry>, n: nat): set<Entry> {
    set e | e in s && e.key.seqNo > n
  }

  /** The files go up to `flushed`, the immutable memtable goes on from there, then the memtable. */
  ghost predicate InSequence(st: State, flushed: nat) {
    && flushed <= st.lastSequence
    && MemEntries(st) == Beyond(st.history, flushed)
    && (st.imm.Some? ==> forall a, b :: a in st.mem && b in st.imm.value ==> a.key.seqNo > b.key.seqNo)
    && (forall l :: 0 <= l < |st.levels| ==> Bounded(Contents(st.levels[l]), flushed))
  }

  /** The oldest reader there is, counting one who comes back after a crash. */
  function Floor(st: State, flushed: nat): nat {
    if SmallestSnapshot(st) <= flushed then SmallestSnapshot(st) else flushed
  }

  /** The state as that reader holds it. */
  function Floored(st: State, floor: nat): State {
    st.(snapshots := [floor])
  }

  ghost predicate Durable(st: State, flushed: nat) {
    InSequence(st, flushed) && SameReads(Stored(st), st.history, Floor(st, flushed))
  }

  /** A compaction brings no key back, not even for a reader who comes back after a crash. */
  ghost predicate CrashSafe(st: State, s: Step, flushed: nat)
    requires |st.levels| == NUM_LEVELS && Enabled(st, s)
  {
    s.Compact? ==> forall u :: !ResurrectsKey(Floored(st, Floor(st, flushed)), s.level, s.in0, s.in1, u)
  }

  // ------------------------------------------------------------------------
  // Steps keep the sequence

  lemma {:induction false} WriteInSequence(st: State, ops: seq<Op>, flushed: nat)
    requires Inv(st) && InSequence(st, flushed) && st.lastSequence + |ops| < MAX_SEQUENCE
    ensures InSequence(Write(st, ops), flushed)
  {
    hide Inv;
    hide InsertSorted;
    if |ops| > 0 {
      var init := ops[..|ops| - 1];
      WriteInSequence(st, init, flushed);
      WriteOk(st, init);
      WriteOneInSequence(Write(st, init), ops[|ops| - 1], flushed);
    }
  }

  lemma WriteOneInSequence(st: State, op: Op, flushed: nat)
    requires Inv(st) && InSequence(st, flushed) && st.lastSequence + 1 < MAX_SEQUENCE
    ensures InSequence(WriteOne(st, op), flushed)
  {
    hide LevelsOk;
    hide LayersOk;
    hide InsertSorted;
    var e := EntryOf(op, st.lastSequence + 1);
    JoinsMem(st.mem, e);
    assert MemEntries(WriteOne(st, op)) == MemEntries(st) + {e};
    if st.imm.Some? {
      forall b | b in st.imm.value ensures b.key.seqNo <= st.lastSequence {
        assert b in LayersOf(st)[1];
        LayerStored(st, 1);
      }
    }
  }

  lemma JoinsMem(es: seq<Entry>, e: Entry)
    ensures Elements(InsertSorted(es, e)) == Elements(es) + {e}
  {
    var i := FirstAtOrAfter(es, e.key);
    assert es == es[..i] + es[i..];
    assert forall x :: x in es <==> x in es[..i] || x in es[i..];
  }

  lemma FlushInSequence(st: State, level: nat, size: nat, flushed: nat)
    requires Inv(st) && InSequence(st, flushed) && st.imm.Some? && level < NUM_LEVELS
    ensures InSequence(Flushed(st, level, size), Highest(st.imm.value, flushed))
  {
    hide LevelsOk;
    hide LayersOk;
    hide SeqNosOk;
    GoodLength(st);
    hide Flushed;
    var highest := Highest(st.imm.value, flushed);
    FlushKeeps(st, level, size);
    InMem(st, flushed);
    ImmBounded(st);
    forall e ensures e in st.mem <==> e in Beyond(st.history, highest) {
      assert e in Elements(st.mem) <==> e in st.mem;
    }
    assert MemEntries(Flushed(st, level, size)) == Elements(st.mem);
    FlushBounded(st, level, size, flushed);
  }

  lemma FlushKeeps(st: State, level: nat, size: nat)
    requires st.imm.Some? && level < |st.levels|
    ensures var st' := Flushed(st, level, size);
            && st'.mem == st.mem && st'.imm == None && st'.history == st.history
            && st'.lastSequence == st.lastSequence && |st'.levels| == |st.levels|
  {}

  lemma FlushBounded(st: State, level: nat, size: nat, flushed: nat)
    requires InSequence(st, flushed) && st.imm.Some? && level < |st.levels|
    ensures forall l :: 0 <= l < |st.levels| ==>
              Bounded(Contents(Flushed(st, level, size).levels[l]), Highest(st.imm.value, flushed))
  {
    hide Beyond;
    if |st.imm.value| > 0 {
      InsertMembers(st.levels[level], MakeFile(st.nextFile, size, st.imm.value));
    }
  }

  lemma ImmBounded(st: State)
    requires Inv(st) && st.imm.Some?
    ensures forall e :: e in st.imm.value ==> e.key.seqNo <= st.lastSequence
  {
    forall e | e in st.imm.value ensures e.key.seqNo <= st.lastSequence {
      assert e in LayersOf(st)[1];
      LayerStored(st, 1);
    }
  }

  /** Memtable by memtable: written, and not yet in a file. */
  lemma InMem(st: State, flushed: nat)
    requires InSequence(st, flushed)
    ensures forall e :: e in st.mem ==> e in st.history && e.key.seqNo > flushed
    ensures st.imm.Some? ==> forall e :: e in st.imm.value ==> e in st.history && e.key.seqNo > flushed
    ensures forall e :: e in st.history && e.key.seqNo > flushed ==> e in st.mem || (st.imm.Some? && e in st.imm.value)
  {
    forall e | e in st.mem || (st.imm.Some? && e in st.imm.value) ensures e in Beyond(st.history, flushed) {
      assert e in Elements(st.mem) || e in ImmElements(st.imm);
      assert e in MemEntries(st);
    }
    forall e | e in st.history && e.key.seqNo > flushed ensures e in st.mem || (st.imm.Some? && e in st.imm.value) {
      assert e in Beyond(st.history, flushed);
      assert e in MemEntries(st);
    }
  }

  lemma RearrangeInSequence(st: State, level: nat, in0: seq<File>, in1: seq<File>, outputs: seq<File>,
                            nextFile: nat, flushed: nat)
    requires Inv(st) && InSequence(st, flushed) && level + 1 < NUM_LEVELS && GoodInputs(st.levels, level, in0, in1)
    requires Contents(outputs) <= Contents(in0) + Contents(in1)
    ensures InSequence(Rearranged(st, level, in0, in1, outputs, nextFile), flushed)
  {
    hide LayersOk;
    hide LevelsOk;
    hide SeqNosOk;
    hide GoodInputs;
    hide EditLevels;
    hide LayersOf;
    hide Beyond;
    GoodLength(st);
    var st' := Rearranged(st, level, in0, in1, outputs, nextFile);
    RearrangedLayers(st, level, in0, in1, outputs, nextFile);
    InputSets(st, level, in0, in1);
    LayersBounded(st, flushed);
    LevelsAreLayers(st');
    forall l | 0 <= l < NUM_LEVELS ensures Bounded(Contents(st'.levels[l]), flushed) {
      assert LayersOf(st')[l + 2] == Contents(st'.levels[l]);
    }
  }

  lemma LayersBounded(st: State, flushed: nat)
    requires InSequence(st, flushed)
    ensures |LayersOf(st)| == |st.levels| + 2
    ensures forall k :: 2 <= k < |LayersOf(st)| ==> Bounded(LayersOf(st)[k], flushed)
  {
    forall k | 2 <= k < |LayersOf(st)| ensures Bounded(LayersOf(st)[k], flushed) {
      assert LayersOf(st)[k] == Contents(st.levels[k - 2]);
    }
  }

  lemma LevelsAreLayers(st: State)
    ensures |LayersOf(st)| == |st.levels| + 2
    ensures forall l :: 0 <= l < |st.levels| ==> LayersOf(st)[l + 2] == Contents(st.levels[l])
  {}

  lemma StepInSequence(st: State, s: Step, flushed: nat)
    requires Good(st) && Enabled(st, s) && InSequence(st, flushed)
    ensures InSequence(Apply(st, s), FlushedAfter(st, s, flushed))
  {
    hide Inv;
    hide GoodInputs;
    hide CompactionOutput;
    match s
    case WriteBatch(ops) => WriteInSequence(st, ops, flushed);
    case FailWrite(count) =>
    case Switch =>
    case Flush(level, size) => FlushInSequence(st, level, size, flushed);
    case Move(level, f) => RearrangeInSequence(st, level, [f], [], [f], st.nextFile, flushed);
    case Compact(level, in0, in1, input, outputs) =>
      CompactionOutputOk(st, level, in0, in1, input, outputs);
      RearrangeInSequence(st, level, in0, in1, outputs, st.nextFile + |outputs|, flushed);
    case Snapshot =>
    case Release(i) => ReleaseSnapshotOk(st, i);
  }

  // ------------------------------------------------------------------------
  // Steps keep what such a reader sees

  lemma FlooredOk(st: State, floor: nat)
    requires Good(st) && floor <= st.lastSequence
    ensures Good(Floored(st, floor)) && Stored(Floored(st, floor)) == Stored(st)
    ensures SmallestSnapshot(Floored(st, floor)) == floor
  {
    assert LayersOf(Floored(st, floor)) == LayersOf(st);
  }

  /** For entries that are all flushed, the drop rules do not tell the floor from the oldest snapshot. */
  lemma {:induction false} SameKept(input: seq<Entry>, n: nat, smallest: nat, flushed: nat, base: UserKey -> bool)
    requires n <= |input| && smallest < MAX_SEQUENCE && forall e :: e in input ==> e.key.seqNo <= flushed
    ensures var floor := if smallest <= flushed then smallest else flushed;
            flushed < MAX_SEQUENCE ==> KeptUpTo(input, n, floor, base) == KeptUpTo(input, n, smallest, base)
  {
    if n > 0 {
      SameKept(input, n - 1, smallest, flushed, base);
      assert input[n - 1] in input;
      assert n > 1 ==> input[n - 2] in input;
    }
  }

  /** What is compacted has been flushed. */
  lemma InputFlushed(st: State, flushed: nat, level: nat, in0: seq<File>, in1: seq<File>, e: Entry)
    requires Inv(st) && level + 1 < NUM_LEVELS && GoodInputs(st.levels, level, in0, in1) && InSequence(st, flushed)
    requires e in Contents(in0) + Contents(in1)
    ensures e.key.seqNo <= flushed
  {
    InputSets(st, level, in0, in1);
    LevelsAreLayers(st);
    hide Inv;
    hide GoodInputs;
    hide LayersOf;
    hide Contents;
    assert e in Contents(st.levels[level]) || e in Contents(st.levels[level + 1]);
  }

  lemma SameOutput(st: State, flushed: nat, s: Step)
    requires Good(st) && s.Compact? && Enabled(st, s) && InSequence(st, flushed)
    ensures Enabled(Floored(st, Floor(st, flushed)), s)
  {
    hide LayersOk;
    hide LayersOf;
    assert |st.levels| == NUM_LEVELS && |Floored(st, Floor(st, flushed)).levels| == NUM_LEVELS;
    hide LevelsOk;
    hide GoodInputs;
    hide Contents;
    hide KeptUpTo;
    hide OutputsFrom;
    hide BaseLevel;
    forall e | e in s.input ensures e.key.seqNo <= flushed {
      assert e in Elements(s.input);
      InputFlushed(st, flushed, s.level, s.in0, s.in1, e);
    }
    SameKept(s.input, |s.input|, SmallestSnapshot(st), flushed, BaseLevel(st.levels, s.level));
  }

  lemma {:induction false} WriteFloored(st: State, ops: seq<Op>, floor: nat)
    ensures Write(Floored(st, floor), ops) == Floored(Write(st, ops), floor)
    ensures Write(st, ops).snapshots == st.snapshots
  {
    if |ops| > 0 {
      WriteFloored(st, ops[..|ops| - 1], floor);
    }
  }

  /** Steps other than taking and releasing snapshots do not mind which snapshots there are. */
  lemma StepFloored(st: State, s: Step, floor: nat)
    requires |st.levels| == NUM_LEVELS && Enabled(st, s) && Enabled(Floored(st, floor), s)
    requires !s.Snapshot? && !s.Release?
    ensures Apply(Floored(st, floor), s) == Floored(Apply(st, s), floor) && Apply(st, s).snapshots == st.snapshots
  {
    if s.WriteBatch? { WriteFloored(st, s.ops, floor); }
  }

  lemma FloorGrows(st: State, s: Step, flushed: nat)
    requires Good(st) && Enabled(st, s)
    ensures SmallestSnapshot(st) <= SmallestSnapshot(Apply(st, s))
    ensures Floor(st, flushed) <= Floor(Apply(st, s), FlushedAfter(st, s, flushed))
  {
    hide Inv;
    match s
    case WriteBatch(ops) =>
      WriteOk(st, ops);
      WriteFloored(st, ops, 0);
    case Release(i) => ReleaseSnapshotOk(st, i);
    case _ =>
  }

  lemma OnlySnapshots(st: State, s: Step)
    requires Good(st) && Enabled(st, s) && (s.Snapshot? || s.Release?)
    ensures Stored(Apply(st, s)) == Stored(st) && Apply(st, s).history == st.history
  {
    assert LayersOf(Apply(st, s)) == LayersOf(st);
  }

  lemma GoodLevels(st: State)
    requires Good(st)
    ensures |st.levels| == NUM_LEVELS
  {}

  /** A reader at the floor keeps reading the history. */
  lemma StepKeepsReads(st: State, s: Step, flushed: nat)
    requires Good(st) && Enabled(st, s) && Durable(st, flushed) && CrashSafe(st, s, flushed)
    ensures SameReads(Stored(Apply(st, s)), Apply(st, s).history, Floor(st, flushed))
  {
    hide Inv;
    hide SameReads;
    hide Stored;
    hide InSequence;
    hide ResurrectsKey;
    hide CompactionOutput;
    hide GoodInputs;
    GoodLevels(st);
    var floor := Floor(st, flushed);
    if s.Snapshot? || s.Release? {
      OnlySnapshots(st, s);
    } else {
      FloorBounded(st, flushed);
      FlooredOk(st, floor);
      if s.Compact? { SameOutput(st, flushed, s); }
      StepOk(Floored(st, floor), s);
      StepFloored(st, s, floor);
      StepOk(st, s);
      FlooredStored(Apply(st, s), floor);
    }
  }

  lemma FloorBounded(st: State, flushed: nat)
    requires InSequence(st, flushed)
    ensures Floor(st, flushed) <= st.lastSequence
  {}

  lemma FlooredStored(st: State, floor: nat)
    ensures Stored(Floored(st, floor)) == Stored(st) && SmallestSnapshot(Floored(st, floor)) == floor
  {
    assert LayersOf(Floored(st, floor)) == LayersOf(st);
  }

  lemma StepDurable(st: State, s: Step, flushed: nat)
    requires Good(st) && Enabled(st, s) && Durable(st, flushed) && CrashSafe(st, s, flushed)
    ensures Durable(Apply(st, s), FlushedAfter(st, s, flushed))
  {
    hide Inv;
    hide Stored;
    hide InSequence;
    hide CrashSafe;
    hide Enabled;
    hide Apply;
    hide Read;
    GoodLevels(st);
    StepKeepsReads(st, s, flushed);
    StepInSequence(st, s, flushed);
    FloorGrows(st, s, flushed);
    LaterFloor(Stored(Apply(st, s)), Apply(st, s).history,
               Floor(st, flushed), Floor(Apply(st, s), FlushedAfter(st, s, flushed)));
  }

  /** For a compaction the condition is exact: without it the store would not survive a crash. */
  lemma CompactionDurableExact(st: State, s: Step, flushed: nat)
    requires Good(st) && s.Compact? && Enabled(st, s) && Durable(st, flushed)
    ensures Durable(Apply(st, s), flushed) <==> CrashSafe(st, s, flushed)
  {
    hide LevelsOk;
    hide LayersOk;
    hide SeqNosOk;
    hide SameReads;
    hide Stored;
    hide InSequence;
    hide ResurrectsKey;
    hide CompactionOutput;
    hide GoodInputs;
    GoodLevels(st);
    var floor := Floor(st, flushed);
    FloorBounded(st, flushed);
    FlooredOk(st, floor);
    SameOutput(st, flushed, s);
    CompactionExact(Floored(st, floor), s.level, s.in0, s.in1, s.input, s.outputs);
    StepFloored(st, s, floor);
    StepInSequence(st, s, flushed);
    FlooredStored(Apply(st, s), floor);
  }

  /** Closing the `level + 1` inputs under boundary user keys would be enough for this, too. */
  lemma ClosedBelowIsCrashSafe(st: State, s: Step, flushed: nat)
    requires Good(st) && s.Compact? && Enabled(st, s) && InSequence(st, flushed)
    requires ClosedBelow(st.levels, s.level, s.in1)
    ensures CrashSafe(st, s, flushed)
  {
    hide Inv;
    hide ResurrectsKey;
    hide GoodInputs;
    hide CompactionOutput;
    FloorBounded(st, flushed);
    FlooredOk(st, Floor(st, flushed));
    ClosedBelowIsSafe(Floored(st, Floor(st, flushed)), s.level, s.in0, s.in1);
  }

  // ------------------------------------------------------------------------
  // Reopening

  /** The memtable that replaying the logs builds: a part of what they held. */
  ghost predicate Replayed(st: State, mem: seq<Entry>) {
    Sorted(mem) && Elements(mem) <= MemEntries(st)
  }

  /** The store as it opens after a crash: the files as they were, no snapshots, and a history without the
      writes that were lost.  The sequence number it goes on from may be above the last one recovered. */
  ghost function Reopened(st: State, mem: seq<Entry>, lastSequence: nat): State {
    State(mem, None, st.levels, lastSequence, [], st.nextFile, st.history - (MemEntries(st) - Elements(mem)))
  }

  lemma ReadUpTo(s: set<Entry>, n: nat, u: UserKey, snapshot: nat)
    requires UniqueSeqNos(s)
    ensures Read(UpTo(s, n), u, snapshot) == Read(s, u, if snapshot <= n then snapshot else n)
  {
    var t := if snapshot <= n then snapshot else n;
    var r := FindsExists(s, u, t);
    FindsIsRead(s, u, t, r);
    assert forall x :: Visible(UpTo(s, n), u, snapshot, x) <==> Visible(s, u, t, x);
    FindsIsRead(UpTo(s, n), u, snapshot, r);
  }

  lemma ReadsUpTo(s: set<Entry>, t: set<Entry>, n: nat, floor: nat)
    requires UniqueSeqNos(s) && UniqueSeqNos(t) && SameReads(s, t, floor) && floor <= n
    ensures SameReads(UpTo(s, n), UpTo(t, n), floor)
  {
    hide UpTo;
    hide UniqueSeqNos;
    forall u, snapshot: nat | snapshot >= floor
      ensures Read(UpTo(s, n), u, snapshot) == Read(UpTo(t, n), u, snapshot)
    {
      ReadUpTo(s, n, u, snapshot);
      ReadUpTo(t, n, u, snapshot);
    }
  }

  /** The files hold what was stored up to `flushed`. */
  lemma FilesUpTo(st: State, flushed: nat)
    requires InSequence(st, flushed) && |st.levels| == NUM_LEVELS
    ensures UpTo(Stored(st), flushed) == Union(LevelLayers(st.levels))
  {
    var ls, files := LayersOf(st), LevelLayers(st.levels);
    InMem(st, flushed);
    forall e | e in UpTo(Union(ls), flushed) ensures e in Union(files) {
      var k :| 0 <= k < |ls| && e in ls[k];
      assert k >= 2 && files[k - 2] == ls[k];
    }
    forall e | e in Union(files) ensures e in UpTo(Union(ls), flushed) {
      var k :| 0 <= k < |files| && e in files[k];
      assert ls[k + 2] == files[k] == Contents(st.levels[k]);
    }
  }

  lemma ReopenedStored(st: State, mem: seq<Entry>, lastSequence: nat)
    ensures Stored(Reopened(st, mem, lastSequence)) == Union(LevelLayers(st.levels)) + Elements(mem)
  {
    var ls', files := LayersOf(Reopened(st, mem, lastSequence)), LevelLayers(st.levels);
    forall e | e in Union(ls') ensures e in Union(files) + Elements(mem) {
      var k :| 0 <= k < |ls'| && e in ls'[k];
      assert k >= 2 ==> files[k - 2] == ls'[k];
    }
    forall e | e in Union(files) + Elements(mem) ensures e in Union(ls') {
      if e in Elements(mem) {
        assert e in ls'[0];
      } else {
        var k :| 0 <= k < |files| && e in files[k];
        assert ls'[k + 2] == files[k];
      }
    }
  }

  lemma ReopenedHistory(st: State, flushed: nat, mem: seq<Entry>, lastSequence: nat)
    requires InSequence(st, flushed) && Replayed(st, mem)
    ensures Reopened(st, mem, lastSequence).history == UpTo(st.history, flushed) + Elements(mem)
  {
    forall e ensures e in st.history - (MemEntries(st) - Elements(mem)) <==> e in UpTo(st.history, flushed) + Elements(mem) {
      assert e in MemEntries(st) <==> e in Beyond(st.history, flushed);
    }
  }

  lemma ReopenedLayers(st: State, mem: seq<Entry>, lastSequence: nat)
    requires LayersOk(LayersOf(st)) && Replayed(st, mem)
    ensures LayersOk(LayersOf(Reopened(st, mem, lastSequence)))
  {
    var ls, ls' := LayersOf(st), LayersOf(Reopened(st, mem, lastSequence));
    assert ls'[0] <= ls[0] + ls[1] && ls'[1] == {};
    forall k | 2 <= k < |ls| ensures ls'[k] == ls[k] {}
    forall i, j | 0 <= i < j < |ls'| ensures Above(ls'[i], ls'[j]) {
      if j >= 2 {
        assert Above(ls[0], ls[j]) && Above(ls[1], ls[j]);
        assert i >= 2 ==> Above(ls[i], ls[j]);
      }
    }
  }

  lemma SmallerSeqNos(stored: set<Entry>, history: set<Entry>, before: nat,
                      stored': set<Entry>, history': set<Entry>, after: nat)
    requires SeqNosOk(stored, history, before) && stored' <= stored && history' <= history
    requires after < MAX_SEQUENCE && Bounded(stored', after) && Bounded(history', after)
    ensures SeqNosOk(stored', history', after)
  {}

  lemma StoredFitsIn(st: State, flushed: nat, mem: seq<Entry>)
    requires InSequence(st, flushed) && |st.levels| == NUM_LEVELS && Replayed(st, mem)
    ensures Union(LevelLayers(st.levels)) + Elements(mem) <= Stored(st)
  {
    FilesUpTo(st, flushed);
    LayerStored(st, 0);
    LayerStored(st, 1);
  }

  lemma ReopenedInv(st: State, flushed: nat, mem: seq<Entry>, lastSequence: nat)
    requires Inv(st) && InSequence(st, flushed) && Replayed(st, mem)
    requires flushed <= lastSequence < MAX_SEQUENCE && Bounded(Elements(mem), lastSequence)
    ensures Good(Reopened(st, mem, lastSequence))
  {
    hide LayersOk;
    hide LevelsOk;
    hide SeqNosOk;
    hide Stored;
    hide InSequence;
    hide LevelLayers;
    GoodLength(st);
    FilesUpTo(st, flushed);
    ReopenedStored(st, mem, lastSequence);
    ReopenedHistory(st, flushed, mem, lastSequence);
    ReopenedLayers(st, mem, lastSequence);
    StoredFitsIn(st, flushed, mem);
    SmallerSeqNos(Stored(st), st.history, st.lastSequence, Stored(Reopened(st, mem, lastSequence)),
                  Reopened(st, mem, lastSequence).history, lastSequence);
  }

  lemma GoodLength(st: State)
    requires Inv(st)
    ensures |st.levels| == NUM_LEVELS
  {}

  lemma ReopenedInSequence(st: State, flushed: nat, mem: seq<Entry>, lastSequence: nat)
    requires InSequence(st, flushed) && flushed <= lastSequence && Replayed(st, mem)
    ensures InSequence(Reopened(st, mem, lastSequence), flushed)
  {
    ReopenedHistory(st, flushed, mem, lastSequence);
    assert forall e :: e in MemEntries(st) <==> e in Beyond(st.history, flushed);
    assert MemEntries(Reopened(st, mem, lastSequence)) == Elements(mem);
  }

  /** Reads over the files agree with the history up to `flushed`; what was replayed is newer than both. */
  lemma ReopenedReads(st: State, flushed: nat, mem: seq<Entry>, lastSequence: nat)
    requires Good(st) && Durable(st, flushed) && Replayed(st, mem)
    requires Good(Reopened(st, mem, lastSequence))
    ensures var st' := Reopened(st, mem, lastSequence); SameReads(Stored(st'), st'.history, Floor(st, flushed))
  {
    hide SameReads;
    hide Stored;
    hide LayersOk;
    hide LevelsOk;
    hide LevelLayers;
    hide UniqueSeqNos;
    GoodLength(st);
    var files, past := Union(LevelLayers(st.levels)), UpTo(st.history, flushed);
    InMem(st, flushed);
    FilesUpTo(st, flushed);
    ReopenedStored(st, mem, lastSequence);
    ReopenedHistory(st, flushed, mem, lastSequence);
    ReadsUpTo(Stored(st), st.history, flushed, Floor(st, flushed));
    ReplayedIsNewer(st, flushed, mem, files);
    ReplayedIsNewer(st, flushed, mem, past);
    SameReadsExtend(files, past, Elements(mem), Floor(st, flushed));
  }

  lemma ReplayedIsNewer(st: State, flushed: nat, mem: seq<Entry>, older: set<Entry>)
    requires InSequence(st, flushed) && Replayed(st, mem) && Bounded(older, flushed)
    ensures Above(Elements(mem), older)
  {
    assert forall e :: e in MemEntries(st) ==> e in Beyond(st.history, flushed);
  }

  /** After a crash the store is as good as before: readers see the history without the writes that were
      lost, and it may crash again. */
  lemma ReopenedOk(st: State, flushed: nat, mem: seq<Entry>, lastSequence: nat)
    requires Good(st) && Durable(st, flushed) && Replayed(st, mem)
    requires flushed <= lastSequence < MAX_SEQUENCE && Bounded(Elements(mem), lastSequence)
    ensures var st' := Reopened(st, mem, lastSequence);
            Good(st') && Faithful(st') && Durable(st', flushed)
  {
    hide InSequence;
    hide Stored;
    hide LayersOk;
    hide LevelsOk;
    hide SameReads;
    hide Replayed;
    var st' := Reopened(st, mem, lastSequence);
    ReopenedInv(st, flushed, mem, lastSequence);
    ReopenedInSequence(st, flushed, mem, lastSequence);
    ReopenedReads(st, flushed, mem, lastSequence);
    LaterFloor(Stored(st'), st'.history, Floor(st, flushed), flushed);
    LaterFloor(Stored(st'), st'.history, flushed, lastSequence);
  }

  // ------------------------------------------------------------------------
  // Whole runs

  /** Every compaction of the run brings no key back, not even for a reader after a crash. */
  ghost predicate CrashSafeRun(states: seq<State>, steps: seq<Step>)
    requires Runs.IsRun(states, steps)
  {
    forall i :: 0 <= i < |steps| ==> CrashSafe(states[i], steps[i], FlushedUpTo(states, steps, i))
  }

  lemma EmptyDurable()
    ensures Durable(EMPTY, 0)
  {
    EmptyOk();
    assert forall l :: 0 <= l < NUM_LEVELS ==> EMPTY.levels[l] == [];
  }

  lemma {:induction false} RunDurable(states: seq<State>, steps: seq<Step>, k: nat)
    requires Runs.IsRun(states, steps) && CrashSafeRun(states, steps) && k <= |steps|
    ensures Good(states[k]) && Durable(states[k], FlushedUpTo(states, steps, k))
  {
    hide Good;
    hide Durable;
    hide CrashSafe;
    hide Enabled;
    hide Apply;
    RunsAreFaithful(states, steps, k, 0, 0);
    if k == 0 {
      EmptyDurable();
    } else {
      RunDurable(states, steps, k - 1);
      StepDurable(states[k - 1], steps[k - 1], FlushedUpTo(states, steps, k - 1));
    }
  }

  /** A run that stops anywhere, and loses any part of what only its logs held, reopens to a store that reads
      as the history without the lost writes. */
  lemma CrashKeepsTheRest(states: seq<State>, steps: seq<Step>, k: nat, mem: seq<Entry>, lastSequence: nat)
    requires Runs.IsRun(states, steps) && CrashSafeRun(states, steps) && k <= |steps|
    requires Replayed(states[k], mem)
    requires FlushedUpTo(states, steps, k) <= lastSequence < MAX_SEQUENCE && Bounded(Elements(mem), lastSequence)
    ensures Good(Reopened(states[k], mem, lastSequence)) && Faithful(Reopened(states[k], mem, lastSequence))
  {
    hide Inv;
    hide Durable;
    hide CrashSafeRun;
    RunDurable(states, steps, k);
    ReopenedOk(states[k], FlushedUpTo(states, steps, k), mem, lastSequence);
  }

  /** When the logs lose everything after some write, the store reads as the history did after that write. */
  lemma CrashKeepsPrefix(states: seq<State>, steps: seq<Step>, k: nat, mem: seq<Entry>,
                         n: nat, lastSequence: nat, u: UserKey)
    requires Runs.IsRun(states, steps) && CrashSafeRun(states, steps) && k <= |steps|
    requires FlushedUpTo(states, steps, k) <= n <= lastSequence < MAX_SEQUENCE
    requires Sorted(mem) && Elements(mem) == UpTo(MemEntries(states[k]), n)
    ensures Replayed(states[k], mem) && Bounded(Elements(mem), lastSequence)
    ensures Read(Stored(Reopened(states[k], mem, lastSequence)), u, lastSequence) == Read(states[k].history, u, n)
  {
    hide Inv;
    hide Stored;
    hide CrashSafeRun;
    hide LevelLayers;
    var flushed := FlushedUpTo(states, steps, k);
    RunDurable(states, steps, k);
    CrashKeepsTheRest(states, steps, k, mem, lastSequence);
    PrefixHistory(states[k], flushed, mem, n, lastSequence);
    HistoryUnique(states[k]);
    ReadUpTo(states[k].history, n, u, lastSequence);
  }

  lemma PrefixHistory(st: State, flushed: nat, mem: seq<Entry>, n: nat, lastSequence: nat)
    requires InSequence(st, flushed) && flushed <= n && Elements(mem) == UpTo(MemEntries(st), n)
    ensures Reopened(st, mem, lastSequence).history == UpTo(st.history, n)
  {
    forall e ensures e in st.history - (MemEntries(st) - Elements(mem)) <==> e in UpTo(st.history, n) {
      assert e in MemEntries(st) <==> e in Beyond(st.history, flushed);
    }
  }

  lemma HistoryUnique(st: State)
    requires Good(st)
    ensures UniqueSeqNos(st.history)
  {}
}
