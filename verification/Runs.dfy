/**
 Whole runs of the store: any sequence of steps from the empty store.

 As long as no compaction resurrects a key, every read at a live snapshot, or at the present,
 returns what the complete history says.
 */
module Runs {
  import opened Entries
  import opened VersionSet
  import opened CompactionInputs
  import opened Layers
  import opened Store
  import opened StoreSteps
  import opened CompactionStep
  import opened CompactionTheorem
  import opened GrowingList

  datatype Step =
    | WriteBatch(ops: seq<Op>)
    | FailWrite(count: nat)
    | Switch
    | Flush(level: nat, size: nat)
    | Move(level: nat, file: File)
    | Compact(level: nat, in0: seq<File>, in1: seq<File>, input: seq<Entry>, outputs: seq<File>)
    | Snapshot
    | Release(index: nat)

  const EMPTY := State([], None, [[], [], [], [], [], [], []], 0, [], 2, {})

  /** What the database checks or arranges before a step. */
  ghost predicate Enabled(st: State, s: Step)
    requires |st.levels| == NUM_LEVELS
  {
    match s
    case WriteBatch(ops) => st.lastSequence + |ops| < MAX_SEQUENCE
    case FailWrite(count) => st.lastSequence + count < MAX_SEQUENCE
    case Switch => st.imm.None?
    case Flush(level, size) =>
      && st.imm.Some? && level < NUM_LEVELS
      && (|st.imm.value| > 0 ==>
            NoOverlapUpTo(st.levels, level, st.imm.value[0].key.user, st.imm.value[|st.imm.value| - 1].key.user))
    case Move(level, f) => level + 1 < NUM_LEVELS && GoodInputs(st.levels, level, [f], [])
    case Compact(level, in0, in1, input, outputs) =>
      && level + 1 < NUM_LEVELS && GoodInputs(st.levels, level, in0, in1)
      && CompactionOutput(st, level, in0, in1, input, outputs)
    case Snapshot => true
    case Release(i) => i < |st.snapshots|
  }

  ghost predicate Safe(st: State, s: Step)
    requires |st.levels| == NUM_LEVELS && Enabled(st, s)
  {
    s.Compact? ==> forall u :: !ResurrectsKey(st, s.level, s.in0, s.in1, u)
  }

  ghost function Apply(st: State, s: Step): State
    requires |st.levels| == NUM_LEVELS && Enabled(st, s)
  {
    match s
    case WriteBatch(ops) => Write(st, ops)
    case FailWrite(count) => FailedWrite(st, count)
    case Switch => SwitchMemTable(st)
    case Flush(level, size) => Flushed(st, level, size)
    case Move(level, f) => Moved(st, level, f)
    case Compact(level, in0, in1, _, outputs) => Compacted(st, level, in0, in1, outputs)
    case Snapshot => TakeSnapshot(st)
    case Release(i) => ReleaseSnapshot(st, i)
  }

  ghost predicate Good(st: State) {
    Inv(st) && SnapshotsAscend(st.snapshots)
  }

  /** Every step keeps the invariant; every safe step keeps what readers see. */
  lemma StepOk(st: State, s: Step)
    requires Good(st) && Enabled(st, s)
    ensures Good(Apply(st, s))
    ensures Faithful(st) && Safe(st, s) ==> Faithful(Apply(st, s))
  {
    match s
    case WriteBatch(ops) =>
      WriteOk(st, ops);
      WriteKeepsRest(st, ops);
    case FailWrite(count) => FailedWriteOk(st, count);
    case Switch => SwitchOk(st);
    case Flush(level, size) => FlushOk(st, level, size);
    case Move(level, f) => TrivialMoveOk(st, level, f);
    case Compact(level, in0, in1, input, outputs) =>
      CompactionStepOk(st, level, in0, in1, input, outputs);
    case Snapshot => TakeSnapshotOk(st);
    case Release(i) => ReleaseSnapshotOk(st, i);
  }

  lemma CompactionStepOk(st: State, level: nat, in0: seq<File>, in1: seq<File>, input: seq<Entry>, outputs: seq<File>)
    requires Inv(st) && level + 1 < NUM_LEVELS
    requires GoodInputs(st.levels, level, in0, in1) && CompactionOutput(st, level, in0, in1, input, outputs)
    ensures Inv(Compacted(st, level, in0, in1, outputs))
    ensures Faithful(st) && (forall u :: !ResurrectsKey(st, level, in0, in1, u)) ==>
              Faithful(Compacted(st, level, in0, in1, outputs))
  {
    hide Inv;
    hide Faithful;
    hide GoodInputs;
    hide CompactionOutput;
    hide ResurrectsKey;
    hide OutputsOk;
    hide Rearranged;
    if Faithful(st) {
      CompactionExact(st, level, in0, in1, input, outputs);
    } else {
      CompactionOutputOk(st, level, in0, in1, input, outputs);
      RearrangeOk(st, level, in0, in1, outputs, st.nextFile + |outputs|);
    }
  }

  lemma {:induction false} WriteKeepsRest(st: State, ops: seq<Op>)
    ensures Write(st, ops).snapshots == st.snapshots && Write(st, ops).levels == st.levels
  {
    if |ops| > 0 {
      WriteKeepsRest(st, ops[..|ops| - 1]);
    }
  }

  lemma EmptyOk()
    ensures Good(EMPTY) && Faithful(EMPTY)
  {
    assert forall k :: 0 <= k < LAYERS ==> LayersOf(EMPTY)[k] == {};
    assert Stored(EMPTY) == {};
  }

  /** `states` is a run: it starts empty and every step is enabled and safe. */
  ghost predicate IsRun(states: seq<State>, steps: seq<Step>) {
    && |states| == |steps| + 1 && states[0] == EMPTY
    && (forall i :: 0 <= i < |steps| ==>
          && |states[i].levels| == NUM_LEVELS
          && Enabled(states[i], steps[i]) && Safe(states[i], steps[i])
          && states[i + 1] == Apply(states[i], steps[i]))
  }

  /** In every state of every run, the first place a lookup finds the key in holds what the
      history says: the read at a live snapshot, or at the present, is the read of the history. */
  lemma {:induction false} RunsAreFaithful(states: seq<State>, steps: seq<Step>, k: nat, u: UserKey, snapshot: nat)
    requires IsRun(states, steps) && k < |states|
    ensures Good(states[k]) && Faithful(states[k])
    ensures snapshot in states[k].snapshots || snapshot >= states[k].lastSequence ==>
              Read(Stored(states[k]), u, snapshot) == Read(states[k].history, u, snapshot)
  {
    if k == 0 {
      EmptyOk();
    } else {
      RunsAreFaithful(states, steps, k - 1, u, snapshot);
      StepOk(states[k - 1], steps[k - 1]);
    }
  }

  /** A write is what a reader at the present sees... */
  lemma WriteIsSeen(st: State, op: Op)
    requires Good(st) && Faithful(st) && st.lastSequence + 1 < MAX_SEQUENCE
    ensures Read(Stored(WriteOne(st, op)), op.user, st.lastSequence + 1) == if op.Put? then Some(op.value) else None
  {
    var st' := WriteOne(st, op);
    var e := EntryOf(op, st.lastSequence + 1);
    WriteOneOk(st, op);
    assert SmallestSnapshot(st') <= st.lastSequence + 1;
    NewestWrite(st.history, st.lastSequence, e);
    FindsIsRead(st'.history, op.user, st.lastSequence + 1, Some(e));
  }

  lemma NewestWrite(history: set<Entry>, lastSequence: nat, e: Entry)
    requires Bounded(history, lastSequence) && e.key.seqNo == lastSequence + 1
    ensures Newest(history + {e}, e.key.user, lastSequence + 1, e)
  {
    assert Visible(history + {e}, e.key.user, lastSequence + 1, e);
  }

  // ------------------------------------------------------------------------
  // Snapshots

  lemma NewerIsUnseen(s: set<Entry>, e: Entry, u: UserKey, snapshot: nat)
    requires UniqueSeqNos(s + {e}) && e.key.seqNo > snapshot
    ensures Read(s + {e}, u, snapshot) == Read(s, u, snapshot)
  {
    assert UniqueSeqNos(s) by { assert forall x :: x in s ==> x in s + {e}; }
    var r := FindsExists(s, u, snapshot);
    FindsIsRead(s, u, snapshot, r);
    forall x ensures Visible(s + {e}, u, snapshot, x) <==> Visible(s, u, snapshot, x) {}
    FindsIsRead(s + {e}, u, snapshot, r);
  }

  lemma WriteOneIsUnseen(st: State, op: Op, u: UserKey, snapshot: nat)
    requires Inv(st) && st.lastSequence + 1 < MAX_SEQUENCE && snapshot <= st.lastSequence
    ensures Read(Stored(WriteOne(st, op)), u, snapshot) == Read(Stored(st), u, snapshot)
    ensures Read(WriteOne(st, op).history, u, snapshot) == Read(st.history, u, snapshot)
  {
    hide LayersOk;
    hide LayersOf;
    hide Stored;
    hide LevelsOk;
    hide Read;
    var e := EntryOf(op, st.lastSequence + 1);
    OneMoreStored(st, op);
    NewerIsUnseen(Stored(st), e, u, snapshot);
    NewerIsUnseen(st.history, e, u, snapshot);
  }

  /** ...and what a reader at an earlier snapshot does not, whatever the batch. */
  lemma {:induction false} SnapshotIsolation(st: State, ops: seq<Op>, u: UserKey, snapshot: nat)
    requires Inv(st) && st.lastSequence + |ops| < MAX_SEQUENCE && snapshot <= st.lastSequence
    ensures Read(Stored(Write(st, ops)), u, snapshot) == Read(Stored(st), u, snapshot)
    ensures Read(Write(st, ops).history, u, snapshot) == Read(st.history, u, snapshot)
  {
    hide Inv;
    hide Stored;
    hide Read;
    if |ops| > 0 {
      var init := ops[..|ops| - 1];
      SnapshotIsolation(st, init, u, snapshot);
      WriteOk(st, init);
      WriteOneIsUnseen(Write(st, init), ops[|ops| - 1], u, snapshot);
    }
  }

  /** A write adds to what is stored, and nothing that an earlier snapshot may see. */
  lemma {:induction false} WritesOnlyAdd(st: State, ops: seq<Op>, snapshot: nat)
    requires Inv(st) && st.lastSequence + |ops| < MAX_SEQUENCE && snapshot <= st.lastSequence
    ensures Grown(Stored(st), Stored(Write(st, ops)), snapshot)
  {
    hide Inv;
    hide Stored;
    if |ops| > 0 {
      var init := ops[..|ops| - 1];
      WritesOnlyAdd(st, init, snapshot);
      WriteOk(st, init);
      OneMoreStored(Write(st, init), ops[|ops| - 1]);
    }
  }

  /** Only writes add to the history, and what they add is newer. */
  lemma StepKeepsPast(st: State, s: Step, u: UserKey, snapshot: nat)
    requires Good(st) && Enabled(st, s) && snapshot <= st.lastSequence
    ensures Read(Apply(st, s).history, u, snapshot) == Read(st.history, u, snapshot)
    ensures st.lastSequence <= Apply(st, s).lastSequence
  {
    hide Inv;
    hide Read;
    if s.WriteBatch? {
      SnapshotIsolation(st, s.ops, u, snapshot);
      WriteOk(st, s.ops);
    }
  }

  lemma {:induction false} PastIsKept(states: seq<State>, steps: seq<Step>, i: nat, j: nat, u: UserKey, snapshot: nat)
    requires IsRun(states, steps) && i <= j < |states| && snapshot <= states[i].lastSequence
    ensures Read(states[j].history, u, snapshot) == Read(states[i].history, u, snapshot)
    ensures states[i].lastSequence <= states[j].lastSequence
  {
    hide Good;
    hide Read;
    hide Enabled;
    hide Safe;
    hide Apply;
    if i < j {
      PastIsKept(states, steps, i, j - 1, u, snapshot);
      RunsAreFaithful(states, steps, j - 1, u, snapshot);
      StepKeepsPast(states[j - 1], steps[j - 1], u, snapshot);
    }
  }

  /** As long as a snapshot is held, what is read at it never changes: through writes, flushes, moves
      and compactions. */
  lemma SnapshotNeverChanges(states: seq<State>, steps: seq<Step>, i: nat, j: nat, u: UserKey, snapshot: nat)
    requires IsRun(states, steps) && i <= j < |states|
    requires snapshot in states[i].snapshots && snapshot in states[j].snapshots
    ensures Read(Stored(states[j]), u, snapshot) == Read(Stored(states[i]), u, snapshot)
  {
    hide Stored;
    hide Read;
    RunsAreFaithful(states, steps, i, u, snapshot);
    RunsAreFaithful(states, steps, j, u, snapshot);
    var k :| 0 <= k < |states[i].snapshots| && states[i].snapshots[k] == snapshot;
    PastIsKept(states, steps, i, j, u, snapshot);
  }

  lemma WriteKeepsSnapshots(st: State, ops: seq<Op>)
    ensures Write(st, ops).snapshots == st.snapshots
  {
    if |ops| > 0 { WriteKeepsSnapshots(st, ops[..|ops| - 1]); }
  }

  lemma StepKeepsHeld(st: State, s: Step, snapshot: nat)
    requires |st.levels| == NUM_LEVELS && Enabled(st, s) && snapshot in st.snapshots
    requires s.Release? ==> st.snapshots[s.index] != snapshot
    ensures snapshot in Apply(st, s).snapshots
  {
    match s
    case WriteBatch(ops) => WriteKeepsSnapshots(st, ops);
    case Release(i) => OthersStay(st, i);
    case Snapshot =>
      var k :| 0 <= k < |st.snapshots| && st.snapshots[k] == snapshot;
      assert Apply(st, s).snapshots[k] == snapshot;
    case _ =>
  }

  /** A snapshot is held, and reads the same, until it is given back itself. */
  lemma {:induction false} HeldUntilReleased(states: seq<State>, steps: seq<Step>, i: nat, j: nat, u: UserKey, snapshot: nat)
    requires IsRun(states, steps) && i <= j < |states| && snapshot in states[i].snapshots
    requires forall k :: i <= k < j && steps[k].Release? ==> states[k].snapshots[steps[k].index] != snapshot
    ensures snapshot in states[j].snapshots
    ensures Read(Stored(states[j]), u, snapshot) == Read(Stored(states[i]), u, snapshot)
    decreases j
  {
    hide Stored;
    hide Read;
    hide Apply;
    hide Enabled;
    hide Safe;
    if i < j {
      HeldUntilReleased(states, steps, i, j - 1, u, snapshot);
      StepKeepsHeld(states[j - 1], steps[j - 1], snapshot);
      SnapshotNeverChanges(states, steps, i, j, u, snapshot);
    }
  }
}
