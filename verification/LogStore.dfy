/**
 The write queue and the store side by side: what the queue applies is what the store writes, and
 what its log keeps through a crash is what the store reopens with.

 The queue works on byte strings and the store on their ranks; a `Naming` takes one to the other.
 */
module LogStore {
  import opened ByteKeys
  import opened Coding
  import opened CrashSafety
  import opened Entries
  import opened LogFailures
  import opened LogRoundTrip
  import opened RankedKeys
  import opened Recovery
  import opened Store
  import opened VersionSet
  import opened WriteBatches
  import opened Log
  import Q = WriterQueue
  import Runs

  // ------------------------------------------------------------------------
  // Operations and entries

  function OpNamed(n: Naming, op: BatchOp): Op {
    match op
    case PutOp(k, v) => Put(Rank(n.keys, k), n.text(v))
    case DeleteOp(k) => Delete(Rank(n.keys, k))
  }

  function OpsNamed(n: Naming, ops: seq<BatchOp>): (r: seq<Op>)
    ensures |r| == |ops| && forall i :: 0 <= i < |ops| ==> r[i] == OpNamed(n, ops[i])
  {
    seq(|ops|, i requires 0 <= i < |ops| => OpNamed(n, ops[i]))
  }

  function AddedNamed(n: Naming, a: Added): Entry {
    EntryOf(OpNamed(n, a.op), a.seqNo)
  }

  ghost function SetNamed(n: Naming, added: seq<Added>): set<Entry> {
    set i | 0 <= i < |added| :: AddedNamed(n, added[i])
  }

  lemma SetNamedConcat(n: Naming, a: seq<Added>, b: seq<Added>)
    ensures SetNamed(n, a + b) == SetNamed(n, a) + SetNamed(n, b)
  {
    hide AddedNamed;
    forall i | 0 <= i < |a| ensures AddedNamed(n, a[i]) in SetNamed(n, a + b) {
      assert (a + b)[i] == a[i];
    }
    forall i | 0 <= i < |b| ensures AddedNamed(n, b[i]) in SetNamed(n, a + b) {
      assert (a + b)[|a| + i] == b[i];
    }
  }

  lemma SetNamedOne(n: Naming, a: Added)
    ensures SetNamed(n, [a]) == {AddedNamed(n, a)}
  {
    assert [a][0] == a;
  }

  /** Writing a named batch adds the named operations, numbered on from the last sequence number. */
  lemma {:induction false} WriteNamed(n: Naming, st: State, ops: seq<BatchOp>)
    ensures var st' := Write(st, OpsNamed(n, ops)); var added := SetNamed(n, AddedFrom(st.lastSequence + 1, ops));
            && Elements(st'.mem) == Elements(st.mem) + added && st'.history == st.history + added
            && st'.lastSequence == st.lastSequence + |ops|
            && st' == st.(mem := st'.mem, history := st'.history, lastSequence := st'.lastSequence)
  {
    hide OpNamed;
    hide InsertSorted;
    if |ops| == 0 {
      assert AddedFrom(st.lastSequence + 1, ops) == [];
    } else {
      var init, op := ops[..|ops| - 1], ops[|ops| - 1];
      var before := Write(st, OpsNamed(n, init));
      WriteNamed(n, st, init);
      assert OpsNamed(n, ops)[..|ops| - 1] == OpsNamed(n, init);
      var a := Added(st.lastSequence + |ops|, op);
      assert AddedFrom(st.lastSequence + 1, ops) == AddedFrom(st.lastSequence + 1, init) + [a];
      SetNamedConcat(n, AddedFrom(st.lastSequence + 1, init), [a]);
      SetNamedOne(n, a);
      JoinsMem(before.mem, AddedNamed(n, a));
    }
  }

  // ------------------------------------------------------------------------
  // Records that were logged and not applied

  /** The last logged group, if it was not applied: its sync failed, or it is on its way. */
  function Extra(gs: seq<Q.Group>): Option<Q.Group> {
    if |gs| == 0 then None
    else
      var g := gs[|gs| - 1];
      if !g.logged then Extra(gs[..|gs| - 1]) else if g.applied then None else Some(g)
  }

  /** No group was logged after one that was not applied. */
  predicate Clean(gs: seq<Q.Group>) {
    |gs| == 0 || (
      var init, g := gs[..|gs| - 1], gs[|gs| - 1];
      Clean(init) && (g.applied ==> g.logged) && (g.logged ==> Extra(init) == None))
  }

  function ExtraEntries(gs: seq<Q.Group>): seq<Added> {
    var e := Extra(gs);
    if e.None? then [] else AddedFrom(e.value.firstSeq, e.value.ops)
  }

  /** What a replay of the whole log gives is what was applied, and at most one more group. */
  lemma {:induction false} LoggedIsApplied(gs: seq<Q.Group>)
    requires Clean(gs)
    ensures LoggedEntries(gs) == Q.AppliedBy(gs) + ExtraEntries(gs)
  {
    hide AddedFrom;
    if |gs| > 0 {
      var init, g := gs[..|gs| - 1], gs[|gs| - 1];
      LoggedIsApplied(init);
      var all := Q.AppliedBy(init);
      assert all + [] == all;
      if !g.logged {
        assert LoggedEntries(init) + [] == LoggedEntries(init);
      } else if g.applied {
        assert Q.AppliedBy(gs) + [] == Q.AppliedBy(gs);
      }
    }
  }

  lemma {:induction false} LoggedPrefix(n: Naming, gs: seq<Q.Group>, m: nat)
    requires m <= |gs|
    ensures SetNamed(n, LoggedEntries(gs[..m])) <= SetNamed(n, LoggedEntries(gs))
  {
    hide SetNamed;
    if m == |gs| {
      assert gs[..m] == gs;
    } else {
      var init := gs[..|gs| - 1];
      LoggedPrefix(n, init, m);
      assert init[..m] == gs[..m];
      SetNamedConcat(n, LoggedEntries(init), LoggedEntriesOf(gs[|gs| - 1]));
    }
  }

  // ------------------------------------------------------------------------
  // Queue and store together

  /** `flushed` is how far the store's files go. */
  datatype Joint = Joint(queue: Q.State, store: State, flushed: nat)

  datatype JointStep = QueueStep(q: Q.Step) | StoreStep(s: Runs.Step)

  /** What a step of the queue does to the store: the group it finishes is written, or its numbers are used
      up; a new log file comes with a new memtable. */
  function Effect(n: Naming, q: Q.State, step: Q.Step): Option<Runs.Step> {
    match step
    case NewLog => Some(Runs.Switch)
    case Finish =>
      if q.pending.applied then Some(Runs.WriteBatch(OpsNamed(n, q.pending.ops)))
      else Some(Runs.FailWrite(|q.pending.ops|))
    case _ => None
  }

  /** Files and snapshots are the store's own business; the log and the memtable go together. */
  ghost predicate MayStep(j: Joint, step: JointStep)
    requires Q.Inv(j.queue) && |j.store.levels| == NUM_LEVELS
  {
    match step
    case QueueStep(q) => Q.Enabled(j.queue, q) && (q.NewLog? ==> j.store.imm.None?)
    case StoreStep(s) =>
      && (s.Flush? || s.Move? || s.Compact? || s.Snapshot? || s.Release?)
      && Runs.Enabled(j.store, s) && CrashSafe(j.store, s, j.flushed)
  }

  /** Up to here sequence numbers have been written: a group whose sync failed is not, nor what came after. */
  function Written(q: Q.State): nat
    requires q.base <= |q.groups|
  {
    var e := Extra(Q.Current(q));
    if e.None? || e.value.firstSeq == 0 then q.lastSequence else e.value.firstSeq - 1
  }

  ghost predicate QueueTied(n: Naming, q: Q.State, mem: set<Entry>)
    requires q.base <= |q.groups|
  {
    && mem == SetNamed(n, Q.AppliedBy(Q.Current(q)))
    && Clean(Q.Current(q))
    && (Extra(Q.Current(q)).Some? ==> q.bgError && q.phase.Idle? && Extra(Q.Current(q)).value.firstSeq > 0)
    && (q.phase.Finishing? && q.pending.logged && !q.pending.applied ==> q.phase.syncError)
  }

  ghost predicate Tied(n: Naming, j: Joint) {
    && Q.Inv(j.queue) && Runs.Good(j.store) && Durable(j.store, j.flushed)
    && j.store.lastSequence == j.queue.lastSequence
    && QueueTied(n, j.queue, Elements(j.store.mem))
    && Bounded(j.store.history, Written(j.queue)) && j.flushed <= Written(j.queue)
  }

  ghost function After(n: Naming, j: Joint, step: JointStep): Joint
    requires Q.Inv(j.queue) && |j.store.levels| == NUM_LEVELS && MayStep(j, step)
    requires step.QueueStep? && Effect(n, j.queue, step.q).Some? ==> Runs.Enabled(j.store, Effect(n, j.queue, step.q).value)
  {
    match step
    case QueueStep(q) =>
      var e := Effect(n, j.queue, q);
      Joint(Q.Apply(j.queue, q), if e.None? then j.store else Runs.Apply(j.store, e.value), j.flushed)
    case StoreStep(s) => Joint(j.queue, Runs.Apply(j.store, s), FlushedAfter(j.store, s, j.flushed))
  }

  /** Queue steps that leave the finished groups and the memtable's log alone. */
  lemma QueueRestTied(n: Naming, q: Q.State, step: Q.Step, mem: set<Entry>)
    requires Q.Inv(q) && Q.Enabled(q, step) && QueueTied(n, q, mem)
    requires step.Join? || step.Lead? || step.Append? || step.SyncLog? || step.Insert?
    ensures var q' := Q.Apply(q, step);
            && q'.base <= |q'.groups| && Q.Current(q') == Q.Current(q) && q'.lastSequence == q.lastSequence
            && QueueTied(n, q', mem)
  {
    hide Q.AppliedBy;
    hide Q.Records;
    hide Q.RecordOf;
    hide Q.AllOps;
    hide Clean;
    hide SetNamed;
    hide Q.Tiled;
    hide Q.Numbered;
    hide Q.GroupsOk;
    hide Q.Durable;
    hide Q.FileOk;
    if step.Lead? { NotExtraBefore(q); }
  }

  lemma NotExtraBefore(q: Q.State)
    requires Q.Inv(q)
    ensures q.base <= |q.groups|
  {}

  lemma {:induction false} UnloggedAdds(gs: seq<Q.Group>, g: Q.Group)
    requires Clean(gs) && !g.logged && !g.applied
    ensures Clean(gs + [g]) && Extra(gs + [g]) == Extra(gs) && Q.AppliedBy(gs + [g]) == Q.AppliedBy(gs)
  {
    Q.Snoc(gs, g);
    assert Q.AppliedBy(gs) + [] == Q.AppliedBy(gs);
  }

  lemma LoggedAdds(gs: seq<Q.Group>, g: Q.Group)
    requires Clean(gs) && Extra(gs) == None && g.logged
    ensures Clean(gs + [g]) && Extra(gs + [g]) == (if g.applied then None else Some(g))
    ensures Q.AppliedBy(gs + [g]) == Q.AppliedBy(gs) + if g.applied then AddedFrom(g.firstSeq, g.ops) else []
  {
    Q.Snoc(gs, g);
  }

  lemma CurrentSnoc(groups: seq<Q.Group>, base: nat, g: Q.Group)
    requires base <= |groups|
    ensures (groups + [g])[base..] == groups[base..] + [g]
  {}

  /** A writer alone in its group logs nothing. */
  lemma AloneTied(n: Naming, q: Q.State, status: Status, mem: set<Entry>)
    requires Q.Inv(q) && Q.Enabled(q, Q.Alone(status)) && QueueTied(n, q, mem)
    ensures var q' := Q.Apply(q, Q.Alone(status));
            q'.base <= |q'.groups| && QueueTied(n, q', mem) && Written(q') == Written(q) && q'.lastSequence == q.lastSequence
  {
    hide Q.Inv;
    hide Q.AppliedBy;
    hide SetNamed;
    hide Clean;
    hide Extra;
    NotExtraBefore(q);
    var g := Q.Group(q.queue[0], 1, [], q.lastSequence + 1, status, false, false);
    CurrentSnoc(q.groups, q.base, g);
    UnloggedAdds(Q.Current(q), g);
  }

  lemma NewLogTied(n: Naming, q: Q.State)
    requires Q.Inv(q) && Q.Enabled(q, Q.NewLog)
    ensures var q' := Q.Apply(q, Q.NewLog);
            q'.base <= |q'.groups| && QueueTied(n, q', {}) && Written(q') == q.lastSequence == q'.lastSequence
  {
    assert Q.Current(Q.Apply(q, Q.NewLog)) == [];
    assert SetNamed(n, []) == {};
  }

  /** What the invariant of the queue says of the group that finishes. */
  lemma FinishingGroup(q: Q.State)
    requires Q.Inv(q) && q.phase.Finishing?
    ensures q.base <= |q.groups| && q.pending.firstSeq == q.lastSequence + 1
    ensures q.lastSequence + |q.pending.ops| < MAX_SEQUENCE && (q.pending.applied ==> q.pending.logged)
  {
    hide Q.AppliedBy;
    hide Q.Records;
    hide Q.AllOps;
  }

  lemma FinishTied(n: Naming, q: Q.State, mem: set<Entry>)
    requires Q.Inv(q) && Q.Enabled(q, Q.Finish) && QueueTied(n, q, mem) && Extra(Q.Current(q)) == None
    ensures var q' := Q.Apply(q, Q.Finish); var g := q.pending;
            && q'.base <= |q'.groups| && q'.lastSequence == q.lastSequence + |g.ops|
            && QueueTied(n, q', mem + if g.applied then SetNamed(n, AddedFrom(q.lastSequence + 1, g.ops)) else {})
            && Written(q') == if g.logged && !g.applied then q.lastSequence else q'.lastSequence
  {
    hide Q.Inv;
    hide Q.AppliedBy;
    hide SetNamed;
    hide Clean;
    hide Extra;
    hide AddedFrom;
    FinishingGroup(q);
    var g := q.pending.(status := q.phase.status);
    CurrentSnoc(q.groups, q.base, g);
    if g.logged {
      LoggedAdds(Q.Current(q), g);
      SetNamedConcat(n, Q.AppliedBy(Q.Current(q)), AddedFrom(g.firstSeq, g.ops));
      assert Q.AppliedBy(Q.Current(q)) + [] == Q.AppliedBy(Q.Current(q));
    } else {
      UnloggedAdds(Q.Current(q), g);
    }
  }

  /** Numbers are handed out above all that was written. */
  lemma WriteBounded(n: Naming, history: set<Entry>, high: nat, seqNo: nat, ops: seq<BatchOp>)
    requires Bounded(history, high) && high < seqNo
    ensures Bounded(history + SetNamed(n, AddedFrom(seqNo, ops)), seqNo + |ops| - 1)
  {
    hide OpNamed;
    forall e | e in SetNamed(n, AddedFrom(seqNo, ops)) ensures e.key.seqNo <= seqNo + |ops| - 1 {
      var i :| 0 <= i < |ops| && e == AddedNamed(n, AddedFrom(seqNo, ops)[i]);
    }
  }

  // ------------------------------------------------------------------------
  // Steps keep them together

  lemma LevelsOfGood(st: State)
    requires Runs.Good(st)
    ensures |st.levels| == NUM_LEVELS
  {}

  /** The store's side of a group that finishes: what its memtable and its history gain. */
  lemma FinishAdds(n: Naming, st: State, q: Q.State)
    requires |st.levels| == NUM_LEVELS && Runs.Enabled(st, Effect(n, q, Q.Finish).value)
    requires st.lastSequence == q.lastSequence && Bounded(st.history, q.lastSequence)
    ensures var st' := Runs.Apply(st, Effect(n, q, Q.Finish).value); var g := q.pending;
            && st'.lastSequence == q.lastSequence + |g.ops|
            && Elements(st'.mem)
               == Elements(st.mem) + (if g.applied then SetNamed(n, AddedFrom(q.lastSequence + 1, g.ops)) else {})
            && Bounded(st'.history, if g.applied then st'.lastSequence else q.lastSequence)
  {
    hide SetNamed;
    hide AddedFrom;
    hide Write;
    if q.pending.applied {
      WriteNamed(n, st, q.pending.ops);
      WriteBounded(n, st.history, q.lastSequence, q.lastSequence + 1, q.pending.ops);
    }
  }

  lemma FinishStore(n: Naming, st: State, flushed: nat, q: Q.State)
    requires Runs.Good(st) && Durable(st, flushed) && st.lastSequence == q.lastSequence
    requires q.lastSequence + |q.pending.ops| < MAX_SEQUENCE
    ensures |st.levels| == NUM_LEVELS && Runs.Enabled(st, Effect(n, q, Q.Finish).value)
    ensures var st' := Runs.Apply(st, Effect(n, q, Q.Finish).value); Runs.Good(st') && Durable(st', flushed)
  {
    hide Runs.Good;
    hide Runs.Apply;
    hide Durable;
    LevelsOfGood(st);
    var s := Effect(n, q, Q.Finish).value;
    Runs.StepOk(st, s);
    StepDurable(st, s, flushed);
  }

  lemma FinishStep(n: Naming, j: Joint)
    requires Tied(n, j) && Q.Enabled(j.queue, Q.Finish)
    ensures |j.store.levels| == NUM_LEVELS && Runs.Enabled(j.store, Effect(n, j.queue, Q.Finish).value)
    ensures Tied(n, After(n, j, QueueStep(Q.Finish)))
  {
    hide Q.Inv;
    hide Runs.Good;
    hide Runs.Apply;
    hide Runs.Enabled;
    hide Durable;
    hide SetNamed;
    hide AddedFrom;
    hide QueueTied;
    hide Extra;
    hide Q.Apply;
    FinishingGroup(j.queue);
    NoExtra(n, j.queue, Elements(j.store.mem));
    FinishStore(n, j.store, j.flushed, j.queue);
    FinishAdds(n, j.store, j.queue);
    FinishTied(n, j.queue, Elements(j.store.mem));
    Q.StepOk(j.queue, Q.Finish);
    WiderBound(Runs.Apply(j.store, Effect(n, j.queue, Q.Finish).value).history, j.queue.lastSequence);
  }

  lemma WiderBound(history: set<Entry>, high: nat)
    ensures Bounded(history, high) ==> forall higher: nat :: higher >= high ==> Bounded(history, higher)
  {}

  lemma NoExtra(n: Naming, q: Q.State, mem: set<Entry>)
    requires q.base <= |q.groups| && QueueTied(n, q, mem) && !q.phase.Idle?
    ensures Extra(Q.Current(q)) == None
  {}

  lemma SwitchStep(n: Naming, j: Joint)
    requires Tied(n, j) && Q.Enabled(j.queue, Q.NewLog) && j.store.imm.None?
    ensures |j.store.levels| == NUM_LEVELS && Runs.Enabled(j.store, Runs.Switch)
    ensures Tied(n, After(n, j, QueueStep(Q.NewLog)))
  {
    hide Q.Inv;
    hide Runs.Good;
    hide Durable;
    hide SetNamed;
    hide Q.AppliedBy;
    hide Clean;
    hide Q.Apply;
    LevelsOfGood(j.store);
    Runs.StepOk(j.store, Runs.Switch);
    StepDurable(j.store, Runs.Switch, j.flushed);
    Q.StepOk(j.queue, Q.NewLog);
    NewLogTied(n, j.queue);
    NotExtraBefore(j.queue);
    WrittenMost(j.queue);
    assert Elements(SwitchMemTable(j.store).mem) == {};
  }

  lemma {:induction false} WrittenMost(q: Q.State)
    requires Q.Inv(q)
    ensures Written(q) <= q.lastSequence
  {
    NotExtraBefore(q);
    hide Q.LogOk;
    if Extra(Q.Current(q)).Some? {
      var k := ExtraIs(Q.Current(q));
      NumberedBelow(q.groups, q.base + k, q.lastSequence);
    }
  }

  lemma {:induction false} ExtraIs(gs: seq<Q.Group>) returns (k: nat)
    requires Extra(gs).Some?
    ensures k < |gs| && gs[k] == Extra(gs).value
  {
    var n := |gs| - 1;
    if gs[n].logged {
      k := n;
    } else {
      k := ExtraIs(gs[..n]);
    }
  }

  lemma {:induction false} NumberedBelow(groups: seq<Q.Group>, k: nat, lastSequence: nat)
    requires Q.Numbered(groups, lastSequence) && k < |groups|
    ensures groups[k].firstSeq <= lastSequence + 1
    decreases |groups| - k
  {
    if k + 1 < |groups| {
      NumberedBelow(groups, k + 1, lastSequence);
      assert Q.Continues(groups, k + 1);
    }
  }

  lemma OtherQueueStep(n: Naming, j: Joint, q: Q.Step)
    requires Tied(n, j) && Q.Enabled(j.queue, q) && !q.NewLog? && !q.Finish?
    ensures |j.store.levels| == NUM_LEVELS && Tied(n, After(n, j, QueueStep(q)))
  {
    hide Q.Inv;
    hide Runs.Good;
    hide Durable;
    hide QueueTied;
    hide Q.Apply;
    hide Q.Enabled;
    LevelsOfGood(j.store);
    Q.StepOk(j.queue, q);
    if q.Alone? {
      AloneTied(n, j.queue, q.status, Elements(j.store.mem));
    } else {
      QueueRestTied(n, j.queue, q, Elements(j.store.mem));
    }
  }

  lemma FlushedWithin(st: State, s: Runs.Step, flushed: nat, high: nat)
    requires InSequence(st, flushed) && Bounded(st.history, high) && flushed <= high
    ensures FlushedAfter(st, s, flushed) <= high
  {
    InMem(st, flushed);
  }

  lemma DiskStep(n: Naming, j: Joint, s: Runs.Step)
    requires Tied(n, j) && |j.store.levels| == NUM_LEVELS && MayStep(j, StoreStep(s))
    ensures Tied(n, After(n, j, StoreStep(s)))
  {
    hide Q.Inv;
    hide QueueTied;
    hide Store.Inv;
    hide Stored;
    hide SameReads;
    hide InSequence;
    hide Runs.Enabled;
    hide CrashSafe;
    NotExtraBefore(j.queue);
    Runs.StepOk(j.store, s);
    StepDurable(j.store, s, j.flushed);
    FlushedWithin(j.store, s, j.flushed, Written(j.queue));
  }

  /** Whatever the queue and the disk do next, what the queue has applied is what the store's memtable
      holds, and the store is fit for a crash. */
  lemma StepTied(n: Naming, j: Joint, step: JointStep)
    requires Tied(n, j) && |j.store.levels| == NUM_LEVELS && MayStep(j, step)
    ensures step.QueueStep? && Effect(n, j.queue, step.q).Some? ==> Runs.Enabled(j.store, Effect(n, j.queue, step.q).value)
    ensures Tied(n, After(n, j, step))
  {
    hide Tied;
    hide CrashSafe;
    match step
    case QueueStep(q) =>
      if q.NewLog? {
        SwitchStep(n, j);
      } else if q.Finish? {
        FinishStep(n, j);
      } else {
        OtherQueueStep(n, j, q);
      }
    case StoreStep(s) => DiskStep(n, j, s);
  }

  lemma StartQueueTied(n: Naming)
    ensures QueueTied(n, Q.Start(0), {}) && Written(Q.Start(0)) == 0
  {
    assert Q.Current(Q.Start(0)) == [];
    NothingNamed(n);
  }

  lemma StartTied(n: Naming)
    ensures Tied(n, Joint(Q.Start(0), Runs.EMPTY, 0))
  {
    Q.StartOk(0);
    Runs.EmptyOk();
    EmptyDurable();
    StartQueueTied(n);
    hide Q.Inv;
    hide Runs.Good;
    hide Durable;
    hide QueueTied;
    hide Written;
    assert Elements(Runs.EMPTY.mem) == {};
  }

  ghost predicate Reaches(n: Naming, j: Joint, steps: seq<JointStep>, t: Joint)
    decreases |steps|
  {
    if |steps| == 0 then j == t
    else
      && Q.Inv(j.queue) && |j.store.levels| == NUM_LEVELS && MayStep(j, steps[0])
      && (steps[0].QueueStep? && Effect(n, j.queue, steps[0].q).Some? ==>
            Runs.Enabled(j.store, Effect(n, j.queue, steps[0].q).value))
      && Reaches(n, After(n, j, steps[0]), steps[1..], t)
  }

  lemma {:induction false} RunTied(n: Naming, j: Joint, steps: seq<JointStep>, t: Joint)
    requires Tied(n, j) && Reaches(n, j, steps, t)
    ensures Tied(n, t)
    decreases |steps|
  {
    hide Tied;
    hide MayStep;
    hide After;
    if |steps| > 0 {
      StepTied(n, j, steps[0]);
      RunTied(n, After(n, j, steps[0]), steps[1..], t);
    }
  }

  // ------------------------------------------------------------------------
  // A crash

  /** A group whose record is in the log, but whose operations the store does not count yet, or never will. */
  function Unsettled(q: Q.State): Option<Q.Group>
    requires q.base <= |q.groups|
  {
    if q.pending.logged then Some(q.pending) else Extra(Q.Current(q))
  }

  /** The log holds what the memtable holds, and such a group. */
  lemma LogHolds(n: Naming, q: Q.State, mem: set<Entry>)
    requires Q.Inv(q) && q.base <= |q.groups| && QueueTied(n, q, mem)
    ensures SetNamed(n, LoggedEntries(LogGroups(q)))
            == mem + (var g := Unsettled(q); if g.None? then {} else SetNamed(n, AddedFrom(g.value.firstSeq, g.value.ops)))
  {
    hide SetNamed;
    hide Q.AppliedBy;
    hide AddedFrom;
    hide Clean;
    var gs := Q.Current(q);
    LoggedIsApplied(gs);
    LoggedUnsnoc(LogGroups(q));
    assert LogGroups(q)[..|LogGroups(q)| - 1] == gs;
    SetNamedConcat(n, Q.AppliedBy(gs), ExtraEntries(gs));
    SetNamedConcat(n, LoggedEntries(gs), LoggedEntriesOf(q.pending));
    PendingMeans(q);
    NothingNamed(n);
  }

  lemma PendingMeans(q: Q.State)
    requires Q.Inv(q)
    ensures q.phase.Idle? ==> !q.pending.logged
    ensures q.pending.logged ==>
              q.pending.firstSeq == q.lastSequence + 1 && q.lastSequence + |q.pending.ops| < MAX_SEQUENCE
  {
    hide Q.AppliedBy;
    hide Q.Records;
    hide Q.AllOps;
  }

  lemma NothingNamed(n: Naming)
    ensures SetNamed(n, []) == {}
  {}

  /** The store without snapshots, and as if it had handed out no numbers above what it has written. */
  function Rewound(st: State, lastSequence: nat): State {
    st.(lastSequence := lastSequence, snapshots := [])
  }

  lemma StoredWithin(st: State, flushed: nat, high: nat)
    requires InSequence(st, flushed) && Bounded(st.history, high) && flushed <= high
    ensures Bounded(Stored(st), high)
  {
    InMem(st, flushed);
    forall e | e in Stored(st) ensures e.key.seqNo <= high {
      var k :| 0 <= k < |LayersOf(st)| && e in LayersOf(st)[k];
      if k >= 2 { LayersBounded(st, flushed); }
    }
  }

  lemma RewoundOk(st: State, flushed: nat, high: nat)
    requires Runs.Good(st) && Durable(st, flushed) && Bounded(st.history, high) && flushed <= high < MAX_SEQUENCE
    ensures Runs.Good(Rewound(st, high)) && Durable(Rewound(st, high), flushed)
    ensures MemEntries(Rewound(st, high)) == MemEntries(st)
  {
    hide LevelsOk;
    hide Store.LayersOf;
    StoredWithin(st, flushed, high);
    SameLayers(st, Rewound(st, high));
    LaterFloor(Stored(st), st.history, Floor(st, flushed), flushed);
  }

  lemma SameLayers(st: State, st': State)
    requires st'.mem == st.mem && st'.imm == st.imm && st'.levels == st.levels
    ensures LayersOf(st') == LayersOf(st)
  {}

  /** The store as if the unsettled group had been written. */
  ghost function Settled(n: Naming, j: Joint): State
    requires j.queue.base <= |j.queue.groups|
  {
    var g := Unsettled(j.queue);
    if g.None? then j.store
    else Write(Rewound(j.store, if g.value.firstSeq == 0 then 0 else g.value.firstSeq - 1), OpsNamed(n, g.value.ops))
  }

  lemma UnsettledNumbers(n: Naming, q: Q.State, mem: set<Entry>)
    requires Q.Inv(q) && q.base <= |q.groups| && QueueTied(n, q, mem) && Unsettled(q).Some?
    ensures var g := Unsettled(q).value; 0 < g.firstSeq == Written(q) + 1 && Written(q) + |g.ops| < MAX_SEQUENCE
  {
    hide Q.AppliedBy;
    hide Q.Records;
    PendingMeans(q);
    if !q.pending.logged {
      var k := ExtraIs(Q.Current(q));
      assert Q.GroupOk(q.groups[q.base + k], q.arrived, q.completions);
    }
  }

  /** It is fit for a crash, too, and holds everything a replay of the log can give. */
  lemma SettledOk(n: Naming, j: Joint)
    requires Tied(n, j)
    ensures j.queue.base <= |j.queue.groups|
    ensures Runs.Good(Settled(n, j)) && Durable(Settled(n, j), j.flushed)
    ensures MemEntries(Settled(n, j)) == SetNamed(n, LoggedEntries(LogGroups(j.queue))) + ImmElements(j.store.imm)
  {
    hide Q.Inv;
    hide Runs.Good;
    hide Durable;
    hide SetNamed;
    hide QueueTied;
    hide LogGroups;
    hide AddedFrom;
    hide Write;
    NotExtraBefore(j.queue);
    LogHolds(n, j.queue, Elements(j.store.mem));
    var g := Unsettled(j.queue);
    if g.Some? {
      UnsettledNumbers(n, j.queue, Elements(j.store.mem));
      RewoundOk(j.store, j.flushed, Written(j.queue));
      var before := Rewound(j.store, Written(j.queue));
      LevelsOfGood(before);
      var s := Runs.WriteBatch(OpsNamed(n, g.value.ops));
      Runs.StepOk(before, s);
      StepDurable(before, s, j.flushed);
      WriteNamed(n, before, g.value.ops);
    }
  }

  /** After a crash the memtable that is rebuilt from the surviving bytes of the log, and from any part of
      the older log, opens a store that is well formed and faithful: to the history without the lost writes,
      with a write that only reached the log if it survived. */
  lemma CrashReopens(n: Naming, j: Joint, crc: Checksum, file: Bytes, maxSequence: int, mem: seq<Entry>, lastSequence: nat)
    requires Tied(n, j) && Survives(crc, j.queue, file) && NeverDrifted(crc, j.queue.tried)
    requires var recovered := Summarize(ReadAll(crc, file, BLOCK_SIZE).records, [], maxSequence).added;
             Sorted(mem) && Elements(mem) <= SetNamed(n, recovered) + ImmElements(j.store.imm)
    requires j.flushed <= lastSequence < MAX_SEQUENCE && Bounded(Elements(mem), lastSequence)
    ensures j.queue.base <= |j.queue.groups|
    ensures var st' := Reopened(Settled(n, j), mem, lastSequence); Runs.Good(st') && Faithful(st')
  {
    hide Q.Inv;
    hide Runs.Good;
    hide Durable;
    hide Faithful;
    hide SetNamed;
    hide QueueTied;
    hide LogGroups;
    hide Settled;
    hide Survives;
    hide ReadAll;
    hide Summarize;
    SettledOk(n, j);
    var m := CrashRecovery(j.queue, crc, file, maxSequence);
    LoggedPrefix(n, LogGroups(j.queue), m);
    ReopenedOk(Settled(n, j), j.flushed, mem, lastSequence);
  }

  /** The entries of a sync write that was acknowledged are among those the replay gives. */
  lemma SyncedWriteIsThere(n: Naming, j: Joint, crc: Checksum, file: Bytes, maxSequence: int, k: nat, i: nat)
    returns (seqNo: nat)
    requires Tied(n, j) && Survives(crc, j.queue, file) && NeverDrifted(crc, j.queue.tried)
    requires j.queue.base <= k < |j.queue.groups| && Q.Serves(j.queue.groups[k], i) && i < |j.queue.arrived|
    requires j.queue.groups[k].status == Ok && j.queue.arrived[i].sync && j.queue.arrived[i].batch.Some?
    ensures SetNamed(n, AddedFrom(seqNo, j.queue.arrived[i].batch.value))
            <= SetNamed(n, Summarize(ReadAll(crc, file, BLOCK_SIZE).records, [], maxSequence).added)
  {
    hide Q.Inv;
    hide ReadAll;
    hide Summarize;
    hide SetNamed;
    hide AddedFrom;
    hide Survives;
    var at;
    at, seqNo := DurableWritesSurvive(j.queue, crc, file, maxSequence, k, i);
    var all := Summarize(ReadAll(crc, file, BLOCK_SIZE).records, [], maxSequence).added;
    SliceNamed(n, all, at, |j.queue.arrived[i].batch.value|);
  }

  lemma SliceNamed(n: Naming, all: seq<Added>, at: nat, size: nat)
    requires at + size <= |all|
    ensures SetNamed(n, all[at..at + size]) <= SetNamed(n, all)
  {
    hide AddedNamed;
    var slice := all[at..at + size];
    forall i | 0 <= i < size ensures AddedNamed(n, slice[i]) in SetNamed(n, all) {
      assert slice[i] == all[at + i];
    }
  }
}
