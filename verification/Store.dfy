/**
 The store as a state machine: memtables, level files, sequence numbers, snapshots and,
 for the specification, the set of everything ever written.

 Each step of the database is a function on states; the lemmas show that every step keeps
 `Inv`, and `Faithful` says that the stored entries still read like the full history.
 */
module Store {
  import opened Entries
  import opened VersionSet
  import opened CompactionInputs
  import opened Layers

  datatype Op = Put(user: UserKey, value: UserValue) | Delete(user: UserKey)

  datatype State = State(mem: seq<Entry>, imm: Option<seq<Entry>>, levels: seq<seq<File>>,
                         lastSequence: nat, snapshots: seq<nat>, nextFile: nat, history: set<Entry>)

  const LAYERS := NUM_LEVELS + 2

  ghost function ImmElements(imm: Option<seq<Entry>>): set<Entry> {
    if imm.Some? then Elements(imm.value) else {}
  }

  ghost function LevelLayers(levels: seq<seq<File>>): (r: seq<set<Entry>>)
    ensures |r| == |levels| && forall l :: 0 <= l < |levels| ==> r[l] == Contents(levels[l])
  {
    seq(|levels|, l requires 0 <= l < |levels| => Contents(levels[l]))
  }

  /** Search order: memtable, immutable memtable, level 0, level 1, ... */
  ghost function LayersOf(st: State): seq<set<Entry>> {
    [Elements(st.mem), ImmElements(st.imm)] + LevelLayers(st.levels)
  }

  /** Everything stored. */
  ghost function Stored(st: State): set<Entry> {
    Union(LayersOf(st))
  }

  /** The oldest live snapshot, or the last sequence number. */
  function SmallestSnapshot(st: State): nat {
    if |st.snapshots| == 0 then st.lastSequence else st.snapshots[0]
  }

  // ------------------------------------------------------------------------
  // The invariant

  ghost predicate FileOk(f: File, nextFile: nat) {
    WellFormedFile(f) && f.number < nextFile
  }

  ghost predicate FilesOk(files: seq<File>, nextFile: nat) {
    forall f :: f in files ==> FileOk(f, nextFile)
  }

  ghost predicate Names(levels: seq<seq<File>>, number: nat, l: nat, f: File) {
    l < |levels| && f in levels[l] && f.number == number
  }

  /** A file number names one file at one level. */
  ghost predicate NumbersUnique(levels: seq<seq<File>>) {
    forall n, l, m, f, g :: Names(levels, n, l, f) && Names(levels, n, m, g) ==> l == m && f == g
  }

  /** Level-0 files with larger numbers hold newer entries. */
  ghost predicate NewestFirstOk(files: seq<File>) {
    forall f, g :: f in files && g in files && f.number > g.number ==>
      Above(Elements(f.entries), Elements(g.entries))
  }

  ghost predicate LevelsOk(levels: seq<seq<File>>, nextFile: nat) {
    && |levels| == NUM_LEVELS
    && (forall l :: 0 <= l < NUM_LEVELS ==> FilesOk(levels[l], nextFile))
    && (forall l :: 1 <= l < NUM_LEVELS ==> Disjoint(levels[l]))
    && NumbersUnique(levels)
    && NewestFirstOk(levels[0]) && NoDup(levels[0])
  }

  ghost predicate Bounded(s: set<Entry>, lastSequence: nat) {
    forall e :: e in s ==> e.key.seqNo <= lastSequence
  }

  predicate SnapshotsOk(snapshots: seq<nat>, lastSequence: nat) {
    forall i :: 0 <= i < |snapshots| ==> snapshots[0] <= snapshots[i] <= lastSequence
  }

  /** Sequence numbers are unique, and none is above the last one handed out. */
  ghost predicate SeqNosOk(stored: set<Entry>, history: set<Entry>, lastSequence: nat) {
    && UniqueSeqNos(stored) && Bounded(stored, lastSequence)
    && UniqueSeqNos(history) && Bounded(history, lastSequence)
    && lastSequence < MAX_SEQUENCE
  }

  ghost predicate MemOk(st: State) {
    Sorted(st.mem) && (st.imm.Some? ==> Sorted(st.imm.value))
  }

  ghost predicate Inv(st: State) {
    && LevelsOk(st.levels, st.nextFile)
    && MemOk(st)
    && LayersOk(LayersOf(st))
    && SeqNosOk(Stored(st), st.history, st.lastSequence)
    && SnapshotsOk(st.snapshots, st.lastSequence)
  }

  /** Readers at a live snapshot, or at the present, see exactly the history. */
  ghost predicate Faithful(st: State) {
    SameReads(Stored(st), st.history, SmallestSnapshot(st))
  }

  lemma SameNumber(levels: seq<seq<File>>, l: nat, m: nat, f: File, g: File)
    requires NumbersUnique(levels) && l < |levels| && m < |levels|
    requires f in levels[l] && g in levels[m] && f.number == g.number
    ensures l == m && f == g
  {
    assert Names(levels, f.number, l, f) && Names(levels, f.number, m, g);
  }

  lemma LevelsHaveRanges(levels: seq<seq<File>>, nextFile: nat)
    requires LevelsOk(levels, nextFile)
    ensures LevelRanges(levels)
  {
    forall l, i | 0 <= l < NUM_LEVELS && 0 <= i < |levels[l]| ensures RangeOk(levels[l][i]) {
      assert levels[l][i] in levels[l];
      RangeIsOk(levels[l][i]);
    }
  }

  // ------------------------------------------------------------------------
  // Writing

  function InsertSorted(es: seq<Entry>, e: Entry): seq<Entry> {
    var i := FirstAtOrAfter(es, e.key);
    es[..i] + [e] + es[i..]
  }

  lemma InsertSortedOk(es: seq<Entry>, e: Entry)
    requires Sorted(es) && forall x :: x in es ==> x.key != e.key
    ensures Sorted(InsertSorted(es, e))
    ensures Elements(InsertSorted(es, e)) == Elements(es) + {e}
  {
    InsertKeepsOrder(es, e);
    var i := FirstAtOrAfter(es, e.key);
    assert es == es[..i] + es[i..];
    forall x ensures x in InsertSorted(es, e) <==> x in es || x == e {
      assert x in es <==> x in es[..i] || x in es[i..];
    }
  }

  lemma InsertKeepsOrder(es: seq<Entry>, e: Entry)
    requires Sorted(es) && forall x :: x in es ==> x.key != e.key
    ensures Sorted(InsertSorted(es, e))
  {
    var i := FirstAtOrAfter(es, e.key);
    var r := InsertSorted(es, e);
    hide FirstAtOrAfter;
    assert i < |es| ==> es[i] in es && Less(e.key, es[i].key);
    assert forall k :: i < k < |es| ==> Less(es[i].key, es[k].key);
    assert forall k :: i <= k < |es| ==> Less(e.key, es[k].key);
    assert forall k :: 0 <= k < i ==> r[k] == es[k];
    assert r[i] == e;
    assert forall k :: i < k < |r| ==> r[k] == es[k - 1];
  }

  function EntryOf(op: Op, seqNo: nat): Entry {
    match op
    case Put(u, v) => Entry(InternalKey(u, seqNo, Value), v)
    case Delete(u) => Entry(InternalKey(u, seqNo, Deletion), "")
  }

  /** One operation of a batch: the next sequence number, into the memtable. */
  function WriteOne(st: State, op: Op): State {
    var e := EntryOf(op, st.lastSequence + 1);
    st.(mem := InsertSorted(st.mem, e), lastSequence := st.lastSequence + 1, history := st.history + {e})
  }

  function Write(st: State, ops: seq<Op>): State {
    if |ops| == 0 then st else WriteOne(Write(st, ops[..|ops| - 1]), ops[|ops| - 1])
  }

  lemma WriteOneOk(st: State, op: Op)
    requires Inv(st) && st.lastSequence + 1 < MAX_SEQUENCE
    ensures Inv(WriteOne(st, op))
    ensures Faithful(st) ==> Faithful(WriteOne(st, op))
    ensures SmallestSnapshot(st) <= SmallestSnapshot(WriteOne(st, op))
  {
    hide LayersOk;
    hide LayersOf;
    hide LevelsOk;
    hide Union;
    hide UniqueSeqNos;
    hide SameReads;
    hide Sorted;
    OneMoreStored(st, op);
    if Faithful(st) {
      SameReadsExtend(Stored(st), st.history, {EntryOf(op, st.lastSequence + 1)}, SmallestSnapshot(st));
      LaterFloor(Stored(WriteOne(st, op)), WriteOne(st, op).history, SmallestSnapshot(st), SmallestSnapshot(WriteOne(st, op)));
    }
  }

  lemma LaterFloor(s: set<Entry>, t: set<Entry>, floor: nat, later: nat)
    requires SameReads(s, t, floor) && floor <= later
    ensures SameReads(s, t, later)
  {}

  /** A new entry joins the memtable, newer than everything. */
  lemma OneMoreStored(st: State, op: Op)
    requires Inv(st) && st.lastSequence + 1 < MAX_SEQUENCE
    ensures var e := EntryOf(op, st.lastSequence + 1); var st' := WriteOne(st, op);
            && Stored(st') == Stored(st) + {e} && Above({e}, Stored(st)) && Above({e}, st.history)
            && SeqNosOk(Stored(st'), st'.history, st'.lastSequence)
            && LayersOk(LayersOf(st')) && MemOk(st')
  {
    hide LevelsOk;
    hide LayersOk;
    hide Union;
    var e := EntryOf(op, st.lastSequence + 1);
    var st' := WriteOne(st, op);
    NewSeqNo(Stored(st), st.history, st.lastSequence, e);
    forall x | x in st.mem ensures x.key != e.key { MemStored(st, x); }
    InsertSortedOk(st.mem, e);
    TopChanges(st, st', {e});
    GrowTop(LayersOf(st), {e});
  }

  lemma NewSeqNo(stored: set<Entry>, history: set<Entry>, lastSequence: nat, e: Entry)
    requires SeqNosOk(stored, history, lastSequence)
    requires e.key.seqNo == lastSequence + 1 < MAX_SEQUENCE
    ensures SeqNosOk(stored + {e}, history + {e}, lastSequence + 1)
    ensures Above({e}, stored) && Above({e}, history)
  {}

  lemma MemStored(st: State, x: Entry)
    requires x in st.mem
    ensures x in Stored(st)
  {
    assert x in LayersOf(st)[0];
  }

  lemma TopChanges(st: State, st': State, added: set<Entry>)
    requires Elements(st'.mem) == Elements(st.mem) + added && st'.imm == st.imm && st'.levels == st.levels
    ensures LayersOf(st') == LayersOf(st)[0 := LayersOf(st)[0] + added]
  {}

  lemma {:induction false} WriteOk(st: State, ops: seq<Op>)
    requires Inv(st) && st.lastSequence + |ops| < MAX_SEQUENCE
    ensures Inv(Write(st, ops)) && Write(st, ops).lastSequence == st.lastSequence + |ops|
    ensures Faithful(st) ==> Faithful(Write(st, ops))
  {
    if |ops| > 0 {
      WriteOk(st, ops[..|ops| - 1]);
      WriteOneOk(Write(st, ops[..|ops| - 1]), ops[|ops| - 1]);
    }
  }

  /** A write whose log append fails still uses up its sequence numbers. */
  function FailedWrite(st: State, count: nat): State {
    st.(lastSequence := st.lastSequence + count)
  }

  lemma FailedWriteOk(st: State, count: nat)
    requires Inv(st) && st.lastSequence + count < MAX_SEQUENCE
    ensures Inv(FailedWrite(st, count)) && (Faithful(st) ==> Faithful(FailedWrite(st, count)))
  {
    assert LayersOf(FailedWrite(st, count)) == LayersOf(st);
  }

  // ------------------------------------------------------------------------
  // Snapshots and the memtable switch

  function TakeSnapshot(st: State): State {
    st.(snapshots := st.snapshots + [st.lastSequence])
  }

  function ReleaseSnapshot(st: State, i: nat): State
    requires i < |st.snapshots|
  {
    st.(snapshots := st.snapshots[..i] + st.snapshots[i + 1..])
  }

  /** Snapshots are kept in the order they were taken. */
  predicate SnapshotsAscend(snapshots: seq<nat>) {
    forall i, j :: 0 <= i < j < |snapshots| ==> snapshots[i] <= snapshots[j]
  }

  lemma TakeSnapshotOk(st: State)
    requires Inv(st) && SnapshotsAscend(st.snapshots)
    ensures Inv(TakeSnapshot(st)) && SnapshotsAscend(TakeSnapshot(st).snapshots)
    ensures SmallestSnapshot(TakeSnapshot(st)) == SmallestSnapshot(st)
    ensures Faithful(st) ==> Faithful(TakeSnapshot(st))
  {
    assert LayersOf(TakeSnapshot(st)) == LayersOf(st);
  }

  /** Only the snapshot given back is gone. */
  lemma OthersStay(st: State, i: nat)
    requires i < |st.snapshots|
    ensures multiset(ReleaseSnapshot(st, i).snapshots) == multiset(st.snapshots) - multiset{st.snapshots[i]}
    ensures forall s :: s in st.snapshots && s != st.snapshots[i] ==> s in ReleaseSnapshot(st, i).snapshots
  {
    assert st.snapshots == st.snapshots[..i] + [st.snapshots[i]] + st.snapshots[i + 1..];
  }

  lemma ReleaseSnapshotOk(st: State, i: nat)
    requires Inv(st) && SnapshotsAscend(st.snapshots) && i < |st.snapshots|
    ensures Inv(ReleaseSnapshot(st, i)) && SnapshotsAscend(ReleaseSnapshot(st, i).snapshots)
    ensures SmallestSnapshot(st) <= SmallestSnapshot(ReleaseSnapshot(st, i))
    ensures Faithful(st) ==> Faithful(ReleaseSnapshot(st, i))
  {
    assert LayersOf(ReleaseSnapshot(st, i)) == LayersOf(st);
  }

  /** A full memtable becomes the immutable one. */
  function SwitchMemTable(st: State): State {
    st.(mem := [], imm := Some(st.mem))
  }

  lemma SwitchOk(st: State)
    requires Inv(st) && st.imm.None?
    ensures Inv(SwitchMemTable(st)) && (Faithful(st) ==> Faithful(SwitchMemTable(st)))
  {
    var ls, ls' := LayersOf(st), LayersOf(SwitchMemTable(st));
    MoveDown(ls, 0, 1, ls[0]);
    assert ls'[0] == ls[0] - ls[0] && ls'[1] == ls[1] + ls[0];
    assert ls' == ls[0 := ls[0] - ls[0]][1 := ls[1] + ls[0]];
  }
}
