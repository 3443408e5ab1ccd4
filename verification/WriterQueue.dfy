/**
 Group commit.  Writers queue up; the one at the front logs and applies the batches of a whole
 group, then completes every member.  Writers may join at any moment in between.

 The queue, the log, the memtable and the completions are the state; `Inv` is kept by every
 step, so it holds throughout every run.
 */
module WriterQueue {
  import opened Coding
  import opened Entries
  import opened Sequences
  import opened WriteBatches
  import Log

  /** A null batch asks only for a memtable switch. */
  datatype Writer = Writer(batch: Option<seq<BatchOp>>, sync: bool)

  /** A group served by one leader.  `logged` says its record reached the log, `applied` the memtable. */
  datatype Group = Group(first: nat, size: nat, ops: seq<BatchOp>, firstSeq: nat,
                         status: Status, logged: bool, applied: bool)

  datatype Phase =
    | Idle
    | Logging
    | Syncing
    | Inserting
    | Finishing(status: Status, syncError: bool)

  datatype Completion = Completion(writer: nat, status: Status)

  /** Writers are named by their place in the order of arrival.  `pending` is the group being
      served while the lock is released; `base` counts the groups of earlier log files.  `tried` are
      the appends to the current log file, failed ones included, which decide its bytes and the block
      offset of its writer; `log` are the records of the successful ones. */
  datatype State = State(
    arrived: seq<Writer>, queue: seq<nat>, completions: seq<Completion>,
    phase: Phase, pending: Group, lastSequence: nat, bgError: bool,
    log: seq<Bytes>, synced: nat, tried: seq<Log.Attempt>, syncedTried: nat, mem: seq<Added>,
    groups: seq<Group>, base: nat)

  const SMALL_BATCH: nat := 0x2_0000
  const MAX_GROUP: nat := 0x10_0000

  // ------------------------------------------------------------------------
  // Building a group

  function OpsOfWriter(w: Writer): seq<BatchOp> {
    if w.batch.Some? then w.batch.value else []
  }

  function ByteSize(w: Writer): nat {
    if w.batch.Some? then |Rep(0, w.batch.value)| else 0
  }

  /** The operations of a list of writers, in order. */
  function AllOps(ws: seq<Writer>): seq<BatchOp> {
    if |ws| == 0 then [] else AllOps(ws[..|ws| - 1]) + OpsOfWriter(ws[|ws| - 1])
  }

  function TotalSize(ws: seq<Writer>): nat {
    if |ws| == 0 then 0 else TotalSize(ws[..|ws| - 1]) + ByteSize(ws[|ws| - 1])
  }

  function SizeLimit(leader: Writer): nat {
    if ByteSize(leader) <= SMALL_BATCH then ByteSize(leader) + SMALL_BATCH else MAX_GROUP
  }

  /** Whether the writer at `i` may join the group led by `ws[0]`. */
  predicate Joins(ws: seq<Writer>, i: nat)
    requires 0 < i < |ws|
  {
    && (ws[i].sync ==> ws[0].sync)
    && (ws[i].batch.Some? ==> TotalSize(ws[..i + 1]) <= SizeLimit(ws[0]))
  }

  /** The group is the longest run from the front that may all join. */
  predicate IsGroup(ws: seq<Writer>, n: nat) {
    && 0 < n <= |ws|
    && (forall i :: 0 < i < n ==> Joins(ws, i))
    && (n < |ws| ==> !Joins(ws, n))
  }

  lemma OneGroup(ws: seq<Writer>, n: nat, m: nat)
    requires IsGroup(ws, n) && IsGroup(ws, m)
    ensures n == m
  {
    var nextJoins := n < |ws| && Joins(ws, n);
    var nextJoins' := m < |ws| && Joins(ws, m);
  }

  /** A group takes in no more than 1 MB, and after a small first write no more than 128 KB besides; the next writer was
      left out because it did not fit, or wants a sync that the leader does not. */
  lemma GroupIsBounded(ws: seq<Writer>, n: nat)
    requires IsGroup(ws, n)
    ensures var first := ByteSize(ws[0]); var limit := if first <= 0x2_0000 then first + 0x2_0000 else 0x10_0000;
            && (TotalSize(ws[..n]) > limit ==> TotalSize(ws[..n]) == first)
            && (n < |ws| ==> (ws[n].sync && !ws[0].sync) || (ws[n].batch.Some? && TotalSize(ws[..n]) + ByteSize(ws[n]) > limit))
  {
    hide ByteSize;
    LastToJoin(ws, n);
    if n < |ws| { PrefixSnoc(ws, n); }
  }

  /** Writers without a batch add nothing to the size. */
  lemma {:induction false} LastToJoin(ws: seq<Writer>, n: nat)
    requires 0 < n <= |ws| && forall i :: 0 < i < n ==> Joins(ws, i)
    ensures TotalSize(ws[..n]) <= SizeLimit(ws[0]) || TotalSize(ws[..n]) == ByteSize(ws[0])
  {
    hide ByteSize;
    if n == 1 {
      assert ws[..1][..0] == [];
    } else {
      LastToJoin(ws, n - 1);
      assert ws[..n][..n - 1] == ws[..n - 1];
      assert Joins(ws, n - 1);
      if ws[n - 1].batch.None? { NoBatchNoBytes(ws[n - 1]); }
    }
  }

  lemma NoBatchNoBytes(w: Writer)
    requires w.batch.None?
    ensures ByteSize(w) == 0
  {}

  method BuildBatchGroup(ws: seq<Writer>) returns (n: nat, ops: seq<BatchOp>)
    requires |ws| > 0 && ws[0].batch.Some?
    ensures IsGroup(ws, n) && ops == AllOps(ws[..n])
  {
    hide ByteSize;
    hide AllOps;
    hide TotalSize;
    var first := ws[0];
    ops := first.batch.value;
    var size := ByteSize(first);
    var maxSize := MAX_GROUP;
    if size <= SMALL_BATCH {
      maxSize := size + SMALL_BATCH;
    }
    n := 1;
    FirstOnly(ws);
    while n < |ws|
      invariant 0 < n <= |ws| && maxSize == SizeLimit(first)
      invariant size == TotalSize(ws[..n]) && ops == AllOps(ws[..n])
      invariant forall i :: 0 < i < n ==> Joins(ws, i)
    {
      var w := ws[n];
      OneMore(ws, n);
      if w.sync && !first.sync {
        break;
      }
      if w.batch.Some? {
        size := size + ByteSize(w);
        if size > maxSize {
          break;
        }
        ops := ops + w.batch.value;
      }
      n := n + 1;
    }
  }

  /** Each writer's batch object, or null, holds the operations of that writer. */
  ghost predicate BatchesOf(batches: seq<WriteBatch?>, ws: seq<Writer>, seqNos: seq<nat>)
    reads set i | 0 <= i < |batches| :: batches[i]
  {
    && |batches| == |ws| == |seqNos|
    && forall i :: 0 <= i < |ws| ==>
         if ws[i].batch.None? then batches[i] == null
         else batches[i] != null && batches[i].Holds(seqNos[i], ws[i].batch.value)
  }

  /** The record of a group, from the batch objects of its writers: a lone batch is stamped itself, several
      are gathered in the database's own batch first. */
  method GroupRecord(batches: seq<WriteBatch?>, temporary: WriteBatch, seqNo: nat,
                     ghost ws: seq<Writer>, ghost seqNos: seq<nat>)
    returns (record: Bytes)
    requires |ws| > 0 && ws[0].batch.Some? && BatchesOf(batches, ws, seqNos)
    requires temporary !in batches && temporary.Holds(0, []) && |AllOps(ws)| < COUNT_LIMIT
    modifies batches[0], temporary
    ensures record == Rep(seqNo, AllOps(ws))
  {
    hide Rep;
    hide AllOps;
    var first := batches[0];
    var result: WriteBatch := first;
    FirstOnly(ws);
    for i := 1 to |batches|
      invariant BatchesOf(batches, ws, seqNos)
      invariant if result == first then AllOps(ws[..i]) == ws[0].batch.value && temporary.Holds(0, [])
                else result == temporary && temporary.Holds(0, AllOps(ws[..i]))
    {
      OneMore(ws, i);
      FewerOps(ws, i + 1);
      if batches[i] != null {
        if result == first {
          result := temporary;
          temporary.Append(first);
          assert [] + ws[0].batch.value == ws[0].batch.value;
        }
        result.Append(batches[i]);
      }
    }
    assert ws[..|ws|] == ws;
    HoldsIsValid(result, if result == first then seqNos[0] else 0, AllOps(ws));
    result.SetSequence(seqNo);
    record := result.rep;
  }

  lemma HoldsIsValid(b: WriteBatch, seqNo: nat, ops: seq<BatchOp>)
    requires b.Holds(seqNo, ops)
    ensures b.Valid()
  {
    RepParts(seqNo, ops);
  }

  lemma {:induction false} FewerOps(ws: seq<Writer>, n: nat)
    requires n <= |ws|
    ensures |AllOps(ws[..n])| <= |AllOps(ws)|
  {
    if n < |ws| {
      FewerOps(ws[..|ws| - 1], n);
      assert ws[..|ws| - 1][..n] == ws[..n];
    } else {
      assert ws[..n] == ws;
    }
  }

  lemma OneMore(ws: seq<Writer>, n: nat)
    requires n < |ws|
    ensures TotalSize(ws[..n + 1]) == TotalSize(ws[..n]) + ByteSize(ws[n])
    ensures AllOps(ws[..n + 1]) == AllOps(ws[..n]) + OpsOfWriter(ws[n])
    ensures ws[n].batch.None? ==> ByteSize(ws[n]) == 0 && AllOps(ws[..n + 1]) == AllOps(ws[..n])
  {
    PrefixSnoc(ws, n);
  }

  lemma FirstOnly(ws: seq<Writer>)
    requires |ws| > 0
    ensures TotalSize(ws[..1]) == ByteSize(ws[0]) && AllOps(ws[..1]) == OpsOfWriter(ws[0])
  {
    assert ws[..1][..0] == [];
  }

  /** No writer that asked for durability is served by one that did not. */
  lemma SyncJoinsSync(ws: seq<Writer>, n: nat, i: nat)
    requires IsGroup(ws, n) && i < n && ws[i].sync
    ensures ws[0].sync
  {
    if i > 0 { assert Joins(ws, i); }
  }

  /** Pops and completes writers until the last one of the group. */
  method CompleteGroup(queue: seq<nat>, last: nat, status: Status)
    returns (rest: seq<nat>, completed: seq<Completion>, ghost n: nat)
    requires last in queue
    ensures 0 < n <= |queue| && queue[n - 1] == last && last !in queue[..n - 1]
    ensures rest == queue[n..] && completed == Completions(queue[..n], status)
  {
    rest, completed, n := queue, [], 0;
    while true
      invariant n < |queue| && rest == queue[n..] && last in rest && last !in queue[..n]
      invariant completed == Completions(queue[..n], status)
      decreases |rest|
    {
      var ready := rest[0];
      rest := rest[1..];
      completed := completed + [Completion(ready, status)];
      PrefixSnoc(queue, n);
      assert queue[..n + 1][..n] == queue[..n];
      assert rest == queue[n + 1..];
      n := n + 1;
      if ready == last {
        break;
      }
      assert last in queue[n - 1..] && queue[n - 1..] == [ready] + rest;
    }
  }

  function Completions(ids: seq<nat>, status: Status): (r: seq<Completion>)
    ensures |r| == |ids| && forall i :: 0 <= i < |ids| ==> r[i] == Completion(ids[i], status)
  {
    seq(|ids|, i requires 0 <= i < |ids| => Completion(ids[i], status))
  }

  // ------------------------------------------------------------------------
  // Steps

  datatype Step =
    | Join(writer: Writer)          // a new writer reaches the back of the queue
    | Alone(status: Status)         // the front writer has no batch, or may not write
    | NewLog                        // the front writer switches memtable and log file
    | Lead(size: nat)               // the front writer gathers its group and releases the lock
    | Append(outcome: Log.Outcome)  // the group's record is appended to the log
    | SyncLog(ok: bool)
    | Insert                        // the record is applied to the memtable
    | Finish                        // the lock is taken again and the group is completed

  const NO_GROUP := Group(0, 0, [], 0, Ok, false, false)

  function Start(lastSequence: nat): State {
    State([], [], [], Idle, NO_GROUP, lastSequence, false, [], 0, [], 0, [], [], 0)
  }

  predicate QueueOk(s: State) {
    forall j :: 0 <= j < |s.queue| ==> s.queue[j] < |s.arrived|
  }

  /** The writers in the queue. */
  function Waiting(s: State): (ws: seq<Writer>)
    requires QueueOk(s)
    ensures |ws| == |s.queue|
  {
    seq(|s.queue|, j requires 0 <= j < |s.queue| => s.arrived[s.queue[j]])
  }

  function RecordOf(g: Group): Bytes {
    Rep(g.firstSeq, g.ops)
  }

  /** The block offset of the log writer. */
  function WriterOffset(s: State): (r: nat)
    ensures r <= Log.BLOCK_SIZE
  {
    Log.OffsetOf(s.tried, 0)
  }

  /** The bytes of the log file. */
  function LogFile(crc: Log.Checksum, s: State): Bytes
    requires Log.Possible(s.tried, 0)
  {
    Log.FileBytes(crc, s.tried, 0)
  }

  predicate Enabled(s: State, step: Step)
    requires QueueOk(s)
  {
    match step
    case Join(w) => AllFit(OpsOfWriter(w)) && |OpsOfWriter(w)| < COUNT_LIMIT
    case Alone(status) =>
      && s.phase.Idle? && |s.queue| > 0
      && (s.bgError ==> status != Ok) && (status == Ok ==> Waiting(s)[0].batch.None?)
    case NewLog => s.phase.Idle? && |s.queue| > 0 && !s.bgError
    case Lead(n) =>
      && s.phase.Idle? && |s.queue| > 0 && !s.bgError
      && Waiting(s)[0].batch.Some? && IsGroup(Waiting(s), n)
      && s.lastSequence + |AllOps(Waiting(s)[..n])| < MAX_SEQUENCE
    case Append(outcome) => s.phase.Logging? && |s.queue| > 0 && Log.CanEnd(RecordOf(s.pending), WriterOffset(s), outcome)
    case SyncLog(ok) => s.phase.Syncing?
    case Insert => s.phase.Inserting?
    case Finish => s.phase.Finishing? && s.pending.size <= |s.queue|
  }

  function Apply(s: State, step: Step): State
    requires QueueOk(s) && Enabled(s, step)
  {
    match step
    case Join(w) => s.(arrived := s.arrived + [w], queue := s.queue + [|s.arrived|])
    case Alone(status) =>
      s.(queue := s.queue[1..], completions := s.completions + Completions(s.queue[..1], status),
         groups := s.groups + [Group(s.queue[0], 1, [], s.lastSequence + 1, status, false, false)])
    case NewLog => s.(log := [], synced := 0, tried := [], syncedTried := 0, mem := [], base := |s.groups|)
    case Lead(n) =>
      s.(phase := Logging,
         pending := Group(s.queue[0], n, AllOps(Waiting(s)[..n]), s.lastSequence + 1, Ok, false, false))
    case Append(outcome) =>
      var tried := s.tried + [Log.Attempt(RecordOf(s.pending), outcome)];
      if outcome.Whole? then
        s.(log := s.log + [RecordOf(s.pending)], tried := tried, pending := s.pending.(logged := true),
           phase := if Waiting(s)[0].sync then Syncing else Inserting)
      else s.(tried := tried, phase := Finishing(IOError, false))
    case SyncLog(ok) =>
      if ok then s.(synced := |s.log|, syncedTried := |s.tried|, phase := Inserting) else s.(phase := Finishing(IOError, true))
    case Insert =>
      var record := RecordOf(s.pending);
      s.(mem := s.mem + AddedFrom(SequenceOf(record), OpsOf(record)), pending := s.pending.(applied := true),
         phase := Finishing(StatusOf(record), false))
    case Finish =>
      var n, status := s.pending.size, s.phase.status;
      s.(queue := s.queue[n..], completions := s.completions + Completions(s.queue[..n], status),
         lastSequence := s.lastSequence + |s.pending.ops|, bgError := s.bgError || s.phase.syncError,
         groups := s.groups + [s.pending.(status := status)], pending := NO_GROUP, phase := Idle)
  }

  // ------------------------------------------------------------------------
  // The invariant

  /** Writers complete in order of arrival, each exactly once; the others wait in that order. */
  predicate InOrder(arrived: nat, queue: seq<nat>, completions: seq<Completion>) {
    && |completions| + |queue| == arrived
    && (forall k :: 0 <= k < |completions| ==> completions[k].writer == k)
    && (forall j :: 0 <= j < |queue| ==> queue[j] == |completions| + j)
  }

  function FirstOf(groups: seq<Group>, k: nat): nat
    requires k <= |groups|
  {
    if k == 0 then 0 else groups[k - 1].first + groups[k - 1].size
  }

  predicate Follows(groups: seq<Group>, k: nat)
    requires k < |groups|
  {
    groups[k].size > 0 && groups[k].first == FirstOf(groups, k)
  }

  /** The groups cut the completed writers into consecutive runs. */
  predicate Tiled(groups: seq<Group>, completed: nat) {
    && (forall k: nat :: k < |groups| ==> Follows(groups, k))
    && FirstOf(groups, |groups|) == completed
  }

  function SeqAfter(g: Group): nat {
    g.firstSeq + |g.ops|
  }

  predicate Continues(groups: seq<Group>, k: nat)
    requires k < |groups|
  {
    k == 0 || groups[k].firstSeq == SeqAfter(groups[k - 1])
  }

  /** Each group's sequence numbers start where the previous group's end, failed or not. */
  predicate Numbered(groups: seq<Group>, lastSequence: nat) {
    && (forall k: nat :: k < |groups| ==> Continues(groups, k))
    && (|groups| > 0 ==> lastSequence + 1 == SeqAfter(groups[|groups| - 1]))
  }

  predicate Encodable(g: Group) {
    AllFit(g.ops) && |g.ops| < COUNT_LIMIT && SeqAfter(g) <= MAX_SEQUENCE
  }

  /** What holds of a list of writers served with group `g`. */
  predicate ServedBy(g: Group, ws: seq<Writer>) {
    && Encodable(g)
    && (g.applied ==> g.logged)
    && (g.logged ==> g.ops == AllOps(ws) && |ws| > 0 && forall i :: 0 <= i < |ws| && ws[i].sync ==> ws[0].sync)
  }

  predicate GroupOk(g: Group, arrived: seq<Writer>, completions: seq<Completion>) {
    && g.first + g.size <= |completions| && |completions| <= |arrived|
    && ServedBy(g, arrived[g.first..g.first + g.size])
    && (g.applied ==> g.status == Ok)
    && (g.status == Ok ==> g.applied || (g.size == 1 && arrived[g.first].batch.None?))
    && forall i :: g.first <= i < g.first + g.size ==> completions[i].status == g.status
  }

  function Logged(g: Group): seq<Bytes> {
    if g.logged then [RecordOf(g)] else []
  }

  function Applied(g: Group): seq<Added> {
    if g.applied then AddedFrom(g.firstSeq, g.ops) else []
  }

  function Records(groups: seq<Group>): seq<Bytes> {
    if |groups| == 0 then []
    else
      Records(groups[..|groups| - 1]) + Logged(groups[|groups| - 1])
  }

  function AppliedBy(groups: seq<Group>): seq<Added> {
    if |groups| == 0 then []
    else
      AppliedBy(groups[..|groups| - 1]) + Applied(groups[|groups| - 1])
  }

  /** The records of groups whose leader asked for durability and succeeded are in the synced part. */
  predicate Durable(groups: seq<Group>, arrived: seq<Writer>, synced: nat) {
    forall k :: 0 <= k < |groups| && groups[k].applied && groups[k].first < |arrived| && arrived[groups[k].first].sync ==>
      |Records(groups[..k + 1])| <= synced
  }

  /** The group being served, in each phase. */
  predicate PendingOk(s: State)
    requires QueueOk(s)
  {
    var p := s.pending;
    if s.phase.Idle? then p == NO_GROUP
    else
      && 0 < p.size <= |s.queue| && p.first == |s.completions|
      && p.firstSeq == s.lastSequence + 1 && p.ops == AllOps(Waiting(s)[..p.size])
      && p.status == Ok
      && ServedBy(p.(logged := true), Waiting(s)[..p.size])
      && PhaseOk(s.phase, p, Waiting(s)[0].sync, s.synced == |s.log|)
  }

  predicate PhaseOk(phase: Phase, p: Group, sync: bool, allSynced: bool) {
    match phase
    case Idle => true
    case Logging => !p.logged && !p.applied
    case Syncing => p.logged && !p.applied && sync
    case Inserting => p.logged && !p.applied && (sync ==> allSynced)
    case Finishing(status, _) => if p.applied then p.logged && status == Ok && (sync ==> allSynced) else status != Ok
  }

  predicate JoinedOk(arrived: seq<Writer>) {
    forall i :: 0 <= i < |arrived| ==> AllFit(OpsOfWriter(arrived[i])) && |OpsOfWriter(arrived[i])| < COUNT_LIMIT
  }

  /** The groups that used the current log file. */
  function Current(s: State): seq<Group>
    requires s.base <= |s.groups|
  {
    s.groups[s.base..]
  }

  predicate LogOk(s: State) {
    && s.base <= |s.groups| && s.synced <= |s.log|
    && s.log == Records(Current(s) + [s.pending])
    && s.mem == AppliedBy(Current(s) + [s.pending])
    && Durable(Current(s), s.arrived, s.synced)
    && FileOk(s)
  }

  /** The log file's appends: the successful ones wrote the log, and a prefix of all is synced. */
  predicate FileOk(s: State) {
    && Log.Possible(s.tried, 0) && s.log == Log.Written(s.tried)
    && s.syncedTried <= |s.tried| && s.synced == |Log.Written(s.tried[..s.syncedTried])|
    && Log.Possible(s.tried[..s.syncedTried], 0)
  }

  predicate GroupsOk(groups: seq<Group>, arrived: seq<Writer>, completions: seq<Completion>) {
    forall k :: 0 <= k < |groups| ==> GroupOk(groups[k], arrived, completions)
  }

  predicate Inv(s: State) {
    && InOrder(|s.arrived|, s.queue, s.completions)
    && QueueOk(s) && JoinedOk(s.arrived)
    && Tiled(s.groups, |s.completions|)
    && Numbered(s.groups, s.lastSequence) && s.lastSequence < MAX_SEQUENCE
    && GroupsOk(s.groups, s.arrived, s.completions)
    && PendingOk(s)
    && LogOk(s)
  }

  lemma StartOk(lastSequence: nat)
    requires lastSequence < MAX_SEQUENCE
    ensures Inv(Start(lastSequence))
  {
    hide RecordOf;
    Snoc([], NO_GROUP);
    assert Current(Start(lastSequence)) + [NO_GROUP] == [NO_GROUP];
  }

  // ------------------------------------------------------------------------
  // Every step keeps the invariant

  lemma WaitingIs(s: State)
    requires InOrder(|s.arrived|, s.queue, s.completions) && QueueOk(s)
    ensures Waiting(s) == s.arrived[|s.completions|..]
  {}

  lemma Snoc(gs: seq<Group>, g: Group)
    ensures Records(gs + [g]) == Records(gs) + Logged(g)
    ensures AppliedBy(gs + [g]) == AppliedBy(gs) + Applied(g)
    ensures (gs + [g])[..|gs|] == gs
  {
    assert (gs + [g])[..|gs|] == gs;
  }

  lemma JoinOk(s: State, w: Writer)
    requires Inv(s) && Enabled(s, Join(w))
    ensures Inv(Apply(s, Join(w)))
  {
    hide Records;
    hide AppliedBy;
    hide GroupsOk;
    hide Tiled;
    hide Numbered;
    hide Durable;
    hide PendingOk;
    GroupsGrow(s.groups, s.arrived, w, s.completions);
    DurableGrows(s, w);
    PendingGrows(s, w);
  }

  lemma PendingGrows(s: State, w: Writer)
    requires QueueOk(s) && PendingOk(s) && Enabled(s, Join(w))
    ensures QueueOk(Apply(s, Join(w))) && PendingOk(Apply(s, Join(w)))
  {
    hide ServedBy;
    hide PhaseOk;
    hide AllOps;
    var s' := Apply(s, Join(w));
    assert Waiting(s') == Waiting(s) + [w];
    if !s.phase.Idle? {
      assert Waiting(s')[..s.pending.size] == Waiting(s)[..s.pending.size];
    }
  }

  lemma GroupsGrow(groups: seq<Group>, arrived: seq<Writer>, w: Writer, completions: seq<Completion>)
    requires GroupsOk(groups, arrived, completions)
    ensures GroupsOk(groups, arrived + [w], completions)
  {
    hide ServedBy;
    forall k | 0 <= k < |groups| ensures GroupOk(groups[k], arrived + [w], completions) {
      var g := groups[k];
      assert GroupOk(g, arrived, completions);
      assert (arrived + [w])[g.first..g.first + g.size] == arrived[g.first..g.first + g.size];
    }
  }

  lemma DurableGrows(s: State, w: Writer)
    requires s.base <= |s.groups| && GroupsOk(s.groups, s.arrived, s.completions) && Tiled(s.groups, |s.completions|)
    requires Durable(Current(s), s.arrived, s.synced)
    ensures Durable(Current(s), s.arrived + [w], s.synced)
  {
    hide ServedBy;
    hide Records;
    forall k | 0 <= k < |Current(s)| ensures Current(s)[k].first < |s.arrived| {
      assert GroupOk(s.groups[s.base + k], s.arrived, s.completions) && Follows(s.groups, s.base + k);
    }
  }

  /** Adding a finished group of writers. */
  lemma GroupDone(s: State, g: Group)
    requires InOrder(|s.arrived|, s.queue, s.completions) && QueueOk(s)
    requires Tiled(s.groups, |s.completions|) && GroupsOk(s.groups, s.arrived, s.completions)
    requires g.first == |s.completions| && 0 < g.size <= |s.queue|
    requires ServedBy(g, Waiting(s)[..g.size])
    requires g.applied ==> g.status == Ok
    requires g.status == Ok ==> g.applied || (g.size == 1 && Waiting(s)[0].batch.None?)
    ensures var completions' := s.completions + Completions(s.queue[..g.size], g.status);
            && InOrder(|s.arrived|, s.queue[g.size..], completions')
            && Tiled(s.groups + [g], |completions'|) && GroupsOk(s.groups + [g], s.arrived, completions')
  {
    hide GroupOk;
    hide ServedBy;
    var completions' := s.completions + Completions(s.queue[..g.size], g.status);
    forall k | 0 <= k < |s.groups| ensures GroupOk(s.groups[k], s.arrived, completions') {
      OldGroupOk(s.groups[k], s.arrived, s.completions, completions');
    }
    NewGroupOk(s, g);
    TiledSnoc(s.groups, g, |s.completions|);
  }

  lemma OldGroupOk(g: Group, arrived: seq<Writer>, completions: seq<Completion>, completions': seq<Completion>)
    requires GroupOk(g, arrived, completions) && completions <= completions' && |completions'| <= |arrived|
    ensures GroupOk(g, arrived, completions')
  {
    hide ServedBy;
  }

  lemma NewGroupOk(s: State, g: Group)
    requires InOrder(|s.arrived|, s.queue, s.completions) && QueueOk(s)
    requires g.first == |s.completions| && 0 < g.size <= |s.queue|
    requires ServedBy(g, Waiting(s)[..g.size])
    requires g.applied ==> g.status == Ok
    requires g.status == Ok ==> g.applied || (g.size == 1 && Waiting(s)[0].batch.None?)
    ensures GroupOk(g, s.arrived, s.completions + Completions(s.queue[..g.size], g.status))
  {
    hide ServedBy;
    WaitingIs(s);
    assert Waiting(s)[..g.size] == s.arrived[g.first..g.first + g.size];
  }

  lemma TiledSnoc(groups: seq<Group>, g: Group, completed: nat)
    requires Tiled(groups, completed) && g.first == completed && g.size > 0
    ensures Tiled(groups + [g], completed + g.size)
  {
    forall k: nat | k < |groups + [g]| ensures Follows(groups + [g], k) {
      assert k < |groups| ==> Follows(groups, k);
    }
  }

  lemma NumberedSnoc(groups: seq<Group>, g: Group, lastSequence: nat)
    requires Numbered(groups, lastSequence) && g.firstSeq == lastSequence + 1
    ensures Numbered(groups + [g], lastSequence + |g.ops|)
  {
    forall k: nat | k < |groups + [g]| ensures Continues(groups + [g], k) {
      assert k < |groups| ==> Continues(groups, k);
    }
  }

  lemma QueueIsOk(s: State)
    requires InOrder(|s.arrived|, s.queue, s.completions)
    ensures QueueOk(s)
  {}

  /** The log and the memtable do not change when the pending group becomes a finished one. */
  lemma LogKept(s: State, g: Group)
    requires LogOk(s) && Logged(g) == Logged(s.pending) && Applied(g) == Applied(s.pending)
    requires g.applied && g.first < |s.arrived| && s.arrived[g.first].sync ==> s.synced == |s.log|
    ensures LogOk(s.(groups := s.groups + [g], pending := NO_GROUP))
  {
    hide Records;
    hide AppliedBy;
    hide Durable;
    CurrentGrows(s, g);
    Snoc(Current(s), s.pending);
    Snoc(Current(s), g);
    Snoc(Current(s) + [g], NO_GROUP);
    DurableSnoc(Current(s), g, s.arrived, s.synced);
  }

  lemma CurrentGrows(s: State, g: Group)
    requires s.base <= |s.groups|
    ensures (s.groups + [g])[s.base..] == Current(s) + [g]
  {}

  lemma AloneOk(s: State, status: Status)
    requires Inv(s) && Enabled(s, Alone(status))
    ensures Inv(Apply(s, Alone(status)))
  {
    hide LogOk;
    hide GroupsOk;
    hide Tiled;
    hide Numbered;
    hide ServedBy;
    var s' := Apply(s, Alone(status));
    var g := Group(s.queue[0], 1, [], s.lastSequence + 1, status, false, false);
    assert ServedBy(g, Waiting(s)[..1]) by { EmptyServed(g, Waiting(s)[..1]); }
    GroupDone(s, g);
    NumberedSnoc(s.groups, g, s.lastSequence);
    LogKept(s, g);
    LogOnly(s.(groups := s.groups + [g], pending := NO_GROUP), s');
    QueueIsOk(s');
  }

  lemma EmptyServed(g: Group, ws: seq<Writer>)
    requires g.ops == [] && !g.logged && !g.applied && SeqAfter(g) <= MAX_SEQUENCE
    ensures ServedBy(g, ws)
  {}

  lemma LogOnly(s: State, t: State)
    requires LogOk(s)
    requires (s.base, s.groups, s.synced, s.log, s.mem, s.pending, s.arrived)
             == (t.base, t.groups, t.synced, t.log, t.mem, t.pending, t.arrived)
    requires (s.tried, s.syncedTried) == (t.tried, t.syncedTried)
    ensures LogOk(t)
  {}

  lemma DurableSnoc(gs: seq<Group>, g: Group, arrived: seq<Writer>, synced: nat)
    requires Durable(gs, arrived, synced)
    requires g.applied && g.first < |arrived| && arrived[g.first].sync ==> |Records(gs + [g])| <= synced
    ensures Durable(gs + [g], arrived, synced)
  {
    hide Records;
    forall k {:trigger gs[..k + 1]} | 0 <= k < |gs| ensures Records((gs + [g])[..k + 1]) == Records(gs[..k + 1]) {
      assert (gs + [g])[..k + 1] == gs[..k + 1];
    }
    assert (gs + [g])[..|gs| + 1] == gs + [g];
  }

  lemma NewLogOk(s: State)
    requires Inv(s) && Enabled(s, NewLog)
    ensures Inv(Apply(s, NewLog))
  {
    var s' := Apply(s, NewLog);
    assert Current(s') == [];
    Snoc([], NO_GROUP);
    assert [] + [NO_GROUP] == [NO_GROUP];
  }

  /** The whole group's operations are well formed. */
  lemma {:induction false} GroupFits(ws: seq<Writer>, n: nat)
    requires JoinedOk(ws) && n <= |ws|
    ensures AllFit(AllOps(ws[..n]))
  {
    if n > 0 {
      GroupFits(ws, n - 1);
      OneMore(ws, n - 1);
    }
  }

  /** The byte limit bounds the number of operations; a leader over the limit is alone with its own. */
  lemma {:induction false} GroupCount(ws: seq<Writer>, n: nat)
    requires JoinedOk(ws) && 0 < n <= |ws| && ws[0].batch.Some?
    requires forall i :: 0 < i < n ==> Joins(ws, i)
    ensures |AllOps(ws[..n])| <= TotalSize(ws[..n])
    ensures AllOps(ws[..n]) == OpsOfWriter(ws[0]) || TotalSize(ws[..n]) <= SizeLimit(ws[0])
  {
    hide TotalSize;
    hide AllOps;
    hide ByteSize;
    if n == 1 {
      FirstOnly(ws);
    } else {
      GroupCount(ws, n - 1);
      OneMore(ws, n - 1);
      assert Joins(ws, n - 1);
    }
    OpsBytes(ws[n - 1]);
  }

  lemma OpsBytes(w: Writer)
    ensures |OpsOfWriter(w)| <= ByteSize(w)
  {
    EachOpHasBytes(OpsOfWriter(w));
  }

  lemma {:induction false} EachOpHasBytes(ops: seq<BatchOp>)
    ensures |ops| <= |EncodeOps(ops)|
  {
    if |ops| > 0 { EachOpHasBytes(ops[1..]); }
  }

  lemma LeadOk(s: State, n: nat)
    requires Inv(s) && Enabled(s, Lead(n))
    ensures Inv(Apply(s, Lead(n)))
  {
    hide GroupsOk;
    hide Tiled;
    hide Numbered;
    hide Durable;
    hide Records;
    hide AppliedBy;
    hide AllOps;
    hide TotalSize;
    hide ByteSize;
    var s' := Apply(s, Lead(n));
    var ws := Waiting(s);
    assert Waiting(s') == ws;
    LeadServes(ws, n, s'.pending);
    Snoc(Current(s), NO_GROUP);
    Snoc(Current(s), s'.pending);
  }

  lemma LeadServes(ws: seq<Writer>, n: nat, p: Group)
    requires |ws| > 0 && ws[0].batch.Some? && IsGroup(ws, n) && JoinedOk(ws)
    requires p.ops == AllOps(ws[..n]) && SeqAfter(p) <= MAX_SEQUENCE && !p.applied
    ensures ServedBy(p.(logged := true), ws[..n])
  {
    hide AllOps;
    hide TotalSize;
    GroupFits(ws, n);
    GroupCount(ws, n);
    forall i | 0 <= i < n && ws[i].sync ensures ws[0].sync { SyncJoinsSync(ws, n, i); }
    assert ws[..n][0] == ws[0];
  }

  lemma AppendOk(s: State, outcome: Log.Outcome)
    requires Inv(s) && Enabled(s, Append(outcome))
    ensures Inv(Apply(s, Append(outcome)))
  {
    hide FileOk;
    hide GroupsOk;
    hide Tiled;
    hide Numbered;
    hide Durable;
    hide InOrder;
    hide Records;
    hide AppliedBy;
    hide ServedBy;
    hide AllOps;
    var s' := Apply(s, Append(outcome));
    assert Waiting(s') == Waiting(s);
    Snoc(Current(s), s.pending);
    Snoc(Current(s), s'.pending);
    FileGrows(s, outcome);
  }

  lemma FileGrows(s: State, outcome: Log.Outcome)
    requires QueueOk(s) && FileOk(s) && Enabled(s, Append(outcome))
    ensures FileOk(Apply(s, Append(outcome)))
  {
    hide RecordOf;
    hide Log.CanEnd;
    hide Log.Possible;
    hide Log.OffsetOf;
    hide Log.Written;
    var a := Log.Attempt(RecordOf(s.pending), outcome);
    Log.PossibleSnoc(s.tried, a, 0);
    Log.WrittenSnoc(s.tried, a);
    assert (s.tried + [a])[..s.syncedTried] == s.tried[..s.syncedTried];
  }

  lemma DurableMore(gs: seq<Group>, arrived: seq<Writer>, synced: nat, synced': nat)
    requires Durable(gs, arrived, synced) && synced <= synced'
    ensures Durable(gs, arrived, synced')
  {
    hide Records;
  }

  lemma SyncedAtMost(s: State)
    requires FileOk(s)
    ensures s.synced <= |s.log|
  {
    var n := s.syncedTried;
    assert s.tried == s.tried[..n] + s.tried[n..];
    Log.WrittenConcat(s.tried[..n], s.tried[n..]);
  }

  lemma SyncOk(s: State, ok: bool)
    requires Inv(s) && Enabled(s, SyncLog(ok))
    ensures Inv(Apply(s, SyncLog(ok)))
  {
    hide GroupsOk;
    hide Tiled;
    hide Numbered;
    hide Durable;
    hide InOrder;
    hide Records;
    hide AppliedBy;
    hide ServedBy;
    hide AllOps;
    var s' := Apply(s, SyncLog(ok));
    assert s.tried[..|s.tried|] == s.tried;
    SyncedAtMost(s);
    DurableMore(Current(s), s.arrived, s.synced, s'.synced);
    assert Waiting(s') == Waiting(s);
  }

  /** Applying the record just logged adds exactly the group's operations, numbered as assigned. */
  lemma InsertOk(s: State)
    requires Inv(s) && Enabled(s, Insert)
    ensures Inv(Apply(s, Insert))
  {
    hide Records;
    hide AppliedBy;
    hide GroupsOk;
    hide Tiled;
    hide Numbered;
    hide InOrder;
    hide LogOk;
    hide AllOps;
    hide RecordOf;
    hide StatusOf;
    var s' := Apply(s, Insert);
    RecordReads(s.pending);
    assert Waiting(s') == Waiting(s);
    InsertLog(s);
  }

  lemma SameRecord(p: Group)
    ensures RecordOf(p.(applied := true)) == RecordOf(p)
  {}

  lemma InsertLog(s: State)
    requires QueueOk(s) && LogOk(s) && Enabled(s, Insert) && Encodable(s.pending) && !s.pending.applied
    ensures LogOk(Apply(s, Insert))
  {
    hide Records;
    hide AppliedBy;
    hide Durable;
    hide RecordOf;
    hide StatusOf;
    var s' := Apply(s, Insert);
    RecordReads(s.pending);
    SameRecord(s.pending);
    Snoc(Current(s), s.pending);
    Snoc(Current(s), s'.pending);
  }

  lemma RecordReads(g: Group)
    requires Encodable(g)
    ensures var r := RecordOf(g);
            && |r| >= HEADER && SequenceOf(r) == g.firstSeq && CountOf(r) == |g.ops|
            && OpsOf(r) == g.ops && StatusOf(r) == Ok
  {
    HeaderRoundTrip(g.firstSeq, g.ops);
    BatchRoundTrip(g.firstSeq, g.ops);
  }

  lemma FinishOk(s: State)
    requires Inv(s) && Enabled(s, Finish)
    ensures Inv(Apply(s, Finish))
  {
    hide LogOk;
    hide GroupsOk;
    hide Tiled;
    hide Numbered;
    hide AllOps;
    hide ServedBy;
    var s' := Apply(s, Finish);
    var g := s.pending.(status := s.phase.status);
    assert s.arrived[g.first] == Waiting(s)[0];
    StatusIsFree(s.pending, s.phase.status, Waiting(s)[..g.size]);
    GroupDone(s, g);
    NumberedSnoc(s.groups, g, s.lastSequence);
    LogKept(s, g);
    LogOnly(s.(groups := s.groups + [g], pending := NO_GROUP), s');
    QueueIsOk(s');
  }

  lemma StatusIsFree(p: Group, status: Status, ws: seq<Writer>)
    requires ServedBy(p.(logged := true), ws) && (p.applied ==> p.logged)
    ensures ServedBy(p.(status := status), ws) && SeqAfter(p) <= MAX_SEQUENCE
  {}

  lemma StepOk(s: State, step: Step)
    requires Inv(s) && Enabled(s, step)
    ensures Inv(Apply(s, step))
    ensures s.completions <= Apply(s, step).completions && s.groups <= Apply(s, step).groups
  {
    hide Inv;
    hide Enabled;
    match step
    case Join(w) => JoinOk(s, w);
    case Alone(status) => AloneOk(s, status);
    case NewLog => NewLogOk(s);
    case Lead(n) => LeadOk(s, n);
    case Append(outcome) => AppendOk(s, outcome);
    case SyncLog(ok) => SyncOk(s, ok);
    case Insert => InsertOk(s);
    case Finish => FinishOk(s);
  }

  // ------------------------------------------------------------------------
  // What every run promises

  predicate Reaches(s: State, steps: seq<Step>, t: State)
    decreases |steps|
  {
    if |steps| == 0 then s == t
    else QueueOk(s) && Enabled(s, steps[0]) && Reaches(Apply(s, steps[0]), steps[1..], t)
  }

  /** Any interleaving keeps the invariant, and never takes back or changes a completion. */
  lemma {:induction false} RunOk(s: State, steps: seq<Step>, t: State)
    requires Inv(s) && Reaches(s, steps, t)
    ensures Inv(t) && s.completions <= t.completions && s.groups <= t.groups
    decreases |steps|
  {
    hide Inv;
    hide Enabled;
    hide Apply;
    hide QueueOk;
    if |steps| > 0 {
      InvQueue(s);
      StepOk(s, steps[0]);
      RunOk(Apply(s, steps[0]), steps[1..], t);
    }
  }

  /** A failed sync is on record, or will be once the group being served is completed. */
  predicate SyncFailed(s: State) {
    s.bgError || (s.phase.Finishing? && s.phase.syncError)
  }

  /** Of the failures in serving a group only that of a sync stops writing for good: a record that could not be appended
      costs its own group the write and no later one. */
  lemma {:induction false} StopsForFailedSync(s: State, steps: seq<Step>, t: State)
    requires Reaches(s, steps, t)
    ensures SyncFailed(t) <==> SyncFailed(s) || SyncLog(false) in steps
    ensures t.phase.Idle? ==> (t.bgError <==> SyncFailed(s) || SyncLog(false) in steps)
    ensures t.bgError && QueueOk(t) ==> forall n :: !Enabled(t, Lead(n))
    decreases |steps|
  {
    hide AllOps;
    hide RecordOf;
    hide IsGroup;
    if |steps| > 0 {
      StopsForFailedSync(Apply(s, steps[0]), steps[1..], t);
      assert steps == [steps[0]] + steps[1..];
    }
  }

  lemma InvQueue(s: State)
    requires Inv(s)
    ensures QueueOk(s)
  {}

  /** Later groups use later sequence numbers, also when an earlier group failed. */
  lemma SequencesNeverReused(s: State, j: nat, k: nat)
    requires Inv(s) && j < k < |s.groups|
    ensures SeqAfter(s.groups[j]) <= s.groups[k].firstSeq
    ensures SeqAfter(s.groups[k]) <= s.lastSequence + 1
  {
    hide LogOk;
    hide PendingOk;
    hide GroupsOk;
    hide Tiled;
    hide InOrder;
    hide JoinedOk;
    GroupsAscend(s.groups, s.lastSequence, j, k);
    LastSequenceIsHighest(s.groups, s.lastSequence, k);
  }

  lemma LastSequenceIsHighest(groups: seq<Group>, lastSequence: nat, k: nat)
    requires Numbered(groups, lastSequence) && k < |groups|
    ensures SeqAfter(groups[k]) <= lastSequence + 1
  {
    if k + 1 < |groups| { GroupsAscend(groups, lastSequence, k, |groups| - 1); }
  }

  lemma {:induction false} GroupsAscend(groups: seq<Group>, lastSequence: nat, j: nat, k: nat)
    requires Numbered(groups, lastSequence) && j < k < |groups|
    ensures SeqAfter(groups[j]) <= groups[k].firstSeq
    decreases k
  {
    assert Continues(groups, k);
    if j + 1 < k { GroupsAscend(groups, lastSequence, j, k - 1); }
  }

  predicate Serves(g: Group, i: nat) {
    g.first <= i < g.first + g.size
  }

  /** Every completed writer belongs to exactly one group and got that group's status. */
  lemma ServedOnce(s: State, i: nat) returns (k: nat)
    requires Inv(s) && i < |s.completions|
    ensures k < |s.groups| && Serves(s.groups[k], i)
    ensures forall j :: 0 <= j < |s.groups| && Serves(s.groups[j], i) ==> j == k
    ensures s.completions[i] == Completion(i, s.groups[k].status)
  {
    k := FindGroup(s.groups, |s.completions|, i);
    forall j | 0 <= j < |s.groups| && j != k ensures !Serves(s.groups[j], i) {
      TilesAscend(s.groups, |s.completions|, if j < k then j else k, if j < k then k else j);
    }
    assert GroupOk(s.groups[k], s.arrived, s.completions);
  }

  lemma {:induction false} FindGroup(groups: seq<Group>, completed: nat, i: nat) returns (k: nat)
    requires Tiled(groups, completed) && i < completed
    ensures k < |groups| && Serves(groups[k], i)
  {
    var n := |groups| - 1;
    assert Follows(groups, n);
    if groups[n].first <= i {
      return n;
    }
    forall j: nat | j < n ensures Follows(groups[..n], j) { assert Follows(groups, j); }
    k := FindGroup(groups[..n], groups[n].first, i);
  }

  lemma {:induction false} TilesAscend(groups: seq<Group>, completed: nat, j: nat, k: nat)
    requires Tiled(groups, completed) && j < k < |groups|
    ensures groups[j].first + groups[j].size <= groups[k].first
    decreases k
  {
    assert Follows(groups, k) && Follows(groups, k - 1);
    if j + 1 < k {
      TilesAscend(groups, completed, j, k - 1);
    }
  }

  /** Where a finished group of the current log file shows up in the memtable. */
  lemma {:induction false} AppliedAt(groups: seq<Group>, k: nat)
    requires k < |groups| && groups[k].applied
    ensures |AppliedBy(groups[..k])| + |groups[k].ops| <= |AppliedBy(groups)|
    ensures AppliedBy(groups)[|AppliedBy(groups[..k])|..][..|groups[k].ops|] == AddedFrom(groups[k].firstSeq, groups[k].ops)
  {
    hide AddedFrom;
    hide AppliedBy;
    var n := |groups| - 1;
    Unsnoc(groups);
    Snoc(groups[..n], groups[n]);
    if k < n {
      AppliedAt(groups[..n], k);
      assert groups[..n][..k] == groups[..k];
      Within(AppliedBy(groups[..n]), Applied(groups[n]), |AppliedBy(groups[..k])|, |groups[k].ops|);
    } else {
      AtEnd(AppliedBy(groups[..n]), Applied(groups[n]));
    }
  }

  lemma AtEnd<T>(a: seq<T>, b: seq<T>)
    ensures (a + b)[|a|..][..|b|] == b
  {}

  lemma Within<T>(a: seq<T>, b: seq<T>, i: nat, n: nat)
    requires i + n <= |a|
    ensures (a + b)[i..][..n] == a[i..][..n]
  {}

  /** The operations of a group member lie inside the group's, in the member's own order. */
  lemma {:induction false} MemberOps(ws: seq<Writer>, i: nat)
    requires i < |ws|
    ensures |AllOps(ws[..i])| + |OpsOfWriter(ws[i])| <= |AllOps(ws)|
    ensures AllOps(ws)[|AllOps(ws[..i])|..][..|OpsOfWriter(ws[i])|] == OpsOfWriter(ws[i])
  {
    var n := |ws| - 1;
    if i < n {
      MemberOps(ws[..n], i);
      assert ws[..n][..i] == ws[..i];
      Within(AllOps(ws[..n]), OpsOfWriter(ws[n]), |AllOps(ws[..i])|, |OpsOfWriter(ws[i])|);
    }
  }

  /** A writer told `Ok` has all its operations in the memtable, in order, with consecutive
      sequence numbers inside its group's range. */
  lemma OkMeansApplied(s: State, k: nat, i: nat) returns (at: nat, seqNo: nat)
    requires Inv(s) && s.base <= k < |s.groups| && Serves(s.groups[k], i)
    requires s.groups[k].status == Ok
    ensures i < |s.arrived|
    ensures var ops := OpsOfWriter(s.arrived[i]);
            && at + |ops| <= |s.mem| && s.mem[at..at + |ops|] == AddedFrom(seqNo, ops)
            && s.groups[k].firstSeq <= seqNo && seqNo + |ops| <= SeqAfter(s.groups[k])
  {
    hide LogOk;
    hide PendingOk;
    hide Tiled;
    hide Numbered;
    hide InOrder;
    hide ServedBy;
    var g := s.groups[k];
    assert GroupOk(g, s.arrived, s.completions);
    if g.applied {
      at, seqNo := MemberApplied(s, k, i);
    } else {
      at, seqNo := 0, g.firstSeq;
      assert i == g.first && OpsOfWriter(s.arrived[i]) == [];
      assert AddedFrom(seqNo, []) == [];
    }
  }

  lemma MemberApplied(s: State, k: nat, i: nat) returns (at: nat, seqNo: nat)
    requires LogOk(s) && s.base <= k < |s.groups| && Serves(s.groups[k], i) && s.groups[k].applied
    requires GroupOk(s.groups[k], s.arrived, s.completions)
    ensures var ops := OpsOfWriter(s.arrived[i]);
            && at + |ops| <= |s.mem| && s.mem[at..at + |ops|] == AddedFrom(seqNo, ops)
            && s.groups[k].firstSeq <= seqNo && seqNo + |ops| <= SeqAfter(s.groups[k])
  {
    hide AppliedBy;
    hide AllOps;
    hide Durable;
    hide Records;
    var g := s.groups[k];
    var ws := s.arrived[g.first..g.first + g.size];
    MemberOps(ws, i - g.first);
    assert ws[i - g.first] == s.arrived[i];
    var all := Current(s) + [s.pending];
    assert all[k - s.base] == g;
    AppliedAt(all, k - s.base);
    var start, inner := |AppliedBy(all[..k - s.base])|, |AllOps(ws[..i - g.first])|;
    at, seqNo := start + inner, g.firstSeq + inner;
    SliceAdded(s.mem, start, g.firstSeq, g.ops, inner, OpsOfWriter(s.arrived[i]));
  }

  lemma SliceAdded(mem: seq<Added>, start: nat, seqNo: nat, all: seq<BatchOp>, inner: nat, ops: seq<BatchOp>)
    requires start + |all| <= |mem| && mem[start..][..|all|] == AddedFrom(seqNo, all)
    requires inner + |ops| <= |all| && all[inner..][..|ops|] == ops
    ensures mem[start + inner..start + inner + |ops|] == AddedFrom(seqNo + inner, ops)
  {
    forall j | 0 <= j < |ops| ensures mem[start + inner + j] == Added(seqNo + inner + j, ops[j]) {
      assert mem[start..][..|all|][inner + j] == mem[start + (inner + j)];
      assert all[inner..][..|ops|][j] == all[inner + j];
    }
  }

  /** A writer that asked for durability and was told `Ok` has its group's record in the synced part. */
  lemma SyncMeansDurable(s: State, k: nat, i: nat)
    requires Inv(s) && s.base <= k < |s.groups| && Serves(s.groups[k], i)
    requires s.groups[k].status == Ok && s.arrived[i].sync && s.arrived[i].batch.Some?
    ensures RecordOf(s.groups[k]) in s.log[..s.synced]
  {
    hide Records;
    hide AppliedBy;
    hide PendingOk;
    hide Tiled;
    hide Numbered;
    hide InOrder;
    hide RecordOf;
    hide AllOps;
    var g := s.groups[k];
    assert GroupOk(g, s.arrived, s.completions);
    var ws := s.arrived[g.first..g.first + g.size];
    assert ws[i - g.first] == s.arrived[i] && ws[0] == s.arrived[g.first];
    assert Current(s)[k - s.base] == g;
    assert s.log == Records(Current(s) + [s.pending]) && s.synced <= |s.log|;
    RecordIn(Current(s), s.pending, k - s.base, s.synced);
  }

  lemma RecordIn(gs: seq<Group>, pending: Group, k: nat, synced: nat)
    requires k < |gs| && gs[k].logged && |Records(gs[..k + 1])| <= synced <= |Records(gs + [pending])|
    ensures RecordOf(gs[k]) in Records(gs + [pending])[..synced]
  {
    hide RecordOf;
    hide Records;
    var log, n := Records(gs + [pending]), |Records(gs[..k])|;
    RecordsPrefix(gs + [pending], k + 1);
    assert (gs + [pending])[..k + 1] == gs[..k + 1];
    PrefixSnoc(gs, k);
    Snoc(gs[..k], gs[k]);
    assert log[..synced][n] == RecordOf(gs[k]);
  }

  lemma {:induction false} RecordsPrefix(groups: seq<Group>, n: nat)
    requires n <= |groups|
    ensures Records(groups[..n]) <= Records(groups)
  {
    if n < |groups| {
      RecordsPrefix(groups[..|groups| - 1], n);
      assert groups[..|groups| - 1][..n] == groups[..n];
    } else {
      assert groups[..n] == groups;
    }
  }
}
