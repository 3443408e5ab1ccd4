/**
 Recovery of one log file: its records are replayed, in order, into memtables, and a memtable
 that has grown too large becomes a level-0 table.

 `CrashRecovery` puts the pieces together: whatever prefix of the log's bytes survives a crash,
 as long as the synced part does, replay rebuilds exactly the operations of a prefix of the
 logged groups, with the sequence numbers they were given, and that prefix contains every group
 acknowledged as durable.  It needs every append to have found the log writer aligned with its
 file, as is the case when no append to this file has failed.
 */
module Recovery {
  import opened Coding
  import opened Sequences
  import opened Log
  import opened LogReader
  import opened LogRoundTrip
  import opened LogFailures
  import opened WriteBatches
  import WriterQueue

  // ------------------------------------------------------------------------
  // Replaying records

  /** A malformed batch adds its operations before the first malformed one. */
  function AddedByRecord(record: Bytes): seq<Added> {
    if |record| < HEADER then [] else AddedFrom(SequenceOf(record), OpsOf(record))
  }

  function MaxSequence(record: Bytes, maxSequence: int): int {
    if |record| < HEADER then maxSequence
    else
      var last := SequenceOf(record) + CountOf(record) - 1;
      if last > maxSequence then last else maxSequence
  }

  /** All entries and the largest sequence number, without the cuts into tables. */
  datatype Summary = Summary(added: seq<Added>, maxSequence: int)

  function Summarize(records: seq<Bytes>, added: seq<Added>, maxSequence: int): Summary {
    if |records| == 0 then Summary(added, maxSequence)
    else Summarize(records[1..], added + AddedByRecord(records[0]), MaxSequence(records[0], maxSequence))
  }

  /** The records of all log files in a row. */
  function RecordsOf(crc: Checksum, files: seq<Bytes>): seq<Bytes> {
    if |files| == 0 then []
    else RecordsOf(crc, files[..|files| - 1]) + ReadAll(crc, files[|files| - 1], BLOCK_SIZE).records
  }

  lemma Nothing(added: seq<Added>, maxSequence: int)
    ensures Summarize([], added, maxSequence) == Summary(added, maxSequence)
  {}

  lemma {:induction false} SummarizeConcat(a: seq<Bytes>, b: seq<Bytes>, added: seq<Added>, maxSequence: int)
    ensures var s := Summarize(a, added, maxSequence);
            Summarize(a + b, added, maxSequence) == Summarize(b, s.added, s.maxSequence)
    decreases |a|
  {
    hide AddedByRecord;
    hide MaxSequence;
    if |a| == 0 {
      assert a + b == b;
    } else {
      ConsTail(a, b);
      SummarizeConcat(a[1..], b, added + AddedByRecord(a[0]), MaxSequence(a[0], maxSequence));
    }
  }

  function Flatten(tables: seq<seq<Added>>): seq<Added> {
    if |tables| == 0 then [] else Flatten(tables[..|tables| - 1]) + tables[|tables| - 1]
  }

  class LogRecovery {
    var tables: seq<seq<Added>>   // written to level 0 during this recovery
    var mem: seq<Added>
    var maxSequence: int

    constructor (maxSequence: int)
      ensures tables == [] && mem == [] && this.maxSequence == maxSequence
    {
      tables, mem, this.maxSequence := [], [], maxSequence;
    }

    ghost function AllAdded(): seq<Added>
      reads this
    {
      Flatten(tables) + mem
    }

    /** Replays a whole log file.  Without paranoid checks, reported corruption and malformed batches
        are only logged. */
    method RecoverLogFile(crc: Checksum, file: Bytes, writeBufferSize: nat, usage: seq<Added> -> nat)
      modifies this
      ensures var s := Summarize(ReadAll(crc, file, BLOCK_SIZE).records, old(AllAdded()), old(maxSequence));
              AllAdded() == s.added && maxSequence == s.maxSequence
    {
      var reader := new Reader(crc, file);
      var more := true;
      ghost var target := Summarize(ReadAll(crc, file, BLOCK_SIZE).records, AllAdded(), maxSequence);
      while more
        invariant fresh(reader) && reader.Valid() && reader.crc == crc
        invariant if !more then target == Summary(AllAdded(), maxSequence)
                  else target == Summarize(ReadAll(crc, reader.Rest(), reader.off).records, AllAdded(), maxSequence)
        decreases more, |reader.Rest()|
      {
        var record := reader.ReadRecord();
        if record.None? {
          more := false;
        } else {
          Replay(record.value, writeBufferSize, usage);
        }
      }
    }

    /** Replays the log files from the oldest on. */
    method RecoverLogs(crc: Checksum, files: seq<Bytes>, writeBufferSize: nat, usage: seq<Added> -> nat)
      modifies this
      ensures var s := Summarize(RecordsOf(crc, files), old(AllAdded()), old(maxSequence));
              AllAdded() == s.added && maxSequence == s.maxSequence
    {
      hide ReadAll;
      hide Summarize;
      Nothing(AllAdded(), maxSequence);
      for i := 0 to |files|
        invariant Summary(AllAdded(), maxSequence)
                  == Summarize(RecordsOf(crc, files[..i]), old(AllAdded()), old(maxSequence))
      {
        PrefixSnoc(files, i);
        SummarizeConcat(RecordsOf(crc, files[..i]), ReadAll(crc, files[i], BLOCK_SIZE).records, old(AllAdded()), old(maxSequence));
        RecoverLogFile(crc, files[i], writeBufferSize, usage);
      }
      assert files[..|files|] == files;
    }

    /** One record; short ones are skipped. */
    method Replay(record: Bytes, writeBufferSize: nat, usage: seq<Added> -> nat)
      modifies this
      ensures AllAdded() == old(AllAdded()) + AddedByRecord(record)
      ensures maxSequence == MaxSequence(record, old(maxSequence))
    {
      hide SequenceOf;
      hide CountOf;
      hide OpsOf;
      hide StatusOf;
      if |record| < HEADER {
        return;
      }
      var batch := new WriteBatch();
      batch.SetContents(record);
      var status, mem' := batch.InsertInto(mem);
      mem := mem';
      Assoc(Flatten(tables), old(mem), AddedByRecord(record));
      var lastSeq := SequenceOf(record) + CountOf(record) - 1;
      if lastSeq > maxSequence {
        maxSequence := lastSeq;
      }
      if usage(mem) > writeBufferSize {
        tables := tables + [mem];
        mem := [];
      }
    }
  }

  // ------------------------------------------------------------------------
  // Crash recovery

  /** Everything the logged groups wrote, with the sequence numbers they were given. */
  function LoggedEntries(groups: seq<WriterQueue.Group>): seq<Added> {
    if |groups| == 0 then []
    else LoggedEntries(groups[..|groups| - 1]) + LoggedEntriesOf(groups[|groups| - 1])
  }

  function LoggedEntriesOf(g: WriterQueue.Group): seq<Added> {
    if g.logged then AddedFrom(g.firstSeq, g.ops) else []
  }

  /** The groups that used the current log file, the one being served included. */
  function LogGroups(s: WriterQueue.State): seq<WriterQueue.Group>
    requires s.base <= |s.groups|
  {
    WriterQueue.Current(s) + [s.pending]
  }

  predicate AllEncodable(groups: seq<WriterQueue.Group>) {
    forall k :: 0 <= k < |groups| && groups[k].logged ==> WriterQueue.Encodable(groups[k])
  }

  lemma {:induction false} SummarizeSnoc(records: seq<Bytes>, record: Bytes, added: seq<Added>, maxSequence: int)
    ensures var s := Summarize(records, added, maxSequence);
            Summarize(records + [record], added, maxSequence)
            == Summary(s.added + AddedByRecord(record), MaxSequence(record, s.maxSequence))
    decreases |records|
  {
    hide AddedByRecord;
    hide MaxSequence;
    if |records| == 0 {
      assert [record][1..] == [];
    } else {
      ConsTail(records, [record]);
      SummarizeSnoc(records[1..], record, added + AddedByRecord(records[0]), MaxSequence(records[0], maxSequence));
    }
  }

  /** The largest sequence number after replaying these groups. */
  function MaxAfter(groups: seq<WriterQueue.Group>, maxSequence: int): (r: int)
    ensures r >= maxSequence
  {
    if |groups| == 0 then maxSequence
    else
      var before := MaxAfter(groups[..|groups| - 1], maxSequence);
      var g := groups[|groups| - 1];
      var last := g.firstSeq + |g.ops| - 1;
      if g.logged && last > before then last else before
  }

  /** The highest number that a record uses up, as its header tells. */
  function LastOf(record: Bytes): int
    requires |record| >= HEADER
  {
    SequenceOf(record) + CountOf(record) - 1
  }

  /** Recovery resumes from the greatest number of any record, or the one it began with; records without room for a
      header count for nothing. */
  lemma {:induction false} MaxIsGreatest(records: seq<Bytes>, added: seq<Added>, maxSequence: int)
    ensures var m := Summarize(records, added, maxSequence).maxSequence;
            && m >= maxSequence && (forall i :: 0 <= i < |records| && |records[i]| >= HEADER ==> LastOf(records[i]) <= m)
            && (m == maxSequence || exists i :: 0 <= i < |records| && |records[i]| >= HEADER && m == LastOf(records[i]))
    decreases |records|
  {
    hide SequenceOf;
    hide CountOf;
    hide AddedByRecord;
    if |records| > 0 {
      var max' := MaxSequence(records[0], maxSequence);
      var rest := records[1..];
      MaxIsGreatest(rest, added + AddedByRecord(records[0]), max');
      var m := Summarize(records, added, maxSequence).maxSequence;
      assert forall i :: 0 < i < |records| ==> records[i] == rest[i - 1];
      if i :| 0 <= i < |rest| && |rest[i]| >= HEADER && m == LastOf(rest[i]) {
        assert records[i + 1] == rest[i];
      }
      assert |records[0]| >= HEADER ==> max' >= LastOf(records[0]) && (max' == maxSequence || max' == LastOf(records[0]));
    }
  }

  /** Replaying the records of any groups gives back exactly what those groups wrote. */
  lemma {:induction false} ReplayGroups(groups: seq<WriterQueue.Group>, maxSequence: int)
    requires AllEncodable(groups)
    ensures Summarize(WriterQueue.Records(groups), [], maxSequence)
            == Summary(LoggedEntries(groups), MaxAfter(groups, maxSequence))
  {
    hide WriterQueue.RecordOf;
    hide WriterQueue.Encodable;
    hide Summarize;
    if |groups| == 0 {
      Nothing([], maxSequence);
    } else {
      var init, g := groups[..|groups| - 1], groups[|groups| - 1];
      ReplayGroups(init, maxSequence);
      if g.logged {
        WriterQueue.RecordReads(g);
        SummarizeSnoc(WriterQueue.Records(init), WriterQueue.RecordOf(g), [], maxSequence);
      } else {
        assert WriterQueue.Records(groups) == WriterQueue.Records(init);
        assert LoggedEntries(groups) == LoggedEntries(init);
      }
    }
  }

  /** A prefix of the records is the records of a prefix of the groups. */
  lemma {:induction false} CutRecords(groups: seq<WriterQueue.Group>, k: nat) returns (m: nat)
    requires k <= |WriterQueue.Records(groups)|
    ensures m <= |groups| && WriterQueue.Records(groups[..m]) == WriterQueue.Records(groups)[..k]
  {
    var all := WriterQueue.Records(groups);
    if k == |all| {
      m := |groups|;
      assert groups[..m] == groups && all[..k] == all;
    } else {
      var init := groups[..|groups| - 1];
      m := CutRecords(init, k);
      assert init[..m] == groups[..m];
      assert all[..k] == WriterQueue.Records(init)[..k];
    }
  }

  lemma GroupsEncodable(s: WriterQueue.State)
    requires WriterQueue.Inv(s)
    ensures AllEncodable(LogGroups(s))
  {
    hide WriterQueue.Durable;
    hide WriterQueue.Records;
    hide WriterQueue.AppliedBy;
    hide WriterQueue.Tiled;
    hide WriterQueue.Numbered;
    hide WriterQueue.InOrder;
    hide WriterQueue.Encodable;
    forall k | 0 <= k < |s.groups| ensures WriterQueue.Encodable(s.groups[k]) {
      assert WriterQueue.GroupOk(s.groups[k], s.arrived, s.completions);
    }
    forall k | 0 <= k < |LogGroups(s)| && LogGroups(s)[k].logged ensures WriterQueue.Encodable(LogGroups(s)[k]) {
      assert k < |WriterQueue.Current(s)| ==> LogGroups(s)[k] == s.groups[s.base + k];
    }
  }

  /** What a crash may leave of the log file: a prefix with the synced part. */
  ghost predicate Survives(crc: Checksum, s: WriterQueue.State, file: Bytes) {
    && WriterQueue.FileOk(s) && file <= WriterQueue.LogFile(crc, s)
    && |file| >= |FileBytes(crc, s.tried[..s.syncedTried], 0)|
  }

  /** After a crash that keeps at least the synced bytes, replay rebuilds exactly what a prefix of
      the logged groups wrote, all synced records included, if the log writer never drifted.  A
      corruption is reported at most for each failed append that left a record unfinished. */
  lemma CrashRecovery(s: WriterQueue.State, crc: Checksum, file: Bytes, maxSequence: int) returns (m: nat)
    requires WriterQueue.Inv(s) && Survives(crc, s, file) && NeverDrifted(crc, s.tried)
    ensures ReadAll(crc, file, BLOCK_SIZE).reports <= Unfinished(s.tried)
    ensures m <= |LogGroups(s)| && |WriterQueue.Records(LogGroups(s)[..m])| >= s.synced
    ensures Summarize(ReadAll(crc, file, BLOCK_SIZE).records, [], maxSequence)
            == Summary(LoggedEntries(LogGroups(s)[..m]), MaxAfter(LogGroups(s)[..m], maxSequence))
  {
    hide FileBytes;
    hide Complete;
    hide Possible;
    hide Written;
    hide Unfinished;
    hide NeverDrifted;
    hide WriterQueue.Records;
    hide WriterQueue.PendingOk;
    hide ReadAll;
    hide Summarize;
    ReadsWritten(crc, s.tried, file);
    CompleteAtLeast(crc, s.tried, 0, s.syncedTried, |file|);
    m := CutRecords(LogGroups(s), Complete(crc, s.tried, 0, |file|));
    GroupsEncodable(s);
    ReplayGroups(LogGroups(s)[..m], maxSequence);
  }

  /** Without a failed append the file is the log of the records written, and nothing is reported. */
  lemma NoFailedAppend(s: WriterQueue.State, crc: Checksum)
    requires WriterQueue.FileOk(s) && forall k :: 0 <= k < |s.tried| ==> s.tried[k].outcome.Whole?
    ensures NeverDrifted(crc, s.tried) && Unfinished(s.tried) == 0
    ensures WriterQueue.LogFile(crc, s) == EncodeLog(crc, s.log, 0)
  {
    NoFailureNeverDrifted(crc, s.tried);
    NoFailureNoDrift(crc, s.tried, 0);
    NothingUnfinished(s.tried);
  }

  /** No recovered entry is above the recovered sequence number, so none is ever numbered again. */
  lemma {:induction false} RecoveredBelowMax(groups: seq<WriterQueue.Group>, maxSequence: int, i: nat)
    requires i < |LoggedEntries(groups)|
    ensures LoggedEntries(groups)[i].seqNo <= MaxAfter(groups, maxSequence)
  {
    var n := |groups| - 1;
    if i < |LoggedEntries(groups[..n])| {
      RecoveredBelowMax(groups[..n], maxSequence, i);
    }
  }

  lemma LoggedUnsnoc(groups: seq<WriterQueue.Group>)
    requires |groups| > 0
    ensures LoggedEntries(groups) == LoggedEntries(groups[..|groups| - 1]) + LoggedEntriesOf(groups[|groups| - 1])
  {}

  /** Where a logged group shows up among the recovered entries. */
  lemma {:induction false} LoggedAt(groups: seq<WriterQueue.Group>, k: nat)
    requires k < |groups| && groups[k].logged
    ensures |LoggedEntries(groups[..k])| + |groups[k].ops| <= |LoggedEntries(groups)|
    ensures LoggedEntries(groups)[|LoggedEntries(groups[..k])|..][..|groups[k].ops|]
            == AddedFrom(groups[k].firstSeq, groups[k].ops)
  {
    hide AddedFrom;
    hide LoggedEntries;
    var n := |groups| - 1;
    LoggedUnsnoc(groups);
    if k < n {
      LoggedAt(groups[..n], k);
      assert groups[..n][..k] == groups[..k];
      WriterQueue.Within(LoggedEntries(groups[..n]), LoggedEntriesOf(groups[n]), |LoggedEntries(groups[..k])|, |groups[k].ops|);
    } else {
      WriterQueue.AtEnd(LoggedEntries(groups[..n]), LoggedEntriesOf(groups[n]));
    }
  }

  /** A prefix of the groups with as many records as end with group `k` includes group `k`. */
  lemma PrefixIncludes(groups: seq<WriterQueue.Group>, k: nat, m: nat)
    requires k < |groups| && m <= |groups| && groups[k].logged
    requires |WriterQueue.Records(groups[..m])| >= |WriterQueue.Records(groups[..k + 1])|
    ensures k < m
  {
    hide WriterQueue.Records;
    hide WriterQueue.RecordOf;
    PrefixSnoc(groups, k);
    WriterQueue.Snoc(groups[..k], groups[k]);
    var low := if m < k then m else k;
    WriterQueue.RecordsPrefix(groups[..k], low);
    assert groups[..k][..low] == groups[..low];
  }

  /** Every operation of a writer acknowledged with durability is recovered, in order, with
      consecutive sequence numbers in the range its group was given. */
  lemma DurableWritesSurvive(s: WriterQueue.State, crc: Checksum, file: Bytes, maxSequence: int, k: nat, i: nat)
    returns (at: nat, seqNo: nat)
    requires WriterQueue.Inv(s) && Survives(crc, s, file) && NeverDrifted(crc, s.tried)
    requires s.base <= k < |s.groups| && WriterQueue.Serves(s.groups[k], i) && i < |s.arrived|
    requires s.groups[k].status == Ok && s.arrived[i].sync && s.arrived[i].batch.Some?
    ensures var recovered := Summarize(ReadAll(crc, file, BLOCK_SIZE).records, [], maxSequence).added;
            var ops := s.arrived[i].batch.value;
            && at + |ops| <= |recovered| && recovered[at..at + |ops|] == AddedFrom(seqNo, ops)
            && s.groups[k].firstSeq <= seqNo && seqNo + |ops| <= WriterQueue.SeqAfter(s.groups[k])
  {
    hide WriterQueue.Inv;
    hide WriterQueue.AllOps;
    hide WriterQueue.Records;
    hide LogGroups;
    hide LoggedEntries;
    hide Survives;
    hide NeverDrifted;
    hide Summarize;
    hide ReadAll;
    hide MaxAfter;
    var m := CrashRecovery(s, crc, file, maxSequence);
    var ws := DurableGroup(s, k, i);
    PrefixIncludes(LogGroups(s), k - s.base, m);
    at, seqNo := MemberRecovered(LogGroups(s)[..m], k - s.base, ws, i - s.groups[k].first);
  }

  lemma MemberRecovered(groups: seq<WriterQueue.Group>, c: nat, ws: seq<WriterQueue.Writer>, j: nat)
    returns (at: nat, seqNo: nat)
    requires c < |groups| && groups[c].logged && groups[c].ops == WriterQueue.AllOps(ws) && j < |ws|
    ensures var recovered, ops := LoggedEntries(groups), WriterQueue.OpsOfWriter(ws[j]);
            && at + |ops| <= |recovered| && recovered[at..at + |ops|] == AddedFrom(seqNo, ops)
            && groups[c].firstSeq <= seqNo && seqNo + |ops| <= WriterQueue.SeqAfter(groups[c])
  {
    hide WriterQueue.AllOps;
    hide LoggedEntries;
    LoggedAt(groups, c);
    WriterQueue.MemberOps(ws, j);
    var start, inner := |LoggedEntries(groups[..c])|, |WriterQueue.AllOps(ws[..j])|;
    at, seqNo := start + inner, groups[c].firstSeq + inner;
    WriterQueue.SliceAdded(LoggedEntries(groups), start, groups[c].firstSeq, groups[c].ops, inner, WriterQueue.OpsOfWriter(ws[j]));
  }

  lemma DurableGroup(s: WriterQueue.State, k: nat, i: nat) returns (ws: seq<WriterQueue.Writer>)
    requires WriterQueue.Inv(s)
    requires s.base <= k < |s.groups| && WriterQueue.Serves(s.groups[k], i) && i < |s.arrived|
    requires s.groups[k].status == Ok && s.arrived[i].sync && s.arrived[i].batch.Some?
    ensures var g := s.groups[k]; var c := k - s.base;
            && g.logged && c < |LogGroups(s)| && LogGroups(s)[c] == g
            && |WriterQueue.Records(LogGroups(s)[..c + 1])| <= s.synced
            && g.ops == WriterQueue.AllOps(ws) && g.first <= i < g.first + |ws| && ws[i - g.first] == s.arrived[i]
  {
    hide WriterQueue.Records;
    hide WriterQueue.AppliedBy;
    hide WriterQueue.PendingOk;
    hide WriterQueue.Tiled;
    hide WriterQueue.Numbered;
    hide WriterQueue.InOrder;
    hide WriterQueue.AllOps;
    var g := s.groups[k];
    assert WriterQueue.GroupOk(g, s.arrived, s.completions);
    ws := s.arrived[g.first..g.first + g.size];
    assert ws[i - g.first] == s.arrived[i] && ws[0] == s.arrived[g.first];
    assert g.size == 1 ==> i == g.first;
    assert g.applied && g.logged && ws[i - g.first].sync;
    assert ws[0].sync;
    var c := k - s.base;
    assert WriterQueue.Current(s)[c] == g;
    assert LogGroups(s)[..c + 1] == WriterQueue.Current(s)[..c + 1];
  }
}
