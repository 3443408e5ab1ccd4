/**
 A failed append followed by a sync write that is reported successful and then lost.

 A 1000-byte record fails and leaves nothing in the file, but the writer's block offset moves to
 1007.  The 40000-byte record that follows is cut where the writer believes the block to end, so its
 second fragment straddles the real end of the block and cannot be read.
 */
module LostSyncExample {
  import opened Coding
  import opened Entries
  import opened Sequences
  import opened Log
  import opened LogReader
  import opened LogRoundTrip
  import opened LogFailures
  import opened WriteBatches
  import Q = WriterQueue
  import Recovery

  const FAILING := Q.Writer(Some([PutOp([], Zeros(984))]), false)
  const SYNCING := Q.Writer(Some([PutOp([], Zeros(39983))]), true)
  const PREFIX: nat := 17

  // ------------------------------------------------------------------------
  // The records

  /** A record that puts the empty key: its header and lengths, then the value. */
  lemma PutRecord(seqNo: nat, n: nat, size: nat) returns (front: Bytes)
    requires 128 <= n < 0x20_0000 && size == (if n < 0x4000 then 2 else 3)
    ensures |front| == 14 + size && Rep(seqNo, [PutOp([], Zeros(n))]) == front + Zeros(n)
  {
    var op := PutOp([], Zeros(n));
    if n < 0x4000 { Split2(n); } else { Split3(n); }
    var head := [VALUE_TAG] + Prefixed([]);
    assert EncodeOp(op) == head + (Varint(n) + Zeros(n));
    assert EncodeOps([op]) == EncodeOp(op) + EncodeOps([]) == EncodeOp(op);
    front := Fixed(seqNo, 8) + Fixed(1, 4) + (head + Varint(n));
    Assoc(head, Varint(n), Zeros(n));
    Assoc(Fixed(seqNo, 8) + Fixed(1, 4), head + Varint(n), Zeros(n));
  }

  // ------------------------------------------------------------------------
  // The file, and reading it

  /** A 40000-byte record written at offset 1007, at the beginning of the file. */
  lemma Straddles(crc: Checksum, data: Bytes)
    requires |data| == 40000 && forall k :: PREFIX <= k < 40000 ==> data[k] == 0
    ensures ReadAll(crc, Emit(crc, data, true, 1007), BLOCK_SIZE) == All([], 2)
  {
    hide ReadFrom;
    hide ReadAll;
    hide ReadPhysical;
    hide Chunk;
    var a, b := data[..31754], data[31754..];
    var first, last := Chunk(crc, FIRST_TYPE, a), Chunk(crc, LAST_TYPE, b);
    var file := Emit(crc, data, true, 1007);
    TwoChunks(crc, data);
    FromStart(crc, file, BLOCK_SIZE);
    assert Zeros(0) + first + last == file;
    PhysicalChunk(crc, FIRST_TYPE, a, BLOCK_SIZE, file, last);
    OneMoreTurn(crc, file, BLOCK_SIZE, false, [], ReadPhysical(crc, file, BLOCK_SIZE), true, a, 0);
    assert file[31761..] == last;
    TooLongForBlock(crc, b);
    OneMoreTurn(crc, last, 31761, true, a, ReadPhysical(crc, last, 31761), false, [], 1);
    assert forall k :: 0 <= k < 7246 ==> last[1007..][k] == b[1000 + k] == data[32754 + k];
    ZeroBlock(crc, last[1007..]);
    OneMoreTurn(crc, last[1007..], BLOCK_SIZE, false, [], ReadPhysical(crc, last[1007..], BLOCK_SIZE), false, [], 0);
    EmptyEnd(crc, 7246);
  }

  lemma TwoChunks(crc: Checksum, data: Bytes)
    requires |data| == 40000
    ensures Emit(crc, data, true, 1007) == Chunk(crc, FIRST_TYPE, data[..31754]) + Chunk(crc, LAST_TYPE, data[31754..])
    ensures var last := Chunk(crc, LAST_TYPE, data[31754..]);
            |Chunk(crc, FIRST_TYPE, data[..31754])| == 31761 && |last| == 8253 && last[7..] == data[31754..]
            && last[4] == 54 && last[5] == 32
  {
    hide Chunk;
    var b := data[31754..];
    ChunkLayout(crc, LAST_TYPE, b, []);
    ChunkLayout(crc, FIRST_TYPE, data[..31754], []);
    var first, last := Chunk(crc, FIRST_TYPE, data[..31754]), Chunk(crc, LAST_TYPE, b);
    assert first + [] == first && last + [] == last;
    var tail := EmitSplit(crc, data, true, 1007);
    assert Head(crc, data, true, 1007) == Zeros(0) + first == first;
    var none := EmitSplit(crc, b, false, BLOCK_SIZE);
    assert b[..8246] == b;
    assert Head(crc, b, false, BLOCK_SIZE) == Zeros(0) + last == last;
    LengthBytes(crc, b);
  }

  lemma LengthBytes(crc: Checksum, b: Bytes)
    requires |b| == 8246
    ensures Chunk(crc, LAST_TYPE, b)[4] == 54 && Chunk(crc, LAST_TYPE, b)[5] == 32
  {}

  lemma TooLongForBlock(crc: Checksum, b: Bytes)
    requires |b| == 8246
    ensures var last := Chunk(crc, LAST_TYPE, b);
            |last| == 8253 && ReadPhysical(crc, last, 31761) == Physical(BAD_RECORD_CODE, [], last[1007..], BLOCK_SIZE, 1)
  {
    LengthBytes(crc, b);
  }

  lemma ZeroBlock(crc: Checksum, rest: Bytes)
    requires |rest| == 7246 && forall k :: 0 <= k < 7246 ==> rest[k] == 0
    ensures ReadPhysical(crc, rest, BLOCK_SIZE) == Physical(BAD_RECORD_CODE, [], [], 7246, 0)
  {}

  lemma EmptyEnd(crc: Checksum, off: nat)
    requires off < BLOCK_SIZE
    ensures ReadFrom(crc, [], off, false, []) == All([], 0)
  {
    NothingMore(crc, [], off, false, []);
  }

  // ------------------------------------------------------------------------
  // The run

  const FIRST_GROUP := Q.Group(0, 1, FAILING.batch.value, 1, Ok, false, false)
  const SECOND_GROUP := Q.Group(1, 1, SYNCING.batch.value, 2, Ok, false, false)

  const STEPS: seq<Q.Step> :=
    [Q.Join(FAILING), Q.Lead(1), Q.Append(Torn(0, 0)), Q.Finish,
     Q.Join(SYNCING), Q.Lead(1), Q.Append(Whole), Q.SyncLog(true), Q.Insert, Q.Finish]

  const TRIED: seq<Attempt> := [Attempt(Q.RecordOf(FIRST_GROUP), Torn(0, 0)), Attempt(Q.RecordOf(SECOND_GROUP), Whole)]

  function Failed(): Q.State {
    Q.State([FAILING], [], [Q.Completion(0, IOError)], Q.Idle, Q.NO_GROUP, 1, false, [], 0,
            TRIED[..1], 0, [], [FIRST_GROUP.(status := IOError)], 0)
  }

  function Last(): Q.State {
    Q.State([FAILING, SYNCING], [], [Q.Completion(0, IOError), Q.Completion(1, Ok)], Q.Idle, Q.NO_GROUP, 2, false,
            [Q.RecordOf(SECOND_GROUP)], 1, TRIED, 2, AddedFrom(2, SYNCING.batch.value),
            [FIRST_GROUP.(status := IOError), SECOND_GROUP.(logged := true, applied := true)], 0)
  }

  lemma OneWriter(w: Q.Writer)
    requires w.batch.Some?
    ensures Q.IsGroup([w], 1) && Q.AllOps([w][..1]) == w.batch.value
  {
    assert [w][..1] == [w] && [w][..0] == [];
    assert Q.AllOps([w]) == Q.AllOps([]) + w.batch.value;
  }

  function Logging1(): Q.State {
    Q.Start(0).(arrived := [FAILING], queue := [0], phase := Q.Logging, pending := FIRST_GROUP)
  }

  lemma FirstLeads()
    ensures Q.Reaches(Q.Start(0), STEPS[..2], Logging1())
  {
    var s0 := Q.Start(0);
    var s1 := s0.(arrived := [FAILING], queue := [0]);
    OneWriter(FAILING);
    assert Q.Waiting(s1) == [FAILING];
    Taken(s0, Q.Join(FAILING), s1);
    Taken(s1, Q.Lead(1), Logging1());
    Chain(s0, [Q.Join(FAILING)], s1, [Q.Lead(1)], Logging1());
    assert STEPS[..2] == [Q.Join(FAILING)] + [Q.Lead(1)];
  }

  lemma FirstFails()
    ensures Q.Reaches(Logging1(), STEPS[2..4], Failed())
  {
    hide Q.RecordOf;
    var s2 := Logging1();
    var s3 := s2.(tried := TRIED[..1], phase := Q.Finishing(IOError, false));
    Taken(s2, Q.Append(Torn(0, 0)), s3);
    assert Q.Completions([0], IOError) == [Q.Completion(0, IOError)];
    Taken(s3, Q.Finish, Failed());
    Chain(s2, [Q.Append(Torn(0, 0))], s3, [Q.Finish], Failed());
    assert STEPS[2..4] == [Q.Append(Torn(0, 0))] + [Q.Finish];
  }

  function Logging2(): Q.State {
    Failed().(arrived := [FAILING, SYNCING], queue := [1], phase := Q.Logging, pending := SECOND_GROUP)
  }

  function Inserting2(): Q.State {
    Logging2().(log := [Q.RecordOf(SECOND_GROUP)], synced := 1, tried := TRIED, syncedTried := 2, phase := Q.Inserting,
                pending := SECOND_GROUP.(logged := true))
  }

  lemma SecondLeads()
    ensures Q.Reaches(Failed(), STEPS[4..6], Logging2())
  {
    var s4 := Failed();
    var s5 := s4.(arrived := [FAILING, SYNCING], queue := [1]);
    OneWriter(SYNCING);
    assert Q.Waiting(s5) == [SYNCING];
    Taken(s4, Q.Join(SYNCING), s5);
    Taken(s5, Q.Lead(1), Logging2());
    Chain(s4, [Q.Join(SYNCING)], s5, [Q.Lead(1)], Logging2());
    assert STEPS[4..6] == [Q.Join(SYNCING)] + [Q.Lead(1)];
  }

  lemma SecondLogs()
    ensures Q.Reaches(Logging2(), STEPS[6..8], Inserting2())
  {
    hide Q.RecordOf;
    var s6 := Logging2();
    var s7 := Inserting2().(synced := 0, syncedTried := 0, phase := Q.Syncing);
    assert Q.Waiting(s6) == [SYNCING];
    assert TRIED[..1] + [Attempt(Q.RecordOf(SECOND_GROUP), Whole)] == TRIED;
    Taken(s6, Q.Append(Whole), s7);
    Taken(s7, Q.SyncLog(true), Inserting2());
    Chain(s6, [Q.Append(Whole)], s7, [Q.SyncLog(true)], Inserting2());
    assert STEPS[6..8] == [Q.Append(Whole)] + [Q.SyncLog(true)];
  }

  lemma SecondSucceeds()
    ensures Q.Reaches(Inserting2(), STEPS[8..], Last())
  {
    hide Q.RecordOf;
    var s8 := Inserting2();
    var s9 := s8.(mem := AddedFrom(2, SYNCING.batch.value), pending := SECOND_GROUP.(logged := true, applied := true),
                  phase := Q.Finishing(Ok, false));
    Q.RecordReads(SECOND_GROUP);
    Q.RecordReads(s8.pending);
    assert [] + AddedFrom(2, SYNCING.batch.value) == AddedFrom(2, SYNCING.batch.value);
    Taken(s8, Q.Insert, s9);
    assert Q.Completions([1], Ok) == [Q.Completion(1, Ok)];
    Taken(s9, Q.Finish, Last());
    Chain(s8, [Q.Insert], s9, [Q.Finish], Last());
    assert STEPS[8..] == [Q.Insert] + [Q.Finish];
  }

  lemma WholeRun()
    ensures Q.Reaches(Q.Start(0), STEPS, Last()) && Q.Inv(Last())
  {
    hide Q.Reaches;
    FirstLeads();
    FirstFails();
    SecondLeads();
    SecondLogs();
    SecondSucceeds();
    Chain(Q.Start(0), STEPS[..2], Logging1(), STEPS[2..4], Failed());
    assert STEPS[..2] + STEPS[2..4] == STEPS[..4];
    Chain(Q.Start(0), STEPS[..4], Failed(), STEPS[4..6], Logging2());
    assert STEPS[..4] + STEPS[4..6] == STEPS[..6];
    Chain(Q.Start(0), STEPS[..6], Logging2(), STEPS[6..8], Inserting2());
    assert STEPS[..6] + STEPS[6..8] == STEPS[..8];
    Chain(Q.Start(0), STEPS[..8], Inserting2(), STEPS[8..], Last());
    assert STEPS[..8] + STEPS[8..] == STEPS;
    Q.StartOk(0);
    Q.RunOk(Q.Start(0), STEPS, Last());
  }

  /** The second writer asked for durability and was told `Ok`; its file, all of it synced, holds no
      readable record, and the writer had drifted before that append. */
  lemma SyncWriteIsLost(crc: Checksum)
    ensures Q.Reaches(Q.Start(0), STEPS, Last()) && Q.Inv(Last())
    ensures Last().arrived[1] == SYNCING && SYNCING.sync && Last().completions[1] == Q.Completion(1, Ok)
    ensures Last().syncedTried == |Last().tried| && |Q.LogFile(crc, Last())| == 40014
    ensures ReadAll(crc, Q.LogFile(crc, Last()), BLOCK_SIZE) == All([], 2)
    ensures Recovery.Summarize(ReadAll(crc, Q.LogFile(crc, Last()), BLOCK_SIZE).records, [], 0).added == []
    ensures !NeverDrifted(crc, Last().tried)
  {
    hide ReadAll;
    hide Emit;
    hide Q.RecordOf;
    WholeRun();
    var r1, r2 := Q.RecordOf(FIRST_GROUP), Q.RecordOf(SECOND_GROUP);
    FirstRecord();
    SecondRecord();
    FileIs(crc, r1, r2);
    Straddles(crc, r2);
    TwoChunks(crc, r2);
    Drifted(crc, r1, r2);
  }

  lemma FirstRecord()
    ensures |Q.RecordOf(FIRST_GROUP)| == 1000
  {
    var front := PutRecord(1, 984, 2);
  }

  lemma SecondRecord()
    ensures var r := Q.RecordOf(SECOND_GROUP); |r| == 40000 && forall k :: PREFIX <= k < 40000 ==> r[k] == 0
  {
    var front := PutRecord(2, 39983, 3);
  }

  lemma FileIs(crc: Checksum, r1: Bytes, r2: Bytes)
    requires |r1| == 1000
    ensures var tried := [Attempt(r1, Torn(0, 0)), Attempt(r2, Whole)];
            Possible(tried, 0) && FileBytes(crc, tried, 0) == Emit(crc, r2, true, 1007)
  {
    hide Emit;
    var tried := [Attempt(r1, Torn(0, 0)), Attempt(r2, Whole)];
    assert tried[1..] == [Attempt(r2, Whole)] && tried[1..][1..] == [];
    assert OffsetBy(r1, 0, Torn(0, 0)) == 1007 && Left(crc, r1, true, 0, Torn(0, 0)) == [];
    assert FileBytes(crc, tried[1..], 1007) == Emit(crc, r2, true, 1007) + [];
  }

  lemma Drifted(crc: Checksum, r1: Bytes, r2: Bytes)
    requires |r1| == 1000
    ensures var tried := [Attempt(r1, Torn(0, 0)), Attempt(r2, Whole)];
            Possible(tried, 0) && !NeverDrifted(crc, tried)
  {
    hide Emit;
    var tried := [Attempt(r1, Torn(0, 0)), Attempt(r2, Whole)];
    FileIs(crc, r1, r2);
    var one := tried[..1];
    assert one == [Attempt(r1, Torn(0, 0))] && one[1..] == [];
    assert OffsetBy(r1, 0, Torn(0, 0)) == 1007 && Left(crc, r1, true, 0, Torn(0, 0)) == [];
    assert OffsetOf(one[1..], 1007) == 1007 && OffsetOf(one, 0) == OffsetOf(one[1..], OffsetBy(one[0].record, 0, one[0].outcome));
    assert Possible(one, 0) ==> FileBytes(crc, one, 0) == [] && OffsetOf(one, 0) == 1007;
    assert Possible(one, 0) ==> !Aligned(crc, one, 0);
  }

  lemma Taken(s: Q.State, step: Q.Step, t: Q.State)
    requires Q.QueueOk(s) && Q.Enabled(s, step) && Q.Apply(s, step) == t
    ensures Q.Reaches(s, [step], t)
  {
    assert [step][1..] == [];
  }

  lemma {:induction false} Chain(s: Q.State, a: seq<Q.Step>, t: Q.State, b: seq<Q.Step>, u: Q.State)
    requires Q.Reaches(s, a, t) && Q.Reaches(t, b, u)
    ensures Q.Reaches(s, a + b, u)
    decreases |a|
  {
    hide Q.Enabled;
    hide Q.Apply;
    hide Q.QueueOk;
    if |a| == 0 {
      assert a + b == b;
    } else {
      ConsTail(a, b);
      Chain(Q.Apply(s, a[0]), a[1..], t, b, u);
    }
  }
}
