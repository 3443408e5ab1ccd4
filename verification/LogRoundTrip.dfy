/**
 Reading back what was written, from the whole log or from any prefix of its bytes.
 */
module LogRoundTrip {
  import opened Coding
  import opened Entries
  import opened Sequences
  import opened Log
  import opened LogReader

  function ChunkSize(payload: Bytes): nat {
    HEADER_SIZE + |payload|
  }

  /** A chunk whose bytes are all there is parsed back; a truncated one reads as the end. */
  lemma ParseChunk(crc: Checksum, t: byte, payload: Bytes, off: nat, rest: Bytes, more: Bytes)
    requires t != ZERO_TYPE && off + ChunkSize(payload) <= BLOCK_SIZE
    requires rest <= Chunk(crc, t, payload) + more
    ensures |rest| >= ChunkSize(payload) ==>
              ParseBuffer(crc, rest, off)
              == Physical(t, payload, rest[ChunkSize(payload)..], off + ChunkSize(payload), 0)
    ensures |rest| < ChunkSize(payload) ==>
              ParseBuffer(crc, rest, off).code == EOF_CODE && ParseBuffer(crc, rest, off).reports == 0
  {
    var all := Chunk(crc, t, payload) + more;
    var buffer := Buffer(rest, off);
    if |buffer| >= HEADER_SIZE {
      ChunkLayout(crc, t, payload, more);
      assert buffer[4] == all[4] && buffer[5] == all[5] && buffer[6] == all[6];
      if |rest| >= ChunkSize(payload) {
        assert buffer[..4] == all[..4];
        assert buffer[HEADER_SIZE..ChunkSize(payload)] == all[HEADER_SIZE..ChunkSize(payload)];
      }
    }
  }

  lemma ChunkLayout(crc: Checksum, t: byte, payload: Bytes, more: Bytes)
    requires ChunkSize(payload) <= BLOCK_SIZE
    ensures var all := Chunk(crc, t, payload) + more;
            && |all| == ChunkSize(payload) + |more|
            && all[..4] == crc(t, payload)
            && (all[4] as int) + 256 * (all[5] as int) == |payload| && all[6] == t
            && all[HEADER_SIZE..ChunkSize(payload)] == payload
            && all[ChunkSize(payload)..] == more
  {}

  /** The same, behind the trailer of a nearly full block. */
  lemma PhysicalChunk(crc: Checksum, t: byte, payload: Bytes, off: nat, rest: Bytes, more: Bytes)
    requires t != ZERO_TYPE && off <= BLOCK_SIZE && HeaderAt(off) + ChunkSize(payload) <= BLOCK_SIZE
    requires rest <= Zeros(Trailer(off)) + Chunk(crc, t, payload) + more
    ensures var size := Trailer(off) + ChunkSize(payload);
            if |rest| >= size then ReadPhysical(crc, rest, off) == Physical(t, payload, rest[size..], HeaderAt(off) + ChunkSize(payload), 0)
            else ReadPhysical(crc, rest, off).code == EOF_CODE && ReadPhysical(crc, rest, off).reports == 0
  {
    var body := Chunk(crc, t, payload) + more;
    assert Zeros(Trailer(off)) + Chunk(crc, t, payload) + more == Zeros(Trailer(off)) + body;
    if BLOCK_SIZE - off < HEADER_SIZE {
      var gap := BLOCK_SIZE - off;
      assert |Zeros(gap)| == gap;
      if |rest| >= gap {
        DropPrefix(Zeros(gap), body, rest);
        ParseChunk(crc, t, payload, 0, rest[gap..], more);
        assert |rest| >= gap + ChunkSize(payload) ==> rest[gap..][ChunkSize(payload)..] == rest[gap + ChunkSize(payload)..];
      }
    } else {
      assert Zeros(0) + body == body;
      ParseChunk(crc, t, payload, off, rest, more);
    }
  }

  lemma DropPrefix(a: Bytes, b: Bytes, rest: Bytes)
    requires rest <= a + b && |rest| >= |a|
    ensures rest[|a|..] <= b
  {
    assert rest[|a|..] == (a + b)[|a|..|rest|];
    assert (a + b)[|a|..] == b;
  }

  /** What the physical records a writer emits do to the record being assembled. */
  lemma OneTurn(crc: Checksum, rest: Bytes, off: nat, begin: bool, end: bool, scratch: Bytes,
                payload: Bytes, rest': Bytes, off': nat)
    requires off <= BLOCK_SIZE && off' <= BLOCK_SIZE && (begin ==> scratch == [])
    requires ReadPhysical(crc, rest, off) == Physical(TypeOf(begin, end), payload, rest', off', 0)
    ensures end ==> ReadLogical(crc, rest, off, !begin, scratch) == Logical(Some(scratch + payload), rest', off', 0)
    ensures !end ==> ReadLogical(crc, rest, off, !begin, scratch) == ReadLogical(crc, rest', off', true, scratch + payload)
  {
    assert begin ==> scratch + payload == payload;
  }

  lemma EndTurn(crc: Checksum, rest: Bytes, off: nat, inFragment: bool, scratch: Bytes)
    requires off <= BLOCK_SIZE && ReadPhysical(crc, rest, off).code == EOF_CODE && ReadPhysical(crc, rest, off).reports == 0
    ensures ReadLogical(crc, rest, off, inFragment, scratch).record == None
    ensures ReadLogical(crc, rest, off, inFragment, scratch).reports == 0
  {}

  /** The bytes of a record are those of its first fragment and those of the remainder. */
  lemma EmitSplit(crc: Checksum, data: Bytes, begin: bool, off: nat) returns (tail: Bytes)
    requires off <= BLOCK_SIZE
    ensures var n := FragmentLength(data, off);
            && tail == (if n == |data| then [] else Emit(crc, data[n..], false, HeaderAt(off) + HEADER_SIZE + n))
            && Emit(crc, data, begin, off) == Head(crc, data, begin, off) + tail
            && |Head(crc, data, begin, off)| == Trailer(off) + HEADER_SIZE + n
  {
    var n := FragmentLength(data, off);
    tail := if n == |data| then [] else Emit(crc, data[n..], false, HeaderAt(off) + HEADER_SIZE + n);
  }

  /** The first fragment: one turn when it is all there, the end of the log when it is torn. */
  lemma FirstFragment(crc: Checksum, data: Bytes, begin: bool, off: nat, rest: Bytes, more: Bytes, scratch: Bytes)
    requires off <= BLOCK_SIZE && (begin ==> scratch == [])
    requires rest <= Head(crc, data, begin, off) + more
    ensures var n := FragmentLength(data, off); var size := Trailer(off) + HEADER_SIZE + n;
            var off' := HeaderAt(off) + HEADER_SIZE + n; var l := ReadLogical(crc, rest, off, !begin, scratch);
            if |rest| < size then l.record == None && l.reports == 0
            else if n == |data| then l == Logical(Some(scratch + data), rest[size..], off', 0)
            else l == ReadLogical(crc, rest[size..], off', true, scratch + data[..n])
  {
    hide ReadLogical;
    hide ReadPhysical;
    hide Chunk;
    hide Zeros;
    var n := FragmentLength(data, off);
    var size := Trailer(off) + HEADER_SIZE + n;
    assert TypeOf(begin, n == |data|) != ZERO_TYPE;
    assert Head(crc, data, begin, off) == Zeros(Trailer(off)) + Chunk(crc, TypeOf(begin, n == |data|), data[..n]);
    hide TypeOf;
    hide Head;
    hide HeaderAt;
    hide Trailer;
    hide FragmentLength;
    PhysicalChunk(crc, TypeOf(begin, n == |data|), data[..n], off, rest, more);
    if |rest| >= size {
      OneTurn(crc, rest, off, begin, n == |data|, scratch, data[..n], rest[size..], HeaderAt(off) + HEADER_SIZE + n);
      assert n == |data| ==> data[..n] == data;
    } else {
      EndTurn(crc, rest, off, !begin, scratch);
    }
  }

  /** One record, possibly in fragments: read back when complete, ignored without report when torn. */
  lemma {:induction false} LogicalRecord(crc: Checksum, data: Bytes, begin: bool, off: nat, rest: Bytes, more: Bytes, scratch: Bytes)
    requires off <= BLOCK_SIZE && rest <= Emit(crc, data, begin, off) + more
    requires begin ==> scratch == []
    ensures var size := |Emit(crc, data, begin, off)|; var l := ReadLogical(crc, rest, off, !begin, scratch);
            if |rest| >= size then l == Logical(Some(scratch + data), rest[size..], OffsetAfter(data, off), 0)
            else l.record == None && l.reports == 0
    decreases |data|, BLOCK_SIZE - off
  {
    hide ReadLogical;
    hide Emit;
    hide Head;
    var n := FragmentLength(data, off);
    var off' := HeaderAt(off) + HEADER_SIZE + n;
    var head := Head(crc, data, begin, off);
    var tail := EmitSplit(crc, data, begin, off);
    Regroup(head, tail, more);
    FirstFragment(crc, data, begin, off, rest, tail + more, scratch);
    if |rest| >= |head| && n < |data| {
      DropPrefix(head, tail + more, rest);
      LogicalRecord(crc, data[n..], false, off', rest[|head|..], more, scratch + data[..n]);
      Reassemble(scratch, data, n, rest, |head|, |tail|);
    }
  }

  lemma Regroup(a: Bytes, b: Bytes, c: Bytes)
    ensures (a + b) + c == a + (b + c)
  {}

  lemma Reassemble(scratch: Bytes, data: Bytes, n: nat, rest: Bytes, h: nat, t: nat)
    requires n <= |data| && h <= |rest|
    ensures (scratch + data[..n]) + data[n..] == scratch + data
    ensures h + t <= |rest| ==> rest[h..][t..] == rest[h + t..]
  {}

  // ------------------------------------------------------------------------
  // Whole logs

  datatype All = All(records: seq<Bytes>, reports: nat)

  /** Reads records until there are no more. */
  function ReadAll(crc: Checksum, rest: Bytes, off: nat): All
    requires off <= BLOCK_SIZE
    decreases |rest|
  {
    var l := ReadLogical(crc, rest, off, false, []);
    if l.record.None? then All([], l.reports)
    else
      var a := ReadAll(crc, l.rest, l.off);
      All([l.record.value] + a.records, l.reports + a.reports)
  }

  /** How many records lie wholly within the first `m` bytes. */
  function Whole(crc: Checksum, records: seq<Bytes>, off: nat, m: nat): (k: nat)
    requires off <= BLOCK_SIZE
    ensures k <= |records|
  {
    if |records| == 0 then 0
    else
      var size := |Emit(crc, records[0], true, off)|;
      if m < size then 0 else 1 + Whole(crc, records[1..], OffsetAfter(records[0], off), m - size)
  }

  lemma EmptyLog(crc: Checksum, off: nat)
    requires off <= BLOCK_SIZE
    ensures ReadLogical(crc, [], off, false, []).record == None && ReadLogical(crc, [], off, false, []).reports == 0
  {}

  /** Any prefix of a log reads as the records it holds completely, and no corruption is reported. */
  lemma {:induction false} LogRoundTrip(crc: Checksum, records: seq<Bytes>, off: nat, rest: Bytes)
    requires off <= BLOCK_SIZE && rest <= EncodeLog(crc, records, off)
    ensures ReadAll(crc, rest, off) == All(records[..Whole(crc, records, off, |rest|)], 0)
  {
    hide ReadLogical;
    hide Emit;
    hide OffsetAfter;
    if |records| == 0 {
      assert rest == [];
      EmptyLog(crc, off);
    } else {
      var first := Emit(crc, records[0], true, off);
      var more := EncodeLog(crc, records[1..], OffsetAfter(records[0], off));
      LogicalRecord(crc, records[0], true, off, rest, more, []);
      assert [] + records[0] == records[0];
      if |rest| >= |first| {
        DropPrefix(first, more, rest);
        LogRoundTrip(crc, records[1..], OffsetAfter(records[0], off), rest[|first|..]);
        var k := Whole(crc, records[1..], OffsetAfter(records[0], off), |rest| - |first|);
        assert records[..k + 1] == [records[0]] + records[1..][..k];
      }
    }
  }

  /** Where a log of these records leaves its writer. */
  function OffsetAfterAll(records: seq<Bytes>, off: nat): (r: nat)
    requires off <= BLOCK_SIZE
    ensures r <= BLOCK_SIZE
  {
    if |records| == 0 then off else OffsetAfterAll(records[1..], OffsetAfter(records[0], off))
  }

  /** A writer that has written `records` and adds one more has written the longer list. */
  lemma {:induction false} EncodeLogSnoc(crc: Checksum, records: seq<Bytes>, record: Bytes, off: nat)
    requires off <= BLOCK_SIZE
    ensures EncodeLog(crc, records + [record], off)
            == EncodeLog(crc, records, off) + Emit(crc, record, true, OffsetAfterAll(records, off))
    ensures OffsetAfterAll(records + [record], off) == OffsetAfter(record, OffsetAfterAll(records, off))
  {
    hide Emit;
    hide OffsetAfter;
    if |records| == 0 {
      assert (records + [record])[1..] == [];
    } else {
      EncodeLogSnoc(crc, records[1..], record, OffsetAfter(records[0], off));
      ConsTail(records, [record]);
      Assoc(Emit(crc, records[0], true, off), EncodeLog(crc, records[1..], OffsetAfter(records[0], off)),
            Emit(crc, record, true, OffsetAfterAll(records, off)));
    }
  }

  /** The whole log reads as all its records. */
  lemma {:induction false} AllWhole(crc: Checksum, records: seq<Bytes>, off: nat, m: nat)
    requires off <= BLOCK_SIZE && m >= |EncodeLog(crc, records, off)|
    ensures Whole(crc, records, off, m) == |records|
  {
    if |records| > 0 {
      AllWhole(crc, records[1..], OffsetAfter(records[0], off), m - |Emit(crc, records[0], true, off)|);
    }
  }

  /** The first `n` records are whole once their bytes are there. */
  lemma {:induction false} WholeAtLeast(crc: Checksum, records: seq<Bytes>, off: nat, n: nat, m: nat)
    requires off <= BLOCK_SIZE && n <= |records| && m >= |EncodeLog(crc, records[..n], off)|
    ensures Whole(crc, records, off, m) >= n
  {
    hide Emit;
    hide OffsetAfter;
    if n > 0 {
      assert records[..n][1..] == records[1..][..n - 1];
      WholeAtLeast(crc, records[1..], OffsetAfter(records[0], off), n - 1, m - |Emit(crc, records[0], true, off)|);
    }
  }

  /** A log that lost at most its last record reads as all records or all but the last. */
  lemma LastMayBeLost(crc: Checksum, records: seq<Bytes>, last: Bytes, file: Bytes)
    requires file <= EncodeLog(crc, records + [last], 0) && |file| >= |EncodeLog(crc, records, 0)|
    ensures var a := ReadAll(crc, file, BLOCK_SIZE);
            a.reports == 0 && (a.records == records || a.records == records + [last])
  {
    hide Emit;
    hide ReadAll;
    hide Whole;
    var all := records + [last];
    FreshBlock(crc, all);
    FreshBlock(crc, records);
    LogRoundTrip(crc, all, BLOCK_SIZE, file);
    assert all[..|records|] == records && all[..|all|] == all;
    WholeAtLeast(crc, all, BLOCK_SIZE, |records|, |file|);
  }

  lemma FullLogRoundTrip(crc: Checksum, records: seq<Bytes>)
    ensures ReadAll(crc, EncodeLog(crc, records, 0), BLOCK_SIZE) == All(records, 0)
  {
    FreshBlock(crc, records);
    LogRoundTrip(crc, records, BLOCK_SIZE, EncodeLog(crc, records, BLOCK_SIZE));
    AllWhole(crc, records, BLOCK_SIZE, |EncodeLog(crc, records, BLOCK_SIZE)|);
    assert records[..|records|] == records;
  }

  /** A new file, where the writer is at offset 0, looks to the reader like a full block behind it. */
  lemma FreshBlock(crc: Checksum, records: seq<Bytes>)
    ensures EncodeLog(crc, records, 0) == EncodeLog(crc, records, BLOCK_SIZE)
  {}
}
