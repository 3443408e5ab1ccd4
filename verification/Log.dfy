/**
 The write-ahead log format: records are cut into fragments that fill 32 KB blocks.

 `Writer` and `Reader` are proved against `Emit` and `ReadLogical`; `LogRoundTrip` says that
 reading a log, or any prefix of its bytes, gives back the records that lie wholly inside,
 in order, and reports no corruption.

 An append can fail in any fragment.  The writer's block offset then moves on as if the whole
 fragment had been written, while only some of its bytes are in the file.
 */
module Log {
  import opened Coding
  import opened Entries
  import opened Sequences

  /** The stored (masked) checksum of a record type and payload. */
  type Checksum = (byte, Bytes) -> Word

  const BLOCK_SIZE := 32768
  const HEADER_SIZE := 7

  const ZERO_TYPE: byte := 0
  const FULL_TYPE: byte := 1
  const FIRST_TYPE: byte := 2
  const MIDDLE_TYPE: byte := 3
  const LAST_TYPE: byte := 4
  const EOF_CODE := 5         // past the last record type
  const BAD_RECORD_CODE := 6

  // ------------------------------------------------------------------------
  // Writing

  function Zeros(n: nat): Bytes {
    seq(n, _ => 0)
  }

  function Chunk(crc: Checksum, t: byte, payload: Bytes): Bytes
    requires |payload| <= BLOCK_SIZE - HEADER_SIZE
  {
    crc(t, payload) + [|payload| % 256, |payload| / 256, t] + payload
  }

  function TypeOf(begin: bool, end: bool): byte {
    if begin && end then FULL_TYPE else if begin then FIRST_TYPE else if end then LAST_TYPE else MIDDLE_TYPE
  }

  /** Bytes left in the block when no header fits any more. */
  function Trailer(off: nat): nat
    requires off <= BLOCK_SIZE
  {
    if BLOCK_SIZE - off < HEADER_SIZE then BLOCK_SIZE - off else 0
  }

  /** Where the next header goes. */
  function HeaderAt(off: nat): (r: nat)
    requires off <= BLOCK_SIZE
    ensures r <= BLOCK_SIZE - HEADER_SIZE
  {
    if BLOCK_SIZE - off < HEADER_SIZE then 0 else off
  }

  function FragmentLength(data: Bytes, off: nat): (n: nat)
    requires off <= BLOCK_SIZE
    ensures n <= |data| && HeaderAt(off) + HEADER_SIZE + n <= BLOCK_SIZE
  {
    var avail := BLOCK_SIZE - HeaderAt(off) - HEADER_SIZE;
    if |data| < avail then |data| else avail
  }

  /** The bytes a record adds to a log whose current block is filled up to `off`. */
  function Emit(crc: Checksum, data: Bytes, begin: bool, off: nat): Bytes
    requires off <= BLOCK_SIZE
    decreases |data|, BLOCK_SIZE - off
  {
    var n := FragmentLength(data, off);
    var end := n == |data|;
    Zeros(Trailer(off)) + Chunk(crc, TypeOf(begin, end), data[..n])
    + if end then [] else Emit(crc, data[n..], false, HeaderAt(off) + HEADER_SIZE + n)
  }

  /** How far the current block is filled afterwards. */
  function OffsetAfter(data: Bytes, off: nat): (r: nat)
    requires off <= BLOCK_SIZE
    ensures r <= BLOCK_SIZE
    decreases |data|, BLOCK_SIZE - off
  {
    var n := FragmentLength(data, off);
    if n == |data| then HeaderAt(off) + HEADER_SIZE + n
    else OffsetAfter(data[n..], HeaderAt(off) + HEADER_SIZE + n)
  }

  function EncodeLog(crc: Checksum, records: seq<Bytes>, off: nat): Bytes
    requires off <= BLOCK_SIZE
  {
    if |records| == 0 then []
    else Emit(crc, records[0], true, off) + EncodeLog(crc, records[1..], OffsetAfter(records[0], off))
  }

  // ------------------------------------------------------------------------
  // Appends that fail

  /** `Torn(f, kept)`: after `f` whole fragments, only `kept` bytes of the next one reach the file. */
  datatype Outcome = Whole | Torn(fragments: nat, kept: nat)

  datatype Attempt = Attempt(record: Bytes, outcome: Outcome)

  /** The bytes of a record's first fragment, with the trailer before it. */
  function Head(crc: Checksum, data: Bytes, begin: bool, off: nat): (b: Bytes)
    requires off <= BLOCK_SIZE
    ensures |b| == HeadSize(data, off)
  {
    var n := FragmentLength(data, off);
    Zeros(Trailer(off)) + Chunk(crc, TypeOf(begin, n == |data|), data[..n])
  }

  function HeadSize(data: Bytes, off: nat): nat
    requires off <= BLOCK_SIZE
  {
    Trailer(off) + HEADER_SIZE + FragmentLength(data, off)
  }

  /** The writer's block offset behind the first fragment. */
  function HeadEnd(data: Bytes, off: nat): (r: nat)
    requires off <= BLOCK_SIZE
    ensures r <= BLOCK_SIZE
  {
    HeaderAt(off) + HEADER_SIZE + FragmentLength(data, off)
  }

  /** A record has a fragment `f`, and writing it can stop after `kept` bytes. */
  predicate Tears(data: Bytes, off: nat, f: nat, kept: nat)
    requires off <= BLOCK_SIZE
    decreases f
  {
    if f == 0 then kept < HeadSize(data, off)
    else
      var n := FragmentLength(data, off);
      n < |data| && Tears(data[n..], HeadEnd(data, off), f - 1, kept)
  }

  function TornBytes(crc: Checksum, data: Bytes, begin: bool, off: nat, f: nat, kept: nat): Bytes
    requires off <= BLOCK_SIZE && Tears(data, off, f, kept)
    decreases f
  {
    if f == 0 then Head(crc, data, begin, off)[..kept]
    else
      var n := FragmentLength(data, off);
      Head(crc, data, begin, off) + TornBytes(crc, data[n..], false, HeadEnd(data, off), f - 1, kept)
  }

  function TornOffset(data: Bytes, off: nat, f: nat): (r: nat)
    requires off <= BLOCK_SIZE
    ensures r <= BLOCK_SIZE
    decreases f
  {
    var n := FragmentLength(data, off);
    if f == 0 then HeadEnd(data, off) else TornOffset(data[n..], HeadEnd(data, off), f - 1)
  }

  /** The outcome is one that appending these data at this offset can have. */
  predicate CanEnd(data: Bytes, off: nat, outcome: Outcome)
    requires off <= BLOCK_SIZE
  {
    outcome.Torn? ==> Tears(data, off, outcome.fragments, outcome.kept)
  }

  /** What an append leaves in the file. */
  function Left(crc: Checksum, data: Bytes, begin: bool, off: nat, outcome: Outcome): Bytes
    requires off <= BLOCK_SIZE && CanEnd(data, off, outcome)
  {
    if outcome.Whole? then Emit(crc, data, begin, off)
    else TornBytes(crc, data, begin, off, outcome.fragments, outcome.kept)
  }

  /** Where the writer believes to be afterwards. */
  function OffsetBy(data: Bytes, off: nat, outcome: Outcome): (r: nat)
    requires off <= BLOCK_SIZE
    ensures r <= BLOCK_SIZE
  {
    if outcome.Whole? then OffsetAfter(data, off) else TornOffset(data, off, outcome.fragments)
  }

  /** The outcome of the fragments after the first. */
  function Later(outcome: Outcome): Outcome {
    if outcome.Torn? && outcome.fragments > 0 then Torn(outcome.fragments - 1, outcome.kept) else outcome
  }

  function FailureIn(outcome: Outcome): Option<nat> {
    if outcome.Torn? && outcome.fragments == 0 then Some(outcome.kept) else None
  }

  /** One fragment of an append, and the rest of it. */
  lemma LeftStep(crc: Checksum, data: Bytes, begin: bool, off: nat, outcome: Outcome)
    requires off <= BLOCK_SIZE && CanEnd(data, off, outcome)
    ensures var n := FragmentLength(data, off); var head := Head(crc, data, begin, off); var failure := FailureIn(outcome);
            if failure.Some? then
              failure.value < |head| && Left(crc, data, begin, off, outcome) == head[..failure.value]
              && OffsetBy(data, off, outcome) == HeadEnd(data, off)
            else if n == |data| then
              outcome.Whole? && Left(crc, data, begin, off, outcome) == head && OffsetBy(data, off, outcome) == HeadEnd(data, off)
            else
              && CanEnd(data[n..], HeadEnd(data, off), Later(outcome))
              && Left(crc, data, begin, off, outcome) == head + Left(crc, data[n..], false, HeadEnd(data, off), Later(outcome))
              && OffsetBy(data, off, outcome) == OffsetBy(data[n..], HeadEnd(data, off), Later(outcome))
  {
    var n := FragmentLength(data, off);
    hide Chunk;
    hide Zeros;
    if outcome.Whole? && n == |data| { assert Head(crc, data, begin, off) + [] == Head(crc, data, begin, off); }
  }

  class Writer {
    const crc: Checksum
    var dest: Bytes      // the file
    var buffer: Bytes    // appended to the file but not flushed
    var blockOffset: nat

    constructor (crc: Checksum, dest: Bytes)
      ensures this.crc == crc && this.dest == dest && buffer == [] && blockOffset == |dest| % BLOCK_SIZE
    {
      this.crc, this.dest, buffer := crc, dest, [];
      blockOffset := |dest| % BLOCK_SIZE;
    }

    /** Flushes the buffer.  When that fails after `failure` bytes, the rest of the buffer is dropped. */
    method Flush(failure: Option<nat>) returns (ok: bool)
      requires failure.Some? ==> failure.value < |buffer|
      modifies this`dest, this`buffer
      ensures buffer == [] && ok == failure.None?
      ensures dest == old(dest) + if ok then old(buffer) else old(buffer)[..failure.value]
    {
      ok := failure.None?;
      dest := dest + if ok then buffer else buffer[..failure.value];
      buffer := [];
    }

    /** The block offset moves on even when the flush fails. */
    method EmitPhysicalRecord(t: byte, payload: Bytes, failure: Option<nat>) returns (ok: bool)
      requires blockOffset + HEADER_SIZE + |payload| <= BLOCK_SIZE
      requires failure.Some? ==> failure.value < |buffer| + HEADER_SIZE + |payload|
      modifies this
      ensures buffer == [] && ok == failure.None?
      ensures var all := old(buffer) + Chunk(crc, t, payload);
              dest == old(dest) + if ok then all else all[..failure.value]
      ensures blockOffset == old(blockOffset) + HEADER_SIZE + |payload|
    {
      buffer := buffer + (crc(t, payload) + [|payload| % 256, |payload| / 256, t]);
      buffer := buffer + payload;
      Assoc(old(buffer), crc(t, payload) + [|payload| % 256, |payload| / 256, t], payload);
      ok := Flush(failure);
      blockOffset := blockOffset + HEADER_SIZE + |payload|;
    }

    /** Appends a record; `outcome` says whether, where and when the file fails. */
    method AddRecord(slice: Bytes, outcome: Outcome) returns (ok: bool)
      requires blockOffset <= BLOCK_SIZE && buffer == [] && CanEnd(slice, blockOffset, outcome)
      modifies this
      ensures ok == outcome.Whole? && buffer == []
      ensures dest == old(dest) + Left(crc, slice, true, old(blockOffset), outcome)
      ensures blockOffset == OffsetBy(slice, old(blockOffset), outcome)
    {
      hide Left;
      hide OffsetBy;
      hide CanEnd;
      hide Head;
      hide HeadEnd;
      var left, begin, rest := slice, true, outcome;
      ghost var target := old(dest) + Left(crc, slice, true, blockOffset, outcome);
      ghost var lastOffset := OffsetBy(slice, blockOffset, outcome);
      ok := true;
      var done := false;
      while ok && !done
        invariant blockOffset <= BLOCK_SIZE && buffer == [] && rest.Whole? == outcome.Whole?
        invariant if ok && !done then
                    && CanEnd(left, blockOffset, rest) && OffsetBy(left, blockOffset, rest) == lastOffset
                    && dest + Left(crc, left, begin, blockOffset, rest) == target
                  else dest == target && blockOffset == lastOffset && ok == outcome.Whole?
        decreases ok && !done, |left|, BLOCK_SIZE - blockOffset
      {
        LeftStep(crc, left, begin, blockOffset, rest);
        ghost var off, before, head := blockOffset, dest, Head(crc, left, begin, blockOffset);
        HeadMoves(left, off);
        var n;
        n, ok := EmitFragment(left, begin, FailureIn(rest));
        if ok && n < |left| { Assoc(before, head, Left(crc, left[n..], false, HeadEnd(left, off), Later(rest))); }
        done := n == |left|;
        left := left[n..];
        begin := false;
        rest := Later(rest);
      }
    }

    /** Fills the rest of a block that is too small for a header, then writes one fragment. */
    method EmitFragment(left: Bytes, begin: bool, failure: Option<nat>) returns (n: nat, ok: bool)
      requires blockOffset <= BLOCK_SIZE && buffer == []
      requires failure.Some? ==> failure.value < HeadSize(left, blockOffset)
      modifies this
      ensures n == FragmentLength(left, old(blockOffset)) && ok == failure.None? && buffer == []
      ensures var head := Head(crc, left, begin, old(blockOffset));
              dest == old(dest) + if ok then head else head[..failure.value]
      ensures blockOffset == HeadEnd(left, old(blockOffset))
    {
      var leftover := BLOCK_SIZE - blockOffset;
      if leftover < HEADER_SIZE {
        buffer := Zeros(leftover);
        blockOffset := 0;
      }
      assert buffer == Zeros(Trailer(old(blockOffset)));
      var avail := BLOCK_SIZE - blockOffset - HEADER_SIZE;
      n := if |left| < avail then |left| else avail;
      ok := EmitPhysicalRecord(TypeOf(begin, |left| == n), left[..n], failure);
    }
  }

  lemma HeadMoves(data: Bytes, off: nat)
    requires off <= BLOCK_SIZE
    ensures FragmentLength(data, off) < |data| && FragmentLength(data, off) == 0 ==> off < HeadEnd(data, off)
  {}

  // ------------------------------------------------------------------------
  // The file after several appends

  predicate Possible(tried: seq<Attempt>, off: nat)
    requires off <= BLOCK_SIZE
  {
    |tried| == 0 ||
    (CanEnd(tried[0].record, off, tried[0].outcome)
     && Possible(tried[1..], OffsetBy(tried[0].record, off, tried[0].outcome)))
  }

  function FileBytes(crc: Checksum, tried: seq<Attempt>, off: nat): Bytes
    requires off <= BLOCK_SIZE && Possible(tried, off)
  {
    if |tried| == 0 then []
    else
      Left(crc, tried[0].record, true, off, tried[0].outcome)
      + FileBytes(crc, tried[1..], OffsetBy(tried[0].record, off, tried[0].outcome))
  }

  function OffsetOf(tried: seq<Attempt>, off: nat): (r: nat)
    requires off <= BLOCK_SIZE
    ensures r <= BLOCK_SIZE
  {
    if |tried| == 0 then off else OffsetOf(tried[1..], OffsetBy(tried[0].record, off, tried[0].outcome))
  }

  /** The records whose appends succeeded. */
  function Written(tried: seq<Attempt>): seq<Bytes> {
    if |tried| == 0 then [] else (if tried[0].outcome.Whole? then [tried[0].record] else []) + Written(tried[1..])
  }

  lemma {:induction false} PossibleSnoc(tried: seq<Attempt>, a: Attempt, off: nat)
    requires off <= BLOCK_SIZE && Possible(tried, off) && CanEnd(a.record, OffsetOf(tried, off), a.outcome)
    ensures Possible(tried + [a], off)
  {
    hide OffsetBy;
    hide CanEnd;
    if |tried| == 0 {
      assert (tried + [a])[1..] == [];
    } else {
      ConsTail(tried, [a]);
      PossibleSnoc(tried[1..], a, OffsetBy(tried[0].record, off, tried[0].outcome));
    }
  }

  lemma {:induction false} FileSnoc(crc: Checksum, tried: seq<Attempt>, a: Attempt, off: nat)
    requires off <= BLOCK_SIZE && Possible(tried, off) && CanEnd(a.record, OffsetOf(tried, off), a.outcome)
    ensures Possible(tried + [a], off)
    ensures OffsetOf(tried + [a], off) == OffsetBy(a.record, OffsetOf(tried, off), a.outcome)
    ensures FileBytes(crc, tried + [a], off)
            == FileBytes(crc, tried, off) + Left(crc, a.record, true, OffsetOf(tried, off), a.outcome)
  {
    hide Left;
    hide OffsetBy;
    hide CanEnd;
    if |tried| == 0 {
      assert (tried + [a])[1..] == [];
      assert Left(crc, a.record, true, off, a.outcome) + [] == Left(crc, a.record, true, off, a.outcome);
    } else {
      var next := OffsetBy(tried[0].record, off, tried[0].outcome);
      ConsTail(tried, [a]);
      FileSnoc(crc, tried[1..], a, next);
      Assoc(Left(crc, tried[0].record, true, off, tried[0].outcome), FileBytes(crc, tried[1..], next),
            Left(crc, a.record, true, OffsetOf(tried, off), a.outcome));
    }
  }

  lemma {:induction false} WrittenConcat(a: seq<Attempt>, b: seq<Attempt>)
    ensures Written(a + b) == Written(a) + Written(b)
  {
    if |a| == 0 {
      assert a + b == b;
    } else {
      ConsTail(a, b);
      WrittenConcat(a[1..], b);
      Assoc(if a[0].outcome.Whole? then [a[0].record] else [], Written(a[1..]), Written(b));
    }
  }

  lemma WrittenSnoc(tried: seq<Attempt>, a: Attempt)
    ensures Written(tried + [a]) == Written(tried) + if a.outcome.Whole? then [a.record] else []
  {
    WrittenConcat(tried, [a]);
    assert [a][1..] == [];
    assert Written([a]) == (if a.outcome.Whole? then [a.record] else []) + Written([]);
  }

  lemma {:induction false} PossiblePrefix(tried: seq<Attempt>, off: nat, n: nat)
    requires off <= BLOCK_SIZE && Possible(tried, off) && n <= |tried|
    ensures Possible(tried[..n], off)
  {
    hide OffsetBy;
    hide CanEnd;
    if n > 0 {
      assert tried[..n][1..] == tried[1..][..n - 1];
      PossiblePrefix(tried[1..], OffsetBy(tried[0].record, off, tried[0].outcome), n - 1);
    }
  }
}
