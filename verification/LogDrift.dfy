/**
 A log writer that has drifted away from its file loses records.

 If the writer's block offset is not the file's position in its block, then whatever the file holds
 and whatever the checksum function is, there is a record that a successful append does not store
 readably.  Together with the reading of aligned files this makes alignment the exact condition.
 */
module LogDrift {
  import opened Coding
  import opened Entries
  import opened Log
  import opened LogReader
  import opened LogRoundTrip
  import opened LogFailures

  const MAX_FRAGMENT: nat := 32761
  const FILL: byte := 255

  function Fill(n: nat): Bytes {
    seq(n, _ => FILL)
  }

  /** A fragment that fills a block, of a record made of `FILL` bytes. */
  function Middle(crc: Checksum): (b: Bytes)
    ensures |b| == BLOCK_SIZE
    ensures b[4] == 249 && b[5] == 127 && b[6] == MIDDLE_TYPE
    ensures forall k :: HEADER_SIZE <= k < BLOCK_SIZE ==> b[k] == FILL
  {
    Chunk(crc, MIDDLE_TYPE, Fill(MAX_FRAGMENT))
  }

  // ------------------------------------------------------------------------
  // What the record under assembly can become

  /** A record read either extends the bytes gathered so far, or is made of later bytes only. */
  lemma {:induction false} ExtendsOrLater(crc: Checksum, rest: Bytes, off: nat, inFragment: bool, scratch: Bytes)
    requires off <= BLOCK_SIZE
    ensures var l := ReadLogical(crc, rest, off, inFragment, scratch);
            l.record.Some? ==>
              || (inFragment && scratch <= l.record.value && |l.record.value| + |l.rest| <= |scratch| + |rest|)
              || |l.record.value| + |l.rest| <= |rest|
    decreases |rest|
  {
    hide ReadPhysical;
    var p := ReadPhysical(crc, rest, off);
    FragmentFits(crc, rest, off);
    match Handle(p.code, p.fragment, inFragment, scratch)
    case Done(record, n) =>
    case More(inFragment', scratch', n) => ExtendsOrLater(crc, p.rest, p.off, inFragment', scratch');
  }

  lemma FragmentFits(crc: Checksum, rest: Bytes, off: nat)
    requires off <= BLOCK_SIZE
    ensures var p := ReadPhysical(crc, rest, off); |p.fragment| + |p.rest| <= |rest|
  {}

  /** Records are no longer than what is left to read. */
  lemma {:induction false} AllShort(crc: Checksum, rest: Bytes, off: nat)
    requires off <= BLOCK_SIZE
    ensures forall r :: r in ReadAll(crc, rest, off).records ==> |r| <= |rest|
    decreases |rest|
  {
    hide ReadLogical;
    ExtendsOrLater(crc, rest, off, false, []);
    var l := ReadLogical(crc, rest, off, false, []);
    if l.record.Some? { AllShort(crc, l.rest, l.off); }
  }

  // ------------------------------------------------------------------------
  // The beginning of a block in the middle of misplaced fragments

  /** `w` begins with the last `delta` bytes of one such fragment, and the next one follows. */
  ghost predicate Misplaced(crc: Checksum, w: Bytes, delta: nat) {
    && 0 < delta < BLOCK_SIZE <= |w|
    && forall k :: 0 <= k < 20 ==> At(crc, w, delta, k)
  }

  predicate At(crc: Checksum, w: Bytes, delta: nat, k: nat) {
    k < |w| && delta < BLOCK_SIZE && w[k] == Middle(crc)[(BLOCK_SIZE - delta + k) % BLOCK_SIZE]
  }

  /** No record type: the record under assembly is given up. */
  predicate GivesUp(p: Physical) {
    !(FULL_TYPE as nat <= p.code <= LAST_TYPE as nat)
  }

  /** A header in the fill claims a length beyond the block. */
  lemma TooLong(crc: Checksum, w: Bytes, off: nat)
    requires off + HEADER_SIZE <= BLOCK_SIZE && |w| >= BLOCK_SIZE - off && w[5] >= 128
    ensures GivesUp(ReadPhysical(crc, w, off))
  {}

  /** The turn at the beginning of the block: the record is given up, or a misread fragment begins
      with the tail of a header. */
  lemma FirstTurn(crc: Checksum, w: Bytes, delta: nat)
    requires Misplaced(crc, w, delta)
    ensures var p := ReadPhysical(crc, w, 0); var n := |p.fragment|;
            GivesUp(p)
            || (&& 3 <= delta <= 5 && HEADER_SIZE + n <= BLOCK_SIZE
                && p.fragment == w[HEADER_SIZE..HEADER_SIZE + n] && p.rest == w[HEADER_SIZE + n..] && p.off == HEADER_SIZE + n)
  {
    hide Middle;
    HeaderBytes(crc, w, delta);
    if w[5] >= 128 { TooLong(crc, w, 0); }
  }

  lemma HeaderBytes(crc: Checksum, w: Bytes, delta: nat)
    requires Misplaced(crc, w, delta)
    ensures w[5] >= 128 || w[6] >= 128 || 3 <= delta <= 5
  {
    hide Middle;
    assert At(crc, w, delta, 5) && At(crc, w, delta, 6);
  }

  lemma SecondTurn(crc: Checksum, w: Bytes, delta: nat, n: nat)
    requires Misplaced(crc, w, delta) && 3 <= delta <= 5 && HEADER_SIZE + n <= BLOCK_SIZE
    ensures n >= delta ==> w[HEADER_SIZE..HEADER_SIZE + n][delta - 1] == MIDDLE_TYPE
    ensures n < delta ==> GivesUp(ReadPhysical(crc, w[HEADER_SIZE + n..], HEADER_SIZE + n))
  {
    hide Middle;
    assert At(crc, w, delta, delta + 6);
    if n < delta {
      assert At(crc, w, delta, 12 + n);
      TooLong(crc, w[HEADER_SIZE + n..], HEADER_SIZE + n);
    }
  }

  lemma AfterGivingUp(crc: Checksum, rest: Bytes, off: nat, inFragment: bool, scratch: Bytes)
    requires off <= BLOCK_SIZE && GivesUp(ReadPhysical(crc, rest, off))
    ensures var l := ReadLogical(crc, rest, off, inFragment, scratch);
            l.record.Some? ==> |l.record.value| + |l.rest| <= |rest|
  {
    hide ReadPhysical;
    var p := ReadPhysical(crc, rest, off);
    FragmentFits(crc, rest, off);
    match Handle(p.code, p.fragment, inFragment, scratch)
    case Done(record, n) =>
    case More(inFragment', scratch', n) => ExtendsOrLater(crc, p.rest, p.off, inFragment', scratch');
  }

  /** Nothing that extends bytes other than fill is a record of fill. */
  lemma SpoiledOrLater(crc: Checksum, rest: Bytes, off: nat, inFragment: bool, scratch: Bytes, i: nat, m: nat)
    requires off <= BLOCK_SIZE && i < |scratch| && scratch[i] != FILL && m > |rest|
    ensures ReadLogical(crc, rest, off, inFragment, scratch).record != Some(Fill(m))
  {
    hide ReadLogical;
    assert |Fill(m)| == m;
    ExtendsOrLater(crc, rest, off, inFragment, scratch);
  }

  lemma TurnOf(crc: Checksum, rest: Bytes, off: nat, inFragment: bool, scratch: Bytes)
    requires off <= BLOCK_SIZE
    ensures var p := ReadPhysical(crc, rest, off);
            match Handle(p.code, p.fragment, inFragment, scratch)
            case Done(record, n) => ReadLogical(crc, rest, off, inFragment, scratch).record == record
            case More(inFragment', scratch', n) =>
              ReadLogical(crc, rest, off, inFragment, scratch).record == ReadLogical(crc, p.rest, p.off, inFragment', scratch').record
  {
    hide ReadPhysical;
    hide Handle;
  }

  /** A record of fill that is longer than what was gathered and than what is left is not read from here. */
  lemma LostHere(crc: Checksum, w: Bytes, delta: nat, inFragment: bool, scratch: Bytes, m: nat)
    requires Misplaced(crc, w, delta) && m > |scratch| + BLOCK_SIZE && m > |w| >= BLOCK_SIZE
    ensures ReadLogical(crc, w, 0, inFragment, scratch).record != Some(Fill(m))
  {
    hide ReadPhysical;
    hide ReadLogical;
    hide Misplaced;
    var p := ReadPhysical(crc, w, 0);
    FirstTurn(crc, w, delta);
    assert |Fill(m)| == m;
    if GivesUp(p) {
      AfterGivingUp(crc, w, 0, inFragment, scratch);
    } else {
      TurnOf(crc, w, 0, inFragment, scratch);
      match Handle(p.code, p.fragment, inFragment, scratch)
      case Done(record, n) =>
        assert record.Some? ==> |record.value| <= |scratch| + BLOCK_SIZE;
      case More(inFragment', scratch', n) =>
        MisreadFragment(crc, w, delta, inFragment', scratch', if scratch' == p.fragment then 0 else |scratch|, m, p);
    }
  }

  lemma MisreadFragment(crc: Checksum, w: Bytes, delta: nat, inFragment: bool, scratch: Bytes, start: nat, m: nat, p: Physical)
    requires Misplaced(crc, w, delta) && m > |w| >= BLOCK_SIZE && 3 <= delta <= 5 && p == ReadPhysical(crc, w, 0) && p.off <= BLOCK_SIZE
    requires var n := |p.fragment|;
             HEADER_SIZE + n <= BLOCK_SIZE && p.fragment == w[HEADER_SIZE..HEADER_SIZE + n]
             && p.rest == w[HEADER_SIZE + n..] && p.off == HEADER_SIZE + n
    requires inFragment ==> start + |p.fragment| == |scratch| && scratch[start..] == p.fragment
    ensures ReadLogical(crc, p.rest, p.off, inFragment, scratch).record != Some(Fill(m))
  {
    hide ReadPhysical;
    hide ReadLogical;
    hide Misplaced;
    assert |Fill(m)| == m;
    SecondTurn(crc, w, delta, |p.fragment|);
    if |p.fragment| < delta {
      AfterGivingUp(crc, p.rest, p.off, inFragment, scratch);
    } else if inFragment {
      assert scratch[start..][delta - 1] == scratch[start + (delta - 1)];
      SpoiledOrLater(crc, p.rest, p.off, inFragment, scratch, start + (delta - 1), m);
    } else {
      ExtendsOrLater(crc, p.rest, p.off, inFragment, scratch);
    }
  }

  // ------------------------------------------------------------------------
  // Reading up to such a block

  /** Inside a block a read stays inside it. */
  lemma WithinBlock(crc: Checksum, a: Bytes, w: Bytes, off: nat)
    requires off + HEADER_SIZE <= BLOCK_SIZE <= |w| && |a| > 0 && (off + |a|) % BLOCK_SIZE == 0
    ensures var p := ReadPhysical(crc, a + w, off);
            exists a': Bytes :: StaysBefore(a, w, off, p, a')
  {
    var p := ReadPhysical(crc, a + w, off);
    assert |a| >= BLOCK_SIZE - off;
    var k := |a + w| - |p.rest|;
    assert k <= BLOCK_SIZE - off && p.off == off + k && p.rest == (a + w)[k..];
    assert (a + w)[k..] == a[k..] + w;
    assert StaysBefore(a, w, off, p, a[k..]);
  }

  ghost predicate StaysBefore(a: Bytes, w: Bytes, off: nat, p: Physical, a': Bytes) {
    && |a'| < |a| && p.rest == a' + w && p.off + |a'| == off + |a| && p.off <= BLOCK_SIZE
    && |p.fragment| + |a'| <= |a|
  }

  /** What is left of a block that is too short for a header is passed over. */
  lemma PassOver(crc: Checksum, a: Bytes, w: Bytes, off: nat, inFragment: bool, scratch: Bytes)
    requires off <= BLOCK_SIZE < off + HEADER_SIZE && BLOCK_SIZE <= |w| && (off + |a|) % BLOCK_SIZE == 0
    ensures |a| >= BLOCK_SIZE - off
    ensures ReadFrom(crc, a + w, off, inFragment, scratch) == ReadFrom(crc, a[BLOCK_SIZE - off..] + w, 0, inFragment, scratch)
  {
    var gap := BLOCK_SIZE - off;
    assert |a| >= gap;
    assert (a + w)[gap..] == a[gap..] + w;
    assert ReadPhysical(crc, a + w, off) == ParseBuffer(crc, (a + w)[gap..], 0);
    assert ReadPhysical(crc, (a + w)[gap..], 0) == ParseBuffer(crc, (a + w)[gap..], 0);
  }

  /** The record is among none that are read up to the block, in it, or behind it. */
  lemma {:induction false} NeverRead(crc: Checksum, a: Bytes, w: Bytes, delta: nat, off: nat, inFragment: bool, scratch: Bytes, m: nat)
    requires off <= BLOCK_SIZE && Misplaced(crc, w, delta) && (off + |a|) % BLOCK_SIZE == 0
    requires m > |scratch| + |a| + BLOCK_SIZE && m > |w| >= BLOCK_SIZE
    ensures Fill(m) !in ReadFrom(crc, a + w, off, inFragment, scratch).records
    decreases |a|, off
  {
    hide ReadPhysical;
    hide ReadLogical;
    hide Misplaced;
    assert |Fill(m)| == m;
    if |a| == 0 {
      assert a + w == w;
      SameBlockOffset(crc, w, off, 0, inFragment, scratch);
      LostHere(crc, w, delta, inFragment, scratch, m);
      NotLater(crc, w, 0, inFragment, scratch, m);
    } else if BLOCK_SIZE < off + HEADER_SIZE {
      PassOver(crc, a, w, off, inFragment, scratch);
      NeverRead(crc, a[BLOCK_SIZE - off..], w, delta, 0, inFragment, scratch, m);
    } else {
      NeverReadTurn(crc, a, w, delta, off, inFragment, scratch, m);
    }
  }

  /** No later record of the rest is as long. */
  lemma NotLater(crc: Checksum, rest: Bytes, off: nat, inFragment: bool, scratch: Bytes, m: nat)
    requires off <= BLOCK_SIZE && m > |rest| && ReadLogical(crc, rest, off, inFragment, scratch).record != Some(Fill(m))
    ensures Fill(m) !in ReadFrom(crc, rest, off, inFragment, scratch).records
  {
    hide ReadLogical;
    hide ReadAll;
    assert |Fill(m)| == m;
    var l := ReadLogical(crc, rest, off, inFragment, scratch);
    if l.record.Some? { AllShort(crc, l.rest, l.off); }
  }

  lemma NeverReadTurn(crc: Checksum, a: Bytes, w: Bytes, delta: nat, off: nat, inFragment: bool, scratch: Bytes, m: nat)
    requires off + HEADER_SIZE <= BLOCK_SIZE && Misplaced(crc, w, delta) && |a| > 0 && (off + |a|) % BLOCK_SIZE == 0
    requires m > |scratch| + |a| + BLOCK_SIZE && m > |w| >= BLOCK_SIZE
    ensures Fill(m) !in ReadFrom(crc, a + w, off, inFragment, scratch).records
    decreases |a|, off, 0
  {
    hide ReadPhysical;
    hide ReadLogical;
    hide Misplaced;
    hide ReadFrom;
    hide ReadAll;
    assert |Fill(m)| == m;
    var p := ReadPhysical(crc, a + w, off);
    WithinBlock(crc, a, w, off);
    var a' :| StaysBefore(a, w, off, p, a');
    match Handle(p.code, p.fragment, inFragment, scratch)
    case Done(record, n) =>
      LastTurn(crc, a + w, off, inFragment, scratch);
      if record.Some? {
        NeverRead(crc, a', w, delta, p.off, false, [], m);
        FromStart(crc, p.rest, p.off);
      }
    case More(inFragment', scratch', n) =>
      OneMoreTurn(crc, a + w, off, inFragment, scratch, p, inFragment', scratch', n);
      NeverRead(crc, a', w, delta, p.off, inFragment', scratch', m);
  }

  lemma LastTurn(crc: Checksum, rest: Bytes, off: nat, inFragment: bool, scratch: Bytes)
    requires off <= BLOCK_SIZE
    ensures var p := ReadPhysical(crc, rest, off);
            match Handle(p.code, p.fragment, inFragment, scratch)
            case Done(record, n) =>
              ReadFrom(crc, rest, off, inFragment, scratch).records
              == (if record.Some? then [record.value] + ReadAll(crc, p.rest, p.off).records else [])
            case More(_, _, _) => true
  {
    hide ReadPhysical;
    hide Handle;
    hide ReadAll;
  }

  // ------------------------------------------------------------------------
  // The record that is lost

  lemma FillSlice(n: nat, k: nat)
    requires k <= n
    ensures Fill(n)[..k] == Fill(k) && Fill(n)[k..] == Fill(n - k)
  {}

  /** A long record of fill, from the beginning of a block on. */
  function Blocks(crc: Checksum, m: nat): Bytes {
    Emit(crc, Fill(m * MAX_FRAGMENT), false, BLOCK_SIZE)
  }

  lemma BlocksStep(crc: Checksum, m: nat)
    requires m > 0
    ensures m > 1 ==> Blocks(crc, m) == Middle(crc) + Blocks(crc, m - 1)
    ensures m == 1 ==> |Blocks(crc, m)| == BLOCK_SIZE
  {
    hide Emit;
    hide Head;
    var data := Fill(m * MAX_FRAGMENT);
    assert FragmentLength(data, BLOCK_SIZE) == MAX_FRAGMENT && HeadEnd(data, BLOCK_SIZE) == BLOCK_SIZE;
    var tail := EmitSplit(crc, data, false, BLOCK_SIZE);
    if m > 1 {
      FillSlice(m * MAX_FRAGMENT, MAX_FRAGMENT);
      assert m * MAX_FRAGMENT - MAX_FRAGMENT == (m - 1) * MAX_FRAGMENT;
      MiddleHead(crc, m * MAX_FRAGMENT);
    }
  }

  lemma MiddleHead(crc: Checksum, n: nat)
    requires n > MAX_FRAGMENT
    ensures Head(crc, Fill(n), false, BLOCK_SIZE) == Middle(crc)
  {
    FillSlice(n, MAX_FRAGMENT);
    assert Zeros(0) + Middle(crc) == Middle(crc);
  }

  lemma {:induction false} BlocksAt(crc: Checksum, m: nat, y: nat)
    requires m > 0
    ensures |Blocks(crc, m)| == m * BLOCK_SIZE
    ensures y < (m - 1) * BLOCK_SIZE ==> Blocks(crc, m)[y] == Middle(crc)[y % BLOCK_SIZE]
  {
    hide Blocks;
    hide Middle;
    BlocksStep(crc, m);
    if m > 1 {
      if y < BLOCK_SIZE {
        BlocksAt(crc, m - 1, 0);
      } else {
        BlocksAt(crc, m - 1, y - BLOCK_SIZE);
      }
    }
  }

  /** The first fragment fills up the block that the writer believes to be in. */
  lemma LongRecord(crc: Checksum, o: nat, m: nat) returns (n: nat, head: Bytes)
    requires o <= BLOCK_SIZE && m > 0
    ensures n <= MAX_FRAGMENT && Emit(crc, Fill(n + m * MAX_FRAGMENT), true, o) == head + Blocks(crc, m)
    ensures |head| <= BLOCK_SIZE + HEADER_SIZE && (o + |head|) % BLOCK_SIZE == 0
  {
    hide Emit;
    hide Head;
    n := MAX_FRAGMENT - HeaderAt(o);
    var data := Fill(n + m * MAX_FRAGMENT);
    assert FragmentLength(data, o) == n && HeadEnd(data, o) == BLOCK_SIZE;
    head := Head(crc, data, true, o);
    var tail := EmitSplit(crc, data, true, o);
    FillSlice(n + m * MAX_FRAGMENT, n);
    HeadAligned(data, o);
  }

  /** Whatever the file holds: if the writer's offset is not the file's position in its block, some
      record is not among those read after it has been appended successfully. */
  lemma MisalignedLoses(crc: Checksum, file: Bytes, o: nat) returns (data: Bytes)
    requires o <= BLOCK_SIZE && o % BLOCK_SIZE != |file| % BLOCK_SIZE
    ensures data !in ReadAll(crc, file + Emit(crc, data, true, o), BLOCK_SIZE).records
  {
    hide Emit;
    hide Blocks;
    hide Middle;
    hide ReadFrom;
    hide ReadAll;
    var i := |file| + 4;
    var n, head := LongRecord(crc, o, 2 * i);
    var m := n + 2 * i * MAX_FRAGMENT;
    data := Fill(m);
    var base := |file| + |head|;
    var delta := base % BLOCK_SIZE;
    BaseMisaligned(|file|, o, |head|);
    var blocks := Blocks(crc, 2 * i);
    BlocksAt(crc, 2 * i, 0);
    var all := file + (head + blocks);
    assert all == (file + head) + blocks;
    LostRecord(crc, file + head, blocks, i, n, delta);
  }

  lemma LostRecord(crc: Checksum, front: Bytes, blocks: Bytes, i: nat, n: nat, delta: nat)
    requires i >= 4 && blocks == Blocks(crc, 2 * i) && |blocks| == 2 * i * BLOCK_SIZE && 0 < delta == |front| % BLOCK_SIZE
    requires |front| + 4 <= i + BLOCK_SIZE + HEADER_SIZE
    ensures Fill(n + 2 * i * MAX_FRAGMENT) !in ReadAll(crc, front + blocks, BLOCK_SIZE).records
  {
    hide ReadFrom;
    hide ReadAll;
    hide Blocks;
    hide Misplaced;
    var all, at := front + blocks, |front| + i * BLOCK_SIZE - delta;
    MisplacedAt(crc, front, blocks, i, delta);
    Sizes(|front|, i, n, delta);
    assert all[..at] + all[at..] == all;
    NeverRead(crc, all[..at], all[at..], delta, BLOCK_SIZE, false, [], n + 2 * i * MAX_FRAGMENT);
    FromStart(crc, all, BLOCK_SIZE);
  }

  lemma BaseMisaligned(size: nat, o: nat, h: nat)
    requires o % BLOCK_SIZE != size % BLOCK_SIZE && (o + h) % BLOCK_SIZE == 0
    ensures (size + h) % BLOCK_SIZE != 0
  {
    if (size + h) % BLOCK_SIZE == 0 {
      ModCancel(size, o, h);
    }
  }

  lemma ModCancel(a: nat, b: nat, c: nat)
    requires (a + c) % BLOCK_SIZE == (b + c) % BLOCK_SIZE
    ensures a % BLOCK_SIZE == b % BLOCK_SIZE
  {
    var d := BLOCK_SIZE - c % BLOCK_SIZE;
    ModAdd(a + c, b + c, d);
    var q := c / BLOCK_SIZE + 1;
    assert c + d == q * BLOCK_SIZE;
    ModShift(a, q);
    ModShift(b, q);
  }

  lemma Sizes(b: nat, i: nat, n: nat, delta: nat)
    requires b + 4 <= i + BLOCK_SIZE + HEADER_SIZE && i >= 4 && delta == b % BLOCK_SIZE
    ensures var m := n + 2 * i * MAX_FRAGMENT; var at := b + i * BLOCK_SIZE - delta;
            && m > at + BLOCK_SIZE && m > i * BLOCK_SIZE + delta && i * BLOCK_SIZE + delta >= BLOCK_SIZE
            && at >= 0 && at % BLOCK_SIZE == 0
  {
    assert b - delta == b / BLOCK_SIZE * BLOCK_SIZE;
    ModShift(0, b / BLOCK_SIZE + i);
    assert b - delta + i * BLOCK_SIZE == (b / BLOCK_SIZE + i) * BLOCK_SIZE;
  }

  lemma MisplacedAt(crc: Checksum, front: Bytes, blocks: Bytes, i: nat, delta: nat)
    requires i >= 4 && blocks == Blocks(crc, 2 * i) && |blocks| == 2 * i * BLOCK_SIZE && 0 < delta < BLOCK_SIZE
    requires delta <= |front|
    ensures var at := |front| + i * BLOCK_SIZE - delta;
            at <= |front + blocks| && Misplaced(crc, (front + blocks)[at..], delta)
            && |(front + blocks)[at..]| == i * BLOCK_SIZE + delta
  {
    hide Blocks;
    hide Middle;
    var at := |front| + i * BLOCK_SIZE - delta;
    var w := (front + blocks)[at..];
    forall k | 0 <= k < 20 ensures At(crc, w, delta, k) {
      var y := i * BLOCK_SIZE - delta + k;
      BlocksAt(crc, 2 * i, y);
      ModShift(BLOCK_SIZE - delta + k, i - 1);
      assert y == BLOCK_SIZE - delta + k + (i - 1) * BLOCK_SIZE;
      assert w[k] == blocks[y];
    }
  }

  // ------------------------------------------------------------------------
  // The exact condition

  /** A record appended now is read back, last of all. */
  predicate ReadsBack(crc: Checksum, tried: seq<Attempt>, data: Bytes)
    requires Possible(tried, 0)
  {
    ReadAll(crc, FileBytes(crc, tried, 0) + Emit(crc, data, true, OffsetOf(tried, 0)), BLOCK_SIZE).records
    == Written(tried) + [data]
  }

  lemma AlignedReadsBack(crc: Checksum, tried: seq<Attempt>, data: Bytes)
    requires Possible(tried, 0) && NeverDrifted(crc, tried) && (tried != [] ==> Aligned(crc, tried, 0))
    ensures ReadsBack(crc, tried, data)
  {
    hide ReadAll;
    hide Aligned;
    hide FileBytes;
    hide Complete;
    hide Emit;
    hide OffsetAfter;
    hide Unfinished;
    var a := Attempt(data, Whole);
    var all := tried + [a];
    FileSnoc(crc, tried, a, 0);
    WrittenSnoc(tried, a);
    forall k | 0 < k < |all| ensures Possible(all[..k], 0) && Aligned(crc, all[..k], 0) {
      assert k < |tried| ==> all[..k] == tried[..k];
      assert k == |tried| ==> all[..k] == tried;
    }
    ReadsWritten(crc, all, FileBytes(crc, all, 0));
    assert all[..|all|] == all;
    CompleteAtLeast(crc, all, 0, |all|, |FileBytes(crc, all, 0)|);
    assert Written(all)[..|Written(all)|] == Written(all);
  }

  /** On a log that has not drifted before, every record appended now can be read back exactly if the
      writer is aligned with the file now. */
  lemma AlignedExact(crc: Checksum, tried: seq<Attempt>)
    requires Possible(tried, 0) && NeverDrifted(crc, tried)
    ensures (forall data :: ReadsBack(crc, tried, data)) <==> Aligned(crc, tried, 0)
  {
    hide ReadAll;
    hide FileBytes;
    hide Emit;
    if Aligned(crc, tried, 0) {
      forall data ensures ReadsBack(crc, tried, data) { AlignedReadsBack(crc, tried, data); }
    } else {
      var data := MisalignedLoses(crc, FileBytes(crc, tried, 0), OffsetOf(tried, 0));
      assert data in Written(tried) + [data];
      assert !ReadsBack(crc, tried, data);
    }
  }
}
