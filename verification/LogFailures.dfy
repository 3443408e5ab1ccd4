/**
 Logs in which appends have failed.  A failed append moves the writer's block offset past bytes
 that never reached the file, so the writer may no longer agree with the file about where blocks
 begin.

 As long as every append finds the writer aligned with the file, reading returns exactly the
 records whose appends succeeded.
 */
module LogFailures {
  import opened Coding
  import opened Entries
  import opened Log
  import opened LogReader
  import opened LogRoundTrip
  import opened Sequences

  // ------------------------------------------------------------------------
  // Reading on from the middle of a record

  /** Reads records until there are no more, the first of them being under assembly already. */
  function ReadFrom(crc: Checksum, rest: Bytes, off: nat, inFragment: bool, scratch: Bytes): All
    requires off <= BLOCK_SIZE
  {
    var l := ReadLogical(crc, rest, off, inFragment, scratch);
    if l.record.None? then All([], l.reports)
    else
      var a := ReadAll(crc, l.rest, l.off);
      All([l.record.value] + a.records, l.reports + a.reports)
  }

  function Plus(a: All, reports: nat): All {
    All(a.records, reports + a.reports)
  }

  /** A new record that interrupts one under assembly costs a report. */
  function Interruption(inFragment: bool, scratch: Bytes): nat {
    Report(inFragment && scratch != [])
  }

  lemma FromStart(crc: Checksum, rest: Bytes, off: nat)
    requires off <= BLOCK_SIZE
    ensures ReadAll(crc, rest, off) == ReadFrom(crc, rest, off, false, [])
  {
    hide ReadLogical;
  }

  lemma OneMoreTurn(crc: Checksum, rest: Bytes, off: nat, inFragment: bool, scratch: Bytes, p: Physical,
                    inFragment': bool, scratch': Bytes, n: nat)
    requires off <= BLOCK_SIZE && p == ReadPhysical(crc, rest, off)
    requires Handle(p.code, p.fragment, inFragment, scratch) == More(inFragment', scratch', n)
    ensures ReadFrom(crc, rest, off, inFragment, scratch) == Plus(ReadFrom(crc, p.rest, p.off, inFragment', scratch'), p.reports + n)
  {
    hide ReadPhysical;
    hide Handle;
    hide ReadAll;
  }

  lemma NothingMore(crc: Checksum, rest: Bytes, off: nat, inFragment: bool, scratch: Bytes)
    requires off <= BLOCK_SIZE && ReadPhysical(crc, rest, off).code == EOF_CODE && ReadPhysical(crc, rest, off).reports == 0
    ensures ReadFrom(crc, rest, off, inFragment, scratch) == All([], 0)
  {
    EndTurn(crc, rest, off, inFragment, scratch);
  }

  /** At the end of a block the reader stands at the beginning of the next. */
  lemma BlockEnd(crc: Checksum, rest: Bytes, inFragment: bool, scratch: Bytes)
    ensures ReadFrom(crc, rest, 0, inFragment, scratch) == ReadFrom(crc, rest, BLOCK_SIZE, inFragment, scratch)
  {
    assert ReadPhysical(crc, rest, 0) == ReadPhysical(crc, rest, BLOCK_SIZE);
  }

  lemma SameBlockOffset(crc: Checksum, rest: Bytes, a: nat, b: nat, inFragment: bool, scratch: Bytes)
    requires a <= BLOCK_SIZE && b <= BLOCK_SIZE && a % BLOCK_SIZE == b % BLOCK_SIZE
    ensures ReadFrom(crc, rest, a, inFragment, scratch) == ReadFrom(crc, rest, b, inFragment, scratch)
  {
    hide ReadFrom;
    BlockEnd(crc, rest, inFragment, scratch);
  }

  /** Zeros in a trailer are passed over. */
  lemma TrailerPart(crc: Checksum, rest: Bytes, off: nat, k: nat, inFragment: bool, scratch: Bytes)
    requires off <= BLOCK_SIZE && k <= Trailer(off) && k <= |rest|
    ensures off + k <= BLOCK_SIZE
    ensures ReadFrom(crc, rest, off, inFragment, scratch) == ReadFrom(crc, rest[k..], off + k, inFragment, scratch)
  {
    SamePhysical(crc, rest, off, k);
  }

  lemma SamePhysical(crc: Checksum, rest: Bytes, off: nat, k: nat)
    requires off <= BLOCK_SIZE && k <= Trailer(off) && k <= |rest|
    ensures off + k <= BLOCK_SIZE && ReadPhysical(crc, rest, off) == ReadPhysical(crc, rest[k..], off + k)
  {
    var gap := BLOCK_SIZE - off;
    if k > 0 {
      if |rest| >= gap {
        assert rest[k..][gap - k..] == rest[gap..];
      } else {
        assert rest[|rest|..] == rest[k..][|rest| - k..];
      }
    } else {
      assert rest[0..] == rest;
    }
  }

  // ------------------------------------------------------------------------
  // Records after an interrupted one

  lemma BeginCode(crc: Checksum, data: Bytes, off: nat, rest: Bytes, more: Bytes)
    requires off <= BLOCK_SIZE && rest <= Head(crc, data, true, off) + more
    ensures var p := ReadPhysical(crc, rest, off);
            p.reports == 0 && (p.code == FULL_TYPE as nat || p.code == FIRST_TYPE as nat || p.code == EOF_CODE)
  {
    hide ReadPhysical;
    hide Chunk;
    hide Zeros;
    var n := FragmentLength(data, off);
    PhysicalChunk(crc, TypeOf(true, n == |data|), data[..n], off, rest, more);
  }

  lemma InterruptedTurn(crc: Checksum, rest: Bytes, off: nat, inFragment: bool, scratch: Bytes)
    requires off <= BLOCK_SIZE
    requires var p := ReadPhysical(crc, rest, off);
             p.reports == 0 && (p.code == FULL_TYPE as nat || p.code == FIRST_TYPE as nat || p.code == EOF_CODE)
    ensures var l := ReadLogical(crc, rest, off, false, []); var l' := ReadLogical(crc, rest, off, inFragment, scratch);
            l' == AfterReports(l, Interruption(inFragment, scratch)) || (l'.record == None && l'.reports == 0)
    ensures ReadLogical(crc, rest, off, false, []).record.Some? ==>
              ReadLogical(crc, rest, off, inFragment, scratch)
              == AfterReports(ReadLogical(crc, rest, off, false, []), Interruption(inFragment, scratch))
  {
    hide ReadPhysical;
  }

  /** A record is read back behind one that was never finished, at the cost of a report. */
  lemma BeginAgain(crc: Checksum, data: Bytes, off: nat, rest: Bytes, more: Bytes, inFragment: bool, scratch: Bytes)
    requires off <= BLOCK_SIZE && rest <= Emit(crc, data, true, off) + more
    ensures var size := |Emit(crc, data, true, off)|; var l := ReadLogical(crc, rest, off, inFragment, scratch);
            if |rest| >= size then l == Logical(Some(data), rest[size..], OffsetAfter(data, off), Interruption(inFragment, scratch))
            else l.record == None && l.reports <= Interruption(inFragment, scratch)
  {
    hide ReadLogical;
    hide ReadPhysical;
    hide Emit;
    hide Head;
    LogicalRecord(crc, data, true, off, rest, more, []);
    assert [] + data == data;
    var tail := EmitSplit(crc, data, true, off);
    Regroup(Head(crc, data, true, off), tail, more);
    BeginCode(crc, data, off, rest, tail + more);
    InterruptedTurn(crc, rest, off, inFragment, scratch);
  }

  // ------------------------------------------------------------------------
  // What a failed append leaves

  /** The writer's offset is the file's position in its block. */
  predicate AlignedAfter(crc: Checksum, data: Bytes, begin: bool, off: nat, f: nat, kept: nat)
    requires off <= BLOCK_SIZE && Tears(data, off, f, kept)
  {
    TornOffset(data, off, f) % BLOCK_SIZE == (off + |TornBytes(crc, data, begin, off, f, kept)|) % BLOCK_SIZE
  }

  lemma ModAdd(a: nat, b: nat, c: nat)
    requires a % BLOCK_SIZE == b % BLOCK_SIZE
    ensures (a + c) % BLOCK_SIZE == (b + c) % BLOCK_SIZE
  {
    var q, r := a / BLOCK_SIZE, b / BLOCK_SIZE;
    if q >= r {
      ModShift(b + c, q - r);
      assert a + c == b + c + (q - r) * BLOCK_SIZE;
    } else {
      ModShift(a + c, r - q);
      assert b + c == a + c + (r - q) * BLOCK_SIZE;
    }
  }

  lemma {:induction false} ModShift(x: nat, k: nat)
    ensures (x + k * BLOCK_SIZE) % BLOCK_SIZE == x % BLOCK_SIZE
  {
    if k > 0 {
      ModShift(x, k - 1);
      assert x + k * BLOCK_SIZE == (x + (k - 1) * BLOCK_SIZE) + BLOCK_SIZE;
    }
  }

  /** A whole fragment keeps writer and file aligned. */
  lemma HeadAligned(data: Bytes, off: nat)
    requires off <= BLOCK_SIZE
    ensures (off + HeadSize(data, off)) % BLOCK_SIZE == HeadEnd(data, off) % BLOCK_SIZE
  {}

  /** A torn fragment keeps them aligned only if no more than trailer bytes were kept. */
  lemma OnlyTrailerKept(data: Bytes, off: nat, kept: nat)
    requires off <= BLOCK_SIZE && kept < HeadSize(data, off)
    requires HeadEnd(data, off) % BLOCK_SIZE == (off + kept) % BLOCK_SIZE
    ensures kept <= Trailer(off) && off + kept <= BLOCK_SIZE
  {}

  lemma TornFragment(crc: Checksum, data: Bytes, begin: bool, off: nat, kept: nat, rest: Bytes, more: Bytes,
                     inFragment: bool, scratch: Bytes)
    requires off <= BLOCK_SIZE && kept < HeadSize(data, off) && rest <= Head(crc, data, begin, off)[..kept] + more
    ensures |rest| < kept || more == [] ==> ReadFrom(crc, rest, off, inFragment, scratch) == All([], 0)
    ensures |rest| >= kept && HeadEnd(data, off) % BLOCK_SIZE == (off + kept) % BLOCK_SIZE ==>
              ReadFrom(crc, rest, off, inFragment, scratch) == ReadFrom(crc, rest[kept..], HeadEnd(data, off), inFragment, scratch)
  {
    hide ReadFrom;
    hide ReadPhysical;
    hide Chunk;
    hide Zeros;
    var head, n := Head(crc, data, begin, off), FragmentLength(data, off);
    if |rest| < kept || more == [] {
      assert rest <= head + [] by { assert head + [] == head; }
      PhysicalChunk(crc, TypeOf(begin, n == |data|), data[..n], off, rest, []);
      NothingMore(crc, rest, off, inFragment, scratch);
    }
    if |rest| >= kept && HeadEnd(data, off) % BLOCK_SIZE == (off + kept) % BLOCK_SIZE {
      OnlyTrailerKept(data, off, kept);
      TrailerPart(crc, rest, off, kept, inFragment, scratch);
      SameBlockOffset(crc, rest[kept..], off + kept, HeadEnd(data, off), inFragment, scratch);
    }
  }

  /** The turn of a whole fragment that does not end its record. */
  lemma WholeFragment(crc: Checksum, data: Bytes, begin: bool, off: nat, rest: Bytes, more: Bytes, inFragment: bool, scratch: Bytes)
    requires off <= BLOCK_SIZE && rest <= Head(crc, data, begin, off) + more && FragmentLength(data, off) < |data|
    requires begin || inFragment
    ensures |rest| < HeadSize(data, off) ==> ReadFrom(crc, rest, off, inFragment, scratch) == All([], 0)
    ensures |rest| >= HeadSize(data, off) ==>
              ReadFrom(crc, rest, off, inFragment, scratch)
              == Plus(ReadFrom(crc, rest[HeadSize(data, off)..], HeadEnd(data, off), true, NextScratch(data, begin, off, scratch)),
                      if begin then Interruption(inFragment, scratch) else 0)
  {
    hide ReadFrom;
    hide ReadPhysical;
    hide Chunk;
    hide Zeros;
    var n := FragmentLength(data, off);
    PhysicalChunk(crc, TypeOf(begin, false), data[..n], off, rest, more);
    if |rest| < HeadSize(data, off) {
      NothingMore(crc, rest, off, inFragment, scratch);
    } else {
      OneMoreTurn(crc, rest, off, inFragment, scratch, ReadPhysical(crc, rest, off), true, NextScratch(data, begin, off, scratch),
                  if begin then Interruption(inFragment, scratch) else 0);
    }
  }

  function NextScratch(data: Bytes, begin: bool, off: nat, scratch: Bytes): Bytes
    requires off <= BLOCK_SIZE
  {
    (if begin then [] else scratch) + data[..FragmentLength(data, off)]
  }

  /** Behind the bytes of a failed append the reader is where the writer is, if they are aligned;
      at the end of the file those bytes are passed over silently. */
  /** A failed append, without its first fragment. */
  lemma TornStep(crc: Checksum, data: Bytes, begin: bool, off: nat, f: nat, kept: nat)
    requires off <= BLOCK_SIZE && Tears(data, off, f, kept) && f > 0
    ensures FragmentLength(data, off) < |data| && Tears(data[FragmentLength(data, off)..], HeadEnd(data, off), f - 1, kept)
    ensures TornBytes(crc, data, begin, off, f, kept)
            == Head(crc, data, begin, off)
               + TornBytes(crc, data[FragmentLength(data, off)..], false, HeadEnd(data, off), f - 1, kept)
    ensures TornOffset(data, off, f) == TornOffset(data[FragmentLength(data, off)..], HeadEnd(data, off), f - 1)
  {}

  lemma TornAtOnce(crc: Checksum, data: Bytes, begin: bool, off: nat, kept: nat)
    requires off <= BLOCK_SIZE && Tears(data, off, 0, kept)
    ensures kept < HeadSize(data, off) && TornOffset(data, off, 0) == HeadEnd(data, off)
    ensures TornBytes(crc, data, begin, off, 0, kept) == Head(crc, data, begin, off)[..kept]
  {}

  lemma {:induction false} TornReads(crc: Checksum, data: Bytes, begin: bool, off: nat, f: nat, kept: nat, rest: Bytes, more: Bytes,
                                     inFragment: bool, scratch: Bytes)
    returns (inFragment': bool, scratch': Bytes, k: nat)
    requires off <= BLOCK_SIZE && Tears(data, off, f, kept) && (begin || inFragment)
    requires rest <= TornBytes(crc, data, begin, off, f, kept) + more
    ensures k <= (if begin then Interruption(inFragment, scratch) else 0)
    ensures f == 0 ==> k == 0 && inFragment' == inFragment && scratch' == scratch
    ensures var size := |TornBytes(crc, data, begin, off, f, kept)|;
            && (|rest| < size || more == [] ==>
                  ReadFrom(crc, rest, off, inFragment, scratch).records == []
                  && ReadFrom(crc, rest, off, inFragment, scratch).reports <= if begin then Interruption(inFragment, scratch) else 0)
            && (|rest| >= size && AlignedAfter(crc, data, begin, off, f, kept) ==>
                  ReadFrom(crc, rest, off, inFragment, scratch)
                  == Plus(ReadFrom(crc, rest[size..], TornOffset(data, off, f), inFragment', scratch'), k))
    decreases f
  {
    hide ReadFrom;
    hide Head;
    hide HeadEnd;
    hide HeadSize;
    hide FragmentLength;
    hide TornBytes;
    hide TornOffset;
    hide Tears;
    if f == 0 {
      inFragment', scratch', k := inFragment, scratch, 0;
      TornAtOnce(crc, data, begin, off, kept);
      TornFragment(crc, data, begin, off, kept, rest, more, inFragment, scratch);
    } else {
      var n, hs, end := FragmentLength(data, off), HeadSize(data, off), HeadEnd(data, off);
      TornStep(crc, data, begin, off, f, kept);
      var tail := TornBytes(crc, data[n..], false, end, f - 1, kept);
      Regroup(Head(crc, data, begin, off), tail, more);
      WholeFragment(crc, data, begin, off, rest, tail + more, inFragment, scratch);
      k := if begin then Interruption(inFragment, scratch) else 0;
      if |rest| < hs {
        inFragment', scratch' := inFragment, scratch;
      } else {
        DropPrefix(Head(crc, data, begin, off), tail + more, rest);
        var k';
        inFragment', scratch', k' :=
          TornReads(crc, data[n..], false, end, f - 1, kept, rest[hs..], more, true, NextScratch(data, begin, off, scratch));
        HeadAligned(data, off);
        ModAdd(off + hs, end, |tail|);
        assert |rest| >= hs + |tail| ==> rest[hs..][|tail|..] == rest[hs + |tail|..];
      }
    }
  }

  // ------------------------------------------------------------------------
  // Whole files

  /** Writer and file agree on where blocks begin. */
  predicate Aligned(crc: Checksum, tried: seq<Attempt>, off: nat)
    requires off <= BLOCK_SIZE && Possible(tried, off)
  {
    OffsetOf(tried, off) % BLOCK_SIZE == (off + |FileBytes(crc, tried, off)|) % BLOCK_SIZE
  }

  /** Every append after the first found them in agreement. */
  predicate DriftFree(crc: Checksum, tried: seq<Attempt>, off: nat)
    requires off <= BLOCK_SIZE && Possible(tried, off)
    decreases |tried|
  {
    |tried| <= 1
    || (&& OffsetBy(tried[0].record, off, tried[0].outcome) % BLOCK_SIZE
           == (off + |Left(crc, tried[0].record, true, off, tried[0].outcome)|) % BLOCK_SIZE
        && DriftFree(crc, tried[1..], OffsetBy(tried[0].record, off, tried[0].outcome)))
  }

  /** How many written records lie wholly within the first `m` bytes. */
  function Complete(crc: Checksum, tried: seq<Attempt>, off: nat, m: nat): (k: nat)
    requires off <= BLOCK_SIZE && Possible(tried, off)
    ensures k <= |Written(tried)|
  {
    if |tried| == 0 then 0
    else
      var size := |Left(crc, tried[0].record, true, off, tried[0].outcome)|;
      if m < size then 0
      else
        (if tried[0].outcome.Whole? then 1 else 0)
        + Complete(crc, tried[1..], OffsetBy(tried[0].record, off, tried[0].outcome), m - size)
  }

  /** Failed appends that left whole fragments of an unfinished record. */
  function Unfinished(tried: seq<Attempt>): nat {
    if |tried| == 0 then 0
    else (if tried[0].outcome.Torn? && tried[0].outcome.fragments > 0 then 1 else 0) + Unfinished(tried[1..])
  }

  lemma {:induction false} NothingUnfinished(tried: seq<Attempt>)
    requires forall k :: 0 <= k < |tried| ==> tried[k].outcome.Whole?
    ensures Unfinished(tried) == 0
  {
    if |tried| > 0 { NothingUnfinished(tried[1..]); }
  }

  /** Any prefix of the file reads as the successful records it holds completely. */
  lemma {:induction false} ReadsTried(crc: Checksum, tried: seq<Attempt>, off: nat, rest: Bytes, inFragment: bool, scratch: Bytes)
    requires off <= BLOCK_SIZE && Possible(tried, off) && DriftFree(crc, tried, off) && rest <= FileBytes(crc, tried, off)
    ensures var a := ReadFrom(crc, rest, off, inFragment, scratch);
            a.records == Written(tried)[..Complete(crc, tried, off, |rest|)]
            && a.reports <= Interruption(inFragment, scratch) + Unfinished(tried)
    decreases |tried|
  {
    hide ReadFrom;
    hide Left;
    hide OffsetBy;
    if |tried| == 0 {
      NothingMore(crc, rest, off, inFragment, scratch);
    } else {
      var a := tried[0];
      var next := OffsetBy(a.record, off, a.outcome);
      if a.outcome.Whole? {
        ReadsWhole(crc, tried, off, rest, inFragment, scratch);
      } else {
        ReadsTorn(crc, tried, off, rest, inFragment, scratch);
      }
    }
  }

  lemma ReadsWhole(crc: Checksum, tried: seq<Attempt>, off: nat, rest: Bytes, inFragment: bool, scratch: Bytes)
    requires off <= BLOCK_SIZE && Possible(tried, off) && DriftFree(crc, tried, off) && rest <= FileBytes(crc, tried, off)
    requires |tried| > 0 && tried[0].outcome.Whole?
    ensures var a := ReadFrom(crc, rest, off, inFragment, scratch);
            a.records == Written(tried)[..Complete(crc, tried, off, |rest|)]
            && a.reports <= Interruption(inFragment, scratch) + Unfinished(tried)
    decreases |tried|, 0
  {
    hide ReadFrom;
    hide Emit;
    hide OffsetAfter;
    hide DriftFree;
    hide FileBytes;
    hide Complete;
    hide Written;
    hide Unfinished;
    var data := tried[0].record;
    var bytes, next := Emit(crc, data, true, off), OffsetAfter(data, off);
    var more := FileBytes(crc, tried[1..], next);
    WholeFirst(crc, tried, off, |rest|);
    ReadBegun(crc, data, off, rest, more, inFragment, scratch);
    if |rest| >= |bytes| {
      DropPrefix(bytes, more, rest);
      DriftLater(crc, tried, off);
      ReadsTried(crc, tried[1..], next, rest[|bytes|..], false, []);
      var k := Complete(crc, tried[1..], next, |rest| - |bytes|);
      assert ([data] + Written(tried[1..]))[..k + 1] == [data] + Written(tried[1..])[..k];
    }
  }

  /** The first record, whole or cut, and the rest of the file read from the start of a record. */
  lemma ReadBegun(crc: Checksum, data: Bytes, off: nat, rest: Bytes, more: Bytes, inFragment: bool, scratch: Bytes)
    requires off <= BLOCK_SIZE && rest <= Emit(crc, data, true, off) + more
    ensures var size := |Emit(crc, data, true, off)|; var a := ReadFrom(crc, rest, off, inFragment, scratch);
            if |rest| >= size then
              var b := ReadFrom(crc, rest[size..], OffsetAfter(data, off), false, []);
              a == All([data] + b.records, Interruption(inFragment, scratch) + b.reports)
            else a.records == [] && a.reports <= Interruption(inFragment, scratch)
  {
    hide ReadLogical;
    hide Emit;
    hide OffsetAfter;
    hide ReadAll;
    var size := |Emit(crc, data, true, off)|;
    BeginAgain(crc, data, off, rest, more, inFragment, scratch);
    if |rest| >= size {
      FromStart(crc, rest[size..], OffsetAfter(data, off));
    }
  }

  /** A whole append writes its record. */
  lemma WholeFirst(crc: Checksum, tried: seq<Attempt>, off: nat, m: nat)
    requires off <= BLOCK_SIZE && Possible(tried, off) && |tried| > 0 && tried[0].outcome.Whole?
    ensures var data := tried[0].record;
            var size, next := |Emit(crc, data, true, off)|, OffsetAfter(data, off);
            && Possible(tried[1..], next)
            && FileBytes(crc, tried, off) == Emit(crc, data, true, off) + FileBytes(crc, tried[1..], next)
            && Complete(crc, tried, off, m) == (if m < size then 0 else 1 + Complete(crc, tried[1..], next, m - size))
            && Written(tried) == [data] + Written(tried[1..])
            && Unfinished(tried) == Unfinished(tried[1..])
  {
    hide Emit;
    hide OffsetAfter;
  }

  lemma DriftLater(crc: Checksum, tried: seq<Attempt>, off: nat)
    requires off <= BLOCK_SIZE && Possible(tried, off) && DriftFree(crc, tried, off) && |tried| > 0
    ensures DriftFree(crc, tried[1..], OffsetBy(tried[0].record, off, tried[0].outcome))
  {}

  lemma ReadsTorn(crc: Checksum, tried: seq<Attempt>, off: nat, rest: Bytes, inFragment: bool, scratch: Bytes)
    requires off <= BLOCK_SIZE && Possible(tried, off) && DriftFree(crc, tried, off) && rest <= FileBytes(crc, tried, off)
    requires |tried| > 0 && tried[0].outcome.Torn?
    ensures var a := ReadFrom(crc, rest, off, inFragment, scratch);
            a.records == Written(tried)[..Complete(crc, tried, off, |rest|)]
            && a.reports <= Interruption(inFragment, scratch) + Unfinished(tried)
    decreases |tried|, 0
  {
    hide ReadFrom;
    hide TornBytes;
    hide TornOffset;
    hide DriftFree;
    hide FileBytes;
    hide Complete;
    hide Written;
    hide Unfinished;
    hide Tears;
    var data, f, kept := tried[0].record, tried[0].outcome.fragments, tried[0].outcome.kept;
    var bytes, next := TornBytes(crc, data, true, off, f, kept), TornOffset(data, off, f);
    var more := FileBytes(crc, tried[1..], next);
    TornFirst(crc, tried, off, |rest|);
    var inFragment', scratch', k := TornReads(crc, data, true, off, f, kept, rest, more, inFragment, scratch);
    DriftLater(crc, tried, off);
    if |rest| >= |bytes| && |tried| > 1 {
      DropPrefix(bytes, more, rest);
      ReadsTried(crc, tried[1..], next, rest[|bytes|..], inFragment', scratch');
    }
  }

  /** A failed append writes no record. */
  lemma TornFirst(crc: Checksum, tried: seq<Attempt>, off: nat, m: nat)
    requires off <= BLOCK_SIZE && Possible(tried, off) && DriftFree(crc, tried, off)
    requires |tried| > 0 && tried[0].outcome.Torn?
    ensures var data, f, kept := tried[0].record, tried[0].outcome.fragments, tried[0].outcome.kept;
            var size, next := |TornBytes(crc, data, true, off, f, kept)|, TornOffset(data, off, f);
            && FileBytes(crc, tried, off) == TornBytes(crc, data, true, off, f, kept) + FileBytes(crc, tried[1..], next)
            && Complete(crc, tried, off, m) == (if m < size then 0 else Complete(crc, tried[1..], next, m - size))
            && Written(tried) == Written(tried[1..])
            && Unfinished(tried) == (if f > 0 then 1 else 0) + Unfinished(tried[1..])
            && (|tried| > 1 ==> AlignedAfter(crc, data, true, off, f, kept))
            && (|tried| == 1 ==> FileBytes(crc, tried[1..], next) == [] && Written(tried) == [] && Complete(crc, tried, off, m) == 0)
  {
    hide TornBytes;
    hide TornOffset;
  }

  // ------------------------------------------------------------------------
  // The condition, as a caller meets it

  /** Before each append, writer and file agreed. */
  predicate NeverDrifted(crc: Checksum, tried: seq<Attempt>)
    requires Possible(tried, 0)
  {
    forall k :: 0 < k < |tried| ==> Possible(tried[..k], 0) && Aligned(crc, tried[..k], 0)
  }

  lemma FirstAligned(crc: Checksum, tried: seq<Attempt>, off: nat)
    requires off <= BLOCK_SIZE && |tried| > 0 && Possible(tried, off) && Possible(tried[..1], off)
    ensures var a := tried[0];
            Aligned(crc, tried[..1], off)
            <==> OffsetBy(a.record, off, a.outcome) % BLOCK_SIZE == (off + |Left(crc, a.record, true, off, a.outcome)|) % BLOCK_SIZE
  {
    hide Left;
    hide OffsetBy;
    hide CanEnd;
    var one, next := tried[..1], OffsetBy(tried[0].record, off, tried[0].outcome);
    assert one[0] == tried[0] && one[1..] == [];
    assert OffsetOf(one, off) == OffsetOf([], next) == next;
    assert FileBytes(crc, one, off) == Left(crc, tried[0].record, true, off, tried[0].outcome) + FileBytes(crc, [], next);
  }

  lemma {:induction false} DriftsNowhere(crc: Checksum, tried: seq<Attempt>, off: nat)
    requires off <= BLOCK_SIZE && Possible(tried, off)
    requires forall k :: 0 < k < |tried| ==> Possible(tried[..k], off) && Aligned(crc, tried[..k], off)
    ensures DriftFree(crc, tried, off)
    decreases |tried|
  {
    hide Left;
    hide OffsetBy;
    hide CanEnd;
    if |tried| > 1 {
      var a, next := tried[0], OffsetBy(tried[0].record, off, tried[0].outcome);
      var size := |Left(crc, a.record, true, off, a.outcome)|;
      FirstAligned(crc, tried, off);
      forall k | 0 < k < |tried[1..]| ensures Possible(tried[1..][..k], next) && Aligned(crc, tried[1..][..k], next) {
        assert Aligned(crc, tried[..k + 1], off);
        assert tried[..k + 1][1..] == tried[1..][..k];
        ModAdd(off + size, next, |FileBytes(crc, tried[1..][..k], next)|);
      }
      DriftsNowhere(crc, tried[1..], next);
    }
  }

  /** Whole records keep writer and file aligned. */
  lemma {:induction false} EmitAligned(crc: Checksum, data: Bytes, begin: bool, off: nat)
    requires off <= BLOCK_SIZE
    ensures OffsetAfter(data, off) % BLOCK_SIZE == (off + |Emit(crc, data, begin, off)|) % BLOCK_SIZE
    decreases |data|, BLOCK_SIZE - off
  {
    hide Emit;
    hide Head;
    var n, end := FragmentLength(data, off), HeadEnd(data, off);
    var tail := EmitSplit(crc, data, begin, off);
    HeadAligned(data, off);
    if n < |data| {
      EmitAligned(crc, data[n..], false, end);
      ModAdd(off + HeadSize(data, off), end, |tail|);
    }
  }

  /** Without a failed append there is no drift. */
  lemma {:induction false} NoFailureNoDrift(crc: Checksum, tried: seq<Attempt>, off: nat)
    requires off <= BLOCK_SIZE && forall k :: 0 <= k < |tried| ==> tried[k].outcome.Whole?
    ensures Possible(tried, off) && Aligned(crc, tried, off) && FileBytes(crc, tried, off) == EncodeLog(crc, Written(tried), off)
    decreases |tried|
  {
    hide Emit;
    hide OffsetAfter;
    if |tried| > 0 {
      var data, next := tried[0].record, OffsetAfter(tried[0].record, off);
      NoFailureNoDrift(crc, tried[1..], next);
      EmitAligned(crc, data, true, off);
      ModAdd(off + |Emit(crc, data, true, off)|, next, |FileBytes(crc, tried[1..], next)|);
      assert Written(tried)[1..] == Written(tried[1..]);
    }
  }

  lemma NoFailureNeverDrifted(crc: Checksum, tried: seq<Attempt>)
    requires Possible(tried, 0) && forall k :: 0 <= k < |tried| ==> tried[k].outcome.Whole?
    ensures NeverDrifted(crc, tried)
  {
    hide FileBytes;
    forall k | 0 < k < |tried| ensures Possible(tried[..k], 0) && Aligned(crc, tried[..k], 0) {
      NoFailureNoDrift(crc, tried[..k], 0);
    }
  }

  /** A failed append keeps the agreement exactly when it lost a fragment as long as a block. */
  lemma TornAligned(data: Bytes, off: nat, kept: nat)
    requires off <= BLOCK_SIZE && kept < HeadSize(data, off)
    ensures HeadEnd(data, off) % BLOCK_SIZE == (off + kept) % BLOCK_SIZE <==> HeadSize(data, off) - kept == BLOCK_SIZE
  {}

  /** Reading any prefix of a file whose writer never drifted. */
  lemma ReadsWritten(crc: Checksum, tried: seq<Attempt>, file: Bytes)
    requires Possible(tried, 0) && NeverDrifted(crc, tried) && file <= FileBytes(crc, tried, 0)
    ensures var a := ReadAll(crc, file, BLOCK_SIZE);
            a.records == Written(tried)[..Complete(crc, tried, 0, |file|)] && a.reports <= Unfinished(tried)
  {
    hide ReadFrom;
    hide FileBytes;
    hide ReadAll;
    DriftsNowhere(crc, tried, 0);
    ReadsTried(crc, tried, 0, file, false, []);
    BlockEnd(crc, file, false, []);
    FromStart(crc, file, BLOCK_SIZE);
  }

  /** What the first `n` appends left suffices for their records. */
  lemma {:induction false} CompleteAtLeast(crc: Checksum, tried: seq<Attempt>, off: nat, n: nat, m: nat)
    requires off <= BLOCK_SIZE && Possible(tried, off) && n <= |tried| && Possible(tried[..n], off)
    requires m >= |FileBytes(crc, tried[..n], off)|
    ensures Complete(crc, tried, off, m) >= |Written(tried[..n])|
    decreases n
  {
    hide Left;
    hide OffsetBy;
    hide CanEnd;
    if n > 0 {
      assert tried[..n][1..] == tried[1..][..n - 1];
      CompleteAtLeast(crc, tried[1..], OffsetBy(tried[0].record, off, tried[0].outcome), n - 1,
                      m - |Left(crc, tried[0].record, true, off, tried[0].outcome)|);
    }
  }

  // ------------------------------------------------------------------------
  // A file whose appends failed at most at its end

  /** The next record may be appended: it will be read, and nothing before it is reported. */
  predicate Ready(crc: Checksum, tried: seq<Attempt>)
    requires Possible(tried, 0)
  {
    NeverDrifted(crc, tried) && Aligned(crc, tried, 0) && Unfinished(tried) == 0
  }

  lemma NoFailureReady(crc: Checksum, tried: seq<Attempt>)
    requires Possible(tried, 0) && forall k :: 0 <= k < |tried| ==> tried[k].outcome.Whole?
    ensures Ready(crc, tried)
  {
    hide FileBytes;
    NoFailureNeverDrifted(crc, tried);
    NoFailureNoDrift(crc, tried, 0);
    NothingUnfinished(tried);
  }

  lemma {:induction false} UnfinishedSnoc(tried: seq<Attempt>, a: Attempt)
    requires a.outcome.Whole?
    ensures Unfinished(tried + [a]) == Unfinished(tried)
  {
    if |tried| == 0 {
      assert (tried + [a])[1..] == [];
    } else {
      ConsTail(tried, [a]);
      UnfinishedSnoc(tried[1..], a);
    }
  }

  /** What a failed append leaves is a part of what it would have written. */
  lemma {:induction false} TornIsPart(crc: Checksum, data: Bytes, begin: bool, off: nat, f: nat, kept: nat)
    requires off <= BLOCK_SIZE && Tears(data, off, f, kept)
    ensures TornBytes(crc, data, begin, off, f, kept) <= Emit(crc, data, begin, off)
    decreases f
  {
    hide Chunk;
    hide Zeros;
    LeftStep(crc, data, begin, off, Whole);
    if f > 0 {
      TornIsPart(crc, data[FragmentLength(data, off)..], false, HeadEnd(data, off), f - 1, kept);
    }
  }

  lemma NeverDriftedSnoc(crc: Checksum, tried: seq<Attempt>, a: Attempt)
    requires Possible(tried, 0) && Ready(crc, tried) && Possible(tried + [a], 0)
    ensures NeverDrifted(crc, tried + [a])
  {
    hide Aligned;
    hide Possible;
    var all := tried + [a];
    forall k | 0 < k < |all| ensures Possible(all[..k], 0) && Aligned(crc, all[..k], 0) {
      assert k < |tried| ==> all[..k] == tried[..k];
      assert k == |tried| ==> all[..k] == tried;
    }
  }

  /** Wherever the next append stops, what was written before it is read, with the new record or without it. */
  lemma LastAppendIsAtomic(crc: Checksum, tried: seq<Attempt>, data: Bytes, file: Bytes)
    requires Possible(tried, 0) && Ready(crc, tried)
    requires FileBytes(crc, tried, 0) <= file
    requires file <= FileBytes(crc, tried, 0) + Emit(crc, data, true, OffsetOf(tried, 0))
    ensures var a := ReadAll(crc, file, BLOCK_SIZE);
            a.reports == 0 && (a.records == Written(tried) || a.records == Written(tried) + [data])
  {
    hide FileBytes;
    hide ReadAll;
    hide Emit;
    hide NeverDrifted;
    hide Aligned;
    hide Complete;
    hide Written;
    var all := tried + [Attempt(data, Whole)];
    FileSnoc(crc, tried, Attempt(data, Whole), 0);
    WrittenSnoc(tried, Attempt(data, Whole));
    NeverDriftedSnoc(crc, tried, Attempt(data, Whole));
    UnfinishedSnoc(tried, Attempt(data, Whole));
    ReadsWritten(crc, all, file);
    assert all[..|tried|] == tried;
    CompleteAtLeast(crc, all, 0, |tried|, |file|);
    assert Written(all)[..|Written(tried)|] == Written(tried);
    assert Written(all)[..|Written(all)|] == Written(all);
  }

  /** A failed append adds no record, and no report as long as it is the last. */
  lemma LastFailureIsSilent(crc: Checksum, tried: seq<Attempt>, a: Attempt)
    requires Possible(tried, 0) && Ready(crc, tried) && a.outcome.Torn? && CanEnd(a.record, OffsetOf(tried, 0), a.outcome)
    ensures Possible(tried + [a], 0)
    ensures ReadAll(crc, FileBytes(crc, tried + [a], 0), BLOCK_SIZE) == All(Written(tried), 0)
  {
    hide FileBytes;
    hide ReadAll;
    hide Emit;
    hide NeverDrifted;
    hide Aligned;
    hide Complete;
    hide Written;
    var all := tried + [a];
    var off := OffsetOf(tried, 0);
    FileSnoc(crc, tried, a, 0);
    WrittenSnoc(tried, a);
    TornIsPart(crc, a.record, true, off, a.outcome.fragments, a.outcome.kept);
    var file := FileBytes(crc, all, 0);
    LastAppendIsAtomic(crc, tried, a.record, file);
    NeverDriftedSnoc(crc, tried, a);
    ReadsWritten(crc, all, file);
    assert |ReadAll(crc, file, BLOCK_SIZE).records| <= |Written(tried)|;
  }
}
