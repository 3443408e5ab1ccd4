/**
 The compaction loop: it walks the merged inputs, drops what is obsolete and cuts the
 rest into output files.
 */
module CompactionWork {
  import opened Entries
  import opened Sequences
  import opened VersionSet
  import opened CompactionInputs
  import opened OutputCuts

  /** Some file below `level + 1` has `u` within its user-key range. */
  ghost predicate Covered(levels: seq<seq<File>>, level: nat, u: UserKey)
    requires |levels| == NUM_LEVELS
  {
    exists l :: level + 2 <= l < NUM_LEVELS && CoveredAt(levels[l], u)
  }

  ghost predicate CoveredAt(files: seq<File>, u: UserKey) {
    exists i :: 0 <= i < |files| && files[i].smallest.user <= u <= files[i].largest.user
  }

  ghost function BaseLevel(levels: seq<seq<File>>, level: nat): UserKey -> bool
    requires |levels| == NUM_LEVELS
  {
    u => !Covered(levels, level, u)
  }

  class Compaction {
    const levels: seq<seq<File>>  // the version the inputs come from
    const level: nat
    const grandparents: seq<File>
    const maxGrandParentOverlap: nat
    const maxOutputFileSize: nat
    const levelPtrs: array<nat>
    var grandparentIndex: nat
    var seenKey: bool
    var overlappedBytes: nat
    ghost var lastAsked: Option<UserKey>

    constructor (levels: seq<seq<File>>, level: nat, grandparents: seq<File>,
                 maxGrandParentOverlap: nat, maxOutputFileSize: nat)
      requires LevelRanges(levels) && level + 1 < NUM_LEVELS
      ensures Valid() && lastAsked == None && fresh(levelPtrs)
      ensures this.levels == levels && this.level == level && this.grandparents == grandparents
      ensures this.maxGrandParentOverlap == maxGrandParentOverlap && this.maxOutputFileSize == maxOutputFileSize
      ensures grandparentIndex == 0 && !seenKey && overlappedBytes == 0
    {
      this.levels, this.level, this.grandparents := levels, level, grandparents;
      this.maxGrandParentOverlap, this.maxOutputFileSize := maxGrandParentOverlap, maxOutputFileSize;
      levelPtrs := new nat[NUM_LEVELS](_ => 0);
      grandparentIndex, seenKey, overlappedBytes := 0, false, 0;
      lastAsked := None;
    }

    /** Every file a pointer has passed ends before the last key asked about. */
    ghost predicate Valid()
      reads this, levelPtrs
    {
      && LevelRanges(levels) && level + 1 < NUM_LEVELS
      && levelPtrs.Length == NUM_LEVELS && grandparentIndex <= |grandparents|
      && (forall l :: level + 2 <= l < NUM_LEVELS ==> PtrOk(levels[l], levelPtrs[l], lastAsked))
    }

    function LimitsWith(sizeOf: seq<Entry> -> nat): Limits {
      Limits(grandparents, maxGrandParentOverlap, maxOutputFileSize, sizeOf)
    }

    /** The counters are those of the first `n` keys. */
    ghost predicate CountedTo(input: seq<Entry>, n: nat, sizeOf: seq<Entry> -> nat)
      requires n <= |input|
      reads this
    {
      seenKey == (n > 0) && Counted(LimitsWith(sizeOf), input, n, grandparentIndex, overlappedBytes)
    }

    static ghost predicate PtrOk(files: seq<File>, ptr: nat, asked: Option<UserKey>) {
      && ptr <= |files|
      && (forall i :: 0 <= i < ptr ==> asked.Some? && files[i].largest.user < asked.value)
    }

    /** For keys asked in non-decreasing order, the advancing pointers give the plain answer. */
    method IsBaseLevelForKey(u: UserKey) returns (base: bool)
      requires Valid()
      requires lastAsked.Some? ==> lastAsked.value <= u
      modifies this`lastAsked, levelPtrs
      ensures Valid() && lastAsked == Some(u)
      ensures base <==> !Covered(levels, level, u)
    {
      lastAsked := Some(u);
      for l := level + 2 to NUM_LEVELS
        invariant Valid() && lastAsked == Some(u)
        invariant forall k :: level + 2 <= k < l ==> !CoveredAt(levels[k], u)
      {
        var files := levels[l];
        while levelPtrs[l] < |files|
          invariant Valid() && lastAsked == Some(u)
          decreases |files| - levelPtrs[l]
        {
          var f := files[levelPtrs[l]];
          if u <= f.largest.user {
            if u >= f.smallest.user {
              assert CoveredAt(levels[l], u);
              return false;
            }
            break;
          }
          levelPtrs[l] := levelPtrs[l] + 1;
        }
        assert PtrOk(levels[l], levelPtrs[l], lastAsked);
      }
      base := true;
    }

    /** Ends an output file when the grandparents passed since the last end are too large. */
    method ShouldStopBefore(key: InternalKey) returns (stop: bool)
      requires Valid()
      modifies this`grandparentIndex, this`seenKey, this`overlappedBytes
      ensures Valid() && seenKey && old(grandparentIndex) <= grandparentIndex
      ensures forall i :: old(grandparentIndex) <= i < grandparentIndex ==> Less(grandparents[i].largest, key)
      ensures grandparentIndex < |grandparents| ==> !Less(grandparents[grandparentIndex].largest, key)
      ensures var passed := if old(seenKey) then TotalFileSize(grandparents[old(grandparentIndex)..grandparentIndex]) else 0;
              var total := old(overlappedBytes) + passed;
              stop == (total > maxGrandParentOverlap) && overlappedBytes == if stop then 0 else total
    {
      ghost var first := grandparentIndex;
      while grandparentIndex < |grandparents| && Less(grandparents[grandparentIndex].largest, key)
        invariant Valid() && first <= grandparentIndex && seenKey == old(seenKey)
        invariant forall i :: first <= i < grandparentIndex ==> Less(grandparents[i].largest, key)
        invariant overlappedBytes
                  == old(overlappedBytes) + if seenKey then TotalFileSize(grandparents[first..grandparentIndex]) else 0
      {
        SliceSnoc(grandparents, first, grandparentIndex);
        if seenKey {
          overlappedBytes := overlappedBytes + grandparents[grandparentIndex].size;
        }
        grandparentIndex := grandparentIndex + 1;
      }
      seenKey := true;
      if overlappedBytes > maxGrandParentOverlap {
        overlappedBytes := 0;
        stop := true;
      } else {
        stop := false;
      }
    }
  }

  // ------------------------------------------------------------------------
  // The drop rules, entry by entry

  /** The sequence number the loop remembers for the current user key on reaching entry `i`. */
  function PreviousSeqNo(input: seq<Entry>, i: nat): nat
    requires i < |input|
  {
    if i > 0 && input[i - 1].key.user == input[i].key.user then input[i - 1].key.seqNo else MAX_SEQUENCE
  }

  ghost predicate Drops(input: seq<Entry>, i: nat, smallestSnapshot: nat, base: UserKey -> bool)
    requires i < |input|
  {
    || PreviousSeqNo(input, i) <= smallestSnapshot
    || (input[i].key.kind.Deletion? && input[i].key.seqNo <= smallestSnapshot && base(input[i].key.user))
  }

  ghost function KeptUpTo(input: seq<Entry>, n: nat, smallestSnapshot: nat, base: UserKey -> bool): seq<Entry>
    requires n <= |input|
  {
    if n == 0 then []
    else KeptUpTo(input, n - 1, smallestSnapshot, base)
         + if Drops(input, n - 1, smallestSnapshot, base) then [] else [input[n - 1]]
  }

  /** Hidden by a newer input that every reader sees, or a deletion mark of a base-level key. */
  ghost predicate ObsoleteIn(input: set<Entry>, e: Entry, smallestSnapshot: nat, base: UserKey -> bool) {
    || (exists x :: x in input && x.key.user == e.key.user && e.key.seqNo < x.key.seqNo <= smallestSnapshot)
    || (e.key.kind.Deletion? && e.key.seqNo <= smallestSnapshot && base(e.key.user))
  }

  /** The loop's memory of one previous entry amounts to looking at all newer inputs. */
  lemma DropsIsObsolete(input: seq<Entry>, i: nat, smallestSnapshot: nat, base: UserKey -> bool)
    requires Sorted(input) && UniqueSeqNos(Elements(input)) && smallestSnapshot < MAX_SEQUENCE && i < |input|
    ensures Drops(input, i, smallestSnapshot, base)
            <==> ObsoleteIn(Elements(input), input[i], smallestSnapshot, base)
  {
    var e := input[i];
    if x :| x in Elements(input) && x.key.user == e.key.user && e.key.seqNo < x.key.seqNo <= smallestSnapshot {
      var k :| 0 <= k < |input| && input[k] == x;
      assert k < i;
      assert Less(input[i - 1].key, input[i].key);
      assert k == i - 1 || Less(input[k].key, input[i - 1].key);
    }
    if PreviousSeqNo(input, i) <= smallestSnapshot {
      var x := input[i - 1];
      assert Less(x.key, e.key);
      assert x in Elements(input) && e in Elements(input) && x != e;
    }
  }

  lemma {:induction false} KeptElements(input: seq<Entry>, n: nat, smallestSnapshot: nat, base: UserKey -> bool)
    requires Sorted(input) && UniqueSeqNos(Elements(input)) && smallestSnapshot < MAX_SEQUENCE && n <= |input|
    ensures forall e :: e in KeptUpTo(input, n, smallestSnapshot, base)
              <==> e in input[..n] && !ObsoleteIn(Elements(input), e, smallestSnapshot, base)
  {
    if n > 0 {
      KeptElements(input, n - 1, smallestSnapshot, base);
      DropsIsObsolete(input, n - 1, smallestSnapshot, base);
      PrefixSnoc(input, n - 1);
    }
  }

  /** What is kept is still in order. */
  lemma {:induction false} KeptSorted(input: seq<Entry>, n: nat, smallestSnapshot: nat, base: UserKey -> bool)
    requires Sorted(input) && n <= |input|
    ensures Sorted(KeptUpTo(input, n, smallestSnapshot, base))
    ensures forall e :: e in KeptUpTo(input, n, smallestSnapshot, base) ==> e in input[..n]
  {
    if n > 0 {
      KeptSorted(input, n - 1, smallestSnapshot, base);
      PrefixSnoc(input, n - 1);
      var r := KeptUpTo(input, n - 1, smallestSnapshot, base);
      forall k | 0 <= k < |r| ensures Less(r[k].key, input[n - 1].key) {
        assert r[k] in input[..n - 1];
      }
    }
  }

  // ------------------------------------------------------------------------
  // The loop

  function AllEntries(files: seq<File>): seq<Entry> {
    if |files| == 0 then [] else AllEntries(files[..|files| - 1]) + files[|files| - 1].entries
  }

  function MakeFile(number: nat, size: nat, entries: seq<Entry>): File
    requires |entries| > 0
  {
    File(number, size, entries[0].key, entries[|entries| - 1].key, entries)
  }

  /** Output files are numbered from `first` and carry the range of their entries. */
  predicate OutputsFrom(outputs: seq<File>, first: nat) {
    forall k :: 0 <= k < |outputs| ==>
      && outputs[k].number == first + k
      && |outputs[k].entries| > 0
      && outputs[k] == MakeFile(outputs[k].number, outputs[k].size, outputs[k].entries)
  }

  lemma NoOutputs(first: nat)
    ensures OutputsFrom([], first)
  {}

  /** Closes the current output file. */
  method FinishOutput(outputs: seq<File>, firstNumber: nat, size: nat, current: seq<Entry>)
    returns (outputs': seq<File>)
    requires |current| > 0 && OutputsFrom(outputs, firstNumber)
    ensures OutputsFrom(outputs', firstNumber)
    ensures outputs' == outputs + [MakeFile(firstNumber + |outputs|, size, current)]
    ensures AllEntries(outputs') == AllEntries(outputs) + current
  {
    outputs' := outputs + [MakeFile(firstNumber + |outputs|, size, current)];
    assert outputs'[..|outputs|] == outputs;
  }

  /** Closes the current output file if the next key calls for it. */
  method StopBefore(c: Compaction, ghost input: seq<Entry>, ghost n: nat, key: InternalKey, outputs: seq<File>,
                    firstNumber: nat, current: seq<Entry>, sizeOf: seq<Entry> -> nat)
    returns (outputs': seq<File>, current': seq<Entry>)
    requires c.Valid() && OutputsFrom(outputs, firstNumber)
    requires Sorted(input) && n < |input| && input[n].key == key && c.CountedTo(input, n, sizeOf)
    requires Progress(c.LimitsWith(sizeOf), input, n, outputs, current)
    modifies c`grandparentIndex, c`seenKey, c`overlappedBytes
    ensures c.Valid() && OutputsFrom(outputs', firstNumber) && c.CountedTo(input, n + 1, sizeOf)
    ensures AllEntries(outputs') + current' == AllEntries(outputs) + current
    ensures Progress(c.LimitsWith(sizeOf), input, n + 1, outputs', current')
  {
    hide Progress;
    hide Counted;
    ghost var l := c.LimitsWith(sizeOf);
    outputs', current' := outputs, current;
    ghost var index, bytes := c.grandparentIndex, c.overlappedBytes;
    var stop := c.ShouldStopBefore(key);
    CountKey(l, input, n, index, bytes, c.grandparentIndex);
    if stop && |current| > 0 {
      outputs' := FinishOutput(outputs, firstNumber, sizeOf(current), current);
      StopHere(l, input, n, outputs, current, MakeFile(firstNumber + |outputs|, sizeOf(current), current));
      current' := [];
    } else {
      SeenOneMore(l, input, n, outputs, current);
    }
  }

  /** Adds an entry to the current output file and closes the file if it is big enough. */
  method AddToOutput(ghost l: Limits, ghost input: seq<Entry>, ghost n: nat, outputs: seq<File>, firstNumber: nat,
                     current: seq<Entry>, e: Entry, sizeOf: seq<Entry> -> nat, maxOutputFileSize: nat)
    returns (outputs': seq<File>, current': seq<Entry>)
    requires OutputsFrom(outputs, firstNumber)
    requires Sorted(input) && 0 < n <= |input| && input[n - 1] == e
    requires l.sizeOf == sizeOf && l.size == maxOutputFileSize && Progress(l, input, n, outputs, current)
    ensures OutputsFrom(outputs', firstNumber)
    ensures AllEntries(outputs') + current' == (AllEntries(outputs) + current) + [e]
    ensures Progress(l, input, n, outputs', current')
  {
    hide Progress;
    AppendOne(AllEntries(outputs), current, e);
    outputs', current' := outputs, current + [e];
    if sizeOf(current') >= maxOutputFileSize {
      outputs' := FinishOutput(outputs', firstNumber, sizeOf(current'), current');
      EntryFills(l, input, n, outputs, current, MakeFile(firstNumber + |outputs|, sizeOf(current'), current'));
      current' := [];
    } else {
      EntryJoins(l, input, n, outputs, current);
    }
  }

  /** What the loop remembers of the previous entry. */
  datatype Last = Last(userKey: Option<UserKey>, seqNo: nat)

  ghost predicate DropsAfter(levels: seq<seq<File>>, level: nat, last: Last, e: Entry, smallestSnapshot: nat)
    requires |levels| == NUM_LEVELS
  {
    || (if last.userKey == Some(e.key.user) then last.seqNo else MAX_SEQUENCE) <= smallestSnapshot
    || (e.key.kind.Deletion? && e.key.seqNo <= smallestSnapshot && !Covered(levels, level, e.key.user))
  }

  /** Rule (A): hidden by a newer entry for the same key.  Rule (B): a deletion mark whose key
      has nothing in deeper levels. */
  method ShouldDrop(c: Compaction, e: Entry, last: Last, smallestSnapshot: nat) returns (drop: bool, last': Last)
    requires c.Valid() && (c.lastAsked.Some? ==> c.lastAsked.value <= e.key.user)
    modifies c`lastAsked, c.levelPtrs
    ensures c.Valid() && (c.lastAsked == old(c.lastAsked) || c.lastAsked == Some(e.key.user))
    ensures last' == Last(Some(e.key.user), e.key.seqNo)
    ensures drop <==> DropsAfter(c.levels, c.level, last, e, smallestSnapshot)
  {
    var lastSequenceForKey := last.seqNo;
    if last.userKey != Some(e.key.user) {
      lastSequenceForKey := MAX_SEQUENCE;
    }
    drop := false;
    if lastSequenceForKey <= smallestSnapshot {
      drop := true;
    } else if e.key.kind.Deletion? && e.key.seqNo <= smallestSnapshot {
      drop := c.IsBaseLevelForKey(e.key.user);
    }
    last' := Last(Some(e.key.user), e.key.seqNo);
  }

  /** One turn of the loop: what the outputs hold grows by the entry, unless it is dropped. */
  method ProcessEntry(c: Compaction, ghost input: seq<Entry>, ghost n: nat, e: Entry,
                      outputs: seq<File>, firstNumber: nat, current: seq<Entry>, last: Last,
                      smallestSnapshot: nat, sizeOf: seq<Entry> -> nat)
    returns (outputs': seq<File>, current': seq<Entry>, last': Last, ghost drop: bool)
    requires c.Valid() && (c.lastAsked.Some? ==> c.lastAsked.value <= e.key.user)
    requires OutputsFrom(outputs, firstNumber)
    requires Sorted(input) && n < |input| && input[n] == e && c.CountedTo(input, n, sizeOf)
    requires Progress(c.LimitsWith(sizeOf), input, n, outputs, current)
    modifies c, c.levelPtrs
    ensures c.Valid() && (c.lastAsked.Some? ==> c.lastAsked.value <= e.key.user) && c.CountedTo(input, n + 1, sizeOf)
    ensures Progress(c.LimitsWith(sizeOf), input, n + 1, outputs', current')
    ensures last' == Last(Some(e.key.user), e.key.seqNo)
    ensures OutputsFrom(outputs', firstNumber)
    ensures AllEntries(outputs') + current' == (AllEntries(outputs) + current) + if drop then [] else [e]
    ensures drop <==> DropsAfter(c.levels, c.level, last, e, smallestSnapshot)
  {
    hide Progress;
    hide Counted;
    outputs', current' := StopBefore(c, input, n, e.key, outputs, firstNumber, current, sizeOf);
    var obsolete;
    obsolete, last' := ShouldDrop(c, e, last, smallestSnapshot);
    drop := obsolete;
    if !obsolete {
      outputs', current' := AddToOutput(c.LimitsWith(sizeOf), input, n + 1, outputs', firstNumber, current', e,
                                         sizeOf, c.maxOutputFileSize);
    }
  }

  ghost function LastBefore(input: seq<Entry>, i: nat): Last
    requires i <= |input|
  {
    if i == 0 then Last(None, MAX_SEQUENCE) else Last(Some(input[i - 1].key.user), input[i - 1].key.seqNo)
  }

  lemma SameDrop(levels: seq<seq<File>>, level: nat, input: seq<Entry>, i: nat, smallestSnapshot: nat)
    requires |levels| == NUM_LEVELS && i < |input|
    ensures DropsAfter(levels, level, LastBefore(input, i), input[i], smallestSnapshot)
            <==> Drops(input, i, smallestSnapshot, BaseLevel(levels, level))
  {}

  /** The outputs hold what the drop rules keep, cut as the sizes and the grandparents tell.  An output file
      is open exactly while `current` is nonempty. */
  method DoCompactionWork(c: Compaction, input: seq<Entry>, smallestSnapshot: nat,
                          sizeOf: seq<Entry> -> nat, firstNumber: nat)
    returns (outputs: seq<File>)
    requires c.Valid() && c.lastAsked == None
    requires Sorted(input) && smallestSnapshot < MAX_SEQUENCE
    requires c.grandparentIndex == 0 && !c.seenKey && c.overlappedBytes == 0
    modifies c, c.levelPtrs
    ensures OutputsFrom(outputs, firstNumber)
    ensures CutAsTold(c.LimitsWith(sizeOf), input, outputs)
    ensures AllEntries(outputs) == KeptUpTo(input, |input|, smallestSnapshot, BaseLevel(c.levels, c.level))
  {
    outputs := [];
    var current: seq<Entry> := [];
    var last := Last(None, MAX_SEQUENCE);
    ghost var base := BaseLevel(c.levels, c.level);
    ghost var l := c.LimitsWith(sizeOf);
    NothingYet(l, input);
    hide Progress;
    hide Counted;
    hide CutAsTold;
    hide DropsAfter;
    hide Drops;
    hide BaseLevel;
    hide OutputsFrom;
    NoOutputs(firstNumber);
    for i := 0 to |input|
      invariant c.Valid() && c.CountedTo(input, i, sizeOf)
      invariant Progress(l, input, i, outputs, current)
      invariant c.lastAsked.Some? ==> i > 0 && c.lastAsked.value <= input[i - 1].key.user
      invariant last == LastBefore(input, i)
      invariant OutputsFrom(outputs, firstNumber)
      invariant AllEntries(outputs) + current == KeptUpTo(input, i, smallestSnapshot, base)
    {
      assert i > 0 ==> Less(input[i - 1].key, input[i].key);
      ghost var drop;
      outputs, current, last, drop :=
        ProcessEntry(c, input, i, input[i], outputs, firstNumber, current, last, smallestSnapshot, sizeOf);
      SameDrop(c.levels, c.level, input, i, smallestSnapshot);
    }
    if |current| > 0 {
      LastFile(l, input, outputs, current, MakeFile(firstNumber + |outputs|, sizeOf(current), current));
      outputs := FinishOutput(outputs, firstNumber, sizeOf(current), current);
    } else {
      AllClosed(l, input, outputs, current);
    }
  }

  // ------------------------------------------------------------------------
  // There is only one way to cut

  lemma {:induction false} AllEntriesFront(files: seq<File>)
    requires |files| > 0
    ensures AllEntries(files) == files[0].entries + AllEntries(files[1..])
  {
    var n := |files| - 1;
    if n > 0 {
      AllEntriesFront(files[..n]);
      assert files[..n][1..] == files[1..][..n - 1];
      Assoc(files[0].entries, AllEntries(files[1..][..n - 1]), files[n].entries);
    } else {
      assert files[..0] == [] && files[1..] == [];
    }
  }

  /** A file that could have gone on was not ended. */
  lemma ShorterNotEnded(l: Limits, input: seq<Entry>, f: File, g: File, next: InternalKey)
    requires OneFile(l, input, f) && OneFile(l, input, g) && Sorted(g.entries)
    requires f.entries <= g.entries || g.entries <= f.entries
    requires |f.entries| < |g.entries| ==> g.entries[|f.entries|].key == next
    ensures |f.entries| < |g.entries| ==> !Ended(l, input, f, next)
  {
    hide Stops;
    var n := |f.entries|;
    if n < |g.entries| {
      assert f.entries == g.entries[..n];
      assert g.entries[n - 1] == f.entries[n - 1] && g.entries[0] == f.entries[0];
      PlacesInOrder(g.entries, 0, n - 1);
      PlacesInOrder(g.entries, n, |g.entries| - 1);
      StopLiesWithin(l, input, f.largest, next, g.smallest, g.largest);
    }
  }

  lemma StopLiesWithin(l: Limits, input: seq<Entry>, a: InternalKey, b: InternalKey, lo: InternalKey, hi: InternalKey)
    requires NoStopWithin(l, input, lo, hi) && LessEq(lo, a) && LessEq(b, hi)
    ensures forall i: nat :: i < |input| && Less(a, input[i].key) && LessEq(input[i].key, b) ==> !Stops(l, input, i)
  {
    hide Stops;
    forall i: nat | i < |input| && Less(a, input[i].key) && LessEq(input[i].key, b) ensures !Stops(l, input, i) {
      assert Less(lo, input[i].key) && LessEq(input[i].key, hi);
    }
  }

  lemma FirstNotShorter(l: Limits, input: seq<Entry>, a: seq<File>, b: seq<File>)
    requires CutAsTold(l, input, a) && CutAsTold(l, input, b) && |a| > 0 && |b| > 0
    requires AllEntries(a) == AllEntries(b) && Sorted(AllEntries(a))
    ensures |a[0].entries| >= |b[0].entries|
  {
    hide Stops;
    hide Ended;
    hide Sorted;
    AllEntriesFront(a);
    AllEntriesFront(b);
    FrontSorted(b[0].entries, AllEntries(b[1..]));
    FrontsMatch(a[0].entries, AllEntries(a[1..]), b[0].entries, AllEntries(b[1..]));
    if |a| > 1 {
      AllEntriesFront(a[1..]);
      ShorterNotEnded(l, input, a[0], b[0], a[1].smallest);
    }
  }

  lemma FrontSorted(es: seq<Entry>, rest: seq<Entry>)
    requires Sorted(es + rest)
    ensures Sorted(es)
  {
    assert forall i :: 0 <= i < |es| ==> (es + rest)[i] == es[i];
  }

  lemma FrontsMatch(a: seq<Entry>, x: seq<Entry>, b: seq<Entry>, y: seq<Entry>)
    requires a + x == b + y
    ensures a <= b || b <= a
    ensures |a| < |b| ==> |x| > 0 && b[|a|] == x[0]
    ensures |a| == |b| ==> a == b && x == y
  {
    assert forall k :: 0 <= k < |a| ==> (a + x)[k] == a[k];
    assert forall k :: 0 <= k < |b| ==> (b + y)[k] == b[k];
    assert x == (a + x)[|a|..] && y == (b + y)[|b|..];
    assert |a| < |b| ==> (a + x)[|a|] == x[0];
  }

  /** Both lists start with the same file, and the rest of them is cut by the same rules. */
  lemma SameFirstFile(l: Limits, input: seq<Entry>, a: seq<File>, b: seq<File>, first: nat)
    requires CutAsTold(l, input, a) && CutAsTold(l, input, b) && |a| > 0 && |b| > 0
    requires OutputsFrom(a, first) && OutputsFrom(b, first)
    requires AllEntries(a) == AllEntries(b) && Sorted(AllEntries(a))
    ensures a[0] == b[0] && AllEntries(a[1..]) == AllEntries(b[1..]) && Sorted(AllEntries(a[1..]))
  {
    hide Stops;
    hide Ended;
    hide Sorted;
    AllEntriesFront(a);
    AllEntriesFront(b);
    FirstNotShorter(l, input, a, b);
    FirstNotShorter(l, input, b, a);
    FrontsMatch(a[0].entries, AllEntries(a[1..]), b[0].entries, AllEntries(b[1..]));
    BackSorted(a[0].entries, AllEntries(a[1..]));
  }

  lemma TailCut(l: Limits, input: seq<Entry>, a: seq<File>, first: nat)
    requires CutAsTold(l, input, a) && OutputsFrom(a, first) && |a| > 0
    ensures CutAsTold(l, input, a[1..]) && OutputsFrom(a[1..], first + 1)
  {
    hide OneFile;
    hide Ended;
  }

  /** The rules for cutting, the entries and the first file number leave one list of files. */
  lemma {:induction false} OneWayToCut(l: Limits, input: seq<Entry>, a: seq<File>, b: seq<File>, first: nat)
    requires CutAsTold(l, input, a) && CutAsTold(l, input, b)
    requires OutputsFrom(a, first) && OutputsFrom(b, first)
    requires AllEntries(a) == AllEntries(b) && Sorted(AllEntries(a))
    ensures a == b
  {
    hide CutAsTold;
    hide Sorted;
    if |a| == 0 || |b| == 0 {
      if |a| > 0 { AllEntriesFront(a); }
      if |b| > 0 { AllEntriesFront(b); }
    } else {
      SameFirstFile(l, input, a, b, first);
      TailCut(l, input, a, first);
      TailCut(l, input, b, first);
      OneWayToCut(l, input, a[1..], b[1..], first + 1);
      assert a == [a[0]] + a[1..] && b == [b[0]] + b[1..];
    }
  }

  lemma BackSorted(es: seq<Entry>, rest: seq<Entry>)
    requires Sorted(es + rest)
    ensures Sorted(rest)
  {
    assert forall i :: 0 <= i < |rest| ==> (es + rest)[|es| + i] == rest[i];
  }
}
