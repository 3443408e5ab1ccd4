/**
 Picking the inputs of a compaction from level `level` to `level + 1`.

 The source closes the `level` inputs under shared boundary user keys, but not the
 `level + 1` inputs.  `SetupOtherInputs` is proved to deliver exactly what
 `GoodInputs` says; what the missing closure costs is settled in `CompactionMeaning`.
 */
module CompactionInputs {
  import opened Entries
  import opened Sequences
  import opened VersionSet

  function MaxKey(a: InternalKey, b: InternalKey): InternalKey {
    if Less(a, b) then b else a
  }

  function MinKey(a: InternalKey, b: InternalKey): InternalKey {
    if Less(b, a) then b else a
  }

  /** The largest key of a nonempty list of files. */
  function MaxLargest(files: seq<File>): InternalKey
    requires |files| > 0
  {
    var n := |files| - 1;
    if n == 0 then files[0].largest else MaxKey(MaxLargest(files[..n]), files[n].largest)
  }

  function MinSmallest(files: seq<File>): InternalKey
    requires |files| > 0
  {
    var n := |files| - 1;
    if n == 0 then files[0].smallest else MinKey(MinSmallest(files[..n]), files[n].smallest)
  }

  /** The hull is spanned by two of the files... */
  lemma {:induction false} HullSpanned(files: seq<File>) returns (p: nat, q: nat)
    requires |files| > 0
    ensures p < |files| && files[p].largest == MaxLargest(files)
    ensures q < |files| && files[q].smallest == MinSmallest(files)
  {
    var n := |files| - 1;
    if n == 0 {
      return 0, 0;
    }
    p, q := HullSpanned(files[..n]);
    p := if MaxLargest(files) == files[n].largest then n else p;
    q := if MinSmallest(files) == files[n].smallest then n else q;
  }

  /** ...and covers them all. */
  lemma {:induction false} HullCovers(files: seq<File>, i: nat)
    requires i < |files|
    ensures LessEq(files[i].largest, MaxLargest(files)) && LessEq(MinSmallest(files), files[i].smallest)
  {
    var n := |files| - 1;
    if i < n {
      HullCovers(files[..n], i);
    }
  }

  method FindLargestKey(files: seq<File>) returns (largest: Option<InternalKey>)
    ensures largest == if |files| == 0 then None else Some(MaxLargest(files))
  {
    if |files| == 0 {
      return None;
    }
    var k := files[0].largest;
    assert files[..1] == [files[0]];
    for i := 1 to |files|
      invariant k == MaxLargest(files[..i])
    {
      assert files[..i + 1][..i] == files[..i];
      if Less(k, files[i].largest) {
        k := files[i].largest;
      }
    }
    assert files[..|files|] == files;
    largest := Some(k);
  }

  /** The user-key hull of a list of files. */
  method GetRange(inputs: seq<File>) returns (smallest: InternalKey, largest: InternalKey)
    requires |inputs| > 0
    ensures smallest == MinSmallest(inputs) && largest == MaxLargest(inputs)
  {
    smallest, largest := inputs[0].smallest, inputs[0].largest;
    assert inputs[..1] == [inputs[0]];
    for i := 1 to |inputs|
      invariant smallest == MinSmallest(inputs[..i]) && largest == MaxLargest(inputs[..i])
    {
      assert inputs[..i + 1][..i] == inputs[..i];
      if Less(inputs[i].smallest, smallest) {
        smallest := inputs[i].smallest;
      }
      if Less(largest, inputs[i].largest) {
        largest := inputs[i].largest;
      }
    }
    assert inputs[..|inputs|] == inputs;
  }

  // ------------------------------------------------------------------------
  // Boundary files

  /** `f` starts after `key` but with the same user key. */
  predicate IsBoundary(f: File, key: InternalKey) {
    Less(key, f.smallest) && f.smallest.user == key.user
  }

  predicate IsSmallestBoundary(level: seq<File>, key: InternalKey, f: File) {
    && f in level && IsBoundary(f, key)
    && forall g :: g in level && IsBoundary(g, key) ==> LessEq(f.smallest, g.smallest)
  }

  method FindSmallestBoundaryFile(level: seq<File>, key: InternalKey) returns (r: Option<File>)
    ensures r.Some? ==> IsSmallestBoundary(level, key, r.value)
    ensures r.None? ==> forall g :: g in level ==> !IsBoundary(g, key)
  {
    r := None;
    for i := 0 to |level|
      invariant r.Some? ==> IsSmallestBoundary(level[..i], key, r.value)
      invariant r.None? ==> forall g :: g in level[..i] ==> !IsBoundary(g, key)
    {
      assert level[..i + 1] == level[..i] + [level[i]];
      var f := level[i];
      if Less(key, f.smallest) && f.smallest.user == key.user {
        if r.None? || Less(f.smallest, r.value.smallest) {
          r := Some(f);
        }
      }
    }
    assert level[..|level|] == level;
  }

  /** Each file added after the first `n` is the nearest boundary file of those before it. */
  predicate BoundaryChain(level: seq<File>, n: nat, result: seq<File>)
    requires 0 < n
  {
    forall k :: n <= k < |result| ==> IsSmallestBoundary(level, MaxLargest(result[..k]), result[k])
  }

  predicate BoundaryClosed(level: seq<File>, result: seq<File>) {
    |result| > 0 ==> forall g :: g in level ==> !IsBoundary(g, MaxLargest(result))
  }

  function StartAfter(level: seq<File>, key: InternalKey): (n: nat) {
    if |level| == 0 then 0
    else StartAfter(level[..|level| - 1], key) + if Less(key, level[|level| - 1].smallest) then 1 else 0
  }

  lemma {:induction false} StartAfterShrinks(level: seq<File>, key: InternalKey, f: File)
    requires RangeOk(f) && Less(key, f.smallest)
    ensures StartAfter(level, f.largest) <= StartAfter(level, key)
    ensures f in level ==> StartAfter(level, f.largest) < StartAfter(level, key)
  {
    assert RangeOk(f);
    if |level| > 0 {
      var n := |level| - 1;
      assert level == level[..n] + [level[n]];
      StartAfterShrinks(level[..n], key, f);
    }
  }

  /** Extends the inputs with boundary files until none is left; terminates because the
      largest key grows past the start of a file each time. */
  method AddBoundaryInputs(level: seq<File>, inputs: seq<File>) returns (result: seq<File>)
    requires RangesOk(level)
    ensures inputs <= result
    ensures |inputs| == 0 ==> result == []
    ensures |inputs| > 0 ==> BoundaryChain(level, |inputs|, result)
    ensures BoundaryClosed(level, result)
  {
    result := inputs;
    var largest := FindLargestKey(inputs);
    if largest.None? {
      return;
    }
    var key := largest.value;
    var continueSearching := true;
    while continueSearching
      invariant inputs <= result && key == MaxLargest(result)
      invariant BoundaryChain(level, |inputs|, result)
      invariant !continueSearching ==> BoundaryClosed(level, result)
      decreases continueSearching, StartAfter(level, key)
    {
      var b := FindSmallestBoundaryFile(level, key);
      if b.Some? {
        StartAfterShrinks(level, key, b.value);
        assert RangeOk(b.value);
        ghost var was := result;
        result := result + [b.value];
        assert result[..|was|] == was;
        assert forall k :: |inputs| <= k < |was| ==> result[..k] == was[..k];
        key := b.value.largest;
      } else {
        continueSearching := false;
      }
    }
  }

  /** On a disjoint level the nearest boundary file is the next file. */
  lemma NextBoundary(level: seq<File>, e: nat, f: File)
    requires RangesOk(level) && Disjoint(level)
    requires 0 < e <= |level| && IsSmallestBoundary(level, level[e - 1].largest, f)
    ensures e < |level| && f == level[e]
  {
    var q :| 0 <= q < |level| && level[q] == f;
    assert RangeOk(f);
    LargestIncreasing(level, e - 1);
    assert q >= e;
    assert RangeOk(level[e]);
    assert Less(level[e - 1].largest, level[e].smallest);
    assert q == e || Less(level[e].largest, level[q].smallest);
    assert q > e ==> level[e] in level && IsBoundary(level[e], level[e - 1].largest);
  }

  /** On a disjoint level, a run of neighbours is extended to a longer run. */
  lemma {:induction false} ChainExtendsRun(level: seq<File>, i: nat, j: nat, result: seq<File>)
    requires RangesOk(level) && Disjoint(level)
    requires i < j <= |level| && level[i..j] <= result
    requires BoundaryChain(level, j - i, result)
    ensures IsRun(level, result, i)
    decreases |result|
  {
    if |result| == j - i {
      assert result == level[i..j];
    } else {
      var m := |result| - 1;
      var init := result[..m];
      assert forall k :: j - i <= k < m ==> result[..k] == init[..k];
      ChainExtendsRun(level, i, j, init);
      RunStep(level, i, init, result[m]);
      Unsnoc(result);
    }
  }

  lemma RunStep(level: seq<File>, i: nat, run: seq<File>, b: File)
    requires RangesOk(level) && Disjoint(level)
    requires |run| > 0 && IsRun(level, run, i) && IsSmallestBoundary(level, MaxLargest(run), b)
    ensures IsRun(level, run + [b], i)
  {
    hide RangesOk;
    hide Disjoint;
    hide MaxLargest;
    hide IsSmallestBoundary;
    var e := i + |run|;
    RunHull(level, i, e);
    NextBoundary(level, e, b);
    SliceSnoc(level, i, e);
  }

  lemma RunHull(level: seq<File>, i: nat, j: nat)
    requires RangesOk(level) && Disjoint(level)
    requires i < j <= |level|
    ensures MaxLargest(level[i..j]) == level[j - 1].largest
    ensures MinSmallest(level[i..j]) == level[i].smallest
  {
    var run := level[i..j];
    var p, q := HullSpanned(run);
    HullCovers(run, j - 1 - i);
    LargestIncreasing(level, i + p);
    HullCovers(run, 0);
    assert RangeOk(level[i]);
    assert q > 0 ==> Less(level[i].largest, run[q].smallest);
  }

  /** `run` is a stretch of neighbours starting at index `i`. */
  ghost predicate IsRun(level: seq<File>, run: seq<File>, i: nat) {
    i + |run| <= |level| && run == level[i..i + |run|]
  }

  lemma {:induction false} FilterSlice(level: seq<File>, lo: Option<UserKey>, hi: Option<UserKey>,
                                       a: nat, b: nat)
    requires a <= b <= |level|
    requires forall i :: 0 <= i < |level| ==> (Overlaps(level[i], lo, hi) <==> a <= i < b)
    ensures OverlapFilter(level, lo, hi) == level[a..b]
  {
    if |level| > 0 {
      var n := |level| - 1;
      var init := level[..n];
      var b' := if b == |level| then n else b;
      var a' := if a == |level| then n else a;
      assert forall i :: 0 <= i < n ==> init[i] == level[i];
      FilterSlice(init, lo, hi, a', b');
      SliceOfPrefix(level, n, a', b');
      assert Overlaps(level[n], lo, hi) <==> a <= n < b;
      if a <= n < b {
        SliceSnoc(level, a, n);
      }
    }
  }

  /** On a disjoint level the files meeting a range are neighbours. */
  lemma FilterIsRun(level: seq<File>, lo: Option<UserKey>, hi: Option<UserKey>) returns (a: nat)
    requires RangesOk(level) && Disjoint(level)
    ensures IsRun(level, OverlapFilter(level, lo, hi), a)
    ensures forall i :: 0 <= i < |level| ==> (Overlaps(level[i], lo, hi) <==> a <= i < a + |OverlapFilter(level, lo, hi)|)
  {
    a := 0;
    while a < |level| && AfterFile(lo, level[a])
      invariant a <= |level| && forall i :: 0 <= i < a ==> AfterFile(lo, level[i])
    {
      a := a + 1;
    }
    var b := a;
    while b < |level| && !BeforeFile(hi, level[b])
      invariant a <= b <= |level| && forall i :: a <= i < b ==> !BeforeFile(hi, level[i])
    {
      b := b + 1;
    }
    forall i | 0 <= i < |level| ensures Overlaps(level[i], lo, hi) <==> a <= i < b {
      assert RangeOk(level[i]);
      if a < |level| { LargestIncreasing(level, a); }
      if b < i { assert RangeOk(level[b]); assert Less(level[b].largest, level[i].smallest); }
    }
    FilterSlice(level, lo, hi, a, b);
  }

  // ------------------------------------------------------------------------
  // Good inputs

  ghost predicate LevelRanges(levels: seq<seq<File>>) {
    && |levels| == NUM_LEVELS
    && (forall l :: 0 <= l < NUM_LEVELS ==> RangesOk(levels[l]))
    && (forall l :: 1 <= l < NUM_LEVELS ==> Disjoint(levels[l]))
    && NoDup(levels[0])
  }

  function HullLo(files: seq<File>): Option<UserKey>
    requires |files| > 0
  {
    Some(MinSmallest(files).user)
  }

  function HullHi(files: seq<File>): Option<UserKey>
    requires |files| > 0
  {
    Some(MaxLargest(files).user)
  }

  /** No file left at level 0 meets the user-key hull of the inputs. */
  ghost predicate OverlapClosed(level: seq<File>, inputs: seq<File>)
    requires |inputs| > 0
  {
    && NoDup(inputs)
    && (forall f :: f in inputs ==> f in level)
    && (forall f :: f in level && f !in inputs ==> !Overlaps(f, HullLo(inputs), HullHi(inputs)))
  }

  /** What the callers of `SetupOtherInputs` start from. */
  ghost predicate StartInputs(levels: seq<seq<File>>, level: nat, inputs: seq<File>)
    requires level < |levels|
  {
    && |inputs| > 0
    && (level == 0 ==> OverlapClosed(levels[0], inputs))
    && (level > 0 ==> exists i: nat :: IsRun(levels[level], inputs, i))
  }

  /** A run of neighbours whose next file begins beyond the run's last user key. */
  ghost predicate ClosedRun(level: seq<File>, inputs: seq<File>, i: nat)
    requires |inputs| > 0
  {
    && IsRun(level, inputs, i)
    && (i + |inputs| < |level| ==> level[i + |inputs|].smallest.user > inputs[|inputs| - 1].largest.user)
  }

  ghost predicate ClosedInputs(levels: seq<seq<File>>, level: nat, inputs: seq<File>)
    requires level < |levels|
  {
    && |inputs| > 0
    && (level == 0 ==> OverlapClosed(levels[0], inputs))
    && (level > 0 ==> exists i: nat :: ClosedRun(levels[level], inputs, i))
  }

  /** The inputs of a compaction: a closed set at `level`, and at `level + 1` the files that
      meet its hull. */
  ghost predicate GoodInputs(levels: seq<seq<File>>, level: nat, inputs0: seq<File>, inputs1: seq<File>)
    requires level + 1 < |levels|
  {
    && ClosedInputs(levels, level, inputs0)
    && inputs1 == OverlapFilter(levels[level + 1], HullLo(inputs0), HullHi(inputs0))
  }

  lemma BoundaryCloses(levels: seq<seq<File>>, level: nat, start: seq<File>, result: seq<File>)
    requires LevelRanges(levels) && level < NUM_LEVELS
    requires StartInputs(levels, level, start) && start <= result
    requires BoundaryChain(levels[level], |start|, result) && BoundaryClosed(levels[level], result)
    ensures ClosedInputs(levels, level, result)
  {
    if level == 0 {
      NoBoundaryOutside(levels[0], start, result);
    } else {
      var i: nat :| IsRun(levels[level], start, i);
      ChainExtendsRun(levels[level], i, i + |start|, result);
      RunIsClosed(levels[level], i, result);
    }
  }

  /** Inputs closed under overlap have no boundary file. */
  lemma NoBoundaryOutside(level: seq<File>, start: seq<File>, result: seq<File>)
    requires RangesOk(level) && |start| > 0 && OverlapClosed(level, start) && start <= result
    requires BoundaryChain(level, |start|, result)
    ensures result == start
  {
    if |result| > |start| {
      var b := result[|start|];
      assert result[..|start|] == start;
      BoundaryInside(level, start, b);
      var q :| 0 <= q < |start| && start[q] == b;
      HullCovers(start, q);
    }
  }

  lemma BoundaryInside(level: seq<File>, start: seq<File>, b: File)
    requires RangesOk(level) && |start| > 0 && OverlapClosed(level, start)
    requires b in level && IsBoundary(b, MaxLargest(start))
    ensures b in start && RangeOk(b)
  {
    HullCovers(start, 0);
    assert start[0] in start && RangeOk(start[0]);
    assert Overlaps(b, HullLo(start), HullHi(start));
  }

  lemma RunIsClosed(level: seq<File>, i: nat, run: seq<File>)
    requires RangesOk(level) && Disjoint(level) && |run| > 0 && IsRun(level, run, i) && BoundaryClosed(level, run)
    ensures ClosedRun(level, run, i)
  {
    var e := i + |run|;
    RunHull(level, i, e);
    if e < |level| {
      assert Less(level[e - 1].largest, level[e].smallest) && level[e] in level;
    }
  }

  /** Level 0: what a closed range meets is closed under overlap. */
  lemma ClosedRangeIsClosed(level: seq<File>, lo: Option<UserKey>, hi: Option<UserKey>)
    requires NoDup(level) && ClosedRange(level, lo, hi) && |OverlapFilter(level, lo, hi)| > 0
    ensures OverlapClosed(level, OverlapFilter(level, lo, hi))
  {
    hide OverlapFilter;
    var r := OverlapFilter(level, lo, hi);
    FilterMembers(level, lo, hi);
    FilterNoDup(level, lo, hi);
    var p, q := HullSpanned(r);
    assert r[p] in r && r[q] in r;
    hide HullLo;
    hide HullHi;
    forall f | f in level && f !in r ensures !Overlaps(f, HullLo(r), HullHi(r)) {
      assert !Overlaps(f, lo, hi);
    }
  }

  function TotalFileSize(files: seq<File>): nat {
    if |files| == 0 then 0 else TotalFileSize(files[..|files| - 1]) + files[|files| - 1].size
  }

  /** The files two levels down that meet the hull of all inputs. */
  function Grandparents(levels: seq<seq<File>>, level: nat, inputs0: seq<File>, inputs1: seq<File>): seq<File>
    requires |levels| == NUM_LEVELS && |inputs0| > 0
  {
    if level + 2 < NUM_LEVELS then
      OverlapFilter(levels[level + 2], HullLo(inputs0 + inputs1), HullHi(inputs0 + inputs1))
    else []
  }

  /** The file begins no later than some input ends and ends no earlier than some input begins. */
  ghost predicate MeetsAny(f: File, inputs: seq<File>) {
    && (exists g :: g in inputs && g.smallest.user <= f.largest.user)
    && (exists h :: h in inputs && f.smallest.user <= h.largest.user)
  }

  lemma MeetsHull(f: File, inputs: seq<File>)
    requires |inputs| > 0
    ensures Overlaps(f, HullLo(inputs), HullHi(inputs)) <==> MeetsAny(f, inputs)
  {
    hide MaxLargest;
    hide MinSmallest;
    var p, q := HullSpanned(inputs);
    assert inputs[p] in inputs && inputs[q] in inputs;
    forall g | g in inputs ensures LessEq(g.largest, MaxLargest(inputs)) && LessEq(MinSmallest(inputs), g.smallest) {
      var i :| 0 <= i < |inputs| && inputs[i] == g;
      HullCovers(inputs, i);
    }
  }

  lemma GrandparentsAre(levels: seq<seq<File>>, level: nat, inputs0: seq<File>, inputs1: seq<File>)
    requires |levels| == NUM_LEVELS && |inputs0| > 0
    ensures level + 2 < NUM_LEVELS ==>
              forall f :: f in Grandparents(levels, level, inputs0, inputs1)
                          <==> f in levels[level + 2] && MeetsAny(f, inputs0 + inputs1)
    ensures level + 2 >= NUM_LEVELS ==> Grandparents(levels, level, inputs0, inputs1) == []
  {
    if level + 2 < NUM_LEVELS {
      hide MeetsAny;
      hide HullLo;
      hide HullHi;
      var all := inputs0 + inputs1;
      FilterMembers(levels[level + 2], HullLo(all), HullHi(all));
      forall f ensures Overlaps(f, HullLo(all), HullHi(all)) <==> MeetsAny(f, all) { MeetsHull(f, all); }
    }
  }

  lemma EndsAt(files: seq<File>, key: InternalKey)
    requires |files| > 0 && key == MaxLargest(files)
    ensures (forall f :: f in files ==> LessEq(f.largest, key)) && exists f :: f in files && f.largest == key
  {
    hide MaxLargest;
    hide MinSmallest;
    var p, q := HullSpanned(files);
    assert files[p] in files;
    forall f | f in files ensures LessEq(f.largest, key) {
      var i :| 0 <= i < |files| && files[i] == f;
      HullCovers(files, i);
    }
  }

  /** Completes the inputs of a compaction, growing the `level` side when that
      brings in no further `level + 1` file. */
  method SetupOtherInputs(levels: seq<seq<File>>, level: nat, start: seq<File>, sizeLimit: int)
    returns (inputs0: seq<File>, inputs1: seq<File>, grandparents: seq<File>, pointer: InternalKey)
    requires LevelRanges(levels) && level + 1 < NUM_LEVELS
    requires StartInputs(levels, level, start)
    ensures GoodInputs(levels, level, inputs0, inputs1)
    ensures forall f :: f in start ==> f in inputs0
    ensures (forall f :: f in inputs0 ==> LessEq(f.largest, pointer)) && exists f :: f in inputs0 && f.largest == pointer
    ensures grandparents == Grandparents(levels, level, inputs0, inputs1)
    ensures level + 2 < NUM_LEVELS ==>
              forall f :: f in grandparents
                          <==> && f in levels[level + 2]
                               && (exists g :: g in inputs0 + inputs1 && g.smallest.user <= f.largest.user)
                               && (exists h :: h in inputs0 + inputs1 && f.smallest.user <= h.largest.user)
  {
    hide MaxLargest;
    hide MinSmallest;
    hide OverlapFilter;
    hide Disjoint;
    hide RangesOk;
    hide Overlaps;
    hide LessEq;
    inputs0 := AddBoundaryInputs(levels[level], start);
    BoundaryCloses(levels, level, start, inputs0);
    hide BoundaryChain;
    hide BoundaryClosed;
    hide StartInputs;
    var smallest, largest := GetRange(inputs0);
    var lo, hi;
    inputs1, lo, hi := GetOverlappingInputs(false, levels[level + 1], Some(smallest.user), Some(largest.user));
    inputs0, inputs1 := TryExpand(levels, level, inputs0, inputs1, sizeLimit);
    grandparents := [];
    if level + 2 < NUM_LEVELS {
      var allStart, allLimit := GetRange(inputs0 + inputs1);
      grandparents, lo, hi := GetOverlappingInputs(false, levels[level + 2], Some(allStart.user), Some(allLimit.user));
    }
    GrandparentsAre(levels, level, inputs0, inputs1);
    smallest, pointer := GetRange(inputs0);
    EndsAt(inputs0, pointer);
  }

  /** The files of the level that meet the hull of both inputs, at level 0 with all that these overlap, closed
      under shared boundary user keys. */
  ghost predicate Widened(levels: seq<seq<File>>, level: nat, inputs0: seq<File>, inputs1: seq<File>, wider: seq<File>)
    requires level < |levels| && |inputs0| > 0
  {
    exists lo, hi :: WidenedIn(levels[level], level, HullLo(inputs0 + inputs1), HullHi(inputs0 + inputs1), lo, hi, wider)
  }

  ghost predicate WidenedIn(files: seq<File>, level: nat, begin: Option<UserKey>, end: Option<UserKey>,
                            lo: Option<UserKey>, hi: Option<UserKey>, wider: seq<File>)
  {
    var plain := OverlapFilter(files, lo, hi);
    && (if level == 0 then ClosedRange(files, lo, hi) && Within(begin, end, lo, hi) && Least(files, begin, end, lo, hi)
        else lo == begin && hi == end)
    && plain <= wider && (|plain| == 0 ==> wider == [])
    && (|plain| > 0 ==> BoundaryChain(files, |plain|, wider)) && BoundaryClosed(files, wider)
  }

  /** Whether the wider inputs are taken: more files, not too many bytes, and no more files below. */
  predicate Worthwhile(levels: seq<seq<File>>, level: nat, inputs0: seq<File>, inputs1: seq<File>, wider: seq<File>,
                       sizeLimit: int)
    requires level + 1 < |levels|
  {
    && |wider| > |inputs0| && TotalFileSize(inputs1) + TotalFileSize(wider) < sizeLimit
    && |OverlapFilter(levels[level + 1], HullLo(wider), HullHi(wider))| == |inputs1|
  }

  lemma InputsMeetHull(levels: seq<seq<File>>, level: nat, inputs0: seq<File>, inputs1: seq<File>,
                       lo: Option<UserKey>, hi: Option<UserKey>)
    requires LevelRanges(levels) && level < NUM_LEVELS && ClosedInputs(levels, level, inputs0)
    requires Within(HullLo(inputs0 + inputs1), HullHi(inputs0 + inputs1), lo, hi)
    ensures forall f :: f in inputs0 ==> f in OverlapFilter(levels[level], lo, hi)
  {
    hide OverlapFilter;
    hide MaxLargest;
    hide MinSmallest;
    var all := inputs0 + inputs1;
    FilterMembers(levels[level], lo, hi);
    forall f | f in inputs0 ensures f in OverlapFilter(levels[level], lo, hi) {
      var i :| 0 <= i < |inputs0| && inputs0[i] == f;
      assert all[i] == f;
      HullCovers(all, i);
      assert f in levels[level];
      var k :| 0 <= k < |levels[level]| && levels[level][k] == f;
      assert RangeOk(levels[level][k]);
    }
  }

  /** Grows the `level` inputs to all that the hull of both sides meets, if that leaves the
      number of `level + 1` inputs alone and stays below the size limit. */
  method TryExpand(levels: seq<seq<File>>, level: nat, inputs0: seq<File>, inputs1: seq<File>, sizeLimit: int)
    returns (wider0: seq<File>, wider1: seq<File>)
    requires LevelRanges(levels) && level + 1 < NUM_LEVELS
    requires GoodInputs(levels, level, inputs0, inputs1)
    ensures GoodInputs(levels, level, wider0, wider1)
    ensures |wider1| == |inputs1|
    ensures forall f :: f in inputs0 ==> f in wider0
    ensures |inputs1| == 0 ==> wider0 == inputs0
    ensures |inputs1| > 0 ==>
              exists wider :: && Widened(levels, level, inputs0, inputs1, wider)
                              && wider0 == if Worthwhile(levels, level, inputs0, inputs1, wider, sizeLimit) then wider else inputs0
  {
    wider0, wider1 := inputs0, inputs1;
    if |inputs1| == 0 {
      return;
    }
    var allStart, allLimit := GetRange(inputs0 + inputs1);
    var plain, lo, hi := GetOverlappingInputs(level == 0, levels[level], Some(allStart.user), Some(allLimit.user));
    var expanded0 := AddBoundaryInputs(levels[level], plain);
    assert WidenedIn(levels[level], level, HullLo(inputs0 + inputs1), HullHi(inputs0 + inputs1), lo, hi, expanded0);
    assert Widened(levels, level, inputs0, inputs1, expanded0);
    InputsMeetHull(levels, level, inputs0, inputs1, lo, hi);
    if |expanded0| > |inputs0| && TotalFileSize(inputs1) + TotalFileSize(expanded0) < sizeLimit {
      ExpandedIsClosed(levels, level, plain, lo, hi, expanded0);
      var newStart, newLimit := GetRange(expanded0);
      var expanded1;
      expanded1, lo, hi := GetOverlappingInputs(false, levels[level + 1], Some(newStart.user), Some(newLimit.user));
      if |expanded1| == |inputs1| {
        wider0, wider1 := expanded0, expanded1;
      }
    }
  }

  lemma ExpandedIsClosed(levels: seq<seq<File>>, level: nat, plain: seq<File>,
                         lo: Option<UserKey>, hi: Option<UserKey>, expanded: seq<File>)
    requires LevelRanges(levels) && level < NUM_LEVELS
    requires plain == OverlapFilter(levels[level], lo, hi)
    requires level == 0 ==> ClosedRange(levels[level], lo, hi)
    requires plain <= expanded && (|plain| == 0 ==> expanded == [])
    requires |plain| > 0 ==> BoundaryChain(levels[level], |plain|, expanded)
    requires BoundaryClosed(levels[level], expanded) && |expanded| > 0
    ensures ClosedInputs(levels, level, expanded)
  {
    if level == 0 {
      ClosedRangeIsClosed(levels[0], lo, hi);
    } else {
      var i := FilterIsRun(levels[level], lo, hi);
    }
    BoundaryCloses(levels, level, plain, expanded);
  }

  /** The file that a seek asked for; else the first that ends beyond the pointer, or the first of all. */
  predicate IsNext(files: seq<File>, pointer: Option<InternalKey>, seekFile: Option<File>, i: int)
    requires 0 <= i < |files|
  {
    if seekFile.Some? then files[i] == seekFile.value
    else if pointer.None? then i == 0
    else
      && (forall j :: 0 <= j < i ==> !Less(pointer.value, files[j].largest))
      && (Less(pointer.value, files[i].largest)
          || (i == 0 && forall j :: 0 <= j < |files| ==> !Less(pointer.value, files[j].largest)))
  }

  ghost predicate AroundIn(files: seq<File>, f: File, lo: Option<UserKey>, hi: Option<UserKey>, start: seq<File>) {
    && start == OverlapFilter(files, lo, hi) && ClosedRange(files, lo, hi)
    && Within(Some(f.smallest.user), Some(f.largest.user), lo, hi)
    && Least(files, Some(f.smallest.user), Some(f.largest.user), lo, hi)
  }

  /** The file alone; at level 0, all that meet the least range around it that no file sticks out of. */
  ghost predicate Around(files: seq<File>, levelZero: bool, f: File, start: seq<File>) {
    if levelZero then exists lo, hi :: AroundIn(files, f, lo, hi, start) else start == [f]
  }

  /** Size compaction: the first file beyond the compaction pointer, wrapping around.
      Seek compaction: the given file.  At level 0, everything that overlaps. */
  method PickStart(levels: seq<seq<File>>, level: nat, pointer: Option<InternalKey>, seekFile: Option<File>)
    returns (start: seq<File>)
    requires LevelRanges(levels) && level < NUM_LEVELS && |levels[level]| > 0
    requires seekFile.Some? ==> seekFile.value in levels[level]
    ensures StartInputs(levels, level, start)
    ensures exists i :: && 0 <= i < |levels[level]| && IsNext(levels[level], pointer, seekFile, i)
                        && Around(levels[level], level == 0, levels[level][i], start)
  {
    var files := levels[level];
    var f: File;
    ghost var at: nat := 0;
    if seekFile.Some? {
      f := seekFile.value;
      at :| 0 <= at < |files| && files[at] == f;
    } else {
      f := files[0];
      for i := 0 to |files|
        invariant f == files[0] && at == 0
        invariant forall j :: 0 <= j < i ==> pointer.Some? && !Less(pointer.value, files[j].largest)
      {
        if pointer.None? || Less(pointer.value, files[i].largest) {
          f := files[i];
          at := i;
          break;
        }
      }
    }
    assert IsNext(files, pointer, seekFile, at) && files[at] == f;
    start := [f];
    if level == 0 {
      var smallest, largest := GetRange(start);
      var lo, hi;
      start, lo, hi := GetOverlappingInputs(true, files, Some(smallest.user), Some(largest.user));
      FilterMembers(files, lo, hi);
      assert RangeOk(f);
      assert Overlaps(f, lo, hi);
      assert f in start;
      assert AroundIn(files, f, lo, hi, start);
      ClosedRangeIsClosed(files, lo, hi);
    } else {
      assert IsRun(files, start, at);
    }
  }

  /** The first `n` files: as few as reach the limit, or all of them. */
  predicate IsCut(all: seq<File>, sizeLimit: nat, n: nat, start: seq<File>) {
    && n <= |all| && start == all[..n]
    && (forall m :: 0 < m < n ==> TotalFileSize(all[..m]) < sizeLimit)
    && (n == |all| || (n > 0 && TotalFileSize(start) >= sizeLimit))
  }

  /** Not too much in one go. */
  method CutShort(all: seq<File>, sizeLimit: nat) returns (start: seq<File>, ghost n: nat)
    requires |all| > 0
    ensures IsCut(all, sizeLimit, n, start) && |start| > 0
  {
    start, n := all, |all|;
    assert all[..|all|] == all;
    var total := 0;
    for i := 0 to |all|
      invariant start == all && n == |all| && total == TotalFileSize(all[..i])
      invariant forall m :: 0 < m <= i ==> TotalFileSize(all[..m]) < sizeLimit
    {
      assert all[..i + 1][..i] == all[..i];
      total := total + all[i].size;
      if total >= sizeLimit {
        return all[..i + 1], i + 1;
      }
    }
  }

  lemma PartOfRun(level: seq<File>, run: seq<File>, i: nat, n: nat)
    requires IsRun(level, run, i) && n <= |run|
    ensures IsRun(level, run[..n], i)
  {
    assert level[i..i + |run|][..n] == level[i..i + n];
  }

  /** A range that has grown is met by some file only if the request was. */
  lemma EmptyRequest(files: seq<File>, begin: Option<UserKey>, end: Option<UserKey>, lo: Option<UserKey>, hi: Option<UserKey>)
    requires Within(begin, end, lo, hi) && lo.Some? == begin.Some? && hi.Some? == end.Some?
    requires (lo == begin && hi == end) || Least(files, begin, end, lo, hi)
    ensures |OverlapFilter(files, lo, hi)| == 0 <==> forall f :: f in files ==> !Overlaps(f, begin, end)
  {
    hide OverlapFilter;
    FilterMembers(files, lo, hi);
    var met := OverlapFilter(files, lo, hi);
    assert |met| > 0 ==> met[0] in met;
    if forall f :: f in files ==> !Overlaps(f, begin, end) {
      assert ClosedRange(files, begin, end);
      assert Within(begin, end, begin, end);
    }
    forall f | f in files && Overlaps(f, begin, end) ensures Overlaps(f, lo, hi) {}
  }

  /** Manual compaction: the files meeting [begin, end], above level 0 cut short at a size limit. */
  method RangeStart(levels: seq<seq<File>>, level: nat, begin: Option<UserKey>, end: Option<UserKey>, sizeLimit: nat)
    returns (start: seq<File>)
    requires LevelRanges(levels) && level < NUM_LEVELS
    ensures |start| > 0 ==> StartInputs(levels, level, start)
    ensures |start| == 0 <==> forall f :: f in levels[level] ==> !Overlaps(f, begin, end)
    ensures level > 0 ==> exists n: nat :: IsCut(OverlapFilter(levels[level], begin, end), sizeLimit, n, start)
    ensures level == 0 ==> exists lo, hi ::
              && start == OverlapFilter(levels[0], lo, hi) && ClosedRange(levels[0], lo, hi)
              && Within(begin, end, lo, hi) && Least(levels[0], begin, end, lo, hi)
  {
    var lo, hi;
    start, lo, hi := GetOverlappingInputs(level == 0, levels[level], begin, end);
    ghost var all := start;
    EmptyRequest(levels[level], begin, end, lo, hi);
    hide OverlapFilter;
    hide Overlaps;
    hide Disjoint;
    hide RangesOk;
    hide ClosedRange;
    hide Least;
    if |start| == 0 {
      assert IsCut(all, sizeLimit, 0, start);
      return;
    }
    if level > 0 {
      ghost var at := FilterIsRun(levels[level], lo, hi);
      ghost var n;
      start, n := CutShort(start, sizeLimit);
      PartOfRun(levels[level], all, at, n);
    } else {
      ClosedRangeIsClosed(levels[0], lo, hi);
    }
  }
}
