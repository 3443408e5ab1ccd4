/**
 How much an output file of a compaction will have to be merged with when its own turn comes.

 The grandparents are the files two levels down that the inputs meet.  No output file reaches beyond
 the inputs, so the bytes that the loop counts are those of the level itself.
 */
module NextLevel {
  import opened Entries
  import opened Sequences
  import opened VersionSet
  import opened CompactionInputs
  import opened CompactionWork
  import opened OutputCuts
  import opened Layers
  import opened Store
  import opened CompactionStep
  import opened CompactionTheorem
  import opened Choices

  /** The files that end at or after `from` and before `to`. */
  function Ending(files: seq<File>, from: InternalKey, to: InternalKey): seq<File> {
    if |files| == 0 then []
    else
      var n := |files| - 1;
      Ending(files[..n], from, to) + if !Less(files[n].largest, from) && Less(files[n].largest, to) then [files[n]] else []
  }

  lemma {:induction false} EndingSlice(files: seq<File>, from: InternalKey, to: InternalKey, a: nat, b: nat)
    requires a <= b <= |files|
    requires forall i :: 0 <= i < |files| ==> (!Less(files[i].largest, from) && Less(files[i].largest, to) <==> a <= i < b)
    ensures Ending(files, from, to) == files[a..b]
  {
    hide Less;
    if |files| > 0 {
      var n := |files| - 1;
      var a', b' := if a == |files| then n else a, if b == |files| then n else b;
      assert forall i :: 0 <= i < n ==> files[..n][i] == files[i];
      EndingSlice(files[..n], from, to, a', b');
      SliceOfPrefix(files, n, a', b');
      if a <= n < b { SliceSnoc(files, a, n); }
    }
  }

  /** On a sorted level `Passed` leaves no file behind that ends before the key. */
  lemma PassedAll(files: seq<File>, key: InternalKey)
    requires RangesOk(files) && Disjoint(files)
    ensures forall i :: 0 <= i < |files| ==> (Less(files[i].largest, key) <==> i < Passed(files, key))
  {
    var n := Passed(files, key);
    if n < |files| { LargestIncreasing(files, n); }
  }

  lemma EndingIsBetween(files: seq<File>, from: InternalKey, to: InternalKey)
    requires RangesOk(files) && Disjoint(files) && LessEq(from, to)
    ensures Ending(files, from, to) == Between(files, from, to)
  {
    hide Less;
    PassedAll(files, from);
    PassedAll(files, to);
    PassedGrows(files, from, to);
    EndingSlice(files, from, to, Passed(files, from), Passed(files, to));
  }

  /** The files from `a` on, `n` of them, are those that meet the range. */
  ghost predicate Meet(files: seq<File>, lo: UserKey, hi: UserKey, a: nat, n: nat) {
    && a + n <= |files|
    && forall i :: 0 <= i < |files| ==> (Overlaps(files[i], Some(lo), Some(hi)) <==> a <= i < a + n)
  }

  lemma FilterMeets(files: seq<File>, lo: UserKey, hi: UserKey) returns (a: nat)
    requires RangesOk(files) && Disjoint(files)
    ensures var run := OverlapFilter(files, Some(lo), Some(hi));
            a + |run| <= |files| && Meet(files, lo, hi, a, |run|) && run == files[a..a + |run|]
  {
    a := FilterIsRun(files, Some(lo), Some(hi));
  }

  lemma BesideRange(files: seq<File>, lo: UserKey, hi: UserKey, a: nat, n: nat, i: nat)
    requires RangesOk(files) && Disjoint(files) && Meet(files, lo, hi, a, n) && n > 0 && i < |files|
    ensures i < a ==> files[i].largest.user < lo
    ensures i >= a + n ==> hi < files[i].smallest.user
  {
    assert RangeOk(files[i]) && Overlaps(files[a], Some(lo), Some(hi));
    if i < a {
      assert Less(files[i].largest, files[a].smallest);
    } else if i >= a + n {
      assert Less(files[a].largest, files[i].smallest);
    }
  }

  /** What a key within the range has passed among the files that meet it, it has passed in the level. */
  lemma EndsBefore(files: seq<File>, lo: UserKey, hi: UserKey, a: nat, n: nat, key: InternalKey, m: nat, i: nat)
    requires RangesOk(files) && Disjoint(files) && Meet(files, lo, hi, a, n) && n > 0 && lo <= key.user <= hi
    requires m <= n && i < |files|
    requires forall j :: a <= j < a + m ==> Less(files[j].largest, key)
    requires m < n ==> !Less(files[a + m].largest, key)
    ensures i < a + m ==> Less(files[i].largest, key)
    ensures i == a + m ==> !Less(files[i].largest, key)
  {
    BesideRange(files, lo, hi, a, n, i);
    assert RangeOk(files[i]);
  }

  lemma PassedWithin(files: seq<File>, a: nat, n: nat, key: InternalKey)
    requires a + n <= |files|
    ensures var m := Passed(files[a..a + n], key);
            && m <= n && (forall j :: a <= j < a + m ==> Less(files[j].largest, key))
            && (m < n ==> !Less(files[a + m].largest, key))
  {
    hide Less;
    var run := files[a..a + n];
    var m := Passed(run, key);
    forall j | a <= j < a + m ensures Less(files[j].largest, key) {
      assert files[j] == run[j - a];
    }
  }

  /** Counting in the files that meet a range, for keys within it, is counting in the whole level. */
  lemma PassedInRange(files: seq<File>, lo: UserKey, hi: UserKey, a: nat, n: nat, key: InternalKey)
    requires RangesOk(files) && Disjoint(files) && Meet(files, lo, hi, a, n) && n > 0 && a + n <= |files|
    requires lo <= key.user <= hi
    ensures Passed(files, key) == a + Passed(files[a..a + n], key)
  {
    hide Passed;
    hide Less;
    hide RangesOk;
    hide Disjoint;
    hide Meet;
    PassedWithin(files, a, n, key);
    var m := Passed(files[a..a + n], key);
    forall i | 0 <= i < |files|
      ensures i < a + m ==> Less(files[i].largest, key)
      ensures i == a + m ==> !Less(files[i].largest, key)
    {
      EndsBefore(files, lo, hi, a, n, key, m, i);
    }
    PassedOnly(files, key, a + m);
  }

  /** When the level has no file within the range, none ends between two keys of it. */
  lemma NonePassed(files: seq<File>, lo: UserKey, hi: UserKey, a: nat, from: InternalKey, to: InternalKey)
    requires RangesOk(files) && Meet(files, lo, hi, a, 0)
    requires LessEq(from, to) && lo <= from.user && to.user <= hi
    ensures Passed(files, to) == Passed(files, from)
  {
    var p := Passed(files, from);
    if p < |files| {
      assert RangeOk(files[p]) && !Overlaps(files[p], Some(lo), Some(hi));
    }
    PassedOnly(files, to, p);
  }

  lemma SameBytes(files: seq<File>, lo: UserKey, hi: UserKey, from: InternalKey, to: InternalKey)
    requires RangesOk(files) && Disjoint(files) && LessEq(from, to) && lo <= from.user && to.user <= hi
    ensures Between(files, from, to) == Between(OverlapFilter(files, Some(lo), Some(hi)), from, to)
  {
    hide OverlapFilter;
    hide Passed;
    hide Disjoint;
    hide RangesOk;
    hide Meet;
    var run := OverlapFilter(files, Some(lo), Some(hi));
    var a := FilterMeets(files, lo, hi);
    PassedGrows(run, from, to);
    if |run| == 0 {
      NonePassed(files, lo, hi, a, from, to);
    } else {
      PassedInRange(files, lo, hi, a, |run|, from);
      PassedInRange(files, lo, hi, a, |run|, to);
      SubSlice(files, a, |run|, Passed(run, from), Passed(run, to));
    }
  }

  lemma SubSlice(files: seq<File>, a: nat, n: nat, p: nat, q: nat)
    requires a + n <= |files| && p <= q <= n
    ensures files[a..a + n][p..q] == files[a + p..a + q]
  {
    var x, y := files[a..a + n][p..q], files[a + p..a + q];
    assert forall k :: 0 <= k < |x| ==> x[k] == y[k];
  }

  // ------------------------------------------------------------------------
  // The outputs of a compaction

  lemma InputInHull(st: State, level: nat, in0: seq<File>, in1: seq<File>, e: Entry)
    requires LevelsOk(st.levels, st.nextFile) && level + 1 < NUM_LEVELS && GoodInputs(st.levels, level, in0, in1)
    requires e in Contents(in0) + Contents(in1)
    ensures HullLo(in0 + in1).value <= e.key.user <= HullHi(in0 + in1).value
  {
    hide MaxLargest;
    hide MinSmallest;
    hide GoodInputs;
    var all := in0 + in1;
    InputsInLevels(st.levels, level, in0, in1);
    var g :| g in all && e in g.entries;
    var q :| 0 <= q < |all| && all[q] == g;
    assert g in st.levels[level] || g in st.levels[level + 1];
    assert FileOk(g, st.nextFile);
    EntryInRange(g, e);
    HullCovers(all, q);
  }

  /** No output file reaches beyond the inputs. */
  lemma OutputInHull(st: State, level: nat, in0: seq<File>, in1: seq<File>, input: seq<Entry>, outputs: seq<File>, f: File)
    returns (a: nat, b: nat)
    requires Inv(st) && level + 1 < NUM_LEVELS && GoodInputs(st.levels, level, in0, in1)
    requires CompactionOutput(st, level, in0, in1, input, outputs) && f in outputs
    ensures HullLo(in0 + in1).value <= f.smallest.user && f.largest.user <= HullHi(in0 + in1).value
    ensures a <= b < |input| && input[a].key == f.smallest && input[b].key == f.largest
  {
    CompactionOutputOk(st, level, in0, in1, input, outputs);
    hide GoodInputs;
    hide LayersOk;
    hide KeptUpTo;
    hide HullLo;
    hide HullHi;
    assert FileOk(f, st.nextFile + |outputs|);
    a := PlaceInInput(in0, in1, input, outputs, f, 0);
    b := PlaceInInput(in0, in1, input, outputs, f, |f.entries| - 1);
    InputInHull(st, level, in0, in1, input[a]);
    InputInHull(st, level, in0, in1, input[b]);
    EntryInRange(f, input[a]);
  }

  lemma PlaceInInput(in0: seq<File>, in1: seq<File>, input: seq<Entry>, outputs: seq<File>, f: File, k: nat)
    returns (i: nat)
    requires f in outputs && k < |f.entries| && Contents(outputs) <= Contents(in0) + Contents(in1)
    requires Elements(input) == Contents(in0) + Contents(in1)
    ensures i < |input| && input[i] == f.entries[k] && input[i] in Contents(in0) + Contents(in1)
  {
    var e := f.entries[k];
    assert e in f.entries && e in Contents(outputs);
    assert e in Elements(input);
    i :| 0 <= i < |input| && input[i] == e;
  }

  /** Each file two levels down that an output file meets is one of the grandparents... */
  lemma MetIsCounted(st: State, level: nat, in0: seq<File>, in1: seq<File>, input: seq<Entry>, outputs: seq<File>,
                     f: File, g: File)
    requires Inv(st) && level + 2 < NUM_LEVELS && GoodInputs(st.levels, level, in0, in1)
    requires CompactionOutput(st, level, in0, in1, input, outputs) && f in outputs
    requires g in st.levels[level + 2] && g.smallest.user <= f.largest.user && f.smallest.user <= g.largest.user
    ensures g in Grandparents(st.levels, level, in0, in1)
  {
    assert |st.levels| == NUM_LEVELS && |in0| > 0;
    hide GoodInputs;
    hide CompactionOutput;
    hide Inv;
    var a, b := OutputInHull(st, level, in0, in1, input, outputs, f);
    var all := in0 + in1;
    FilterMembers(st.levels[level + 2], HullLo(all), HullHi(all));
  }

  /** ...so that what an output file passes of that level is within the limit. */
  lemma OutputIsBounded(st: State, level: nat, in0: seq<File>, in1: seq<File>, input: seq<Entry>, outputs: seq<File>,
                        o: Options, f: File)
    requires Inv(st) && level + 2 < NUM_LEVELS && GoodInputs(st.levels, level, in0, in1)
    requires CompactionOutput(st, level, in0, in1, input, outputs) && f in outputs
    requires CutAsTold(LimitsOf(st.levels, level, in0, in1, o), input, outputs)
    ensures TotalFileSize(Ending(st.levels[level + 2], f.smallest, f.largest)) <= o.overlap
  {
    var l := LimitsOf(st.levels, level, in0, in1, o);
    assert Sorted(input);
    LevelsHaveRanges(st.levels, st.nextFile);
    hide GoodInputs;
    hide CompactionOutput;
    hide LayersOk;
    var a, b := OutputInHull(st, level, in0, in1, input, outputs, f);
    assert LessEq(f.smallest, f.largest);
    assert OneFile(l, input, f);
    OverlapIsBounded(l, input, f, a, b);
    hide OneFile;
    hide CutAsTold;
    hide Less;
    SameBytes(st.levels[level + 2], HullLo(in0 + in1).value, HullHi(in0 + in1).value, f.smallest, f.largest);
    EndingIsBetween(st.levels[level + 2], f.smallest, f.largest);
  }

  lemma OutputsAreBounded(st: State, level: nat, in0: seq<File>, in1: seq<File>, input: seq<Entry>, outputs: seq<File>,
                          o: Options)
    requires Inv(st) && level + 1 < NUM_LEVELS && GoodInputs(st.levels, level, in0, in1)
    requires CompactionOutput(st, level, in0, in1, input, outputs)
    requires CutAsTold(LimitsOf(st.levels, level, in0, in1, o), input, outputs)
    ensures level + 2 < NUM_LEVELS ==>
              forall f :: f in outputs ==> TotalFileSize(Ending(st.levels[level + 2], f.smallest, f.largest)) <= o.overlap
  {
    assert |st.levels| == NUM_LEVELS;
    hide Inv;
    hide GoodInputs;
    hide CompactionOutput;
    hide CutAsTold;
    hide LimitsOf;
    if level + 2 < NUM_LEVELS {
      forall f | f in outputs
        ensures TotalFileSize(Ending(st.levels[level + 2], f.smallest, f.largest)) <= o.overlap
      {
        OutputIsBounded(st, level, in0, in1, input, outputs, o, f);
      }
    }
  }

  // ------------------------------------------------------------------------
  // Moves

  /** The files whose user keys reach those of `f`. */
  function Meeting(files: seq<File>, f: File): seq<File> {
    if |files| == 0 then []
    else
      var g := files[|files| - 1];
      Meeting(files[..|files| - 1], f)
      + if g.smallest.user <= f.largest.user && f.smallest.user <= g.largest.user then [g] else []
  }

  lemma {:induction false} MeetingIsFilter(files: seq<File>, f: File)
    ensures Meeting(files, f) == OverlapFilter(files, HullLo([f]), HullHi([f]))
  {
    if |files| > 0 { MeetingIsFilter(files[..|files| - 1], f); }
  }

  /** A lone input with nothing below it is moved exactly when what it will meet after the move is within the limit. */
  lemma MoveIsBounded(levels: seq<seq<File>>, level: nat, f: File, in1: seq<File>, o: Options)
    requires |levels| == NUM_LEVELS && level + 1 < NUM_LEVELS && GoodInputs(levels, level, [f], in1)
    ensures IsTrivialMove(levels, level, [f], in1, o)
            <==> && Meeting(levels[level + 1], f) == []
                 && (level + 2 < NUM_LEVELS ==> TotalFileSize(Meeting(levels[level + 2], f)) <= o.overlap)
  {
    hide OverlapFilter;
    hide ClosedInputs;
    hide Meeting;
    MeetingIsFilter(levels[level + 1], f);
    if level + 2 < NUM_LEVELS {
      MeetingIsFilter(levels[level + 2], f);
      assert in1 == [] ==> [f] + in1 == [f];
    } else {
      assert TotalFileSize([]) == 0;
    }
  }
}
