/**
 The level structure: table files, their ranges, and how the inputs of a
 compaction are picked.
 */
module VersionSet {
  import opened Entries
  import opened Sequences

  const NUM_LEVELS := 7

  /** A table file: its number, byte size, key range and (on disk) its entries. */
  datatype File = File(number: nat, size: nat, smallest: InternalKey, largest: InternalKey,
                       entries: seq<Entry>)

  predicate RangeOk(f: File) {
    LessEq(f.smallest, f.largest) && f.largest.seqNo <= MAX_SEQUENCE
  }

  predicate RangesOk(fs: seq<File>) {
    forall i :: 0 <= i < |fs| ==> RangeOk(fs[i])
  }

  /** The recorded range is that of the entries, which are in key order. */
  ghost predicate WellFormedFile(f: File) {
    && |f.entries| > 0
    && Sorted(f.entries)
    && f.smallest == f.entries[0].key
    && f.largest == f.entries[|f.entries| - 1].key
    && f.largest.seqNo <= MAX_SEQUENCE
  }

  /** Files in key order with ranges that do not meet, as in every level above 0.
      Neighbours may share a boundary user key. */
  ghost predicate Disjoint(fs: seq<File>) {
    forall i, j :: 0 <= i < j < |fs| ==> Less(fs[i].largest, fs[j].smallest)
  }

  predicate NoDup(fs: seq<File>) {
    forall i, j :: 0 <= i < j < |fs| ==> fs[i] != fs[j]
  }

  ghost function Contents(fs: seq<File>): set<Entry> {
    set f, e | f in fs && e in f.entries :: e
  }

  lemma EntryInRange(f: File, e: Entry)
    requires WellFormedFile(f) && e in f.entries
    ensures LessEq(f.smallest, e.key) && LessEq(e.key, f.largest)
  {
    var k :| 0 <= k < |f.entries| && f.entries[k] == e;
    assert k == 0 || Less(f.entries[0].key, f.entries[k].key);
    assert k == |f.entries| - 1 || Less(f.entries[k].key, f.entries[|f.entries| - 1].key);
  }

  lemma RangeIsOk(f: File)
    requires WellFormedFile(f)
    ensures RangeOk(f)
  {
    EntryInRange(f, f.entries[0]);
  }

  // ------------------------------------------------------------------------
  // Searching a level

  /** The first file whose largest key is at or after `key`. */
  method FindFile(files: seq<File>, key: InternalKey) returns (right: nat)
    requires RangesOk(files) && Disjoint(files)
    ensures right <= |files|
    ensures forall i :: 0 <= i < right ==> Less(files[i].largest, key)
    ensures forall i :: right <= i < |files| ==> !Less(files[i].largest, key)
  {
    var left := 0;
    right := |files|;
    while left < right
      invariant 0 <= left <= right <= |files|
      invariant forall i :: 0 <= i < left ==> Less(files[i].largest, key)
      invariant forall i :: right <= i < |files| ==> !Less(files[i].largest, key)
    {
      var mid := (left + right) / 2;
      var f := files[mid];
      LargestIncreasing(files, mid);
      if Less(f.largest, key) {
        left := mid + 1;
      } else {
        right := mid;
      }
    }
  }

  lemma LargestIncreasing(files: seq<File>, m: nat)
    requires RangesOk(files) && Disjoint(files) && m < |files|
    ensures forall i :: 0 <= i < m ==> Less(files[i].largest, files[m].largest)
    ensures forall i :: m < i < |files| ==> Less(files[m].largest, files[i].largest)
  {
    assert RangeOk(files[m]);
  }

  lemma InOrder(files: seq<File>, f: File, g: File)
    requires Disjoint(files) && f in files && g in files && f != g
    ensures Less(f.largest, g.smallest) || Less(g.largest, f.smallest)
  {
    var q :| 0 <= q < |files| && files[q] == f;
    var p :| 0 <= p < |files| && files[p] == g;
  }

  /** An absent bound stands for the end of the key space. */
  predicate AfterFile(bound: Option<UserKey>, f: File) {
    bound.Some? && bound.value > f.largest.user
  }

  predicate BeforeFile(bound: Option<UserKey>, f: File) {
    bound.Some? && bound.value < f.smallest.user
  }

  predicate Overlaps(f: File, lo: Option<UserKey>, hi: Option<UserKey>) {
    !AfterFile(lo, f) && !BeforeFile(hi, f)
  }

  method SomeFileOverlapsRange(disjointSorted: bool, files: seq<File>,
                               lo: Option<UserKey>, hi: Option<UserKey>) returns (overlap: bool)
    requires RangesOk(files)
    requires disjointSorted ==> Disjoint(files)
    ensures overlap <==> exists f :: f in files && Overlaps(f, lo, hi)
  {
    if !disjointSorted {
      for i := 0 to |files|
        invariant forall k :: 0 <= k < i ==> !Overlaps(files[k], lo, hi)
      {
        if AfterFile(lo, files[i]) || BeforeFile(hi, files[i]) {
        } else {
          assert files[i] in files && Overlaps(files[i], lo, hi);
          return true;
        }
      }
      return false;
    }
    var index := 0;
    if lo.Some? {
      index := FindFile(files, InternalKey(lo.value, MAX_SEQUENCE, SEEK_KIND));
    }
    assert forall i :: 0 <= i < index ==> AfterFile(lo, files[i]);
    if index >= |files| {
      return false;
    }
    overlap := !BeforeFile(hi, files[index]);
    if overlap {
      assert files[index] in files && Overlaps(files[index], lo, hi);
    } else {
      forall i | index <= i < |files| ensures BeforeFile(hi, files[i]) {
        if i > index { assert Less(files[index].largest, files[i].smallest); }
      }
    }
  }

  // ------------------------------------------------------------------------
  // Overlapping inputs

  function OverlapFilter(files: seq<File>, lo: Option<UserKey>, hi: Option<UserKey>): seq<File> {
    if |files| == 0 then []
    else
      var n := |files| - 1;
      OverlapFilter(files[..n], lo, hi) + if Overlaps(files[n], lo, hi) then [files[n]] else []
  }

  lemma {:induction false} FilterMembers(files: seq<File>, lo: Option<UserKey>, hi: Option<UserKey>)
    ensures forall f :: f in OverlapFilter(files, lo, hi) <==> f in files && Overlaps(f, lo, hi)
  {
    if |files| > 0 {
      var n := |files| - 1;
      assert files == files[..n] + [files[n]];
      FilterMembers(files[..n], lo, hi);
    }
  }

  lemma {:induction false} FilterNoDup(files: seq<File>, lo: Option<UserKey>, hi: Option<UserKey>)
    requires NoDup(files)
    ensures NoDup(OverlapFilter(files, lo, hi))
  {
    if |files| > 0 {
      var n := |files| - 1;
      FilterNoDup(files[..n], lo, hi);
      FilterMembers(files[..n], lo, hi);
      assert files[n] !in files[..n];
    }
  }

  predicate FitsIn(f: File, lo: Option<UserKey>, hi: Option<UserKey>) {
    && (lo.Some? ==> lo.value <= f.smallest.user)
    && (hi.Some? ==> f.largest.user <= hi.value)
  }

  /** Every file that meets the range lies inside it. */
  predicate ClosedRange(files: seq<File>, lo: Option<UserKey>, hi: Option<UserKey>) {
    forall k :: 0 <= k < |files| ==> Overlaps(files[k], lo, hi) ==> FitsIn(files[k], lo, hi)
  }

  predicate Within(lo: Option<UserKey>, hi: Option<UserKey>, lo': Option<UserKey>, hi': Option<UserKey>) {
    && (lo'.Some? ==> lo.Some? && lo'.value <= lo.value)
    && (hi'.Some? ==> hi.Some? && hi.value <= hi'.value)
  }

  /** Files whose range reaches below `lo` or above `hi`: what an expansion uses up. */
  function Outside(files: seq<File>, lo: Option<UserKey>, hi: Option<UserKey>): (n: nat) {
    if |files| == 0 then 0
    else
      var f := files[|files| - 1];
      Outside(files[..|files| - 1], lo, hi)
      + (if lo.Some? && f.smallest.user < lo.value then 1 else 0)
      + (if hi.Some? && f.largest.user > hi.value then 1 else 0)
  }

  lemma {:induction false} OutsideShrinks(files: seq<File>, lo: Option<UserKey>, hi: Option<UserKey>,
                                          lo': Option<UserKey>, hi': Option<UserKey>)
    requires Within(lo, hi, lo', hi') && (lo.Some? ==> lo'.Some?) && (hi.Some? ==> hi'.Some?)
    ensures Outside(files, lo', hi') <= Outside(files, lo, hi)
    ensures (exists f :: f in files && lo.Some? && lo'.value <= f.smallest.user < lo.value) ==>
              Outside(files, lo', hi') < Outside(files, lo, hi)
    ensures (exists f :: f in files && hi.Some? && hi.value < f.largest.user <= hi'.value) ==>
              Outside(files, lo', hi') < Outside(files, lo, hi)
  {
    if |files| > 0 {
      var n := |files| - 1;
      assert files == files[..n] + [files[n]];
      OutsideShrinks(files[..n], lo, hi, lo', hi');
    }
  }

  lemma ScanStep(files: seq<File>, i: nat, lo: Option<UserKey>, hi: Option<UserKey>)
    requires i < |files|
    ensures OverlapFilter(files[..i + 1], lo, hi)
            == OverlapFilter(files[..i], lo, hi) + if Overlaps(files[i], lo, hi) then [files[i]] else []
    ensures ClosedRange(files[..i], lo, hi) && (Overlaps(files[i], lo, hi) ==> FitsIn(files[i], lo, hi)) ==>
              ClosedRange(files[..i + 1], lo, hi)
  {
    PrefixSnoc(files, i);
  }

  /** [lo, hi] lies within every closed range around [begin, end]. */
  ghost predicate Least(files: seq<File>, begin: Option<UserKey>, end: Option<UserKey>,
                        lo: Option<UserKey>, hi: Option<UserKey>)
  {
    forall lo', hi' :: ClosedRange(files, lo', hi') && Within(begin, end, lo', hi') ==> Within(lo, hi, lo', hi')
  }

  /** Growing the range to take in a file that meets it stays within the least closed range,
      and can happen only so often. */
  lemma ExpandRange(files: seq<File>, k: nat, f: File, begin: Option<UserKey>, end: Option<UserKey>,
                    lo: Option<UserKey>, hi: Option<UserKey>, lo': Option<UserKey>, hi': Option<UserKey>)
    requires k < |files| && f == files[k] && RangeOk(f) && Overlaps(f, lo, hi)
    requires Least(files, begin, end, lo, hi)
    requires (lo.Some? && f.smallest.user < lo.value && lo' == Some(f.smallest.user) && hi' == hi)
             || (hi.Some? && f.largest.user > hi.value && hi' == Some(f.largest.user) && lo' == lo)
    ensures Least(files, begin, end, lo', hi')
    ensures Outside(files, lo', hi') < Outside(files, lo, hi)
  {
    OutsideShrinks(files, lo, hi, lo', hi');
    forall lo2, hi2 | ClosedRange(files, lo2, hi2) && Within(begin, end, lo2, hi2)
      ensures Within(lo', hi', lo2, hi2)
    {
      assert Within(lo, hi, lo2, hi2);
      assert Overlaps(f, lo2, hi2);
    }
  }

  /** All files of a level that meet [begin, end].  At level 0 the range grows with each
      file it meets and the scan restarts, so the result is what the least closed range meets. */
  method GetOverlappingInputs(levelZero: bool, files: seq<File>,
                              begin: Option<UserKey>, end: Option<UserKey>)
    returns (inputs: seq<File>, lo: Option<UserKey>, hi: Option<UserKey>)
    requires RangesOk(files)
    ensures inputs == OverlapFilter(files, lo, hi)
    ensures Within(begin, end, lo, hi) && lo.Some? == begin.Some? && hi.Some? == end.Some?
    ensures !levelZero ==> lo == begin && hi == end
    ensures levelZero ==> ClosedRange(files, lo, hi) && Least(files, begin, end, lo, hi)
  {
    inputs, lo, hi := [], begin, end;
    var i := 0;
    while i < |files|
      invariant 0 <= i <= |files|
      invariant inputs == OverlapFilter(files[..i], lo, hi)
      invariant Within(begin, end, lo, hi) && lo.Some? == begin.Some? && hi.Some? == end.Some?
      invariant !levelZero ==> lo == begin && hi == end
      invariant levelZero ==> ClosedRange(files[..i], lo, hi) && Least(files, begin, end, lo, hi)
      decreases Outside(files, lo, hi), |files| - i
    {
      var f := files[i];
      ScanStep(files, i, lo, hi);
      i := i + 1;
      if lo.Some? && f.largest.user < lo.value {
      } else if hi.Some? && f.smallest.user > hi.value {
      } else {
        inputs := inputs + [f];
        if levelZero {
          if lo.Some? && f.smallest.user < lo.value {
            ExpandRange(files, i - 1, f, begin, end, lo, hi, Some(f.smallest.user), hi);
            lo := Some(f.smallest.user);
            inputs, i := [], 0;
          } else if hi.Some? && f.largest.user > hi.value {
            ExpandRange(files, i - 1, f, begin, end, lo, hi, lo, Some(f.largest.user));
            hi := Some(f.largest.user);
            inputs, i := [], 0;
          }
        }
      }
    }
    assert files[..i] == files;
  }
}
