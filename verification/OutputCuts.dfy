/**
 Where a compaction ends one output file and starts the next.

 A file ends when its table is big enough, or when the keys since the last such stop have passed
 too many bytes of grandparents.  The rules are stated here on the merged input alone, without the
 loop's counters; they leave only one way to cut.
 */
module OutputCuts {
  import opened Entries
  import opened Sequences
  import opened VersionSet
  import opened CompactionInputs

  /** `sizeOf` is the size the table builder reports for the entries added so far. */
  datatype Limits = Limits(grandparents: seq<File>, overlap: nat, size: nat, sizeOf: seq<Entry> -> nat)

  /** How many of the files end before `key`, counted from the front. */
  function Passed(files: seq<File>, key: InternalKey): (r: nat)
    ensures r <= |files|
    ensures forall i :: 0 <= i < r ==> Less(files[i].largest, key)
    ensures r < |files| ==> !Less(files[r].largest, key)
  {
    if |files| == 0 || !Less(files[0].largest, key) then 0 else 1 + Passed(files[1..], key)
  }

  /** The files that end between the two keys. */
  function Between(files: seq<File>, from: InternalKey, to: InternalKey): seq<File> {
    var a, b := Passed(files, from), Passed(files, to);
    if a <= b then files[a..b] else []
  }

  /** The last stop up to `i`, or the front. */
  function Since(l: Limits, input: seq<Entry>, i: nat): (r: nat)
    requires i < |input|
    ensures r <= i
    decreases i, 1
  {
    if i == 0 then 0 else if Stops(l, input, i) then i else Since(l, input, i - 1)
  }

  /** The grandparents passed since the last stop are too large. */
  predicate Stops(l: Limits, input: seq<Entry>, i: nat)
    requires i < |input|
    decreases i, 0
  {
    i > 0 && TotalFileSize(Between(l.grandparents, input[Since(l, input, i - 1)].key, input[i].key)) > l.overlap
  }

  ghost predicate NoStopWithin(l: Limits, input: seq<Entry>, from: InternalKey, to: InternalKey) {
    forall i: nat :: i < |input| && Less(from, input[i].key) && LessEq(input[i].key, to) ==> !Stops(l, input, i)
  }

  /** Until its last entry the file was not big enough, and nothing told it to stop. */
  ghost predicate OneFile(l: Limits, input: seq<Entry>, f: File) {
    && |f.entries| > 0 && f.smallest == f.entries[0].key && f.largest == f.entries[|f.entries| - 1].key
    && f.size == l.sizeOf(f.entries)
    && (forall k :: 0 < k < |f.entries| ==> l.sizeOf(f.entries[..k]) < l.size)
    && NoStopWithin(l, input, f.smallest, f.largest)
  }

  /** The file is big enough, or a stop follows before `to`. */
  ghost predicate Ended(l: Limits, input: seq<Entry>, f: File, to: InternalKey) {
    || l.sizeOf(f.entries) >= l.size
    || exists i: nat :: i < |input| && Less(f.largest, input[i].key) && LessEq(input[i].key, to) && Stops(l, input, i)
  }

  ghost predicate CutAsTold(l: Limits, input: seq<Entry>, outputs: seq<File>) {
    && (forall k :: 0 <= k < |outputs| ==> OneFile(l, input, outputs[k]))
    && (forall k :: 0 < k < |outputs| ==> Ended(l, input, outputs[k - 1], outputs[k].smallest))
  }

  // ------------------------------------------------------------------------
  // What the rules give

  lemma {:induction false} PassedGrows(files: seq<File>, a: InternalKey, b: InternalKey)
    requires LessEq(a, b)
    ensures Passed(files, a) <= Passed(files, b)
  {
    if |files| > 0 && Less(files[0].largest, a) {
      PassedGrows(files[1..], a, b);
    }
  }

  lemma {:induction false} TotalOfTwo(a: seq<File>, b: seq<File>)
    ensures TotalFileSize(a + b) == TotalFileSize(a) + TotalFileSize(b)
  {
    if |b| == 0 {
      assert a + b == a;
    } else {
      TotalOfTwo(a, b[..|b| - 1]);
      assert (a + b)[..|a + b| - 1] == a + b[..|b| - 1];
    }
  }

  lemma BetweenSplits(files: seq<File>, a: InternalKey, b: InternalKey, c: InternalKey)
    requires LessEq(a, b) && LessEq(b, c)
    ensures TotalFileSize(Between(files, a, c)) == TotalFileSize(Between(files, a, b)) + TotalFileSize(Between(files, b, c))
  {
    PassedGrows(files, a, b);
    PassedGrows(files, b, c);
    var x, y, z := Passed(files, a), Passed(files, b), Passed(files, c);
    assert files[x..z] == files[x..y] + files[y..z];
    TotalOfTwo(files[x..y], files[y..z]);
  }

  lemma {:induction false} SinceHolds(l: Limits, input: seq<Entry>, a: nat, b: nat)
    requires a <= b < |input| && forall i :: a < i <= b ==> !Stops(l, input, i)
    ensures Since(l, input, b) == Since(l, input, a)
    decreases b
  {
    if a < b {
      SinceHolds(l, input, a, b - 1);
    }
  }

  lemma Within(l: Limits, input: seq<Entry>, a: nat, b: nat)
    requires Sorted(input) && a <= b < |input| && NoStopWithin(l, input, input[a].key, input[b].key)
    ensures forall i :: a < i <= b ==> !Stops(l, input, i)
  {
    hide Stops;
    forall i | a < i <= b ensures !Stops(l, input, i) {
      assert Less(input[a].key, input[i].key) && (i == b || Less(input[i].key, input[b].key));
    }
  }

  /** No output file passes more bytes of grandparents than the limit. */
  lemma OverlapIsBounded(l: Limits, input: seq<Entry>, f: File, a: nat, b: nat)
    requires Sorted(input) && OneFile(l, input, f)
    requires a <= b < |input| && input[a].key == f.smallest && input[b].key == f.largest
    ensures TotalFileSize(Between(l.grandparents, f.smallest, f.largest)) <= l.overlap
  {
    hide Less;
    hide TotalFileSize;
    hide Passed;
    Within(l, input, a, b);
    if a == b {
      NoneBetween(l.grandparents, f.smallest);
    } else {
      SinceHolds(l, input, a, b - 1);
      var s := Since(l, input, b - 1);
      PlacesInOrder(input, s, a);
      PlacesInOrder(input, a, b);
      BetweenSplits(l.grandparents, input[s].key, input[a].key, input[b].key);
      assert !Stops(l, input, b);
    }
  }

  lemma NoneBetween(files: seq<File>, key: InternalKey)
    ensures TotalFileSize(Between(files, key, key)) == 0
  {}

  lemma PlacesInOrder(input: seq<Entry>, i: nat, j: nat)
    requires Sorted(input) && i <= j < |input|
    ensures LessEq(input[i].key, input[j].key) && (i < j ==> Less(input[i].key, input[j].key))
  {}

  // ------------------------------------------------------------------------
  // The loop's progress

  /** The first `n` keys have been seen: the finished files are cut as told, and so far nothing ends `current`. */
  ghost predicate Progress(l: Limits, input: seq<Entry>, n: nat, outputs: seq<File>, current: seq<Entry>)
    requires n <= |input|
  {
    && CutAsTold(l, input, outputs)
    && (forall e :: e in current ==> e in input[..n])
    && (|current| > 0 ==> Open(l, input, n, current))
    && (|outputs| > 0 ==>
          if |current| > 0 then Ended(l, input, outputs[|outputs| - 1], current[0].key)
          else n > 0 && Ended(l, input, outputs[|outputs| - 1], input[n - 1].key))
  }

  ghost predicate Open(l: Limits, input: seq<Entry>, n: nat, current: seq<Entry>)
    requires n <= |input| && |current| > 0
  {
    && (forall k :: 0 < k <= |current| ==> l.sizeOf(current[..k]) < l.size)
    && (forall i: nat :: i < n && Less(current[0].key, input[i].key) ==> !Stops(l, input, i))
  }

  /** A key is seen at which nothing ends the file. */
  lemma SeenOneMore(l: Limits, input: seq<Entry>, n: nat, outputs: seq<File>, current: seq<Entry>)
    requires Sorted(input) && n < |input| && Progress(l, input, n, outputs, current)
    requires |current| > 0 ==> !Stops(l, input, n)
    ensures Progress(l, input, n + 1, outputs, current)
  {
    hide Stops;
    hide CutAsTold;
    PrefixSnoc(input, n);
    if |outputs| > 0 && |current| == 0 {
      PlacesInOrder(input, n - 1, n);
      EndedLater(l, input, outputs[|outputs| - 1], input[n - 1].key, input[n].key);
    }
  }

  lemma EndedLater(l: Limits, input: seq<Entry>, f: File, a: InternalKey, b: InternalKey)
    requires Ended(l, input, f, a) && LessEq(a, b)
    ensures Ended(l, input, f, b)
  {
    hide Stops;
  }

  /** A stop ends the file that is open. */
  lemma StopHere(l: Limits, input: seq<Entry>, n: nat, outputs: seq<File>, current: seq<Entry>, f: File)
    requires Sorted(input) && n < |input| && Progress(l, input, n, outputs, current) && |current| > 0
    requires Stops(l, input, n)
    requires f.entries == current && f.size == l.sizeOf(current)
    requires f.smallest == current[0].key && f.largest == current[|current| - 1].key
    ensures Progress(l, input, n + 1, outputs + [f], [])
  {
    hide Stops;
    hide CutAsTold;
    hide Ended;
    var i := LastSeen(input, n, current);
    CurrentIsFile(l, input, n, current, f);
    AddFile(l, input, outputs, f);
    PlacesInOrder(input, i, n);
    StopEnds(l, input, n, f);
  }

  lemma StopEnds(l: Limits, input: seq<Entry>, n: nat, f: File)
    requires n < |input| && Less(f.largest, input[n].key) && Stops(l, input, n)
    ensures Ended(l, input, f, input[n].key)
  {
    hide Stops;
    assert LessEq(input[n].key, input[n].key);
  }

  /** The last entry of the open file is among the keys seen. */
  lemma LastSeen(input: seq<Entry>, n: nat, current: seq<Entry>) returns (i: nat)
    requires n <= |input| && |current| > 0 && forall e :: e in current ==> e in input[..n]
    ensures i < n && input[i] == current[|current| - 1]
  {
    assert current[|current| - 1] in input[..n];
    i :| 0 <= i < n && input[..n][i] == current[|current| - 1];
  }

  lemma CurrentIsFile(l: Limits, input: seq<Entry>, n: nat, current: seq<Entry>, f: File)
    requires Sorted(input) && n <= |input| && |current| > 0
    requires forall e :: e in current ==> e in input[..n]
    requires forall k :: 0 < k < |current| ==> l.sizeOf(current[..k]) < l.size
    requires forall i: nat :: i < n && Less(current[0].key, input[i].key) ==> !Stops(l, input, i)
    requires f.entries == current && f.size == l.sizeOf(current)
    requires f.smallest == current[0].key && f.largest == current[|current| - 1].key
    ensures OneFile(l, input, f)
  {
    hide Stops;
    var m := LastSeen(input, n, current);
    forall i: nat | i < |input| && Less(f.smallest, input[i].key) && LessEq(input[i].key, f.largest)
      ensures !Stops(l, input, i)
    {
      NotPast(input, i, m);
    }
  }

  lemma NotPast(input: seq<Entry>, i: nat, m: nat)
    requires Sorted(input) && i < |input| && m < |input| && LessEq(input[i].key, input[m].key)
    ensures i <= m
  {}

  lemma AddFile(l: Limits, input: seq<Entry>, outputs: seq<File>, f: File)
    requires CutAsTold(l, input, outputs) && OneFile(l, input, f)
    requires |outputs| > 0 ==> Ended(l, input, outputs[|outputs| - 1], f.smallest)
    ensures CutAsTold(l, input, outputs + [f])
  {
    hide OneFile;
    hide Ended;
  }

  /** The newest key joins the file, which stays open. */
  lemma EntryJoins(l: Limits, input: seq<Entry>, n: nat, outputs: seq<File>, current: seq<Entry>)
    requires Sorted(input) && 0 < n <= |input| && Progress(l, input, n, outputs, current)
    requires l.sizeOf(current + [input[n - 1]]) < l.size
    ensures Progress(l, input, n, outputs, current + [input[n - 1]])
  {
    hide Stops;
    hide CutAsTold;
    hide Ended;
    PrefixSnoc(input, n - 1);
    JoinedNoStop(l, input, n, current);
    JoinedPrefixes(l, current, input[n - 1]);
    assert |current| == 0 ==> current + [input[n - 1]] == [input[n - 1]];
    assert (current + [input[n - 1]])[..|current| + 1] == current + [input[n - 1]];
  }

  lemma JoinedNoStop(l: Limits, input: seq<Entry>, n: nat, current: seq<Entry>)
    requires Sorted(input) && 0 < n <= |input| && (|current| > 0 ==> Open(l, input, n, current))
    ensures forall i: nat :: i < n && Less((current + [input[n - 1]])[0].key, input[i].key) ==> !Stops(l, input, i)
  {
    hide Stops;
    forall i: nat | i < n && Less((current + [input[n - 1]])[0].key, input[i].key) ensures !Stops(l, input, i) {
      if |current| == 0 { PlacesInOrder(input, i, n - 1); }
    }
  }

  lemma JoinedPrefixes(l: Limits, current: seq<Entry>, e: Entry)
    requires forall k :: 0 < k <= |current| ==> l.sizeOf(current[..k]) < l.size
    ensures forall k :: 0 < k < |current + [e]| ==> l.sizeOf((current + [e])[..k]) < l.size
  {
    forall k | 0 < k < |current + [e]| ensures l.sizeOf((current + [e])[..k]) < l.size {
      assert (current + [e])[..k] == current[..k];
    }
  }

  /** The newest key fills the file. */
  lemma EntryFills(l: Limits, input: seq<Entry>, n: nat, outputs: seq<File>, current: seq<Entry>, f: File)
    requires Sorted(input) && 0 < n <= |input| && Progress(l, input, n, outputs, current)
    requires f.entries == current + [input[n - 1]] && f.size == l.sizeOf(f.entries) >= l.size
    requires f.smallest == f.entries[0].key && f.largest == f.entries[|f.entries| - 1].key
    ensures Progress(l, input, n, outputs + [f], [])
  {
    hide Stops;
    hide CutAsTold;
    hide OneFile;
    PrefixSnoc(input, n - 1);
    JoinedNoStop(l, input, n, current);
    JoinedPrefixes(l, current, input[n - 1]);
    CurrentIsFile(l, input, n, f.entries, f);
    AddFile(l, input, outputs, f);
  }

  /** The end of the input ends the last file. */
  lemma LastFile(l: Limits, input: seq<Entry>, outputs: seq<File>, current: seq<Entry>, f: File)
    requires Sorted(input) && Progress(l, input, |input|, outputs, current) && |current| > 0
    requires f.entries == current && f.size == l.sizeOf(current)
    requires f.smallest == current[0].key && f.largest == current[|current| - 1].key
    ensures CutAsTold(l, input, outputs + [f])
  {
    hide Stops;
    hide CutAsTold;
    hide OneFile;
    CurrentIsFile(l, input, |input|, current, f);
    AddFile(l, input, outputs, f);
  }

  /** The counters after `n` keys: where the grandparents stand, and the bytes passed since the last stop. */
  ghost predicate Counted(l: Limits, input: seq<Entry>, n: nat, index: nat, bytes: nat)
    requires n <= |input|
  {
    && index == (if n == 0 then 0 else Passed(l.grandparents, input[n - 1].key))
    && bytes == if n == 0 then 0
                else TotalFileSize(Between(l.grandparents, input[Since(l, input, n - 1)].key, input[n - 1].key))
  }

  /** Advancing over the files that end before the next key counts what the rules speak of. */
  lemma CountKey(l: Limits, input: seq<Entry>, n: nat, index: nat, bytes: nat, index': nat)
    requires Sorted(input) && n < |input| && Counted(l, input, n, index, bytes)
    requires index <= index' <= |l.grandparents|
    requires forall i :: index <= i < index' ==> Less(l.grandparents[i].largest, input[n].key)
    requires index' < |l.grandparents| ==> !Less(l.grandparents[index'].largest, input[n].key)
    ensures var total := bytes + if n > 0 then TotalFileSize(l.grandparents[index..index']) else 0;
            Stops(l, input, n) == (total > l.overlap)
            && Counted(l, input, n + 1, index', if total > l.overlap then 0 else total)
  {
    hide Less;
    hide TotalFileSize;
    hide Sorted;
    hide Between;
    hide Passed;
    NoneBetween(l.grandparents, input[n].key);
    if n > 0 {
      PlacesInOrder(input, n - 1, n);
      PlacesInOrder(input, Since(l, input, n - 1), n - 1);
      PassedIs(l.grandparents, input[n - 1].key, input[n].key, index');
      PassedMore(l.grandparents, input[Since(l, input, n - 1)].key, input[n - 1].key, input[n].key);
    } else {
      PassedOnly(l.grandparents, input[n].key, index');
    }
  }

  lemma PassedMore(files: seq<File>, a: InternalKey, b: InternalKey, c: InternalKey)
    requires LessEq(a, b) && LessEq(b, c)
    ensures Passed(files, b) <= Passed(files, c)
    ensures TotalFileSize(Between(files, a, c))
            == TotalFileSize(Between(files, a, b)) + TotalFileSize(files[Passed(files, b)..Passed(files, c)])
  {
    hide TotalFileSize;
    PassedGrows(files, b, c);
    BetweenSplits(files, a, b, c);
  }

  lemma {:induction false} PassedOnly(files: seq<File>, key: InternalKey, n: nat)
    requires n <= |files| && forall i :: 0 <= i < n ==> Less(files[i].largest, key)
    requires n < |files| ==> !Less(files[n].largest, key)
    ensures Passed(files, key) == n
  {
    hide Less;
    if n > 0 {
      PassedOnly(files[1..], key, n - 1);
    }
  }

  lemma PassedIs(files: seq<File>, from: InternalKey, key: InternalKey, n: nat)
    requires LessEq(from, key) && Passed(files, from) <= n <= |files|
    requires forall i :: Passed(files, from) <= i < n ==> Less(files[i].largest, key)
    requires n < |files| ==> !Less(files[n].largest, key)
    ensures Passed(files, key) == n
  {
    forall i | 0 <= i < Passed(files, from) ensures Less(files[i].largest, key) {
      assert Less(files[i].largest, from);
    }
    PassedOnly(files, key, n);
  }

  lemma NothingYet(l: Limits, input: seq<Entry>)
    ensures Progress(l, input, 0, [], []) && Counted(l, input, 0, 0, 0)
  {}

  lemma AllClosed(l: Limits, input: seq<Entry>, outputs: seq<File>, current: seq<Entry>)
    requires Progress(l, input, |input|, outputs, current)
    ensures CutAsTold(l, input, outputs)
  {}

  /** A file ends only for a cause: its table is big enough, or since some earlier key the keys up to the next file have
      passed more bytes of grandparents than the limit. */
  lemma EndsForCause(l: Limits, input: seq<Entry>, outputs: seq<File>, k: nat) returns (a: nat, b: nat)
    requires CutAsTold(l, input, outputs) && 0 < k < |outputs|
    ensures l.sizeOf(outputs[k - 1].entries) < l.size ==>
              && a < b < |input| && Less(outputs[k - 1].largest, input[b].key) && LessEq(input[b].key, outputs[k].smallest)
              && TotalFileSize(Between(l.grandparents, input[a].key, input[b].key)) > l.overlap
  {
    a, b := 0, 0;
    assert Ended(l, input, outputs[k - 1], outputs[k].smallest);
    if l.sizeOf(outputs[k - 1].entries) < l.size {
      b :| b < |input| && Less(outputs[k - 1].largest, input[b].key) && LessEq(input[b].key, outputs[k].smallest)
           && Stops(l, input, b);
      a := Since(l, input, b - 1);
    }
  }
}
