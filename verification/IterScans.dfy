/**
 What the user-visible iterator shows of a list of internal entries, and how its forward and backward
 scans go through the list, which may grow while they do.
 */
module IterScans {
  import opened Entries
  import opened GrowingList

  // ------------------------------------------------------------------------
  // Which entries are shown

  /** Index `i` holds the newest visible entry of its key, and it is a value. */
  predicate Live(es: seq<Entry>, s: nat, i: int) {
    && 0 <= i < |es|
    && es[i].key.seqNo <= s && es[i].key.kind.Value?
    && (i > 0 && es[i - 1].key.user == es[i].key.user ==> es[i - 1].key.seqNo > s)
  }

  /** The least live index from `i` on whose key satisfies the skip condition, or none. */
  ghost predicate LeastLive(es: seq<Entry>, s: nat, i: int, skip: Option<UserKey>, r: Option<nat>) {
    match r
    case Some(j) => i <= j && Live(es, s, j) && Beyond(skip, es[j].key.user)
                    && forall k :: i <= k < j && Live(es, s, k) ==> !Beyond(skip, es[k].key.user)
    case None => forall k :: i <= k && Live(es, s, k) ==> !Beyond(skip, es[k].key.user)
  }

  predicate Beyond(skip: Option<UserKey>, u: UserKey) {
    skip.Some? ==> u > skip.value
  }

  /** The greatest live index up to `i`, or none. */
  ghost predicate GreatestLive(es: seq<Entry>, s: nat, i: int, r: Option<nat>) {
    match r
    case Some(j) => j <= i && Live(es, s, j) && forall k :: j < k <= i ==> !Live(es, s, k)
    case None => forall k :: k <= i ==> !Live(es, s, k)
  }

  /** A live index is exactly a key that reads as a value. */
  lemma LiveIsRead(es: seq<Entry>, s: nat, i: int)
    requires Sorted(es) && UniqueSeqNos(Elements(es)) && Live(es, s, i)
    ensures Read(Elements(es), es[i].key.user, s) == Some(es[i].value)
  {
    var all, u := Elements(es), es[i].key.user;
    assert Visible(all, u, s, es[i]);
    forall x | Visible(all, u, s, x) ensures x.key.seqNo <= es[i].key.seqNo {
      var k: nat :| k < |es| && es[k] == x;
      NotBeforeLive(es, s, i, k);
    }
    FindsIsRead(all, u, s, Some(es[i]));
  }

  lemma NotBeforeLive(es: seq<Entry>, s: nat, i: int, k: nat)
    requires Sorted(es) && Live(es, s, i) && k < |es|
    ensures es[k].key.user == es[i].key.user && es[k].key.seqNo <= s ==> k >= i
  {
  }

  lemma ReadIsLive(es: seq<Entry>, s: nat, u: UserKey) returns (i: nat)
    requires Sorted(es) && UniqueSeqNos(Elements(es)) && Read(Elements(es), u, s).Some?
    ensures Live(es, s, i) && es[i].key.user == u
  {
    var all := Elements(es);
    var r := FindsExists(all, u, s);
    FindsIsRead(all, u, s, r);
    var e := r.value;
    assert Visible(all, u, s, e);
    i :| 0 <= i < |es| && es[i] == e;
    if i > 0 && es[i - 1].key.user == u {
      PreviousIsNewer(es, i);
      var seen := Visible(all, u, s, es[i - 1]);
      assert es[i - 1] in all;
    }
  }

  lemma PreviousIsNewer(es: seq<Entry>, i: nat)
    requires Sorted(es) && UniqueSeqNos(Elements(es)) && 0 < i < |es| && es[i - 1].key.user == es[i].key.user
    ensures es[i - 1].key.seqNo > es[i].key.seqNo
  {
    assert Less(es[i - 1].key, es[i].key);
    assert es[i - 1] in Elements(es) && es[i] in Elements(es);
  }

  // ------------------------------------------------------------------------
  // The cursor the iterator refines

  datatype Lower = Anywhere | AtLeast(key: UserKey) | MoreThan(key: UserKey)

  predicate InLower(b: Lower, u: UserKey) {
    match b
    case Anywhere => true
    case AtLeast(k) => k <= u
    case MoreThan(k) => k < u
  }

  predicate InUpper(b: Option<UserKey>, u: UserKey) {
    b.Some? ==> u < b.value
  }

  type Shown = Option<(UserKey, UserValue)>

  /** The first key in bounds that reads as a value. */
  ghost predicate FirstShown(all: set<Entry>, s: nat, b: Lower, r: Shown) {
    && (r.Some? ==> InLower(b, r.value.0) && Read(all, r.value.0, s) == Some(r.value.1))
    && (forall u :: InLower(b, u) && Read(all, u, s).Some? ==> r.Some? && r.value.0 <= u)
  }

  /** The last key in bounds that reads as a value. */
  ghost predicate LastShown(all: set<Entry>, s: nat, b: Option<UserKey>, r: Shown) {
    && (r.Some? ==> InUpper(b, r.value.0) && Read(all, r.value.0, s) == Some(r.value.1))
    && (forall u :: InUpper(b, u) && Read(all, u, s).Some? ==> r.Some? && u <= r.value.0)
  }

  /** At the iterator's sequence number the two sets hold the same map. */
  ghost predicate ReadAlike(all: set<Entry>, other: set<Entry>, s: nat) {
    forall u :: Read(all, u, s) == Read(other, u, s)
  }

  function Showing(es: seq<Entry>, r: Option<nat>): Shown
    requires r.Some? ==> r.value < |es|
  {
    if r.None? then None else Some((es[r.value].key.user, es[r.value].value))
  }

  /** What is live from `start` on, and not passed over, is what lies in bounds. */
  ghost predicate Ahead(es: seq<Entry>, s: nat, b: Lower, start: int, skip: Option<UserKey>) {
    forall j :: Live(es, s, j) ==> (InLower(b, es[j].key.user) <==> start <= j && Beyond(skip, es[j].key.user))
  }

  ghost predicate Behind(es: seq<Entry>, s: nat, b: Option<UserKey>, start: int) {
    forall j :: Live(es, s, j) ==> (InUpper(b, es[j].key.user) <==> j <= start)
  }

  lemma LeastIsFirst(es: seq<Entry>, all: set<Entry>, s: nat, i: int, skip: Option<UserKey>, r: Option<nat>, b: Lower)
    requires Sorted(es) && UniqueSeqNos(Elements(es)) && LeastLive(es, s, i, skip, r) && ReadAlike(Elements(es), all, s)
    requires Ahead(es, s, b, i, skip)
    ensures r.Some? ==> r.value < |es|
    ensures FirstShown(all, s, b, Showing(es, r))
  {
    if r.Some? {
      LiveIsRead(es, s, r.value);
    }
    forall u | InLower(b, u) && Read(all, u, s).Some? ensures r.Some? && es[r.value].key.user <= u {
      var j := ReadIsLive(es, s, u);
      assert Live(es, s, j);
    }
  }

  lemma GreatestIsLast(es: seq<Entry>, all: set<Entry>, s: nat, i: int, r: Option<nat>, b: Option<UserKey>)
    requires Sorted(es) && UniqueSeqNos(Elements(es)) && GreatestLive(es, s, i, r) && ReadAlike(Elements(es), all, s)
    requires Behind(es, s, b, i)
    ensures r.Some? ==> r.value < |es|
    ensures LastShown(all, s, b, Showing(es, r))
  {
    if r.Some? {
      LiveIsRead(es, s, r.value);
    }
    forall u | InUpper(b, u) && Read(all, u, s).Some? ensures r.Some? && u <= es[r.value].key.user {
      var j := ReadIsLive(es, s, u);
      assert Live(es, s, j);
    }
  }

  // ------------------------------------------------------------------------
  // The forward scan

  /** The scan that began at `start`, passing over `first`, has reached `i` and passes over `skip`:
      nothing it passed is to be shown, and what lies ahead is unaffected. */
  ghost predicate Scan(es: seq<Entry>, s: nat, start: int, first: Option<UserKey>, i: int, skip: Option<UserKey>) {
    && 0 <= start <= i <= |es|
    && Fresh(es, s, i, skip)
    && (forall k :: i <= k < |es| && es[k].key.seqNo <= s && skip.Some? ==> es[k].key.user >= skip.value)
    && (forall k :: start <= k < i && Live(es, s, k) ==> !Beyond(first, es[k].key.user))
    && (forall k :: i <= k && Live(es, s, k) ==> (Beyond(first, es[k].key.user) <==> Beyond(skip, es[k].key.user)))
  }

  /** No visible entry of the key at `i` came before, unless that key is passed over. */
  ghost predicate Fresh(es: seq<Entry>, s: nat, i: int, skip: Option<UserKey>) {
    0 < i < |es| && es[i - 1].key.user == es[i].key.user ==>
      es[i - 1].key.seqNo > s || !Beyond(skip, es[i].key.user)
  }

  /** An invisible entry, or one of the key passed over. */
  lemma ScanPass(es: seq<Entry>, s: nat, start: int, first: Option<UserKey>, i: int, skip: Option<UserKey>)
    requires Sorted(es) && Scan(es, s, start, first, i, skip) && i < |es|
    requires es[i].key.seqNo > s || !Beyond(skip, es[i].key.user)
    ensures Scan(es, s, start, first, i + 1, skip)
  {}

  /** A visible deletion mark hides the rest of its key. */
  lemma ScanDelete(es: seq<Entry>, s: nat, start: int, first: Option<UserKey>, i: int, skip: Option<UserKey>)
    requires Sorted(es) && Scan(es, s, start, first, i, skip) && i < |es|
    requires es[i].key.seqNo <= s && es[i].key.kind.Deletion?
    ensures Scan(es, s, start, first, i + 1, Some(es[i].key.user))
  {
    forall k | i <= k < |es| ensures es[i].key.user <= es[k].key.user {}
    forall k: nat | i < k < |es| && Live(es, s, k) ensures es[k].key.user > es[i].key.user {
    }
  }

  lemma ScanShow(es: seq<Entry>, s: nat, start: int, first: Option<UserKey>, i: int, skip: Option<UserKey>)
    requires Scan(es, s, start, first, i, skip) && i < |es|
    requires es[i].key.seqNo <= s && es[i].key.kind.Value? && Beyond(skip, es[i].key.user)
    ensures LeastLive(es, s, start, first, Some(i))
  {}

  /** The three things a turn of the scan can do. */
  lemma ScanStep(es: seq<Entry>, s: nat, start: int, first: Option<UserKey>, i: int, skip: Option<UserKey>)
    requires Sorted(es) && Scan(es, s, start, first, i, skip) && i < |es|
    ensures if es[i].key.seqNo > s then Scan(es, s, start, first, i + 1, skip)
            else if es[i].key.kind.Deletion? then Scan(es, s, start, first, i + 1, Some(es[i].key.user))
            else if !Beyond(skip, es[i].key.user) then Scan(es, s, start, first, i + 1, skip)
            else LeastLive(es, s, start, first, Some(i))
  {
    if es[i].key.seqNo <= s && es[i].key.kind.Deletion? {
      ScanDelete(es, s, start, first, i, skip);
    } else if es[i].key.seqNo <= s && Beyond(skip, es[i].key.user) {
      ScanShow(es, s, start, first, i, skip);
    } else {
      ScanPass(es, s, start, first, i, skip);
    }
  }

  // ------------------------------------------------------------------------
  // The backward scan

  /** The scan that began at `start` has passed everything after `i` and remembers `found`:
      nothing else it passed is live, and nothing visible lies between `i` and `found`. */
  ghost predicate Back(es: seq<Entry>, s: nat, start: int, i: int, found: Option<nat>) {
    && -1 <= i <= start < |es|
    && match found
       case None => forall k :: i < k <= start ==> !Live(es, s, k)
       case Some(m) =>
         && i < m <= start && es[m].key.seqNo <= s && es[m].key.kind.Value?
         && (forall k :: i < k < m ==> es[k].key.seqNo > s)
         && (forall k :: m < k <= start ==> !Live(es, s, k))
  }

  /** A visible entry of the remembered key, or any visible entry when nothing is remembered,
      takes over: a value is remembered instead, a deletion mark forgets. */
  lemma BackVisible(es: seq<Entry>, s: nat, start: int, i: int, found: Option<nat>)
    requires Sorted(es) && Back(es, s, start, i, found) && i >= 0 && es[i].key.seqNo <= s
    requires found.Some? ==> es[i].key.user == es[found.value].key.user
    ensures Back(es, s, start, i - 1, if es[i].key.kind.Value? then Some(i) else None)
  {
  }

  /** The three things a turn of the backward scan can do. */
  lemma BackStep(es: seq<Entry>, s: nat, start: int, i: int, found: Option<nat>)
    requires Sorted(es) && Back(es, s, start, i, found) && i >= 0
    ensures if es[i].key.seqNo > s then Back(es, s, start, i - 1, found)
            else if found.Some? && es[i].key.user < es[found.value].key.user then GreatestLive(es, s, start, found)
            else Back(es, s, start, i - 1, if es[i].key.kind.Value? then Some(i) else None)
  {
    if es[i].key.seqNo <= s {
      if found.Some? && es[i].key.user < es[found.value].key.user {
        BackStop(es, s, start, i, found);
      } else {
        BackVisible(es, s, start, i, found);
      }
    }
  }

  /** A visible entry of another key, or the front, makes the remembered entry the one to show. */
  lemma BackStop(es: seq<Entry>, s: nat, start: int, i: int, found: Option<nat>)
    requires Back(es, s, start, i, found)
    requires found.None? ==> i < 0
    requires found.Some? && i >= 0 ==> es[i].key.user != es[found.value].key.user
    ensures GreatestLive(es, s, start, found)
  {}

  // ------------------------------------------------------------------------
  // While the list grows

  lemma SameUserBefore(es: seq<Entry>, j: nat, i: nat)
    requires Sorted(es) && j < i < |es| && es[j].key.user == es[i].key.user
    ensures es[i - 1].key.user == es[i].key.user && es[i - 1].key.seqNo <= es[j].key.seqNo
  {
    if j < i - 1 { assert Less(es[j].key, es[i - 1].key) && Less(es[i - 1].key, es[i].key); }
  }

  lemma GrowthSorted(es: seq<Entry>, es': seq<Entry>, s: nat)
    requires Growth(es, es', s)
    ensures Sorted(es) && Sorted(es')
  {}

  lemma LiveMoves(es: seq<Entry>, es': seq<Entry>, s: nat, i: nat)
    requires Growth(es, es', s) && i < |es|
    ensures Live(es, s, i) <==> Live(es', s, Shifted(es, es', i))
  {
    hide Growth;
    hide Shifted;
    GrowthSorted(es, es', s);
    Kept(es, es', s, i);
    var i' := Shifted(es, es', i);
    if i' > 0 && es'[i' - 1].key.user == es'[i'].key.user && es'[i' - 1].key.seqNo <= s {
      var j := Came(es, es', s, i' - 1);
      OrderKept(es, es', s, j, i);
      SameUserBefore(es, j, i);
    }
    if i > 0 && es[i - 1].key.user == es[i].key.user && es[i - 1].key.seqNo <= s {
      Kept(es, es', s, i - 1);
      OrderKept(es, es', s, i - 1, i);
      SameUserBefore(es', Shifted(es, es', i - 1), i');
    }
  }

  /** A live entry of the grown list was there before, and live. */
  lemma LiveCame(es: seq<Entry>, es': seq<Entry>, s: nat, k: nat) returns (i: nat)
    requires Growth(es, es', s) && Live(es', s, k)
    ensures Live(es, s, i) && es[i] == es'[k] && Shifted(es, es', i) == k
  {
    i := Came(es, es', s, k);
    LiveMoves(es, es', s, i);
  }

  /** On which side of a place an entry lies does not change. */
  lemma SideKept(es: seq<Entry>, es': seq<Entry>, s: nat, i: nat, start: int)
    requires Growth(es, es', s) && i < |es| && start < |es|
    ensures Shifted(es, es', start) < |es'|
    ensures i < start <==> Shifted(es, es', i) < Shifted(es, es', start)
    ensures i <= start <==> Shifted(es, es', i) <= Shifted(es, es', start)
  {
    Kept(es, es', s, i);
    if start >= 0 {
      Kept(es, es', s, start);
      OrderKept(es, es', s, i, start);
      OrderKept(es, es', s, start, i);
    }
  }

  lemma AheadMoves(es: seq<Entry>, es': seq<Entry>, s: nat, b: Lower, start: nat, skip: Option<UserKey>)
    requires Growth(es, es', s) && start < |es| && Ahead(es, s, b, start, skip)
    ensures Ahead(es', s, b, Shifted(es, es', start), skip)
  {
    hide Shifted;
    forall k | Live(es', s, k)
      ensures InLower(b, es'[k].key.user) <==> Shifted(es, es', start) <= k && Beyond(skip, es'[k].key.user)
    {
      LiveIsIn(es', s, k);
      var i := LiveCame(es, es', s, k);
      SideKept(es, es', s, i, start);
    }
  }

  lemma LiveIsIn(es: seq<Entry>, s: nat, k: int)
    requires Live(es, s, k)
    ensures 0 <= k < |es| && es[k].key.seqNo <= s
  {}

  lemma BehindMoves(es: seq<Entry>, es': seq<Entry>, s: nat, b: Option<UserKey>, start: int)
    requires Growth(es, es', s) && start < |es| && Behind(es, s, b, start)
    ensures Behind(es', s, b, Shifted(es, es', start))
  {
    hide Shifted;
    forall k | Live(es', s, k)
      ensures InUpper(b, es'[k].key.user) <==> k <= Shifted(es, es', start)
    {
      LiveIsIn(es', s, k);
      var i := LiveCame(es, es', s, k);
      SideKept(es, es', s, i, start);
    }
  }

  lemma FreshMoves(es: seq<Entry>, es': seq<Entry>, s: nat, i: nat, skip: Option<UserKey>)
    requires Growth(es, es', s) && i < |es| && Fresh(es, s, i, skip)
    ensures Fresh(es', s, Shifted(es, es', i), skip)
  {
    Kept(es, es', s, i);
    var i' := Shifted(es, es', i);
    if i' > 0 && es'[i' - 1].key.user == es'[i'].key.user && es'[i' - 1].key.seqNo <= s {
      var j := Came(es, es', s, i' - 1);
      OrderKept(es, es', s, j, i);
      SameUserBefore(es, j, i);
    }
  }

  lemma ScanMoves(es: seq<Entry>, es': seq<Entry>, s: nat, start: nat, first: Option<UserKey>, i: nat, skip: Option<UserKey>)
    requires Growth(es, es', s) && i < |es| && Scan(es, s, start, first, i, skip)
    ensures Scan(es', s, Shifted(es, es', start), first, Shifted(es, es', i), skip)
  {
    hide Shifted;
    hide Fresh;
    Kept(es, es', s, start);
    Kept(es, es', s, i);
    SideKept(es, es', s, start, i);
    FreshMoves(es, es', s, i, skip);
    var start', i' := Shifted(es, es', start), Shifted(es, es', i);
    forall k | i' <= k < |es'| && es'[k].key.seqNo <= s && skip.Some? ensures es'[k].key.user >= skip.value {
      var j := Came(es, es', s, k);
      SideKept(es, es', s, j, i);
    }
    forall k | start' <= k < i' && Live(es', s, k) ensures !Beyond(first, es'[k].key.user) {
      var j := LiveCame(es, es', s, k);
      SideKept(es, es', s, j, i);
      SideKept(es, es', s, j, start);
    }
    forall k | i' <= k && Live(es', s, k) ensures Beyond(first, es'[k].key.user) <==> Beyond(skip, es'[k].key.user) {
      LiveIsIn(es', s, k);
      var j := LiveCame(es, es', s, k);
      SideKept(es, es', s, j, i);
    }
  }

  function FoundShifted(es: seq<Entry>, es': seq<Entry>, found: Option<nat>): Option<nat>
    requires found.Some? ==> found.value < |es|
  {
    if found.None? then None else Some(FirstAtOrAfter(es', es[found.value].key))
  }

  lemma BackMoves(es: seq<Entry>, es': seq<Entry>, s: nat, start: nat, i: nat, found: Option<nat>)
    requires Growth(es, es', s) && Back(es, s, start, i, found)
    ensures Back(es', s, Shifted(es, es', start), Shifted(es, es', i), FoundShifted(es, es', found))
  {
    hide Live;
    Kept(es, es', s, start);
    Kept(es, es', s, i);
    SideKept(es, es', s, i, start);
    var start', i' := Shifted(es, es', start), Shifted(es, es', i);
    if found.None? {
      forall k | i' < k <= start' ensures !Live(es', s, k) {
        NotLiveMoves(es, es', s, i, start, k);
      }
    } else {
      var m := found.value;
      Kept(es, es', s, m);
      SideKept(es, es', s, i, m);
      SideKept(es, es', s, m, start);
      forall k | i' < k < Shifted(es, es', m) ensures es'[k].key.seqNo > s {
        if es'[k].key.seqNo <= s {
          var j := Came(es, es', s, k);
          SideKept(es, es', s, j, m);
          SideKept(es, es', s, j, i);
        }
      }
      forall k | Shifted(es, es', m) < k <= start' ensures !Live(es', s, k) {
        NotLiveMoves(es, es', s, m, start, k);
      }
    }
  }

  lemma NotLiveMoves(es: seq<Entry>, es': seq<Entry>, s: nat, low: nat, high: nat, k: nat)
    requires Growth(es, es', s) && low < |es| && high < |es|
    requires Shifted(es, es', low) < k <= Shifted(es, es', high) && k < |es'|
    requires forall j :: low < j <= high ==> !Live(es, s, j)
    ensures !Live(es', s, k)
  {
    if Live(es', s, k) {
      var j := LiveCame(es, es', s, k);
      SideKept(es, es', s, j, low);
      SideKept(es, es', s, j, high);
    }
  }

  lemma AlikeMoves(es: seq<Entry>, es': seq<Entry>, all: set<Entry>, s: nat)
    requires Growth(es, es', s) && UniqueSeqNos(Elements(es')) && ReadAlike(Elements(es), all, s)
    ensures ReadAlike(Elements(es'), all, s)
  {
    forall u ensures Read(Elements(es'), u, s) == Read(all, u, s) {
      GrownReads(Elements(es), Elements(es'), s, u);
    }
  }

  /** The list at hand, and what it will be from `clock` on: it only grows, by entries too new to be
      shown, and not without end. */
  ghost predicate Schedule(es: seq<Entry>, later: nat -> seq<Entry>, clock: nat, s: nat, bound: nat) {
    && UniqueSeqNos(Elements(es)) && |es| <= bound && Growth(es, later(clock), s)
    && forall t: nat :: t >= clock ==>
         UniqueSeqNos(Elements(later(t))) && |later(t)| <= bound && Growth(later(t), later(t + 1), s)
  }

  // ------------------------------------------------------------------------
  // Steps of the scans on a list that grows

  lemma GrowthNow(es: seq<Entry>, later: nat -> seq<Entry>, clock: nat, s: nat, bound: nat, i: int)
    requires Schedule(es, later, clock, s, bound) && i < |es|
    ensures Growth(es, es, s) && Shifted(es, es, i) == i
  {
    if i >= 0 { PlaceOf(es, i); }
  }

  lemma AtMost(es: seq<Entry>, later: nat -> seq<Entry>, clock: nat, s: nat, bound: nat)
    requires Schedule(es, later, clock, s, bound)
    ensures |es| <= bound && Sorted(es)
  {}

  /** A scan that moves on after the list has grown from `before` to `es`. */
  lemma ScanGoesOn(first: seq<Entry>, before: seq<Entry>, es: seq<Entry>, s: nat, i0: nat, start: nat,
                   skip: Option<UserKey>, i: nat, passed: Option<UserKey>) returns (start': nat)
    requires Growth(first, before, s) && Growth(before, es, s) && i0 < |first| && start == Shifted(first, before, i0)
    requires i < |before| && Scan(before, s, start, skip, i, passed)
    ensures Growth(first, es, s) && start' == Shifted(first, es, i0) && start' < |es|
    ensures var e := before[i]; var i' := Shifted(before, es, i);
            0 <= i' < |es| && es[i'] == e
            && (if e.key.seqNo > s then Scan(es, s, start', skip, i' + 1, passed)
                else if e.key.kind.Deletion? then Scan(es, s, start', skip, i' + 1, Some(e.key.user))
                else !Beyond(passed, e.key.user) ==> Scan(es, s, start', skip, i' + 1, passed))
  {
    hide Scan;
    hide Shifted;
    ShiftedTwice(first, before, es, s, i0);
    Kept(first, es, s, i0);
    Kept(before, es, s, i);
    start' := Shifted(first, es, i0);
    ScanStarts(before, s, start, skip, i, passed);
    ScanMoves(before, es, s, start, skip, i, passed);
    ScanStep(es, s, start', skip, Shifted(before, es, i), passed);
  }

  lemma ScanStarts(es: seq<Entry>, s: nat, start: int, first: Option<UserKey>, i: int, skip: Option<UserKey>)
    requires Scan(es, s, start, first, i, skip)
    ensures 0 <= start <= i <= |es|
  {}

  /** Nothing is left to scan. */
  lemma ScanEnds(es: seq<Entry>, s: nat, start: int, first: Option<UserKey>, skip: Option<UserKey>)
    requires Scan(es, s, start, first, |es|, skip)
    ensures LeastLive(es, s, start, first, None)
  {}

  /** From before the shown key, the next entry is at most the shown one. */
  lemma TurnsForward(es: seq<Entry>, es': seq<Entry>, s: nat, i: nat, from: int)
    requires Growth(es, es', s) && Live(es, s, i) && -1 <= from < i
    requires forall k :: from < k < i ==> es[k].key.seqNo > s
    ensures var i', next := Shifted(es, es', i), Shifted(es, es', from) + 1;
            && Live(es', s, i') && es'[i'] == es[i] && 0 <= next <= i'
            && forall k :: next <= k < i' ==> es'[k].key.seqNo > s
  {
    Kept(es, es', s, i);
    LiveMoves(es, es', s, i);
    SideKept(es, es', s, i, from);
    if from >= 0 { Kept(es, es', s, from); }
    forall k | Shifted(es, es', from) < k < Shifted(es, es', i) ensures es'[k].key.seqNo > s {
      if es'[k].key.seqNo <= s {
        var j := Came(es, es', s, k);
        SideKept(es, es', s, j, i);
        SideKept(es, es', s, j, from);
      }
    }
  }

  lemma BackBegins(es: seq<Entry>, s: nat, start: int)
    requires -1 <= start < |es|
    ensures Back(es, s, start, start, None)
  {}

  /** A backward scan that moves on after the list has grown from `before` to `es`. */
  lemma BackGoesOn(first: seq<Entry>, before: seq<Entry>, es: seq<Entry>, s: nat, i0: int, start: int, i: nat, found: Option<nat>)
    returns (start': int, found': Option<nat>)
    requires Growth(first, before, s) && Growth(before, es, s) && 0 <= i0 < |first| && start == Shifted(first, before, i0)
    requires i < |before| && Back(before, s, start, i, found)
    requires before[i].key.seqNo <= s && found.Some? ==> before[i].key.user >= before[found.value].key.user
    ensures Growth(first, es, s) && start' == Shifted(first, es, i0) && start' < |es|
    ensures var e := before[i]; var i' := Shifted(before, es, i);
            && 0 <= i' <= start' && es[i'] == e && Back(es, s, start', i' - 1, found')
            && (found'.Some? ==> found'.value < |es|)
            && if e.key.seqNo > s then
                 found'.Some? == found.Some? && (found.Some? ==> es[found'.value] == before[found.value])
               else found' == if e.key.kind.Value? then Some(i') else None
  {
    hide Back;
    hide Shifted;
    ShiftedTwice(first, before, es, s, i0);
    Kept(first, es, s, i0);
    Kept(before, es, s, i);
    start' := Shifted(first, es, i0);
    BackBounds(before, s, start, i, found);
    BackMoves(before, es, s, start, i, found);
    var moved := FoundShifted(before, es, found);
    if found.Some? { FoundKept(before, es, s, found.value); }
    BackBounds(es, s, start', Shifted(before, es, i), moved);
    BackStep(es, s, start', Shifted(before, es, i), moved);
    found' := if before[i].key.seqNo > s then moved else if before[i].key.kind.Value? then Some(Shifted(before, es, i)) else None;
  }

  lemma FoundKept(es: seq<Entry>, es': seq<Entry>, s: nat, m: nat)
    requires Growth(es, es', s) && m < |es|
    ensures FoundShifted(es, es', Some(m)).value < |es'| && es'[FoundShifted(es, es', Some(m)).value] == es[m]
  {
    Kept(es, es', s, m);
  }

  lemma BackBounds(es: seq<Entry>, s: nat, start: int, i: int, found: Option<nat>)
    requires Back(es, s, start, i, found)
    ensures -1 <= i <= start < |es| && (found.Some? ==> i < found.value <= start)
  {}

  /** The scan stopped in front, or at an entry of a smaller key. */
  lemma BackEnds(es: seq<Entry>, s: nat, start: int, i: int, found: Option<nat>)
    requires Back(es, s, start, i, found)
    requires i >= 0 ==> found.Some? && es[i].key.user < es[found.value].key.user
    ensures GreatestLive(es, s, start, found)
    ensures found.Some? ==> i < found.value < |es| && forall k :: i < k < found.value ==> es[k].key.seqNo > s
  {
    BackStop(es, s, start, i, found);
  }

  lemma NothingBefore(es: seq<Entry>, s: nat)
    ensures GreatestLive(es, s, -1, None)
  {}

  /** One step back from an entry of the shown key. */
  lemma StepsBefore(es: seq<Entry>, es': seq<Entry>, s: nat, i: nat, from: nat)
    requires Growth(es, es', s) && from <= i < |es| && Live(es, s, i) && es[from].key.user == es[i].key.user
    ensures var i', m := Shifted(es, es', i), Shifted(es, es', from);
            && 0 <= m <= i' < |es'| && es'[i'] == es[i] && Live(es', s, i')
            && forall k :: m <= k <= i' ==> es'[k].key.user == es[i].key.user
  {
    Kept(es, es', s, i);
    Kept(es, es', s, from);
    LiveMoves(es, es', s, i);
    SideKept(es, es', s, from, i);
    var i', m := Shifted(es, es', i), Shifted(es, es', from);
    forall k | m <= k <= i' ensures es'[k].key.user == es[i].key.user {
      BetweenUsers(es', m, k, i');
    }
  }

  lemma BetweenUsers(es: seq<Entry>, m: nat, k: nat, i: nat)
    requires Sorted(es) && m <= k <= i < |es| && es[m].key.user == es[i].key.user
    ensures es[k].key.user == es[i].key.user
  {
    assert m == k || Less(es[m].key, es[k].key);
    assert k == i || Less(es[k].key, es[i].key);
  }

  /** Live entries of smaller keys are those at or before a position just in front of the key. */
  lemma UnderIsBefore(es: seq<Entry>, s: nat, i: nat, start: int)
    requires Sorted(es) && Live(es, s, i) && -1 <= start < i
    requires start >= 0 ==> es[start].key.user < es[i].key.user
    requires forall k :: start < k < i ==> es[k].key.user == es[i].key.user || es[k].key.seqNo > s
    ensures Behind(es, s, Some(es[i].key.user), start)
  {
    forall j: nat | Live(es, s, j) && j <= start ensures es[j].key.user < es[i].key.user {}
    forall j: nat | Live(es, s, j) && j >= i ensures es[j].key.user >= es[i].key.user {}
  }

  /** From the shown entry, or from just before its key, only larger keys are left to show. */
  lemma ScanAfter(es: seq<Entry>, s: nat, i: nat, start: int)
    requires Sorted(es) && Live(es, s, i) && 0 <= start <= i
    requires forall k :: start <= k < i ==> es[k].key.seqNo > s
    ensures Scan(es, s, start, Some(es[i].key.user), start, Some(es[i].key.user))
  {
    forall k | i <= k < |es| ensures es[k].key.user >= es[i].key.user {}
  }

  lemma BeyondIsMore(es: seq<Entry>, s: nat, i: nat, start: int, key: UserKey)
    requires Sorted(es) && Live(es, s, i) && 0 <= start <= i && key == es[i].key.user
    ensures Ahead(es, s, MoreThan(key), start, Some(key))
  {
    forall j: nat | Live(es, s, j) && j < start ensures es[j].key.user <= key {}
  }

  lemma SeekBounds(es: seq<Entry>, s: nat, target: UserKey, i: nat)
    requires Sorted(es) && i == FirstAtOrAfter(es, InternalKey(target, s, SEEK_KIND))
    ensures Ahead(es, s, AtLeast(target), i, None)
    ensures Scan(es, s, i, None, i, None)
  {
    forall j: nat | i <= j < |es| ensures es[j].key.user >= target {}
  }
}
