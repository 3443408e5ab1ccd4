/**
 The user-visible iterator: it walks the internal entries, which hold every version of every
 key, and shows each key once, with its value at the iterator's sequence number.

 It is proved to be a cursor over the map that `Read` defines, in both directions and across
 any change of direction, while other threads add entries to what it walks: before each move of the
 internal iterator the list may have grown.
 */
module DbIter {
  import opened Entries
  import opened GrowingList
  import opened IterScans

  datatype Direction = Forward | Reverse

  class DBIter {
    const sequence: nat
    const later: nat -> seq<Entry>  // what the internal iterator will walk as time goes on
    ghost const bound: nat
    ghost const all: set<Entry>     // what it has to show: anything that reads like the entries it walks
    var es: seq<Entry>              // what the internal iterator walks now
    var clock: nat
    var it: int                     // position of the internal iterator, -1 when invalid
    var direction: Direction
    var valid: bool
    var savedKey: Option<UserKey>
    var savedValue: UserValue
    ghost var at: Option<nat>       // index of the entry shown

    constructor (es: seq<Entry>, sequence: nat, later: nat -> seq<Entry>, ghost bound: nat, ghost all: set<Entry>)
      requires Schedule(es, later, 0, sequence, bound) && ReadAlike(Elements(es), all, sequence)
      ensures Valid() && Current() == None
      ensures this.es == es && this.sequence == sequence && this.later == later && this.all == all
    {
      this.es, this.sequence, this.later, this.bound, this.all := es, sequence, later, bound, all;
      clock, it, direction, valid := 0, -1, Forward, false;
      savedKey, savedValue := None, "";
      at := None;
    }

    predicate IterValid()
      reads this
    {
      0 <= it < |es|
    }

    ghost predicate Listed()
      reads this
    {
      Schedule(es, later, clock, sequence, bound) && ReadAlike(Elements(es), all, sequence) && -1 <= it < |es|
    }

    /** Forward, the internal iterator stands on the shown entry.  In reverse it stands before
        all entries of the shown key, with nothing visible in between. */
    ghost predicate Valid()
      reads this
    {
      && Listed()
      && valid == at.Some?
      && (at.Some? ==> Live(es, sequence, at.value))
      && (at.Some? && direction.Forward? ==> it == at.value)
      && (at.Some? && direction.Reverse? ==> SavedAt(at.value))
    }

    /** In reverse, the saved pair is the shown one and the internal iterator stands before its key. */
    ghost predicate SavedAt(m: nat)
      reads this
    {
      && -1 <= it < m < |es|
      && savedKey == Some(es[m].key.user) && savedValue == es[m].value
      && (it >= 0 ==> es[it].key.user < es[m].key.user)
      && (forall k :: it < k < m ==> es[k].key.seqNo > sequence)
    }

    function Key(): UserKey
      requires Valid() && valid
      reads this
    {
      if direction.Forward? then es[it].key.user else savedKey.value
    }

    function Value(): UserValue
      requires Valid() && valid
      reads this
    {
      if direction.Forward? then es[it].value else savedValue
    }

    function Current(): Shown
      requires Valid()
      reads this
    {
      if valid then Some((Key(), Value())) else None
    }

    /** Time passes: the list may have grown.  The internal iterator stays on its entry. */
    method Tick()
      requires Listed()
      modifies this`es, this`clock, this`it
      ensures Listed() && Growth(old(es), es, sequence) && it == Shifted(old(es), es, old(it))
      ensures old(it) >= 0 ==> IterValid() && es[it] == old(es)[old(it)] && it >= old(it) && |es| - it >= |old(es)| - old(it)
    {
      hide ReadAlike;
      hide UniqueSeqNos;
      ghost var before, place := es, it;
      AlikeMoves(es, later(clock), all, sequence);
      if it >= 0 {
        Kept(before, later(clock), sequence, place);
        NotFewerBefore(before, later(clock), sequence, place);
        NotFewerAfter(before, later(clock), sequence, place);
        it := FirstAtOrAfter(later(clock), es[it].key);
      }
      es := later(clock);
      clock := clock + 1;
    }

    method IterNext()
      requires Listed() && IterValid()
      modifies this`es, this`clock, this`it
      ensures Listed() && Growth(old(es), es, sequence)
      ensures var i := Shifted(old(es), es, old(it));
              0 <= i < |es| && i >= old(it) && it == if i + 1 < |es| then i + 1 else -1
    {
      Tick();
      it := if it + 1 < |es| then it + 1 else -1;
    }

    method IterPrev()
      requires Listed() && IterValid()
      modifies this`es, this`clock, this`it
      ensures Listed() && Growth(old(es), es, sequence)
      ensures var i := Shifted(old(es), es, old(it));
              0 <= i < |es| && |es| - i >= |old(es)| - old(it) && it == i - 1
    {
      Tick();
      it := it - 1;
    }

    /** Scans forward to the next entry to show; `skip` is the key to pass over, if any.  `start` is where
        the entry it began with has come to lie. */
    method FindNextUserEntry(skip: Option<UserKey>) returns (ghost start: nat)
      requires Listed() && IterValid() && Scan(es, sequence, it, skip, it, skip)
      modifies this
      ensures Listed() && direction == old(direction) && Growth(old(es), es, sequence)
      ensures start == Shifted(old(es), es, old(it)) && start < |es|
      ensures valid == at.Some? && (at.Some? ==> it == at.value)
      ensures LeastLive(es, sequence, start, skip, at)
    {
      hide Scan;
      hide LeastLive;
      hide Schedule;
      hide ReadAlike;
      hide Growth;
      hide Shifted;
      start := it;
      ghost var first, i0 := es, it;
      GrowthNow(es, later, clock, sequence, bound, it);
      savedKey := skip;
      while true
        invariant Listed() && IterValid() && direction == old(direction)
        invariant Growth(first, es, sequence) && start == Shifted(first, es, i0) && start < |es|
        invariant Scan(es, sequence, start, skip, it, savedKey)
        decreases bound - it
      {
        AtMost(es, later, clock, sequence, bound);
        var e := es[it];
        ghost var passed, before, i := savedKey, es, it;
        ScanStep(es, sequence, start, skip, it, savedKey);
        if e.key.seqNo <= sequence {
          if e.key.kind.Deletion? {
            savedKey := Some(e.key.user);
          } else if savedKey.Some? && e.key.user <= savedKey.value {
            // hidden
          } else {
            valid, savedKey := true, None;
            at := Some(it);
            return;
          }
        }
        IterNext();
        AtMost(es, later, clock, sequence, bound);
        start := ScanGoesOn(first, before, es, sequence, i0, start, skip, i, passed);
        if !IterValid() {
          break;
        }
      }
      ScanEnds(es, sequence, start, skip, savedKey);
      savedKey := None;
      valid := false;
      at := None;
    }

    /** Moves to the next key that has a value. */
    method Next()
      requires Valid() && valid
      modifies this
      ensures Valid() && FirstShown(all, sequence, MoreThan(old(Key())), Current())
    {
      hide FirstShown;
      hide Scan;
      hide Schedule;
      hide ReadAlike;
      hide Ahead;
      ghost var key := es[at.value].key.user;
      ghost var i := StartForward();
      AtMost(es, later, clock, sequence, bound);
      BeyondIsMore(es, sequence, i, it, key);
      ghost var before, from := es, it;
      ghost var start := FindNextUserEntry(savedKey);
      AheadMoves(before, es, sequence, MoreThan(key), from, Some(key));
      ShowLeast(start, Some(key), MoreThan(key));
    }

    /** The least live entry found is the first key shown. */
    lemma ShowLeast(start: nat, skip: Option<UserKey>, b: Lower)
      requires Listed() && LeastLive(es, sequence, start, skip, at) && Ahead(es, sequence, b, start, skip)
      requires direction.Forward? && valid == at.Some? && (at.Some? ==> it == at.value)
      ensures Valid() && FirstShown(all, sequence, b, Current())
    {
      LeastIsFirst(es, all, sequence, start, skip, at, b);
    }

    /** Turns around if need be, and remembers the shown key as the one to pass over.
        In reverse the shown entry lies ahead, so the internal iterator ends up valid. */
    method StartForward() returns (ghost i: nat)
      requires Valid() && valid
      modifies this
      ensures Listed() && direction.Forward? && 0 <= it <= i < |es| && savedKey == Some(es[i].key.user)
      ensures es[i].key.user == old(es[at.value].key.user) && Live(es, sequence, i)
      ensures forall k :: it <= k < i ==> es[k].key.seqNo > sequence
      ensures Scan(es, sequence, it, savedKey, it, savedKey)
    {
      hide Schedule;
      hide ReadAlike;
      hide Scan;
      AtMost(es, later, clock, sequence, bound);
      i := at.value;
      if direction.Reverse? {
        direction := Forward;
        ghost var before, from := es, it;
        if !IterValid() {
          Tick();
          it := 0;
        } else {
          IterNext();
        }
        i := Shifted(before, es, at.value);
        TurnsForward(before, es, sequence, at.value, from);
        AtMost(es, later, clock, sequence, bound);
      } else {
        savedKey := Some(es[it].key.user);
      }
      ScanAfter(es, sequence, i, it);
    }

    /** Moves to the first key at or after `target` that has a value. */
    method Seek(target: UserKey)
      requires Valid()
      modifies this
      ensures Valid() && FirstShown(all, sequence, AtLeast(target), Current())
    {
      hide FirstShown;
      hide ReadAlike;
      hide Scan;
      hide Schedule;
      Tick();
      direction := Forward;
      savedValue := "";
      savedKey := None;
      var i := FirstAtOrAfter(es, InternalKey(target, sequence, SEEK_KIND));
      it := if i < |es| then i else -1;
      SeekBounds(es, sequence, target, i);
      ScanForward(i, AtLeast(target));
    }

    /** Scans from the place just sought, if there is one. */
    method ScanForward(ghost i: nat, ghost b: Lower)
      requires Listed() && direction.Forward? && it == (if i < |es| then i else -1)
      requires Scan(es, sequence, i, None, i, None) && Ahead(es, sequence, b, i, None)
      modifies this
      ensures Valid() && FirstShown(all, sequence, b, Current())
    {
      hide FirstShown;
      hide ReadAlike;
      hide Schedule;
      hide Ahead;
      if IterValid() {
        ghost var before := es;
        ghost var start := FindNextUserEntry(None);
        AheadMoves(before, es, sequence, b, i, None);
        ShowLeast(start, None, b);
      } else {
        valid := false;
        at := None;
        ShowLeast(i, None, b);
      }
    }

    method SeekToFirst()
      requires Valid()
      modifies this
      ensures Valid() && FirstShown(all, sequence, Anywhere, Current())
    {
      Tick();
      direction := Forward;
      savedValue := "";
      it := if |es| > 0 then 0 else -1;
      ScanForward(0, Anywhere);
    }

    /** Scans backward to the previous entry to show and saves it. */
    method FindPrevUserEntry() returns (ghost start: int)
      requires Listed() && direction.Reverse?
      modifies this
      ensures Listed() && Growth(old(es), es, sequence)
      ensures start == Shifted(old(es), es, old(it)) && -1 <= it <= start < |es| && valid == at.Some?
      ensures GreatestLive(es, sequence, start, at)
      ensures valid ==> direction.Reverse? && SavedAt(at.value)
      ensures !valid ==> direction.Forward?
    {
      hide Back;
      hide Live;
      hide GreatestLive;
      hide Schedule;
      hide ReadAlike;
      hide Growth;
      hide Shifted;
      start := it;
      ghost var first, i0 := es, it;
      GrowthNow(es, later, clock, sequence, bound, it);
      var hasValue := false;
      at := None;
      BackBegins(es, sequence, start);
      while IterValid()
        invariant Listed() && direction.Reverse?
        invariant Growth(first, es, sequence) && start == Shifted(first, es, i0) && it <= start < |es|
        invariant i0 < 0 ==> start < 0
        invariant hasValue == at.Some? && Back(es, sequence, start, it, at)
        invariant hasValue ==> at.value < |es| && savedKey == Some(es[at.value].key.user) && savedValue == es[at.value].value
        decreases bound + 1 - (|es| - it)
      {
        AtMost(es, later, clock, sequence, bound);
        var e := es[it];
        ghost var before, i, found := es, it, at;
        BackStep(es, sequence, start, it, at);
        if e.key.seqNo <= sequence {
          if hasValue && e.key.user < savedKey.value {
            break;
          }
          hasValue := e.key.kind.Value?;
          if !hasValue {
            savedKey, savedValue := None, "";
          } else {
            savedKey, savedValue := Some(e.key.user), e.value;
          }
        }
        IterPrev();
        AtMost(es, later, clock, sequence, bound);
        start, at := BackGoesOn(first, before, es, sequence, i0, start, i, found);
      }
      BackEnds(es, sequence, start, it, at);
      if !hasValue {
        valid := false;
        savedKey, savedValue := None, "";
        direction := Forward;
      } else {
        valid := true;
      }
    }

    /** Moves to the previous key that has a value. */
    method Prev()
      requires Valid() && valid
      modifies this
      ensures Valid() && LastShown(all, sequence, Some(old(Key())), Current())
    {
      hide LastShown;
      hide Schedule;
      hide ReadAlike;
      hide Behind;
      hide Live;
      ghost var i := at.value;
      var key := if direction.Forward? then es[it].key.user else savedKey.value;
      if direction.Forward? {
        i := StepBeforeKey();
        AtMost(es, later, clock, sequence, bound);
        if !IterValid() {
          valid := false;
          savedKey, savedValue := None, "";
          at := None;
          UnderIsBefore(es, sequence, i, -1);
          NothingBefore(es, sequence);
          ShowGreatest(-1, Some(key));
          return;
        }
        direction := Reverse;
      }
      AtMost(es, later, clock, sequence, bound);
      UnderIsBefore(es, sequence, i, it);
      ghost var before, from := es, it;
      ghost var start := FindPrevUserEntry();
      BehindMoves(before, es, sequence, Some(key), from);
      ShowGreatest(start, Some(key));
    }

    lemma ShowGreatest(start: int, b: Option<UserKey>)
      requires Listed() && GreatestLive(es, sequence, start, at) && Behind(es, sequence, b, start)
      requires valid == at.Some? && (valid ==> direction.Reverse? && SavedAt(at.value)) && (!valid ==> direction.Forward?)
      ensures Valid() && LastShown(all, sequence, b, Current())
    {
      GreatestIsLast(es, all, sequence, start, at, b);
    }

    /** Scans backward until the key changes.  `i` is where the shown entry has come to lie. */
    method StepBeforeKey() returns (ghost i: nat)
      requires Listed() && IterValid() && Live(es, sequence, it)
      modifies this`es, this`clock, this`it, this`savedKey
      ensures Listed() && it < i < |es| && es[i] == old(es[it]) && Live(es, sequence, i)
      ensures it >= 0 ==> es[it].key.user < es[i].key.user
      ensures forall k :: it < k <= i ==> es[k].key.user == es[i].key.user
    {
      hide Schedule;
      hide ReadAlike;
      i := it;
      ghost var shown := es[it];
      savedKey := Some(es[it].key.user);
      while true
        invariant Listed() && 0 <= it <= i < |es| && es[i] == shown && Live(es, sequence, i)
        invariant savedKey == Some(shown.key.user) && es[it].key.user == shown.key.user
        decreases bound + 1 - (|es| - it)
      {
        AtMost(es, later, clock, sequence, bound);
        ghost var before, from := es, it;
        IterPrev();
        AtMost(es, later, clock, sequence, bound);
        StepsBefore(before, es, sequence, i, from);
        i := Shifted(before, es, i);
        if !IterValid() {
          return;
        }
        if es[it].key.user < savedKey.value {
          return;
        }
      }
    }

    method SeekToLast()
      requires Valid()
      modifies this
      ensures Valid() && LastShown(all, sequence, None, Current())
    {
      hide LastShown;
      hide Schedule;
      hide ReadAlike;
      Tick();
      direction := Reverse;
      savedValue := "";
      it := |es| - 1;
      ghost var before, from := es, it;
      ghost var start := FindPrevUserEntry();
      BehindMoves(before, es, sequence, None, from);
      ShowGreatest(start, None);
    }
  }
}
