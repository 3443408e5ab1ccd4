/**
 What the drop rules of a compaction do to the meaning of the store.

 `Split` divides all entries by where a compaction finds them.  The rules drop an
 entry hidden by a newer one that every reader sees, and a deletion mark with nothing
 below it.  The second rule looks only at levels below `level + 1`, and the inputs at
 `level + 1` need not be closed under shared boundary user keys; so a deletion mark can
 go while the value it hides stays behind.  `DropRulesExact` says precisely when.
 */
module CompactionMeaning {
  import opened Entries

  /** up: searched before `level`; left0, in0: left in place and input at `level`;
      in1, left1: the same at `level + 1`; deep: below. */
  datatype Split = Split(up: set<Entry>, left0: set<Entry>, in0: set<Entry>,
                         in1: set<Entry>, left1: set<Entry>, deep: set<Entry>)
  {
    ghost function Before(): set<Entry> {
      up + (left0 + in0) + (in1 + left1) + deep
    }

    ghost predicate Layered() {
      && UniqueSeqNos(Before())
      && Above(up, left0 + in0) && Above(up, in1 + left1) && Above(up, deep)
      && Above(left0 + in0, in1 + left1) && Above(left0 + in0, deep)
      && Above(in1 + left1, deep)
      && Above(left0, in0)
      && (forall x, y :: x in left1 && y in in0 ==> x.key.user != y.key.user)
    }

    /** Hidden from every reader by a newer input, or a deletion mark of a base-level key. */
    ghost predicate Obsolete(e: Entry, smallestSnapshot: nat, base: UserKey -> bool) {
      || (exists x :: x in in0 + in1 && x.key.user == e.key.user && e.key.seqNo < x.key.seqNo <= smallestSnapshot)
      || (e.key.kind.Deletion? && e.key.seqNo <= smallestSnapshot && base(e.key.user))
    }

    ghost function Kept(smallestSnapshot: nat, base: UserKey -> bool): set<Entry> {
      set e | e in in0 + in1 && !Obsolete(e, smallestSnapshot, base)
    }

    ghost function After(smallestSnapshot: nat, base: UserKey -> bool): set<Entry> {
      up + left0 + (left1 + Kept(smallestSnapshot, base)) + deep
    }

    /** Keys the base test accepts have no entry below `level + 1`. */
    ghost predicate BaseOk(base: UserKey -> bool) {
      forall x :: x in deep ==> !base(x.key.user)
    }

    /** `u` is deleted by an input of `level + 1` that the base test lets go, while the newest
        entry of `u` left behind at `level + 1` is a value. */
    ghost predicate Resurrects(u: UserKey, smallestSnapshot: nat, base: UserKey -> bool) {
      exists t, x ::
        && t in in1 && t.key.kind.Deletion? && base(u)
        && Newest(Before(), u, smallestSnapshot, t)
        && Newest(left1, u, smallestSnapshot, x) && x.key.kind.Value?
    }
  }

  /** A compaction preserves every read at or above the smallest snapshot exactly when it
      resurrects no key. */
  lemma DropRulesExact(p: Split, smallestSnapshot: nat, base: UserKey -> bool)
    requires p.Layered() && p.BaseOk(base)
    ensures SameReads(p.Before(), p.After(smallestSnapshot, base), smallestSnapshot)
            <==> forall u :: !p.Resurrects(u, smallestSnapshot, base)
  {
    if u :| p.Resurrects(u, smallestSnapshot, base) {
      ResurrectionShows(p, smallestSnapshot, base, u);
    } else {
      forall u, snapshot: nat | snapshot >= smallestSnapshot
        ensures Read(p.Before(), u, snapshot) == Read(p.After(smallestSnapshot, base), u, snapshot)
      {
        ReadUnchanged(p, smallestSnapshot, base, u, snapshot);
      }
    }
  }

  lemma AfterIsSubset(p: Split, smallestSnapshot: nat, base: UserKey -> bool)
    ensures p.After(smallestSnapshot, base) <= p.Before()
  {}

  lemma ReadUnchanged(p: Split, smallestSnapshot: nat, base: UserKey -> bool, u: UserKey, snapshot: nat)
    requires p.Layered() && p.BaseOk(base)
    requires smallestSnapshot <= snapshot && !p.Resurrects(u, smallestSnapshot, base)
    ensures Read(p.Before(), u, snapshot) == Read(p.After(smallestSnapshot, base), u, snapshot)
  {
    var before, after := p.Before(), p.After(smallestSnapshot, base);
    AfterIsSubset(p, smallestSnapshot, base);
    var r := FindsExists(before, u, snapshot);
    var r' := FindsExists(after, u, snapshot);
    if r.Some? && r.value !in after {
      DroppedIsMark(p, smallestSnapshot, base, u, snapshot, r.value);
      if r'.Some? && r'.value.key.kind.Value? {
        LeftBehind(p, smallestSnapshot, base, u, snapshot, r.value, r'.value);
      }
    }
    SubsetReads(before, after, u, snapshot, r, r');
  }

  /** The newest visible entry is dropped only as a base-level deletion mark. */
  lemma DroppedIsMark(p: Split, smallestSnapshot: nat, base: UserKey -> bool, u: UserKey, snapshot: nat, e: Entry)
    requires smallestSnapshot <= snapshot
    requires Newest(p.Before(), u, snapshot, e) && e !in p.After(smallestSnapshot, base)
    ensures e in p.in0 + p.in1 && e.key.kind.Deletion? && e.key.seqNo <= smallestSnapshot && base(u)
  {
    assert Visible(p.Before(), u, snapshot, e);
    assert p.Obsolete(e, smallestSnapshot, base);
    if x :| x in p.in0 + p.in1 && x.key.user == u && e.key.seqNo < x.key.seqNo <= smallestSnapshot {
      assert Visible(p.Before(), u, snapshot, x);
      assert false;
    }
  }

  /** Dropping entries changes no read if whenever the newest entry goes it was a deletion mark
      and no value shows up instead. */
  lemma SubsetReads(before: set<Entry>, after: set<Entry>, u: UserKey, snapshot: nat,
                    r: Option<Entry>, r': Option<Entry>)
    requires after <= before && UniqueSeqNos(before)
    requires Finds(before, u, snapshot, r) && Finds(after, u, snapshot, r')
    requires r.Some? && r.value !in after ==> Answer(r) == None && Answer(r') == None
    ensures Read(before, u, snapshot) == Read(after, u, snapshot)
  {
    FindsIsRead(before, u, snapshot, r);
    FindsIsRead(after, u, snapshot, r');
    assert r.Some? ==> Visible(before, u, snapshot, r.value);
    assert r.Some? && r.value in after ==> Visible(after, u, snapshot, r.value);
    assert r'.Some? ==> Visible(after, u, snapshot, r'.value) && Visible(before, u, snapshot, r'.value);
  }

  /** A value that shows up after its deletion mark was dropped was left behind at `level + 1`. */
  lemma LeftBehind(p: Split, smallestSnapshot: nat, base: UserKey -> bool, u: UserKey, snapshot: nat, e: Entry, x: Entry)
    requires p.Layered() && p.BaseOk(base) && smallestSnapshot <= snapshot
    requires Newest(p.Before(), u, snapshot, e) && e in p.in0 + p.in1
    requires e.key.kind.Deletion? && e.key.seqNo <= smallestSnapshot && base(u)
    requires Newest(p.After(smallestSnapshot, base), u, snapshot, x) && x.key.kind.Value?
    ensures p.Resurrects(u, smallestSnapshot, base)
  {
    var before, after := p.Before(), p.After(smallestSnapshot, base);
    assert Visible(before, u, snapshot, x);
    assert x.key.seqNo < e.key.seqNo;
    assert Visible(after, u, snapshot, x);
    assert x !in p.up && x !in p.deep;
    assert x !in p.Kept(smallestSnapshot, base) by {
      if x in p.Kept(smallestSnapshot, base) { assert p.Obsolete(x, smallestSnapshot, base); }
    }
    assert x !in p.left0;
    assert x in p.left1 && e in p.in1;
    forall y | Visible(before, u, smallestSnapshot, y) ensures y.key.seqNo <= e.key.seqNo {
      assert Visible(before, u, snapshot, y);
    }
    assert Newest(before, u, smallestSnapshot, e) by { assert Visible(before, u, smallestSnapshot, e); }
    forall y | Visible(p.left1, u, smallestSnapshot, y) ensures y.key.seqNo <= x.key.seqNo {
      assert Visible(after, u, snapshot, y);
    }
    assert Newest(p.left1, u, smallestSnapshot, x) by { assert Visible(p.left1, u, smallestSnapshot, x); }
  }

  /** A resurrected key reads differently at the smallest snapshot itself. */
  lemma ResurrectionShows(p: Split, smallestSnapshot: nat, base: UserKey -> bool, u: UserKey)
    requires p.Layered() && p.BaseOk(base) && p.Resurrects(u, smallestSnapshot, base)
    ensures Read(p.Before(), u, smallestSnapshot) == None
    ensures Read(p.After(smallestSnapshot, base), u, smallestSnapshot).Some?
  {
    var before, after := p.Before(), p.After(smallestSnapshot, base);
    AfterIsSubset(p, smallestSnapshot, base);
    var t, x :| t in p.in1 && t.key.kind.Deletion? && base(u)
             && Newest(before, u, smallestSnapshot, t)
             && Newest(p.left1, u, smallestSnapshot, x) && x.key.kind.Value?;
    FindsIsRead(before, u, smallestSnapshot, Some(t));
    LeftBehindShows(p, smallestSnapshot, base, u, t, x);
    UniqueInSubset(after, before);
    FindsIsRead(after, u, smallestSnapshot, Some(x));
  }

  lemma LeftBehindShows(p: Split, smallestSnapshot: nat, base: UserKey -> bool, u: UserKey, t: Entry, x: Entry)
    requires p.Layered() && p.BaseOk(base)
    requires t in p.in1 && t.key.kind.Deletion? && base(u) && Newest(p.Before(), u, smallestSnapshot, t)
    requires Newest(p.left1, u, smallestSnapshot, x)
    ensures Newest(p.After(smallestSnapshot, base), u, smallestSnapshot, x)
  {
    var after := p.After(smallestSnapshot, base);
    assert Visible(p.left1, u, smallestSnapshot, x);
    assert Visible(after, u, smallestSnapshot, x);
    forall y | Visible(after, u, smallestSnapshot, y) ensures y.key.seqNo <= x.key.seqNo {
      OnlyLeftBehind(p, smallestSnapshot, base, u, t, y);
      assert Visible(p.left1, u, smallestSnapshot, y);
    }
  }

  lemma UniqueInSubset(s: set<Entry>, t: set<Entry>)
    requires s <= t && UniqueSeqNos(t)
    ensures UniqueSeqNos(s)
  {}

  /** Once the deletion mark is dropped, only what `level + 1` left behind is visible. */
  lemma OnlyLeftBehind(p: Split, smallestSnapshot: nat, base: UserKey -> bool, u: UserKey, t: Entry, y: Entry)
    requires p.Layered() && p.BaseOk(base)
    requires t in p.in1 && t.key.kind.Deletion? && base(u) && Newest(p.Before(), u, smallestSnapshot, t)
    requires Visible(p.After(smallestSnapshot, base), u, smallestSnapshot, y)
    ensures y in p.left1
  {
    assert Visible(p.Before(), u, smallestSnapshot, t) && Visible(p.Before(), u, smallestSnapshot, y);
    assert y.key.seqNo <= t.key.seqNo;
    assert y !in p.up && y !in p.deep && y !in p.left0;
    assert p.Obsolete(t, smallestSnapshot, base);
    assert y in p.in0 + p.in1 && y != t ==> p.Obsolete(y, smallestSnapshot, base);
  }

  lemma ResurrectionWitness(p: Split, smallestSnapshot: nat, base: UserKey -> bool, u: UserKey) returns (t: Entry, x: Entry)
    requires p.Layered() && p.in1 !! p.left1 && p.Resurrects(u, smallestSnapshot, base)
    ensures t in p.in1 && x in p.left1 && t.key.user == x.key.user && x.key.seqNo < t.key.seqNo
  {
    t, x :| t in p.in1 && t.key.kind.Deletion? && base(u)
      && Newest(p.Before(), u, smallestSnapshot, t)
      && Newest(p.left1, u, smallestSnapshot, x) && x.key.kind.Value?;
    assert Visible(p.left1, u, smallestSnapshot, x);
    assert Visible(p.Before(), u, smallestSnapshot, x) && Visible(p.Before(), u, smallestSnapshot, t);
  }
}
