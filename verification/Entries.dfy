/**
 Internal keys, entries and the meaning of a set of entries.

 The whole store means one thing: a finite set of entries, each a user key, a
 sequence number and either a value or a deletion mark.  Reading a user key at a
 snapshot returns the entry with the largest sequence number not above the
 snapshot.  Every other module is proved against `Read`.
 */
module Entries {

  datatype Option<+T> = None | Some(value: T)

  /** A user key is its rank under the user comparator; `ByteKeys.RankIsMonotone`
      shows that the byte strings of any run can be numbered this way. */
  type UserKey = int

  type UserValue = string

  const MAX_SEQUENCE: nat := 0xFF_FFFF_FFFF_FFFF

  datatype Kind = Deletion | Value

  datatype InternalKey = InternalKey(user: UserKey, seqNo: nat, kind: Kind)

  datatype Entry = Entry(key: InternalKey, value: UserValue)

  /** The kind used in lookup keys: the largest one, so that it sorts first. */
  const SEEK_KIND := Value

  /** Increasing user key, then decreasing sequence number, then decreasing kind. */
  predicate Less(a: InternalKey, b: InternalKey) {
    || a.user < b.user
    || (a.user == b.user && a.seqNo > b.seqNo)
    || (a.user == b.user && a.seqNo == b.seqNo && a.kind.Value? && b.kind.Deletion?)
  }

  predicate LessEq(a: InternalKey, b: InternalKey) {
    !Less(b, a)
  }

  predicate Sorted(es: seq<Entry>) {
    forall i, j :: 0 <= i < j < |es| ==> Less(es[i].key, es[j].key)
  }

  ghost function Elements<T>(s: seq<T>): set<T> {
    set x | x in s
  }

  /** No two entries carry the same sequence number. */
  ghost predicate UniqueSeqNos(s: set<Entry>) {
    forall a, b :: a in s && b in s && a.key.seqNo == b.key.seqNo ==> a == b
  }

  ghost predicate Visible(s: set<Entry>, u: UserKey, snapshot: nat, e: Entry) {
    e in s && e.key.user == u && e.key.seqNo <= snapshot
  }

  /** `e` is the newest entry of `u` that a reader at `snapshot` may see. */
  ghost predicate Newest(s: set<Entry>, u: UserKey, snapshot: nat, e: Entry) {
    && Visible(s, u, snapshot, e)
    && forall x :: Visible(s, u, snapshot, x) ==> x.key.seqNo <= e.key.seqNo
  }

  /** The meaning of a set of entries. */
  ghost function Read(s: set<Entry>, u: UserKey, snapshot: nat): Option<UserValue> {
    if exists e :: Newest(s, u, snapshot, e) && e.key.kind.Value? then
      var e :| Newest(s, u, snapshot, e) && e.key.kind.Value?;
      Some(e.value)
    else None
  }

  /** What a lookup that found `e` (or nothing) reports. */
  function Answer(e: Option<Entry>): Option<UserValue> {
    if e.Some? && e.value.key.kind.Value? then Some(e.value.value) else None
  }

  /** `r` is the lookup result: the newest visible entry, or none when nothing is visible. */
  ghost predicate Finds(s: set<Entry>, u: UserKey, snapshot: nat, r: Option<Entry>) {
    match r
    case Some(e) => Newest(s, u, snapshot, e)
    case None => forall x :: !Visible(s, u, snapshot, x)
  }

  lemma FindsIsRead(s: set<Entry>, u: UserKey, snapshot: nat, r: Option<Entry>)
    requires UniqueSeqNos(s)
    requires Finds(s, u, snapshot, r)
    ensures Read(s, u, snapshot) == Answer(r)
  {
    if r.Some? {
      forall x | Newest(s, u, snapshot, x) ensures x == r.value {
        assert Visible(s, u, snapshot, x) && Visible(s, u, snapshot, r.value);
      }
    }
  }

  /** Some lookup result always exists. */
  lemma FindsExists(s: set<Entry>, u: UserKey, snapshot: nat) returns (r: Option<Entry>)
    ensures Finds(s, u, snapshot, r)
  {
    var v := set x | x in s && x.key.user == u && x.key.seqNo <= snapshot;
    if v == {} {
      forall x ensures !Visible(s, u, snapshot, x) { assert x !in v; }
      return None;
    }
    var e := MaxSeqNo(v);
    forall x | Visible(s, u, snapshot, x) ensures x.key.seqNo <= e.key.seqNo { assert x in v; }
    r := Some(e);
  }

  lemma {:induction false} MaxSeqNo(v: set<Entry>) returns (e: Entry)
    requires v != {}
    ensures e in v && forall x :: x in v ==> x.key.seqNo <= e.key.seqNo
  {
    var y :| y in v;
    if forall x :: x in v ==> x == y {
      return y;
    }
    var z :| z in v && z != y;
    var rest := v - {y};
    assert z in rest;
    var m := MaxSeqNo(rest);
    e := if m.key.seqNo >= y.key.seqNo then m else y;
    forall x | x in v ensures x.key.seqNo <= e.key.seqNo { assert x == y || x in rest; }
  }

  /** Every entry of `above` is newer than every entry of `below` with the same user key. */
  ghost predicate Above(above: set<Entry>, below: set<Entry>) {
    forall a, b :: a in above && b in below && a.key.user == b.key.user ==> a.key.seqNo > b.key.seqNo
  }

  /** Searching `above` first, and `below` only when `above` shows nothing, searches their union. */
  lemma FirstHitIsNewest(above: set<Entry>, below: set<Entry>, u: UserKey, snapshot: nat,
                         r: Option<Entry>, r': Option<Entry>)
    requires Above(above, below)
    requires Finds(above, u, snapshot, r)
    requires Finds(below, u, snapshot, r')
    ensures Finds(above + below, u, snapshot, if r.Some? then r else r')
  {
    forall x | Visible(above + below, u, snapshot, x)
      ensures Visible(above, u, snapshot, x) || Visible(below, u, snapshot, x)
    {}
    if r.Some? {
      assert Visible(above + below, u, snapshot, r.value);
    } else if r'.Some? {
      assert Visible(above + below, u, snapshot, r'.value);
    }
  }

  /** The entries read alike at every snapshot from `floor` on. */
  ghost predicate SameReads(s: set<Entry>, t: set<Entry>, floor: nat) {
    forall u, snapshot: nat :: snapshot >= floor ==> Read(s, u, snapshot) == Read(t, u, snapshot)
  }

  /** Adding newer entries to two sets that read alike leaves them reading alike. */
  lemma SameReadsExtend(s: set<Entry>, t: set<Entry>, added: set<Entry>, floor: nat)
    requires SameReads(s, t, floor)
    requires UniqueSeqNos(s + added) && UniqueSeqNos(t + added)
    requires Above(added, s) && Above(added, t)
    ensures SameReads(s + added, t + added, floor)
  {
    forall u, snapshot: nat | snapshot >= floor
      ensures Read(s + added, u, snapshot) == Read(t + added, u, snapshot)
    {
      var a := FindsExists(added, u, snapshot);
      var r := FindsExists(s, u, snapshot);
      var r' := FindsExists(t, u, snapshot);
      FirstHitIsNewest(added, s, u, snapshot, a, r);
      FirstHitIsNewest(added, t, u, snapshot, a, r');
      assert added + s == s + added && added + t == t + added;
      FindsIsRead(s + added, u, snapshot, if a.Some? then a else r);
      FindsIsRead(t + added, u, snapshot, if a.Some? then a else r');
      FindsIsRead(s, u, snapshot, r);
      FindsIsRead(t, u, snapshot, r');
    }
  }

  // ------------------------------------------------------------------------
  // Searching a sorted run of entries

  /** Index of the first entry at or after `target`: what a seek in a table or memtable delivers. */
  function FirstAtOrAfter(es: seq<Entry>, target: InternalKey): (i: nat)
    ensures i <= |es|
    ensures i < |es| ==> LessEq(target, es[i].key)
    ensures forall k :: 0 <= k < i ==> Less(es[k].key, target)
  {
    if |es| == 0 || !Less(es[0].key, target) then 0
    else
      var i := FirstAtOrAfter(es[1..], target);
      assert forall k :: 1 <= k < i + 1 ==> es[k] == es[1..][k - 1];
      i + 1
  }

  lemma SamePlace(es: seq<Entry>, n: nat, m: nat)
    requires Sorted(es) && n <= m < |es| && LessEq(es[m].key, es[n].key)
    ensures n == m
  {}

  /** Seek to the lookup key, then keep the entry only if it has the looked-up user key. */
  function SeekUser(es: seq<Entry>, u: UserKey, snapshot: nat): Option<Entry> {
    var i := FirstAtOrAfter(es, InternalKey(u, snapshot, SEEK_KIND));
    if i < |es| && es[i].key.user == u then Some(es[i]) else None
  }

  lemma SeekUserFinds(es: seq<Entry>, u: UserKey, snapshot: nat)
    requires Sorted(es)
    ensures Finds(Elements(es), u, snapshot, SeekUser(es, u, snapshot))
  {
    var target := InternalKey(u, snapshot, SEEK_KIND);
    var i := FirstAtOrAfter(es, target);
    forall x | Visible(Elements(es), u, snapshot, x)
      ensures i < |es| && es[i].key.user == u && x.key.seqNo <= es[i].key.seqNo
    {
      var k :| 0 <= k < |es| && es[k] == x;
      assert !Less(x.key, target);
      assert i <= k;
      if i < k { assert Less(es[i].key, es[k].key); }
    }
  }
}
