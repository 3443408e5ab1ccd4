/**
 One shard of the LRU cache: a hash table, and two circular lists that share the entries out by
 whether a client holds a reference.
 */
module Cache {
  import opened Coding
  import opened Sequences
  import opened HandleTables

  // ------------------------------------------------------------------------
  // Circular lists

  /** A ring is written with its dummy head at both ends. */
  function RingOf(head: Handle, list: seq<Handle>): (r: seq<Handle>)
    ensures |r| == |list| + 2
  {
    [head] + list + [head]
  }

  ghost predicate RingOk(head: Handle, list: seq<Handle>)
    reads head`next, head`prev, list`next, list`prev
  {
    var r := RingOf(head, list);
    && Distinct([head] + list)
    && forall k: nat :: k <= |list| ==> LinkedAt(r, k)
  }

  ghost predicate LinkedAt(r: seq<Handle>, k: nat)
    requires k + 1 < |r|
    reads r`next, r`prev
  {
    r[k].next == r[k + 1] && r[k + 1].prev == r[k]
  }

  /** Unlinks the entry at index `i`. */
  method LruRemove(e: Handle, ghost head: Handle, ghost list: seq<Handle>, ghost i: nat)
    requires RingOk(head, list) && i < |list| && list[i] == e
    modifies e.next`prev, e.prev`next
    ensures RingOk(head, RemoveAt(list, i))
  {
    ghost var r, r' := RingOf(head, list), RingOf(head, RemoveAt(list, i));
    RingDistinct(head, list);
    assert LinkedAt(r, i) && LinkedAt(r, i + 1);
    forall k: nat | k <= |list| ensures old(r[k].next) == r[k + 1] && old(r[k + 1].prev) == r[k] {
      assert LinkedAt(r, k);
    }
    e.next.prev := e.prev;
    e.prev.next := e.next;
    forall k: nat | k < |list| ensures LinkedAt(r', k) {
      RemovedAt(head, list, i, k);
      RemovedAt(head, list, i, k + 1);
      var j := if k <= i then k else k + 1;
      assert k != i ==> old(r[j].next) == r[j + 1] && old(r[j + 1].prev) == r[j];
    }
    StillDistinct(head, list, i);
  }

  /** In a ring only the head occurs twice. */
  lemma RingDistinct(head: Handle, list: seq<Handle>)
    requires Distinct([head] + list)
    ensures var r := RingOf(head, list);
            forall j, k :: 0 <= j < k < |r| && (j > 0 || k < |r| - 1) ==> r[j] != r[k]
  {
    var r, a := RingOf(head, list), [head] + list;
    forall j, k | 0 <= j < k < |r| && (j > 0 || k < |r| - 1) ensures r[j] != r[k] {
      assert r[j] == a[j];
      if k < |r| - 1 {
        assert r[k] == a[k];
      } else {
        assert r[k] == a[0];
      }
    }
  }

  lemma RemovedAt(head: Handle, list: seq<Handle>, i: nat, k: nat)
    requires i < |list| && k <= |list|
    ensures RingOf(head, RemoveAt(list, i))[k] == RingOf(head, list)[if k <= i then k else k + 1]
  {
    var rest := RemoveAt(list, i);
    assert 0 < k < |list| ==> rest[k - 1] == list[if k <= i then k - 1 else k];
  }

  lemma StillDistinct(head: Handle, list: seq<Handle>, i: nat)
    requires Distinct([head] + list) && i < |list|
    ensures Distinct([head] + RemoveAt(list, i))
  {
    var a, b := [head] + list, [head] + RemoveAt(list, i);
    forall j, k | 0 <= j < k < |b| ensures b[j] != b[k] {
      assert b[j] == a[if j <= i then j else j + 1];
      assert b[k] == a[if k <= i then k else k + 1];
    }
  }

  /** Makes `e` the newest entry. */
  method LruAppend(head: Handle, e: Handle, ghost list: seq<Handle>)
    requires RingOk(head, list) && e != head && e !in list
    modifies e`next, e`prev, head`prev, head.prev`next
    ensures RingOk(head, list + [e])
  {
    ghost var r, r' := RingOf(head, list), RingOf(head, list + [e]);
    RingDistinct(head, list);
    assert LinkedAt(r, |list|);
    forall k: nat | k <= |list| ensures old(r[k].next) == r[k + 1] && old(r[k + 1].prev) == r[k] {
      assert LinkedAt(r, k);
    }
    forall k | 0 <= k < |r| ensures r[k] != e {
      assert 0 < k < |r| - 1 ==> r[k] == list[k - 1];
    }
    e.next := head;
    e.prev := head.prev;
    e.prev.next := e;
    e.next.prev := e;
    forall k: nat | k < |list| + 2 ensures LinkedAt(r', k) {
      assert k <= |list| ==> r'[k] == r[k];
      assert k < |list| ==> r'[k + 1] == r[k + 1] && old(r[k].next) == r[k + 1] && old(r[k + 1].prev) == r[k];
    }
    assert Distinct([head] + (list + [e])) by { AppendDistinct(head, list, e); }
  }

  lemma AppendDistinct(head: Handle, list: seq<Handle>, e: Handle)
    requires Distinct([head] + list) && e != head && e !in list
    ensures Distinct([head] + (list + [e]))
  {
    var a, b := [head] + list, [head] + (list + [e]);
    forall j, k | 0 <= j < k < |b| ensures b[j] != b[k] {
      assert b[j] == a[j];
      assert k < |a| ==> b[k] == a[k];
      assert j > 0 ==> b[j] == list[j - 1];
    }
  }

  lemma EmptyRing(head: Handle)
    requires head.next == head && head.prev == head
    ensures RingOk(head, [])
  {
    assert [head] + [] == [head];
    assert RingOf(head, []) == [head, head];
  }

  /** The two rings share no node. */
  ghost predicate RingsApart(a: Handle, as': seq<Handle>, b: Handle, bs: seq<Handle>) {
    a != b && a !in bs && b !in as' && forall e :: e in as' ==> e !in bs
  }

  /** Unlinking from one ring leaves the other. */
  method Unlink(e: Handle, ghost a: Handle, ghost as': seq<Handle>, ghost i: nat, ghost b: Handle, ghost bs: seq<Handle>)
    requires RingOk(a, as') && RingOk(b, bs) && RingsApart(a, as', b, bs) && i < |as'| && as'[i] == e
    modifies e.next`prev, e.prev`next
    ensures RingOk(a, RemoveAt(as', i)) && RingOk(b, bs)
  {
    ghost var r := RingOf(a, as');
    assert LinkedAt(r, i) && LinkedAt(r, i + 1);
    assert e.next == r[i + 2] && e.prev == r[i];
    RingNode(a, as', i);
    RingNode(a, as', i + 2);
    LruRemove(e, a, as', i);
  }

  lemma RingNode(a: Handle, as': seq<Handle>, k: nat)
    requires k < |as'| + 2
    ensures RingOf(a, as')[k] == a || RingOf(a, as')[k] in as'
  {
    assert 0 < k <= |as'| ==> RingOf(a, as')[k] == as'[k - 1];
  }

  lemma Neighbours(a: Handle, as': seq<Handle>, i: nat)
    requires RingOk(a, as') && i <= |as'|
    ensures var e := RingOf(a, as')[i + 1]; e.prev == a || e.prev in as'
    ensures var e := RingOf(a, as')[i]; e.next == a || e.next in as'
  {
    assert LinkedAt(RingOf(a, as'), i);
    RingNode(a, as', i);
    RingNode(a, as', i + 1);
  }

  /** Appending to one ring leaves the other. */
  method Append(a: Handle, e: Handle, ghost as': seq<Handle>, ghost b: Handle, ghost bs: seq<Handle>)
    requires RingOk(a, as') && RingOk(b, bs) && RingsApart(a, as', b, bs)
    requires e != a && e !in as' && e != b && e !in bs
    modifies e`next, e`prev, a`prev, a.prev`next
    ensures RingOk(a, as' + [e]) && RingOk(b, bs)
  {
    assert LinkedAt(RingOf(a, as'), |as'|);
    RingNode(a, as', |as'|);
    LruAppend(a, e, as');
  }

  // ------------------------------------------------------------------------
  // The cache

  function Charges(list: seq<Handle>): nat {
    if |list| == 0 then 0 else list[0].charge + Charges(list[1..])
  }

  /** The list without the entry at `i`. */
  lemma {:induction false} ChargesRemove(list: seq<Handle>, i: nat)
    requires i < |list|
    ensures Charges(list) == Charges(RemoveAt(list, i)) + list[i].charge
  {
    if i == 0 {
      assert RemoveAt(list, 0) == list[1..];
    } else {
      ChargesRemove(list[1..], i - 1);
      assert RemoveAt(list, i)[1..] == RemoveAt(list[1..], i - 1);
    }
  }

  lemma {:induction false} ChargesAppend(list: seq<Handle>, e: Handle)
    ensures Charges(list + [e]) == Charges(list) + e.charge
  {
    if |list| == 0 {
      assert list + [e] == [e] && [e][1..] == [];
    } else {
      ChargesAppend(list[1..], e);
      ConsTail(list, [e]);
    }
  }

  /** What is left after dropping oldest entries until the rest fits. */
  function Evict(list: seq<Handle>, usage: nat, capacity: nat): seq<Handle> {
    if usage > capacity && |list| > 0 && list[0].charge <= usage then Evict(list[1..], usage - list[0].charge, capacity)
    else list
  }

  /** `k` is the least number of oldest entries to drop so that the rest fits, or all of them. */
  ghost predicate DropsLeast(list: seq<Handle>, usage: int, capacity: nat, k: nat) {
    && k <= |list|
    && (forall j :: 0 <= j < k ==> usage - Charges(list[..j]) > capacity)
    && (k < |list| ==> usage - Charges(list[..k]) <= capacity)
  }

  lemma {:induction false} EvictsLeast(list: seq<Handle>, usage: nat, capacity: nat) returns (k: nat)
    requires Charges(list) <= usage
    ensures DropsLeast(list, usage, capacity, k) && Evict(list, usage, capacity) == list[k..]
  {
    if usage > capacity && |list| > 0 {
      k := EvictsLeast(list[1..], usage - list[0].charge, capacity);
      forall j | 0 < j <= |list| ensures Charges(list[..j]) == list[0].charge + Charges(list[1..][..j - 1]) {
        assert list[..j][1..] == list[1..][..j - 1];
      }
      k := k + 1;
    } else {
      k := 0;
    }
  }

  /** The list without one entry. */
  function Without(list: seq<Handle>, e: Handle?): seq<Handle> {
    if |list| == 0 then [] else if list[0] == e then list[1..] else [list[0]] + Without(list[1..], e)
  }

  lemma {:induction false} WithoutIs(list: seq<Handle>, i: nat)
    requires i < |list| && Distinct(list)
    ensures Without(list, list[i]) == RemoveAt(list, i)
  {
    if i == 0 {
      assert RemoveAt(list, 0) == list[1..];
    } else {
      WithoutIs(list[1..], i - 1);
      assert RemoveAt(list, i) == [list[0]] + RemoveAt(list[1..], i - 1);
    }
  }

  lemma {:induction false} WithoutAbsent(list: seq<Handle>, e: Handle?)
    requires forall i :: 0 <= i < |list| ==> list[i] != e
    ensures Without(list, e) == list
  {
    if |list| > 0 { WithoutAbsent(list[1..], e); }
  }

  // ------------------------------------------------------------------------
  // The invariant, on values

  ghost predicate Listed(l: seq<Handle>, u: seq<Handle>, e: Handle) {
    e in l || e in u
  }

  /** The two lists share out entries among the live ones; the usage is the sum of their charges. */
  ghost predicate ListsFit(lru: Handle, inUse: Handle, l: seq<Handle>, u: seq<Handle>, live: set<Handle>, usage: nat) {
    && lru != inUse && lru !in live && inUse !in live
    && Distinct(l) && Distinct(u)
    && (forall e :: e in l ==> e in live && e !in u)
    && (forall e :: e in u ==> e in live)
    && usage == Charges(l) + Charges(u)
  }

  /** The references of an entry: those of clients, one if it is in the cache, and possibly one to
      be given up; unused entries have one, entries in use at least two. */
  predicate RefsFit(onLru: bool, onUse: bool, inCache: bool, refs: nat, held: nat, extra: bool) {
    && inCache == (onLru || onUse)
    && refs == held + (if inCache then 1 else 0) + (if extra then 1 else 0)
    && refs > 0 && (onLru ==> refs == 1) && (onUse ==> refs >= 2)
  }

  /** The table holds exactly the listed entries, `missing` excepted. */
  ghost predicate TableFits(m: map<Bytes, Handle>, l: seq<Handle>, u: seq<Handle>, missing: Handle?) {
    && (forall k :: k in m ==> Listed(l, u, m[k]) && m[k] != missing)
    && (forall e :: e in l && e != missing ==> e.key in m && m[e.key] == e)
    && (forall e :: e in u && e != missing ==> e.key in m && m[e.key] == e)
  }

  /** Moving one entry from one list to the end of the other. */
  lemma MoveFits(lru: Handle, inUse: Handle, l: seq<Handle>, u: seq<Handle>, live: set<Handle>, usage: nat, i: nat)
    requires ListsFit(lru, inUse, l, u, live, usage) && i < |l|
    ensures ListsFit(lru, inUse, RemoveAt(l, i), u + [l[i]], live, usage)
    ensures forall h :: Listed(l, u, h) <==> Listed(RemoveAt(l, i), u + [l[i]], h)
  {
    ChargesRemove(l, i);
    ChargesAppend(u, l[i]);
    AppendMembers(u, l[i]);
  }

  lemma AppendMembers(u: seq<Handle>, e: Handle)
    ensures forall h :: h in u + [e] <==> h in u || h == e
    ensures Distinct(u) && e !in u ==> Distinct(u + [e])
  {}

  lemma {:induction false} WithoutMembers(list: seq<Handle>, e: Handle)
    requires Distinct(list)
    ensures forall h :: h in Without(list, e) <==> h in list && h != e
    ensures Distinct(Without(list, e))
  {
    if e in list {
      var i: nat :| i < |list| && list[i] == e;
      WithoutIs(list, i);
    } else {
      NotOn(list, e);
    }
  }

  lemma NewInLists(lru: Handle, inUse: Handle, l: seq<Handle>, u: seq<Handle>, live: set<Handle>, usage: nat, e: Handle)
    requires ListsFit(lru, inUse, l, u, live, usage) && e !in live && e != lru && e != inUse
    ensures ListsFit(lru, inUse, l, u + [e], live + {e}, usage + e.charge)
  {
    hide Charges;
    ChargesAppend(u, e);
    AppendMembers(u, e);
  }

  lemma FirstCharge(list: seq<Handle>)
    ensures |list| > 0 ==> list[0].charge <= Charges(list)
  {}

  lemma TableAdd(m: map<Bytes, Handle>, l: seq<Handle>, u: seq<Handle>, e: Handle)
    requires TableFits(m, l, u, e) && e in u && forall k :: k in m ==> m[k].key == k
    ensures TableFits(m[e.key := e], l, u, if e.key in m then m[e.key] else null)
  {}

  lemma {:induction false} WithoutAppend(list: seq<Handle>, e: Handle, dup: Handle?)
    requires dup != e
    ensures Without(list + [e], dup) == Without(list, dup) + [e]
  {
    if |list| == 0 {
      assert list + [e] == [e] && [e][1..] == [];
    } else {
      ConsTail(list, [e]);
      WithoutAppend(list[1..], e, dup);
    }
  }

  lemma TableTake(m: map<Bytes, Handle>, l: seq<Handle>, u: seq<Handle>, key: Bytes)
    requires TableFits(m, l, u, null) && forall k :: k in m ==> m[k].key == k
    ensures TableFits(m - {key}, l, u, if key in m then m[key] else null)
  {}

  lemma TableWithout(m: map<Bytes, Handle>, l: seq<Handle>, u: seq<Handle>, l': seq<Handle>, u': seq<Handle>, e: Handle)
    requires TableFits(m, l, u, e)
    requires forall h :: h in l' <==> h in l && h != e
    requires forall h :: h in u' <==> h in u && h != e
    ensures TableFits(m, l', u', null)
  {}

  lemma WithoutCharges(list: seq<Handle>, e: Handle)
    requires Distinct(list)
    ensures Charges(list) == Charges(Without(list, e)) + if e in list then e.charge else 0
  {
    if e in list {
      var i: nat :| i < |list| && list[i] == e;
      WithoutIs(list, i);
      ChargesRemove(list, i);
    } else {
      NotOn(list, e);
    }
  }

  lemma NullNotOn(list: seq<Handle>)
    ensures Without(list, null) == list
  {
    WithoutAbsent(list, null);
  }

  /** An entry on neither list may go. */
  lemma LiveWithout(lru: Handle, inUse: Handle, l: seq<Handle>, u: seq<Handle>, live: set<Handle>, usage: nat, e: Handle)
    requires ListsFit(lru, inUse, l, u, live, usage) && e !in l && e !in u
    ensures ListsFit(lru, inUse, l, u, live - {e}, usage)
  {}

  lemma OneMoreHeld(held: map<Handle, nat>, e: Handle)
    requires e !in held
    ensures held[e := 1].Keys == held.Keys + {e} && forall h :: h in held ==> held[e := 1][h] == held[h]
  {}

  /** The counts of client references differ by `d` for `e`, and not otherwise. */
  ghost predicate Counted(before: map<Handle, nat>, after: map<Handle, nat>, e: Handle, d: int) {
    && after.Keys == before.Keys
    && forall h :: h in after ==> after[h] == before[h] + if h == e then d else 0
  }

  class LRUCache {
    const capacity: nat
    const hashOf: Bytes -> nat
    var usage: nat
    const lru: Handle      // head of the list of unused entries, oldest first
    const inUse: Handle    // head of the list of entries that clients hold
    const table: HandleTable
    ghost var lruList: seq<Handle>
    ghost var useList: seq<Handle>
    ghost var held: map<Handle, nat>   // the live entries, and how many references clients hold
    ghost var freed: set<Handle>       // the entries handed to their deleters

    ghost predicate EntryOk(e: Handle, extra: Handle?)
      requires e in held
      reads this, e`inCache, e`refs
    {
      && e.hash == hashOf(e.key)
      && RefsFit(e in lruList, e in useList, e.inCache, e.refs, held[e], e == extra)
    }

    ghost predicate EntriesOk(extra: Handle?)
      reads this, held.Keys`inCache, held.Keys`refs
    {
      forall e :: e in held ==> EntryOk(e, extra)
    }

    ghost predicate TableOk(missing: Handle?)
      reads `lruList, `useList, table
    {
      table.hashOf == hashOf && table.Valid() && TableFits(table.m, lruList, useList, missing)
    }

    ghost predicate ListsOk()
      reads `lruList, `useList, `held, `freed, `usage
    {
      ListsFit(lru, inUse, lruList, useList, held.Keys, usage) && held.Keys !! freed
    }

    ghost predicate Rings()
      reads `lruList, `useList, Nodes()`next, Nodes()`prev
    {
      RingOk(lru, lruList) && RingOk(inUse, useList)
    }

    /** `missing` is listed but no longer in the table; `extra` holds one reference too many. */
    ghost predicate Inv(missing: Handle?, extra: Handle?)
      reads this, table, Nodes()`next, Nodes()`prev, held.Keys`inCache, held.Keys`refs
    {
      ListsOk() && EntriesOk(extra) && TableOk(missing) && Rings()
    }

    ghost predicate Valid()
      reads this, table, Nodes()`next, Nodes()`prev, held.Keys`inCache, held.Keys`refs
    {
      Inv(null, null)
    }

    constructor (capacity: nat, hashOf: Bytes -> nat)
      ensures Valid() && lruList == [] && useList == [] && held == map[] && freed == {}
      ensures this.capacity == capacity && this.hashOf == hashOf && fresh(table) && fresh(lru) && fresh(inUse)
    {
      this.capacity, this.hashOf, usage := capacity, hashOf, 0;
      lru := new Handle([], 0, 0, 0);
      inUse := new Handle([], 0, 0, 0);
      table := new HandleTable(hashOf);
      lruList, useList, held, freed := [], [], map[], {};
      new;
      EmptyRing(lru);
      EmptyRing(inUse);
    }

    ghost function Nodes(): set<Handle>
      reads `lruList, `useList
    {
      {lru, inUse} + (set e | e in lruList) + (set e | e in useList)
    }

    ghost predicate RingsAreApart()
      reads this
    {
      RingsApart(lru, lruList, inUse, useList) && RingsApart(inUse, useList, lru, lruList)
    }

    /** Moves an entry from the list of unused entries to the other list. */
    method MoveToUse(e: Handle, ghost i: nat)
      requires RingsAreApart() && Rings() && i < |lruList| && lruList[i] == e
      modifies this`lruList, this`useList, Nodes()`next, Nodes()`prev
      ensures Rings() && lruList == RemoveAt(old(lruList), i) && useList == old(useList) + [e]
    {
      Neighbours(lru, lruList, i);
      Neighbours(lru, lruList, i + 1);
      Neighbours(inUse, useList, |useList|);
      Unlink(e, lru, lruList, i, inUse, useList);
      Removed(lru, lruList, i, inUse, useList);
      Append(inUse, e, useList, lru, RemoveAt(lruList, i));
      lruList, useList := RemoveAt(lruList, i), useList + [e];
    }

    /** And back, as the newest of the unused entries. */
    method MoveToLru(e: Handle, ghost i: nat)
      requires RingsAreApart() && Rings() && i < |useList| && useList[i] == e
      modifies this`lruList, this`useList, Nodes()`next, Nodes()`prev
      ensures Rings() && useList == RemoveAt(old(useList), i) && lruList == old(lruList) + [e]
    {
      Neighbours(inUse, useList, i);
      Neighbours(inUse, useList, i + 1);
      Neighbours(lru, lruList, |lruList|);
      Unlink(e, inUse, useList, i, lru, lruList);
      Removed(inUse, useList, i, lru, lruList);
      Append(lru, e, lruList, inUse, RemoveAt(useList, i));
      useList, lruList := RemoveAt(useList, i), lruList + [e];
    }

    /** Takes an entry off whichever list it is on. */
    method TakeOff(e: Handle)
      requires RingsAreApart() && Rings() && Listed(lruList, useList, e)
      modifies this`lruList, this`useList, Nodes()`next, Nodes()`prev
      ensures Rings() && lruList == Without(old(lruList), e) && useList == Without(old(useList), e)
    {
      ghost var onLru := e in lruList;
      ghost var a, list := if onLru then lru else inUse, if onLru then lruList else useList;
      ghost var b, bs := if onLru then inUse else lru, if onLru then useList else lruList;
      ghost var i: nat :| i < |list| && list[i] == e;
      TakenOff(a, list, i, b, bs);
      hide RingOk;
      hide Without;
      hide RemoveAt;
      Unlink(e, a, list, i, b, bs);
      lruList, useList := Without(lruList, e), Without(useList, e);
    }

    lemma ApartNow()
      requires ListsOk()
      ensures RingsAreApart()
    {}

    /** A client takes a reference; an unused entry moves to the other list. */
    method Ref(e: Handle)
      requires Valid() && e in held
      modifies `lruList, `useList, `held, e`refs, Nodes()`next, Nodes()`prev
      ensures Valid() && Counted(old(held), held, e, 1)
      ensures lruList == Without(old(lruList), e)
      ensures useList == if e in old(lruList) then old(useList) + [e] else old(useList)
    {
      hide Valid;
      hide Without;
      LeaveLru(e);
      AddReference(e);
    }

    /** The first half of taking a reference: the entry is on the list of unused ones no more. */
    method LeaveLru(e: Handle)
      requires Valid() && e in held
      modifies `lruList, `useList, Nodes()`next, Nodes()`prev
      ensures ListsOk() && TableOk(null) && Rings() && OthersOk(e) && held == old(held)
      ensures e.hash == hashOf(e.key) && RefsFit(false, e in useList, e.inCache, e.refs + 1, held[e] + 1, false)
      ensures lruList == Without(old(lruList), e) && e !in lruList
      ensures useList == if e in old(lruList) then old(useList) + [e] else old(useList)
    {
      hide RingOk;
      hide ListsFit;
      hide TableFits;
      hide HandleTables.TableOk;
      hide HandleTables.Hashed;
      hide Without;
      ApartNow();
      assert EntryOk(e, null);
      if e.refs == 1 && e.inCache {
        ghost var i: nat :| i < |lruList| && lruList[i] == e;
        Moved(i);
        MoveToUse(e, i);
      } else {
        NotOn(lruList, e);
      }
      forall h | h in held && h != e ensures EntryOk(h, null) {
        assert old(EntryOk(h, null));
      }
    }

    ghost predicate OthersOk(e: Handle)
      reads this, held.Keys`inCache, held.Keys`refs
    {
      forall h :: h in held && h != e ==> EntryOk(h, null)
    }

    /** The second half. */
    method AddReference(e: Handle)
      requires e in held && ListsOk() && TableOk(null) && Rings() && OthersOk(e)
      requires e.hash == hashOf(e.key) && e !in lruList
      requires RefsFit(false, e in useList, e.inCache, e.refs + 1, held[e] + 1, false)
      modifies `held, e`refs
      ensures Valid() && Counted(old(held), held, e, 1)
    {
      hide ListsFit;
      hide TableFits;
      hide HandleTables.TableOk;
      hide HandleTables.Hashed;
      hide RingOk;
      e.refs := e.refs + 1;
      held := held[e := held[e] + 1];
      assert held.Keys == old(held.Keys);
      forall h | h in held ensures EntryOk(h, null) {
        assert h != e ==> old(EntryOk(h, null));
      }
    }

    /** An entry one of whose references has just been given up; it may be on the wrong list. */
    ghost predicate Loose(e: Handle)
      requires e in held
      reads this, e`inCache, e`refs
    {
      && e.hash == hashOf(e.key) && e !in lruList && (e.inCache <==> e in useList)
      && e.refs == held[e] + (if e.inCache then 1 else 0)
    }

    /** Gives up one reference: the last one frees the entry, the last one of a client moves it to
        the list of unused entries. */
    method Unref(e: Handle)
      requires Inv(null, e) && e in held
      modifies `lruList, `useList, `held, `freed, e`refs, Nodes()`next, Nodes()`prev
      ensures Valid()
      ensures held.Keys == old(held.Keys) - (if old(e.refs) == 1 then {e} else {})
      ensures freed == old(freed) + (if old(e.refs) == 1 then {e} else {})
      ensures forall h :: h in held ==> held[h] == old(held[h])
      ensures if old(e.refs) == 2 && e in old(useList)
              then useList == Without(old(useList), e) && lruList == old(lruList) + [e]
              else useList == old(useList) && lruList == old(lruList)
    {
      hide Inv;
      hide Valid;
      hide Without;
      DropReference(e);
      if e.refs == 0 {
        Free(e);
      } else if e.inCache && e.refs == 1 {
        EnterLru(e);
      } else {
        Settle(e);
      }
    }

    method DropReference(e: Handle)
      requires Inv(null, e) && e in held
      modifies e`refs
      ensures ListsOk() && TableOk(null) && Rings() && OthersOk(e) && Loose(e)
      ensures e.refs == old(e.refs) - 1
    {
      hide ListsFit;
      hide TableFits;
      hide HandleTables.TableOk;
      hide HandleTables.Hashed;
      hide RingOk;
      assert EntryOk(e, e);
      e.refs := e.refs - 1;
      forall h | h in held && h != e ensures EntryOk(h, null) {
        assert old(EntryOk(h, e));
      }
    }

    /** The entry is handed to its deleter. */
    ghost method Free(e: Handle)
      requires e in held && ListsOk() && TableOk(null) && Rings() && OthersOk(e) && Loose(e) && e.refs == 0
      modifies `held, `freed
      ensures Valid() && held.Keys == old(held.Keys) - {e} && freed == old(freed) + {e}
      ensures forall h :: h in held ==> held[h] == old(held[h])
    {
      hide TableFits;
      hide HandleTables.TableOk;
      hide HandleTables.Hashed;
      hide RingOk;
      LiveWithout(lru, inUse, lruList, useList, held.Keys, usage, e);
      hide ListsFit;
      freed := freed + {e};
      held := map h | h in held && h != e :: held[h];
      assert held.Keys == old(held.Keys) - {e};
      forall h | h in held ensures EntryOk(h, null) {
        assert old(EntryOk(h, null));
      }
    }

    /** Nothing moves: clients still hold the entry, or it left the cache. */
    ghost method Settle(e: Handle)
      requires e in held && ListsOk() && TableOk(null) && Rings() && OthersOk(e) && Loose(e)
      requires e.refs > 0 && !(e.inCache && e.refs == 1)
      ensures Valid()
    {
      hide ListsFit;
      hide TableFits;
      hide Rings;
      forall h | h in held ensures EntryOk(h, null) {}
    }

    method EnterLru(e: Handle)
      requires e in held && ListsOk() && TableOk(null) && Rings() && OthersOk(e) && Loose(e) && e.inCache && e.refs == 1
      modifies `lruList, `useList, Nodes()`next, Nodes()`prev
      ensures Valid()
      ensures useList == Without(old(useList), e) && lruList == old(lruList) + [e]
    {
      hide RingOk;
      hide ListsFit;
      hide TableFits;
      hide HandleTables.TableOk;
      hide HandleTables.Hashed;
      hide Without;
      ApartNow();
      ghost var i: nat :| i < |useList| && useList[i] == e;
      MovedBack(i);
      MoveToLru(e, i);
      forall h | h in held ensures EntryOk(h, null) {
        assert h != e ==> old(EntryOk(h, null));
      }
    }

    lemma MovedBack(i: nat)
      requires ListsOk() && TableFits(table.m, lruList, useList, null) && i < |useList|
      ensures var u, l := RemoveAt(useList, i), lruList + [useList[i]];
              && ListsFit(lru, inUse, l, u, held.Keys, usage) && TableFits(table.m, l, u, null)
              && (forall h :: h in u <==> h in useList && h != useList[i])
              && (forall h :: h in l <==> h in lruList || h == useList[i])
              && Without(useList, useList[i]) == u
    {
      MoveFits(inUse, lru, useList, lruList, held.Keys, usage, i);
      AppendMembers(lruList, useList[i]);
      WithoutIs(useList, i);
    }

    /** A listed entry, already out of the table, leaves its list and gives up the cache's reference. */
    method FinishErase(e: Handle?) returns (erased: bool)
      requires if e == null then Valid() else e in held && Listed(lruList, useList, e) && Inv(e, null)
      modifies `lruList, `useList, `held, `freed, `usage, held.Keys`refs, held.Keys`inCache, Nodes()`next, Nodes()`prev
      ensures Valid() && erased == (e != null)
      ensures lruList == Without(old(lruList), e) && useList == Without(old(useList), e)
      ensures usage == old(usage) - (if e == null then 0 else e.charge)
      ensures held.Keys == old(held.Keys) - (if e != null && old(held)[e] == 0 then {e} else {})
      ensures freed == old(freed) + (if e != null && old(held)[e] == 0 then {e} else {})
      ensures forall h :: h in held ==> held[h] == old(held[h])
      ensures Nodes() <= old(Nodes())
    {
      hide Valid;
      hide Inv;
      hide Without;
      if e != null {
        Uncache(e);
        Unref(e);
      } else {
        NullNotOn(lruList);
        NullNotOn(useList);
      }
      erased := e != null;
    }

    method Uncache(e: Handle)
      requires e in held && Listed(lruList, useList, e) && Inv(e, null)
      modifies `lruList, `useList, `usage, e`inCache, Nodes()`next, Nodes()`prev
      ensures Inv(null, e) && e !in useList
      ensures lruList == Without(old(lruList), e) && useList == Without(old(useList), e)
      ensures usage == old(usage) - e.charge && Nodes() <= old(Nodes())
      ensures e.refs == 1 <==> held[e] == 0
    {
      hide RingOk;
      hide ListsFit;
      hide TableFits;
      hide HandleTables.TableOk;
      hide HandleTables.Hashed;
      hide Without;
      hide RefsFit;
      ApartNow();
      assert EntryOk(e, null);
      TakenAway(e);
      assert forall h :: h in held && h != e ==> EntryOk(h, null);
      ghost var l, u := Without(lruList, e), Without(useList, e);
      TakeOff(e);
      assert lruList == l && useList == u;
      Detach(e, old(e in lruList), old(e in useList));
      NodesShrink(old(lruList), old(useList), e);
    }

    lemma NodesShrink(l: seq<Handle>, u: seq<Handle>, e: Handle)
      requires Distinct(l) && Distinct(u) && lruList == Without(l, e) && useList == Without(u, e)
      ensures Nodes() <= {lru, inUse} + (set n | n in l) + (set n | n in u)
    {
      WithoutMembers(l, e);
      WithoutMembers(u, e);
    }

    /** The entry is on no list any more; the cache gives up its reference. */
    method Detach(e: Handle, ghost onLru: bool, ghost onUse: bool)
      requires e in held && e.hash == hashOf(e.key) && e !in lruList && e !in useList && OthersOk(e)
      requires (onLru || onUse) && RefsFit(onLru, onUse, e.inCache, e.refs, held[e], false)
      requires TableOk(null) && Rings() && usage >= e.charge && held.Keys !! freed
      requires ListsFit(lru, inUse, lruList, useList, held.Keys, usage - e.charge)
      modifies `usage, e`inCache
      ensures Inv(null, e) && usage == old(usage) - e.charge
      ensures e.refs == 1 <==> held[e] == 0
    {
      hide RingOk;
      hide ListsFit;
      hide TableFits;
      hide HandleTables.TableOk;
      hide HandleTables.Hashed;
      e.inCache := false;
      usage := usage - e.charge;
      forall h | h in held ensures EntryOk(h, e) {
        assert h != e ==> old(EntryOk(h, null));
      }
    }

    /** What taking a listed entry away does to the lists, the table and the usage. */
    lemma TakenAway(e: Handle)
      requires ListsOk() && TableFits(table.m, lruList, useList, e) && Listed(lruList, useList, e)
      ensures Distinct(lruList) && Distinct(useList)
      ensures var l, u := Without(lruList, e), Without(useList, e);
              && e.charge <= usage
              && ListsFit(lru, inUse, l, u, held.Keys, usage - e.charge) && TableFits(table.m, l, u, null)
              && (forall h :: h in l <==> h in lruList && h != e)
              && (forall h :: h in u <==> h in useList && h != e)
    {
      hide Without;
      hide Distinct;
      hide Charges;
      WithoutMembers(lruList, e);
      WithoutMembers(useList, e);
      WithoutCharges(lruList, e);
      WithoutCharges(useList, e);
      TableWithout(table.m, lruList, useList, Without(lruList, e), Without(useList, e), e);
    }

    method Lookup(key: Bytes, hash: nat) returns (e: Handle?)
      requires Valid() && hash == hashOf(key)
      modifies `lruList, `useList, `held, held.Keys`refs, Nodes()`next, Nodes()`prev
      ensures Valid() && e == if key in table.m then table.m[key] else null
      ensures e == null ==> held == old(held) && lruList == old(lruList) && useList == old(useList)
      ensures e != null ==> e in held && Counted(old(held), held, e, 1) && e in useList && e !in lruList
      ensures e != null ==> lruList == Without(old(lruList), e)
      ensures e != null ==> useList == if e in old(lruList) then old(useList) + [e] else old(useList)
    {
      e := table.Lookup(key, hash);
      if e != null {
        InTableIsLive(key);
        Ref(e);
        assert EntryOk(e, null);
      }
    }

    lemma InTableIsLive(key: Bytes)
      requires Valid() && key in table.m
      ensures table.m[key] in held && Listed(lruList, useList, table.m[key])
    {}

    /** A client gives a reference back. */
    method Release(e: Handle)
      requires Valid() && e in held && held[e] > 0
      modifies `lruList, `useList, `held, `freed, held.Keys`refs, Nodes()`next, Nodes()`prev
      ensures Valid()
      ensures var gone := old(held)[e] == 1 && e !in old(useList);
              && held.Keys == old(held.Keys) - (if gone then {e} else {})
              && freed == old(freed) + (if gone then {e} else {})
      ensures forall h :: h in held ==> held[h] == old(held)[h] - if h == e then 1 else 0
      ensures if old(held)[e] == 1 && e in old(useList)
              then useList == Without(old(useList), e) && lruList == old(lruList) + [e]
              else useList == old(useList) && lruList == old(lruList)
    {
      hide Without;
      assert EntryOk(e, null);
      GiveUp(e);
      Unref(e);
    }

    /** The reference a client is about to give back no longer counts as the client's. */
    ghost method GiveUp(e: Handle)
      requires Valid() && e in held && held[e] > 0
      modifies `held
      ensures Inv(null, e) && Counted(old(held), held, e, -1)
    {
      hide RingOk;
      hide ListsFit;
      hide TableFits;
      hide HandleTables.TableOk;
      hide HandleTables.Hashed;
      assert EntryOk(e, null);
      held := held[e := held[e] - 1];
      assert held.Keys == old(held.Keys);
      forall h | h in held ensures EntryOk(h, e) {
        assert old(EntryOk(h, null));
      }
    }

    method Erase(key: Bytes, hash: nat)
      requires Valid() && hash == hashOf(key)
      modifies `lruList, `useList, `held, `freed, `usage, held.Keys`refs, held.Keys`inCache, Nodes()`next, Nodes()`prev, table
      ensures Valid() && table.m == old(table.m) - {key}
      ensures var e := if key in old(table.m) then old(table.m)[key] else null;
              && lruList == Without(old(lruList), e) && useList == Without(old(useList), e)
              && held.Keys == old(held.Keys) - (if e != null && old(held)[e] == 0 then {e} else {})
              && freed == old(freed) + (if e != null && old(held)[e] == 0 then {e} else {})
      ensures forall h :: h in held ==> held[h] == old(held[h])
    {
      hide Without;
      hide Inv;
      hide Valid;
      var e := TakeFromTable(key, hash);
      var _ := FinishErase(e);
    }

    method TakeFromTable(key: Bytes, hash: nat) returns (e: Handle?)
      requires Valid() && hash == hashOf(key)
      modifies table
      ensures table.m == old(table.m) - {key} && e == if key in old(table.m) then old(table.m)[key] else null
      ensures if e == null then Valid() else e in held && Listed(lruList, useList, e) && Inv(e, null)
    {
      hide RingOk;
      hide ListsFit;
      hide HandleTables.TableOk;
      hide HandleTables.Hashed;
      if key in table.m { InTableIsLive(key); }
      table.KeysMatch();
      TableTake(table.m, lruList, useList, key);
      hide TableFits;
      e := table.Remove(key, hash);
    }

    /** Inserts an entry and returns a reference to it.  An older entry with the same key leaves the
        cache; then the oldest unused entries do, until the rest fits or none is left. */
    method Insert(key: Bytes, hash: nat, value: int, charge: nat) returns (e: Handle)
      requires Valid() && hash == hashOf(key)
      modifies `lruList, `useList, `held, `freed, `usage, held.Keys`refs, held.Keys`inCache, Nodes()`next, Nodes()`prev, table
      ensures Valid() && fresh(e) && e.key == key && e.value == value && e.charge == charge
      ensures e in held && held[e] == 1
      ensures usage <= capacity || lruList == []
      ensures forall h :: h in held && h != e ==> h in old(held) && held[h] == old(held)[h]
      ensures forall h :: h in old(held) && old(held)[h] > 0 ==> h in held
      ensures var dup := if capacity > 0 && key in old(table.m) then old(table.m)[key] else null;
              && useList == Without(old(useList), dup) + (if capacity > 0 then [e] else [])
              && var before := old(usage) + (if capacity > 0 then charge else 0) - (if dup == null then 0 else dup.charge);
                 && before >= 0 && lruList == Evict(Without(old(lruList), dup), before, capacity)
                 && (before <= capacity ==> lruList == Without(old(lruList), dup))
                 && exists k: nat :: DropsLeast(Without(old(lruList), dup), before, capacity, k)
                                     && lruList == Without(old(lruList), dup)[k..]
    {
      hide Without;
      hide Inv;
      hide Valid;
      hide Evict;
      hide DropsLeast;
      hide Charges;
      e := new Handle(key, value, charge, hash);
      InsertNew(e);
      EvictExcess();
    }

    /** Adds a new entry, unless caching is turned off. */
    method InsertNew(e: Handle)
      requires Valid() && e !in held && e !in freed && e != lru && e != inUse
      requires e.refs == 1 && !e.inCache && e.hash == hashOf(e.key)
      modifies `lruList, `useList, `held, `freed, `usage, held.Keys`refs, held.Keys`inCache, e, Nodes()`next, Nodes()`prev, table
      ensures Valid() && e in held && held[e] == 1 && Nodes() <= old(Nodes()) + {e} && held.Keys <= old(held.Keys) + {e}
      ensures forall h :: h in held && h != e ==> held[h] == old(held)[h]
      ensures forall h :: h in old(held) && old(held)[h] > 0 ==> h in held
      ensures var dup := if capacity > 0 && e.key in old(table.m) then old(table.m)[e.key] else null;
              && lruList == Without(old(lruList), dup)
              && useList == Without(old(useList), dup) + (if capacity > 0 then [e] else [])
              && usage == old(usage) + (if capacity > 0 then e.charge else 0) - (if dup == null then 0 else dup.charge)
    {
      hide Without;
      hide Inv;
      hide Valid;
      if capacity > 0 {
        InsertCached(e);
      } else {
        NullNotOn(lruList);
        NullNotOn(useList);
        KeepNew(e);
      }
    }

    /** Adds a new entry in the place of any older one with the same key. */
    method InsertCached(e: Handle)
      requires Valid() && e !in held && e !in freed && e != lru && e != inUse
      requires e.refs == 1 && !e.inCache && e.hash == hashOf(e.key)
      modifies `lruList, `useList, `held, `freed, `usage, held.Keys`refs, held.Keys`inCache, e, Nodes()`next, Nodes()`prev, table
      ensures Valid() && e in held && held[e] == 1 && Nodes() <= old(Nodes()) + {e}
      ensures held.Keys <= old(held.Keys) + {e}
      ensures forall h :: h in held && h != e ==> held[h] == old(held)[h]
      ensures forall h :: h in old(held) && old(held)[h] > 0 ==> h in held
      ensures var dup := if e.key in old(table.m) then old(table.m)[e.key] else null;
              && lruList == Without(old(lruList), dup) && useList == Without(old(useList), dup) + [e]
              && usage == old(usage) + e.charge - (if dup == null then 0 else dup.charge)
    {
      hide Without;
      hide Inv;
      hide Valid;
      var dup := CacheNew(e);
      WithoutAppend(old(useList), e, dup);
      var _ := FinishErase(dup);
    }

    /** Without a capacity the entry belongs to the caller alone. */
    ghost method KeepNew(e: Handle)
      requires Valid() && e !in held && e !in freed && e != lru && e != inUse
      requires e.refs == 1 && !e.inCache && e.hash == hashOf(e.key)
      modifies `held
      ensures Valid() && held == old(held)[e := 1]
    {
      held := held[e := 1];
    }

    method CacheNew(e: Handle) returns (dup: Handle?)
      requires Valid() && e !in held && e !in freed && e != lru && e != inUse
      requires e.refs == 1 && !e.inCache && e.hash == hashOf(e.key)
      modifies `useList, `held, `usage, e, Nodes()`next, Nodes()`prev, table
      ensures dup == if e.key in old(table.m) then old(table.m)[e.key] else null
      ensures if dup == null then Valid() else dup in held && Listed(lruList, useList, dup) && Inv(dup, null)
      ensures useList == old(useList) + [e] && usage == old(usage) + e.charge && dup != e
      ensures held.Keys == old(held.Keys) + {e} && held[e] == 1 && forall h :: h in old(held) ==> held[h] == old(held)[h]
      ensures Nodes() <= old(Nodes()) + {e}
    {
      if e.key in table.m { InTableIsLive(e.key); }
      hide Inv;
      hide Valid;
      AppendNew(e);
      dup := PutInTable(e);
      NodesGrow(old(useList), e);
    }

    lemma NodesGrow(u: seq<Handle>, e: Handle)
      requires useList == u + [e]
      ensures Nodes() <= {lru, inUse} + (set n | n in lruList) + (set n | n in u) + {e}
    {}

    method AppendNew(e: Handle)
      requires Valid() && e !in held && e !in freed && e != lru && e != inUse
      requires e.refs == 1 && !e.inCache && e.hash == hashOf(e.key)
      modifies `useList, `held, `usage, e, Nodes()`next, Nodes()`prev
      ensures Inv(e, null)
      ensures useList == old(useList) + [e] && usage == old(usage) + e.charge
      ensures held.Keys == old(held.Keys) + {e} && held[e] == 1 && forall h :: h in old(held) ==> held[h] == old(held)[h]
    {
      hide HandleTables.TableOk;
      hide HandleTables.Hashed;
      hide ListsFit;
      hide TableFits;
      hide RingOk;
      NewIsApart(e);
      NewFits(e);
      hide RefsFit;
      LinkNew(e);
      e.refs := e.refs + 1;
      e.inCache := true;
      usage := usage + e.charge;
      CountNew(e);
    }

    method LinkNew(e: Handle)
      requires RingsAreApart() && Rings() && e !in lruList && e !in useList && e != lru && e != inUse
      modifies `useList, e`next, e`prev, Nodes()`next, Nodes()`prev
      ensures Rings() && useList == old(useList) + [e]
    {
      Neighbours(inUse, useList, |useList|);
      Append(inUse, e, useList, lru, lruList);
      useList := useList + [e];
    }

    /** The entry starts with one reference for the cache and one for the client. */
    ghost method CountNew(e: Handle)
      requires e in useList && e !in held && e !in freed && held.Keys !! freed
      requires e.refs == 2 && e.inCache && e.hash == hashOf(e.key) && e !in lruList
      requires ListsFit(lru, inUse, lruList, useList, held.Keys + {e}, usage)
      requires table.hashOf == hashOf && table.Valid() && TableFits(table.m, lruList, useList, e) && Rings()
      requires EntriesOk(null)
      modifies `held
      ensures Inv(e, null)
      ensures held.Keys == old(held.Keys) + {e} && held[e] == 1 && forall h :: h in old(held) ==> held[h] == old(held)[h]
    {
      hide Rings;
      hide HandleTables.TableOk;
      hide HandleTables.Hashed;
      hide ListsFit;
      hide TableFits;
      OneMoreHeld(held, e);
      held := held[e := 1];
      assert EntryOk(e, null);
      forall h | h in old(held) ensures EntryOk(h, null) {
        assert old(EntryOk(h, null));
      }
    }

    lemma NewFits(e: Handle)
      requires Valid() && e !in held && e != lru && e != inUse
      ensures ListsFit(lru, inUse, lruList, useList + [e], held.Keys + {e}, usage + e.charge)
      ensures TableFits(table.m, lruList, useList + [e], e)
    {
      ChargesAppend(useList, e);
      AppendMembers(useList, e);
      NewInLists(lru, inUse, lruList, useList, held.Keys, usage, e);
      hide ListsFit;
      hide EntriesOk;
      hide Rings;
    }

    method PutInTable(e: Handle) returns (dup: Handle?)
      requires Inv(e, null) && e in useList && e in held && e.hash == hashOf(e.key)
      requires e.key in table.m ==> table.m[e.key] != e && table.m[e.key] in held && Listed(lruList, useList, table.m[e.key])
      modifies table
      ensures dup == if e.key in old(table.m) then old(table.m)[e.key] else null
      ensures if dup == null then Valid() else dup in held && Listed(lruList, useList, dup) && Inv(dup, null)
      ensures dup != e
    {
      hide RingOk;
      hide HandleTables.TableOk;
      hide HandleTables.Hashed;
      hide ListsFit;
      table.KeysMatch();
      TableAdd(table.m, lruList, useList, e);
      hide TableFits;
      dup := table.Insert(e);
    }

    /** Drops every unused entry. */
    method Prune()
      requires Valid()
      modifies `lruList, `useList, `held, `freed, `usage, held.Keys`refs, held.Keys`inCache, Nodes()`next, Nodes()`prev, table
      ensures Valid() && lruList == [] && useList == old(useList)
      ensures forall h :: h in held ==> h in old(held) && held[h] == old(held)[h]
      ensures forall h :: h in old(held) && old(held)[h] > 0 ==> h in held
    {
      hide Valid;
      while lru.next != lru
        invariant Valid() && useList == old(useList)
        invariant held.Keys <= old(held.Keys) && Nodes() <= old(Nodes())
        invariant forall h :: h in held ==> held[h] == old(held)[h]
        invariant forall h :: h in old(held) && old(held)[h] > 0 ==> h in held
        decreases |lruList|
      {
        Oldest();
        EvictOldest();
      }
      Oldest();
    }

    lemma NewIsApart(e: Handle)
      requires Valid() && e !in held && e != lru && e != inUse
      ensures RingsAreApart() && e !in lruList && e !in useList
    {}

    /** Drops the oldest unused entries while the cache is over its capacity. */
    method EvictExcess()
      requires Valid()
      modifies `lruList, `useList, `held, `freed, `usage, held.Keys`refs, held.Keys`inCache, Nodes()`next, Nodes()`prev, table
      ensures Valid() && (usage <= capacity || lruList == [])
      ensures lruList == Evict(old(lruList), old(usage), capacity) && useList == old(useList)
      ensures old(usage) <= capacity ==> lruList == old(lruList)
      ensures exists k: nat :: DropsLeast(old(lruList), old(usage), capacity, k) && lruList == old(lruList)[k..]
      ensures forall h :: h in held ==> h in old(held) && held[h] == old(held)[h]
      ensures forall h :: h in old(held) && old(held)[h] > 0 ==> h in held
    {
      hide Valid;
      hide DropsLeast;
      hide Evict;
      ghost var k := Excess();
      ghost var target := Evict(lruList, usage, capacity);
      while usage > capacity && lru.next != lru
        invariant Valid() && Evict(lruList, usage, capacity) == target && useList == old(useList)
        invariant held.Keys <= old(held.Keys) && Nodes() <= old(Nodes())
        invariant forall h :: h in held ==> held[h] == old(held)[h]
        invariant forall h :: h in old(held) && old(held)[h] > 0 ==> h in held
        decreases |lruList|
      {
        Oldest();
        EvictsFirst(lruList, usage);
        EvictOldest();
      }
      Oldest();
      EvictsNone(lruList, usage);
    }

    lemma EvictsFirst(list: seq<Handle>, usage: nat)
      requires usage > capacity && |list| > 0 && list[0].charge <= usage
      ensures Evict(list, usage, capacity) == Evict(list[1..], usage - list[0].charge, capacity)
    {}

    lemma EvictsNone(list: seq<Handle>, usage: nat)
      requires usage <= capacity || list == []
      ensures Evict(list, usage, capacity) == list
    {}

    /** How many entries have to go. */
    lemma Excess() returns (k: nat)
      requires Valid()
      ensures DropsLeast(lruList, usage, capacity, k) && Evict(lruList, usage, capacity) == lruList[k..]
      ensures usage <= capacity ==> Evict(lruList, usage, capacity) == lruList
    {
      k := EvictsLeast(lruList, usage, capacity);
    }

    /** The entry after the head is the oldest one; the head itself when there is none. */
    lemma Oldest()
      requires Valid()
      ensures lru.next == if |lruList| > 0 then lruList[0] else lru
      ensures |lruList| > 0 ==> lruList[0] != lru && lruList[0].charge <= usage
    {
      hide Charges;
      assert LinkedAt(RingOf(lru, lruList), 0);
      FirstCharge(lruList);
    }

    method EvictOldest()
      requires Valid() && |lruList| > 0 && lru.next == lruList[0]
      modifies `lruList, `useList, `held, `freed, `usage, held.Keys`refs, held.Keys`inCache, Nodes()`next, Nodes()`prev, table
      ensures Valid() && lruList == old(lruList)[1..] && useList == old(useList)
      ensures usage == old(usage) - old(lruList[0]).charge && old(held)[old(lruList[0])] == 0
      ensures held.Keys == old(held.Keys) - {old(lruList[0])} && freed == old(freed) + {old(lruList[0])}
      ensures forall h :: h in held ==> held[h] == old(held)[h]
      ensures Nodes() <= old(Nodes())
    {
      var e := lru.next;
      OldestIsCached(e);
      hide Valid;
      hide Inv;
      ghost var l, u := lruList, useList;
      var taken := TakeFromTable(e.key, e.hash);
      var _ := FinishErase(taken);
      assert lruList == l[1..] && useList == u;
    }

    lemma OldestIsCached(e: Handle)
      requires Valid() && |lruList| > 0 && lruList[0] == e
      ensures e in held && held[e] == 0 && e.key in table.m && table.m[e.key] == e && e.hash == hashOf(e.key)
      ensures Without(lruList, e) == lruList[1..] && Without(useList, e) == useList
    {
      assert e in lruList && EntryOk(e, null);
      NotOn(useList, e);
    }

    /** What moving the unused entry `i` does to the lists. */
    lemma Moved(i: nat)
      requires ListsOk() && TableFits(table.m, lruList, useList, null) && i < |lruList|
      ensures var l, u := RemoveAt(lruList, i), useList + [lruList[i]];
              && ListsFit(lru, inUse, l, u, held.Keys, usage) && TableFits(table.m, l, u, null)
              && (forall h :: h in l <==> h in lruList && h != lruList[i])
              && (forall h :: h in u <==> h in useList || h == lruList[i])
              && Without(lruList, lruList[i]) == l
    {
      MoveFits(lru, inUse, lruList, useList, held.Keys, usage, i);
      AppendMembers(useList, lruList[i]);
      WithoutIs(lruList, i);
    }
  }

  lemma NotOn(list: seq<Handle>, e: Handle)
    requires e !in list
    ensures Without(list, e) == list
  {
    assert forall j :: 0 <= j < |list| ==> list[j] in list;
    WithoutAbsent(list, e);
  }

  lemma TakenOff(a: Handle, list: seq<Handle>, i: nat, b: Handle, bs: seq<Handle>)
    requires RingOk(a, list) && RingsApart(a, list, b, bs) && i < |list|
    ensures Without(list, list[i]) == RemoveAt(list, i) && Without(bs, list[i]) == bs
    ensures (list[i].prev == a || list[i].prev in list) && (list[i].next == a || list[i].next in list)
  {
    Neighbours(a, list, i);
    Neighbours(a, list, i + 1);
    ListDistinct(a, list);
    WithoutIs(list, i);
    assert list[i] in list;
    assert forall j :: 0 <= j < |bs| ==> bs[j] in bs;
    WithoutAbsent(bs, list[i]);
    assert RingOf(a, list)[i + 1] == list[i];
  }

  lemma ListDistinct(a: Handle, as': seq<Handle>)
    requires Distinct([a] + as')
    ensures Distinct(as')
  {
    forall j, k | 0 <= j < k < |as'| ensures as'[j] != as'[k] {
      assert ([a] + as')[j + 1] == as'[j] && ([a] + as')[k + 1] == as'[k];
    }
  }

  lemma Removed(a: Handle, as': seq<Handle>, i: nat, b: Handle, bs: seq<Handle>)
    requires RingsApart(a, as', b, bs) && Distinct([a] + as') && i < |as'|
    ensures RingsApart(b, bs, a, RemoveAt(as', i)) && as'[i] !in RemoveAt(as', i) && as'[i] !in bs && as'[i] != a
  {
    var rest := RemoveAt(as', i);
    assert ([a] + as')[0] == a && ([a] + as')[i + 1] == as'[i];
    forall k | 0 <= k < |rest| ensures rest[k] in as' && rest[k] != as'[i] {
      var j := if k < i then k else k + 1;
      assert ([a] + as')[j + 1] == as'[j] == rest[k];
    }
  }
}
