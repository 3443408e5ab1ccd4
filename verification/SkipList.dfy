/**
 The skip list.  `all` lists the nodes in level-0 order, the head first, and `heights` says at how
 many levels each node is linked so far; a node being inserted is raised one level per link store.

 `Valid` says that every link leads to the next node linked at that level, so that each level is a
 sorted sublist of the one below.  It holds after every single link store, which is what readers
 that run beside the writer rely on.
 */
module SkipLists {
  import opened Entries

  const MAX_HEIGHT: nat := 12

  /** A key is its rank under the comparator. */
  type Key = int

  class Node {
    const key: Key
    var next: seq<Node?>

    constructor (key: Key, height: nat)
      ensures this.key == key && |next| == height
    {
      this.key := key;
      next := seq(height, _ => null);
    }

    method SetNext(n: nat, x: Node?)
      requires n < |next|
      modifies this
      ensures next == old(next)[n := x]
    {
      next := next[n := x];
    }
  }

  // ------------------------------------------------------------------------
  // Positions and heights

  /** The next position after `p` that is linked at level `i`; the length when there is none. */
  function Succ(h: seq<nat>, p: nat, i: nat): (k: nat)
    requires p < |h|
    ensures p < k <= |h|
    ensures k < |h| ==> h[k] > i
    ensures forall j :: p < j < k ==> h[j] <= i
    decreases |h| - p
  {
    if p + 1 == |h| || h[p + 1] > i then p + 1 else Succ(h, p + 1, i)
  }

  lemma SuccIs(h: seq<nat>, p: nat, i: nat, k: nat)
    requires p < k <= |h| && (k < |h| ==> h[k] > i) && forall j :: p < j < k ==> h[j] <= i
    ensures Succ(h, p, i) == k
  {
    var s := Succ(h, p, i);
    var endOrLinked := k < |h| && h[k] > i;
    var endOrLinked' := s < |h| && h[s] > i;
  }

  /** `p` is the last position before `q` that is linked at level `i`. */
  predicate IsPred(h: seq<nat>, p: nat, q: nat, i: nat) {
    p < q <= |h| && h[p] > i && forall k :: p < k < q ==> h[k] <= i
  }

  function InsertAt<T>(s: seq<T>, q: nat, x: T): (r: seq<T>)
    requires q <= |s|
    ensures |r| == |s| + 1 && r[q] == x
    ensures forall k :: 0 <= k < q ==> r[k] == s[k]
    ensures forall k :: q < k < |r| ==> r[k] == s[k - 1]
  {
    s[..q] + [x] + s[q..]
  }

  function Shift(q: nat, k: nat): nat {
    if k < q then k else k + 1
  }

  lemma SuccAfterInsert(h: seq<nat>, q: nat, p: nat, i: nat)
    requires 0 < q <= |h| && p < |h| && i > 0
    ensures Succ(InsertAt(h, q, 1), Shift(q, p), i) == Shift(q, Succ(h, p, i))
  {
    var h' := InsertAt(h, q, 1);
    var k := Succ(h, p, i);
    forall j | Shift(q, p) < j < Shift(q, k) ensures h'[j] <= i {
      assert j == q || h'[j] == h[if j < q then j else j - 1];
    }
    SuccIs(h', Shift(q, p), i, Shift(q, k));
  }

  lemma RaiseInserted(h: seq<nat>, q: nat, i: nat)
    requires q <= |h|
    ensures InsertAt(h, q, i)[q := i + 1] == InsertAt(h, q, i + 1)
  {}

  predicate Positive(h: seq<nat>) {
    forall k :: 0 <= k < |h| ==> h[k] > 0
  }

  lemma SuccAtBottom(h: seq<nat>, p: nat)
    requires p < |h| && Positive(h)
    ensures Succ(h, p, 0) == p + 1
  {}

  lemma SuccAfterRaise(h: seq<nat>, q: nat, pred: nat, p: nat, j: nat)
    requires 0 < q < |h| && IsPred(h, pred, q, h[q]) && p < |h| && h[q := h[q] + 1][p] > j
    ensures Succ(h[q := h[q] + 1], p, j) == if j == h[q] && p == pred then q else Succ(h, p, j)
  {
    var h' := h[q := h[q] + 1];
    var k := if j == h[q] && p == pred then q else Succ(h, p, j);
    if j == h[q] && p < pred {
      assert k <= pred;
    }
    SuccIs(h', p, j, k);
  }

  /** A node not yet linked at level `i` is passed over there. */
  lemma SuccSkips(h: seq<nat>, pred: nat, q: nat, i: nat)
    requires IsPred(h, pred, q, i) && q < |h| && h[q] <= i
    ensures Succ(h, pred, i) == Succ(h, q, i)
  {
    SuccIs(h, pred, i, Succ(h, q, i));
  }

  /** The head is linked everywhere; the other nodes are distinct and in key order. */
  ghost predicate ShapeOk(head: Node, all: seq<Node>, h: seq<nat>, maxHeight: nat) {
    && |all| == |h| > 0 && all[0] == head && h[0] == MAX_HEIGHT && 0 < maxHeight <= MAX_HEIGHT
    && Positive(h) && (forall k :: 0 < k < |h| ==> h[k] <= maxHeight)
    && (forall i, j :: 0 <= i < j < |all| ==> all[i] != all[j])
    && (forall i, j :: 0 < i < j < |all| ==> all[i].key < all[j].key)
  }

  /** `q` is where `key` belongs: the first position at or after it. */
  ghost predicate IsPlace(all: seq<Node>, key: Key, q: nat) {
    && 0 < q <= |all|
    && (forall k :: 0 < k < q ==> all[k].key < key)
    && (forall k :: q <= k < |all| ==> all[k].key >= key)
  }

  lemma ShapeInsert(head: Node, all: seq<Node>, h: seq<nat>, maxHeight: nat, q: nat, x: Node)
    requires ShapeOk(head, all, h, maxHeight) && IsPlace(all, x.key, q) && x !in all
    requires q < |all| ==> all[q].key != x.key
    ensures ShapeOk(head, InsertAt(all, q, x), InsertAt(h, q, 1), maxHeight)
  {
    var all', h' := InsertAt(all, q, x), InsertAt(h, q, 1);
    assert forall k :: 0 <= k < |all| ==> all[k] in all;
    assert forall k :: q < k < |all| ==> all[q].key < all[k].key;
    forall i, j | 0 <= i < j < |all'| ensures all'[i] != all'[j] && (i > 0 ==> all'[i].key < all'[j].key) {
      var i0, j0 := if i < q then i else i - 1, if j < q then j else j - 1;
      assert i == q || all'[i] == all[i0];
      assert j == q || all'[j] == all[j0];
    }
    PositiveInsert(h, q);
    forall k | 0 < k < |h'| ensures h'[k] <= maxHeight {
      assert k == q || h'[k] == h[if k < q then k else k - 1];
    }
  }

  // ------------------------------------------------------------------------
  // Links as values

  function NodeAt(all: seq<Node>, k: nat): Node? {
    if k < |all| then all[k] else null
  }

  /** The link of position `p` at level `i` leads to the next node linked at that level. */
  predicate LinkOk(nexts: seq<seq<Node?>>, all: seq<Node>, h: seq<nat>, p: nat, i: nat)
    requires p < |nexts| == |all| == |h|
  {
    i < |nexts[p]| && nexts[p][i] == NodeAt(all, Succ(h, p, i))
  }

  ghost predicate LinksOk(nexts: seq<seq<Node?>>, all: seq<Node>, h: seq<nat>) {
    && |nexts| == |all| == |h|
    && forall p: nat, i: nat :: p < |all| && i < h[p] ==> LinkOk(nexts, all, h, p, i)
  }

  /** The links after a node with links `own` is put in at `q`, at level 0 only. */
  function NextsAfterBottom(nexts: seq<seq<Node?>>, q: nat, x: Node, own: seq<Node?>): (r: seq<seq<Node?>>)
    requires 0 < q <= |nexts| && |nexts[q - 1]| > 0 && |own| > 0
    ensures |r| == |nexts| + 1 && r[q] == own[0 := nexts[q - 1][0]] && r[q - 1] == nexts[q - 1][0 := x]
    ensures forall k :: 0 <= k < |nexts| && k != q - 1 ==> r[Shift(q, k)] == nexts[k]
  {
    InsertAt(nexts[q - 1 := nexts[q - 1][0 := x]], q, own[0 := nexts[q - 1][0]])
  }

  lemma BottomLinked(nexts: seq<seq<Node?>>, all: seq<Node>, h: seq<nat>, q: nat, x: Node, own: seq<Node?>)
    requires LinksOk(nexts, all, h) && Positive(h) && 0 < q <= |all| && |nexts[q - 1]| > 0 && |own| > 0
    ensures LinksOk(NextsAfterBottom(nexts, q, x, own), InsertAt(all, q, x), InsertAt(h, q, 1))
  {
    var nexts', all', h' := NextsAfterBottom(nexts, q, x, own), InsertAt(all, q, x), InsertAt(h, q, 1);
    forall p: nat, i: nat | p < |all'| && i < h'[p] ensures LinkOk(nexts', all', h', p, i) {
      BottomLink(nexts, all, h, q, x, own, p, i);
    }
  }

  lemma BottomLink(nexts: seq<seq<Node?>>, all: seq<Node>, h: seq<nat>, q: nat, x: Node, own: seq<Node?>, p: nat, i: nat)
    requires LinksOk(nexts, all, h) && Positive(h) && 0 < q <= |all| && |nexts[q - 1]| > 0 && |own| > 0
    requires p < |all| + 1 && i < InsertAt(h, q, 1)[p]
    ensures LinkOk(NextsAfterBottom(nexts, q, x, own), InsertAt(all, q, x), InsertAt(h, q, 1), p, i)
  {
    if i == 0 {
      BottomLink0(nexts, all, h, q, x, own, p);
    } else {
      var p0 := if p < q then p else p - 1;
      assert p != q && h[p0] == InsertAt(h, q, 1)[p] && p == Shift(q, p0);
      assert LinkOk(nexts, all, h, p0, i);
      BottomLinkAbove(nexts, all, h, q, x, own, p0, i);
    }
  }

  /** The links above the bottom are as they were. */
  lemma BottomLinkAbove(nexts: seq<seq<Node?>>, all: seq<Node>, h: seq<nat>, q: nat, x: Node, own: seq<Node?>, p: nat, i: nat)
    requires |nexts| == |all| == |h| && 0 < q <= |all| && |nexts[q - 1]| > 0 && |own| > 0
    requires p < |all| && i > 0 && LinkOk(nexts, all, h, p, i)
    ensures LinkOk(NextsAfterBottom(nexts, q, x, own), InsertAt(all, q, x), InsertAt(h, q, 1), Shift(q, p), i)
  {
    hide Succ;
    hide NodeAt;
    hide InsertAt;
    hide NextsAfterBottom;
    SuccAfterInsert(h, q, p, i);
    ShiftNode(all, q, x, Succ(h, p, i));
    assert p == q - 1 ==> Shift(q, p) == q - 1;
  }

  lemma PositiveInsert(h: seq<nat>, q: nat)
    requires Positive(h) && q <= |h|
    ensures Positive(InsertAt(h, q, 1))
  {}

  lemma BottomLink0(nexts: seq<seq<Node?>>, all: seq<Node>, h: seq<nat>, q: nat, x: Node, own: seq<Node?>, p: nat)
    requires LinksOk(nexts, all, h) && Positive(h) && 0 < q <= |all| && |nexts[q - 1]| > 0 && |own| > 0
    requires p < |all| + 1
    ensures LinkOk(NextsAfterBottom(nexts, q, x, own), InsertAt(all, q, x), InsertAt(h, q, 1), p, 0)
  {
    hide Succ;
    hide InsertAt;
    hide NextsAfterBottom;
    var p0 := if p < q then p else p - 1;
    var h' := InsertAt(h, q, 1);
    PositiveInsert(h, q);
    SuccAtBottom(h', p);
    SuccAtBottom(h, p0);
    SuccAtBottom(h, q - 1);
    assert LinkOk(nexts, all, h, q - 1, 0) && LinkOk(nexts, all, h, p0, 0);
  }

  lemma ShiftNode(all: seq<Node>, q: nat, x: Node, k: nat)
    requires q <= |all|
    ensures NodeAt(InsertAt(all, q, x), Shift(q, k)) == NodeAt(all, k)
  {}

  /** The links after the node at `q` is linked one level higher behind `pred`. */
  function NextsAfterRaise(nexts: seq<seq<Node?>>, q: nat, pred: nat, i: nat, x: Node): seq<seq<Node?>>
    requires pred < q < |nexts| && i < |nexts[q]| && i < |nexts[pred]|
  {
    nexts[q := nexts[q][i := nexts[pred][i]]][pred := nexts[pred][i := x]]
  }

  lemma HigherLinked(nexts: seq<seq<Node?>>, all: seq<Node>, h: seq<nat>, q: nat, pred: nat, i: nat)
    requires LinksOk(nexts, all, h) && IsPred(h, pred, q, i) && q < |all| && h[q] == i
    requires i < |nexts[q]| && i < |nexts[pred]|
    ensures LinksOk(NextsAfterRaise(nexts, q, pred, i, all[q]), all, h[q := i + 1])
  {
    var nexts', h' := NextsAfterRaise(nexts, q, pred, i, all[q]), h[q := i + 1];
    assert LinkOk(nexts, all, h, pred, i);
    SuccSkips(h, pred, q, i);
    forall p: nat, j: nat | p < |all| && j < h'[p] ensures LinkOk(nexts', all, h', p, j) {
      SuccAfterRaise(h, q, pred, p, j);
      assert j < h[p] ==> LinkOk(nexts, all, h, p, j);
    }
  }

  lemma PredAtBottom(h: seq<nat>, p: nat, q: nat)
    requires IsPred(h, p, q, 0) && Positive(h)
    ensures p == q - 1
  {
    var lastHeight := h[q - 1];
  }

  function KeysOf(all: seq<Node>): (r: seq<Key>)
    requires |all| > 0
    ensures |r| == |all| - 1 && forall k :: 0 < k < |all| ==> r[k - 1] == all[k].key
  {
    seq(|all| - 1, k requires 0 <= k < |all| - 1 => all[k + 1].key)
  }

  lemma KeysAfterInsert(all: seq<Node>, q: nat, x: Node)
    requires 0 < q <= |all|
    ensures KeysOf(InsertAt(all, q, x)) == InsertAt(KeysOf(all), q - 1, x.key)
  {
    var all' := InsertAt(all, q, x);
    forall k | 0 <= k < |all| ensures KeysOf(all')[k] == InsertAt(KeysOf(all), q - 1, x.key)[k] {
      assert KeysOf(all')[k] == all'[k + 1].key;
      assert k >= q ==> KeysOf(all)[k - 1] == all[k].key;
      assert k < q - 1 ==> KeysOf(all)[k] == all[k + 1].key;
    }
  }

  /** For each level from `low` on, `prev` has the last node before `q`, at position `ps`. */
  ghost predicate PrevIn(all: seq<Node>, h: seq<nat>, prev: seq<Node>, ps: seq<nat>, q: nat, low: nat) {
    && |prev| == |ps| && |all| == |h|
    && forall l :: low <= l < |prev| ==> IsPred(h, ps[l], q, l) && prev[l] == all[ps[l]]
  }

  lemma PrevInserted(all: seq<Node>, h: seq<nat>, x: Node, q: nat, prev: seq<Node>, ps: seq<nat>)
    requires 0 < q <= |h| && PrevIn(all, h, prev, ps, q, 0)
    ensures PrevIn(InsertAt(all, q, x), InsertAt(h, q, 1), prev, ps, q, 1)
  {}

  lemma PrevRaised(all: seq<Node>, h: seq<nat>, q: nat, i: nat, prev: seq<Node>, ps: seq<nat>)
    requires q < |h| && PrevIn(all, h, prev, ps, q, i)
    ensures PrevIn(all, h[q := i + 1], prev, ps, q, i + 1)
  {}

  lemma NoPrev(all: seq<Node>, h: seq<nat>, q: nat, prev: seq<Node>, ps: seq<nat>)
    requires |prev| == |ps| && |all| == |h|
    ensures PrevIn(all, h, prev, ps, q, |prev|)
  {}

  /** One more level, where the search ends behind `p`. */
  lemma PrevLower(all: seq<Node>, h: seq<nat>, q: nat, i: nat, prev: seq<Node>, ps: seq<nat>, p: nat)
    requires PrevIn(all, h, prev, ps, q, i + 1) && i < |prev| && IsPred(h, p, q, i)
    ensures PrevIn(all, h, prev[i := all[p]], ps[i := p], q, i)
  {}

  /** Whether a search goes on at this level or has met the last node before its place. */
  lemma GoesOn(all: seq<Node>, h: seq<nat>, key: Key, q: nat, p: nat, i: nat)
    requires IsPlace(all, key, q) && |all| == |h| && p < q && h[p] > i
    ensures var k := Succ(h, p, i); var next := NodeAt(all, k);
            if next != null && next.key < key then k < q else k >= q && IsPred(h, p, q, i)
  {}

  lemma PrevAt(all: seq<Node>, h: seq<nat>, q: nat, i: nat, prev: seq<Node>, ps: seq<nat>)
    requires PrevIn(all, h, prev, ps, q, i) && i < |prev|
    ensures i < |ps| && IsPred(h, ps[i], q, i) && ps[i] < |all| && prev[i] == all[ps[i]]
  {}

  lemma IsItsPlace(head: Node, all: seq<Node>, h: seq<nat>, maxHeight: nat, key: Key, q: nat)
    requires ShapeOk(head, all, h, maxHeight) && 0 < q <= |all| && (q < |all| ==> all[q].key >= key)
    requires forall k :: 0 < k < q ==> all[k].key < key
    ensures IsPlace(all, key, q)
  {
    assert forall k :: q < k < |all| ==> all[q].key < all[k].key;
  }

  class SkipList {
    const head: Node
    var maxHeight: nat
    ghost var all: seq<Node>
    ghost var heights: seq<nat>

    /** The keys in the list, in order: what a linear scan of level 0 sees. */
    ghost function Keys(): seq<Key>
      reads this
      requires |all| > 0
    {
      KeysOf(all)
    }

    ghost function Nexts(): (r: seq<seq<Node?>>)
      reads this, all
      ensures |r| == |all| && forall k :: 0 <= k < |all| ==> r[k] == all[k].next
    {
      var nodes := all;
      seq(|nodes|, k requires 0 <= k < |nodes| reads nodes => nodes[k].next)
    }

    ghost predicate Valid()
      reads this, all
    {
      ShapeOk(head, all, heights, maxHeight) && LinksOk(Nexts(), all, heights)
    }

    /** `n` is linked at `level`. */
    ghost predicate Linked(n: Node, p: nat, level: nat)
      reads this
    {
      p < |all| == |heights| && all[p] == n && heights[p] > level
    }

    constructor ()
      ensures Valid() && Keys() == [] && fresh(head)
    {
      var n := new Node(0, MAX_HEIGHT);
      n.next := seq(MAX_HEIGHT, _ => null);
      head, maxHeight := n, 1;
      all, heights := [n], [MAX_HEIGHT];
    }

    static predicate KeyIsAfterNode(key: Key, n: Node?) {
      n != null && n.key < key
    }

    ghost predicate PrevOk(prev: seq<Node>, ps: seq<nat>, q: nat, low: nat)
      reads this
    {
      PrevIn(all, heights, prev, ps, q, low)
    }

    /** The first node at or after `key`, and for each level the last node before it. */
    method FindGreaterOrEqual(key: Key) returns (x: Node?, prev: seq<Node>, ghost q: nat, ghost ps: seq<nat>)
      requires Valid()
      ensures IsPlace(all, key, q) && x == NodeAt(all, q)
      ensures |prev| == maxHeight && PrevOk(prev, ps, q, 0)
    {
      q := Place(key);
      var y: Node := head;
      ghost var p: nat := 0;
      var level: nat := maxHeight - 1;
      prev := seq(maxHeight, _ => head);
      ps := seq(maxHeight, _ => 0);
      assert Linked(y, p, level) && Positive(heights);
      hide ShapeOk;
      hide Positive;
      hide Succ;
      hide IsPlace;
      hide IsPred;
      hide PrevIn;
      NoPrev(all, heights, q, prev, ps);
      while true
        invariant level < maxHeight && p < q && Linked(y, p, level)
        invariant |prev| == maxHeight && PrevOk(prev, ps, q, level + 1)
        decreases level, |all| - p
      {
        assert LinkOk(Nexts(), all, heights, p, level);
        var next := y.next[level];
        ghost var k := Succ(heights, p, level);
        GoesOn(all, heights, key, q, p, level);
        if KeyIsAfterNode(key, next) {
          y := next;
          p := k;
        } else {
          PrevLower(all, heights, q, level, prev, ps, p);
          prev := prev[level := y];
          ps := ps[level := p];
          if level == 0 {
            SuccAtBottom(heights, p);
            return next, prev, q, ps;
          }
          level := level - 1;
        }
      }
    }

    ghost method Place(key: Key) returns (q: nat)
      requires Valid()
      ensures IsPlace(all, key, q)
    {
      assert ShapeOk(head, all, heights, maxHeight) && |all| > 0;
      hide ShapeOk;
      hide LinksOk;
      q := 1;
      while q < |all| && all[q].key < key
        invariant 0 < q <= |all|
        invariant forall k :: 0 < k < q ==> all[k].key < key
      {
        q := q + 1;
      }
      IsItsPlace(head, all, heights, maxHeight, key, q);
    }

    /** The store that puts a new node into the level-0 list. */
    method LinkBottom(x: Node, prev: Node, ghost q: nat)
      requires Valid() && IsPlace(all, x.key, q) && (q < |all| ==> all[q].key != x.key)
      requires x !in all && 0 < |x.next| <= MAX_HEIGHT && prev == all[q - 1]
      modifies this`all, this`heights, x, prev
      ensures Valid() && all == InsertAt(old(all), q, x) && heights == InsertAt(old(heights), q, 1)
      ensures |x.next| == old(|x.next|)
    {
      ghost var nexts0, all0, h0, own := Nexts(), all, heights, x.next;
      assert 0 < q <= |all| == |heights|;
      BottomValid(nexts0, all0, h0, q, x, own);
      OthersApart(q, x);
      hide ShapeOk;
      hide LinksOk;
      hide IsPlace;
      hide InsertAt;
      hide NextsAfterBottom;
      x.SetNext(0, prev.next[0]);
      prev.SetNext(0, x);
      all, heights := InsertAt(all0, q, x), InsertAt(h0, q, 1);
      NextsAre(nexts0, all0, q, x, own);
    }

    lemma NextsAre(nexts0: seq<seq<Node?>>, all0: seq<Node>, q: nat, x: Node, own: seq<Node?>)
      requires 0 < q <= |all0| == |nexts0| && |own| > 0 && |nexts0[q - 1]| > 0 && all == InsertAt(all0, q, x)
      requires x.next == own[0 := nexts0[q - 1][0]] && all0[q - 1].next == nexts0[q - 1][0 := x]
      requires forall k :: 0 <= k < |all0| && k != q - 1 ==> all0[k].next == nexts0[k]
      ensures Nexts() == NextsAfterBottom(nexts0, q, x, own)
    {
      hide InsertAt;
      hide NextsAfterBottom;
      forall k | 0 <= k < |all| ensures Nexts()[k] == NextsAfterBottom(nexts0, q, x, own)[k] {
        if k != q && k != q - 1 {
          var k0 := if k < q then k else k - 1;
          assert Shift(q, k0) == k && all[k] == all0[k0];
        }
      }
    }

    /** The other nodes are neither the new one nor the one it is linked behind. */
    lemma OthersApart(q: nat, x: Node)
      requires ShapeOk(head, all, heights, maxHeight) && 0 < q <= |all| && x !in all
      ensures forall k :: 0 <= k < |all| && k != q - 1 ==> all[k] != all[q - 1] && all[k] != x
    {
      assert forall k :: 0 <= k < |all| ==> all[k] in all;
    }

    lemma BottomValid(nexts0: seq<seq<Node?>>, all0: seq<Node>, h0: seq<nat>, q: nat, x: Node, own: seq<Node?>)
      requires ShapeOk(head, all0, h0, maxHeight) && LinksOk(nexts0, all0, h0)
      requires IsPlace(all0, x.key, q) && (q < |all0| ==> all0[q].key != x.key) && x !in all0 && |own| > 0
      ensures |nexts0[q - 1]| > 0
      ensures ShapeOk(head, InsertAt(all0, q, x), InsertAt(h0, q, 1), maxHeight)
      ensures LinksOk(NextsAfterBottom(nexts0, q, x, own), InsertAt(all0, q, x), InsertAt(h0, q, 1))
    {
      assert LinkOk(nexts0, all0, h0, q - 1, 0);
      BottomLinked(nexts0, all0, h0, q, x, own);
      ShapeInsert(head, all0, h0, maxHeight, q, x);
    }

    /** The store that links a node one level higher. */
    method LinkHigher(x: Node, i: nat, prev: Node, ghost q: nat, ghost pred: nat)
      requires Valid() && 0 < q < |all| && all[q] == x && heights[q] == i && i < |x.next| && i < maxHeight
      requires IsPred(heights, pred, q, i) && prev == all[pred]
      modifies this`heights, x, prev
      ensures Valid() && heights == old(heights)[q := i + 1]
      ensures |x.next| == old(|x.next|)
    {
      ghost var nexts0, h0 := Nexts(), heights;
      assert LinkOk(nexts0, all, h0, pred, i);
      HigherLinked(nexts0, all, h0, q, pred, i);
      x.SetNext(i, prev.next[i]);
      prev.SetNext(i, x);
      heights := h0[q := i + 1];
      assert Nexts() == NextsAfterRaise(nexts0, q, pred, i, x);
    }

    /** Inserts a key that is not in the list; any height is allowed. */
    method Insert(key: Key, height: nat)
      requires Valid() && 0 < height <= MAX_HEIGHT && key !in Keys()
      modifies this`maxHeight, this`all, this`heights, all
      ensures Valid() && forall n :: n in all ==> n in old(all) || fresh(n)
      ensures exists q: nat :: q <= |old(Keys())| && Keys() == InsertAt(old(Keys()), q, key)
    {
      var x, prev, q, ps := FindGreaterOrEqual(key);
      NotThere(key, q);
      prev, ps := RaiseMaxHeight(height, prev, q, ps);
      PrevInAll(prev, ps, q);
      var node := new Node(key, height);
      LinkNew(node, height, prev, q, ps);
    }

    /** The levels above the old maximum start with the head as the predecessor. */
    method RaiseMaxHeight(height: nat, prev: seq<Node>, ghost q: nat, ghost ps: seq<nat>)
      returns (prev': seq<Node>, ghost ps': seq<nat>)
      requires Valid() && 0 < height <= MAX_HEIGHT && 0 < q <= |all|
      requires |prev| == maxHeight && PrevOk(prev, ps, q, 0)
      modifies this`maxHeight
      ensures Valid() && height <= maxHeight && height <= |prev'| && PrevOk(prev', ps', q, 0)
    {
      prev', ps' := prev, ps;
      if height > maxHeight {
        prev', ps' := prev + seq(height - maxHeight, _ => head), ps + seq(height - maxHeight, _ => 0);
        assert prev'[..maxHeight] == prev && ps'[..maxHeight] == ps;
        HeadIsPrev(prev', ps', q, height);
        ghost var nexts0 := Nexts();
        maxHeight := height;
        assert Nexts() == nexts0;
      }
    }

    method LinkNew(node: Node, height: nat, prev: seq<Node>, ghost q: nat, ghost ps: seq<nat>)
      requires Valid() && IsPlace(all, node.key, q) && (q < |all| ==> all[q].key != node.key) && node !in all
      requires 0 < height <= maxHeight && |node.next| == height && height <= |prev| && PrevOk(prev, ps, q, 0)
      modifies this`all, this`heights, node, prev
      ensures Valid() && forall n :: n in all ==> n in old(all) || n == node
      ensures 0 < |old(all)| && q - 1 <= |KeysOf(old(all))| && Keys() == InsertAt(KeysOf(old(all)), q - 1, node.key)
    {
      KeysAfterInsert(all, q, node);
      LinkAll(node, height, prev, q, ps);
    }

    lemma PrevInAll(prev: seq<Node>, ps: seq<nat>, q: nat)
      requires PrevOk(prev, ps, q, 0)
      ensures forall l :: 0 <= l < |prev| ==> prev[l] in all
    {}

    /** No node reaches the levels above the old maximum, so the head is the last one there. */
    lemma HeadIsPrev(prev: seq<Node>, ps: seq<nat>, q: nat, height: nat)
      requires ShapeOk(head, all, heights, maxHeight) && 0 < q <= |all| && maxHeight < height <= MAX_HEIGHT
      requires |prev| == |ps| == height && PrevOk(prev[..maxHeight], ps[..maxHeight], q, 0)
      requires forall l :: maxHeight <= l < height ==> prev[l] == head && ps[l] == 0
      ensures PrevOk(prev, ps, q, 0)
    {
      forall l | 0 <= l < height ensures IsPred(heights, ps[l], q, l) && prev[l] == all[ps[l]] {
        if l < maxHeight {
          assert prev[..maxHeight][l] == prev[l] && ps[..maxHeight][l] == ps[l];
        }
      }
    }

    /** Links the node level by level, from the bottom; the list is valid after every store. */
    method LinkAll(node: Node, height: nat, prev: seq<Node>, ghost q: nat, ghost ps: seq<nat>)
      requires Valid() && IsPlace(all, node.key, q) && (q < |all| ==> all[q].key != node.key) && node !in all
      requires 0 < height <= maxHeight && |node.next| == height && height <= |prev| && PrevOk(prev, ps, q, 0)
      modifies this`all, this`heights, node, prev
      ensures Valid() && all == InsertAt(old(all), q, node)
      ensures heights == InsertAt(old(heights), q, height)
    {
      assert 0 < q <= |all| && Positive(heights);
      hide ShapeOk;
      hide Positive;
      hide LinksOk;
      hide IsPlace;
      hide InsertAt;
      hide IsPred;
      hide PrevIn;
      ghost var all0, h0 := all, heights;
      PrevAt(all, heights, q, 0, prev, ps);
      PredAtBottom(heights, ps[0], q);
      LinkBottom(node, prev[0], q);
      PrevInserted(all0, h0, node, q, prev, ps);
      var i := 1;
      while i < height
        invariant 0 < i <= height && Valid() && |node.next| == height
        invariant all == InsertAt(all0, q, node) && heights == InsertAt(h0, q, i)
        invariant PrevOk(prev, ps, q, i)
      {
        PrevAt(all, heights, q, i, prev, ps);
        PrevRaised(all, heights, q, i, prev, ps);
        LinkHigher(node, i, prev[i], q, ps[i]);
        RaiseInserted(h0, q, i);
        i := i + 1;
      }
    }

    lemma NotThere(key: Key, q: nat)
      requires Valid() && key !in Keys() && IsPlace(all, key, q)
      ensures q < |all| ==> all[q].key != key
    {
      if q < |all| {
        assert Keys()[q - 1] == all[q].key;
      }
    }

    method Contains(key: Key) returns (b: bool)
      requires Valid()
      ensures b == (key in Keys())
    {
      var x, _, q, _ := FindGreaterOrEqual(key);
      b := x != null && x.key == key;
      KeyAtPlace(key, q);
    }

    lemma KeyAtPlace(key: Key, q: nat)
      requires Valid() && IsPlace(all, key, q)
      ensures key in Keys() <==> q < |all| && all[q].key == key
    {
      if q < |all| {
        assert Keys()[q - 1] == all[q].key;
      }
      if key in Keys() {
        var k :| 0 <= k < |Keys()| && Keys()[k] == key;
        assert all[k + 1].key == key;
        PlaceOfNode(k + 1, q);
      }
    }

    lemma PlaceOfNode(k: nat, q: nat)
      requires Valid() && 0 < k < |all| && IsPlace(all, all[k].key, q)
      ensures q == k
    {
      assert q <= k;
      var least := all[q].key;
    }

    /** The last node before `key`, or the head. */
    method FindLessThan(key: Key) returns (y: Node, ghost p: nat)
      requires Valid()
      ensures p < |all| && y == all[p] && IsPlace(all, key, p + 1)
    {
      ghost var q := Place(key);
      y, p := head, 0;
      var level: nat := maxHeight - 1;
      while true
        invariant level < maxHeight && p < q && Linked(y, p, level)
        decreases level, |all| - p
      {
        assert LinkOk(Nexts(), all, heights, p, level);
        var next := y.next[level];
        ghost var k := Succ(heights, p, level);
        if next == null || next.key >= key {
          if level == 0 {
            SuccAtBottom(heights, p);
            assert k >= q;
            return;
          }
          level := level - 1;
        } else {
          y, p := next, k;
        }
      }
    }

    /** The last node, or the head. */
    method FindLast() returns (y: Node)
      requires Valid()
      ensures y == all[|all| - 1]
    {
      y := head;
      ghost var p: nat := 0;
      var level: nat := maxHeight - 1;
      while true
        invariant level < maxHeight && Linked(y, p, level)
        decreases level, |all| - p
      {
        assert LinkOk(Nexts(), all, heights, p, level);
        var next := y.next[level];
        ghost var k := Succ(heights, p, level);
        if next == null {
          if level == 0 {
            SuccAtBottom(heights, p);
            return;
          }
          level := level - 1;
        } else {
          y, p := next, k;
        }
      }
    }
  }

  // ------------------------------------------------------------------------
  // Iteration

  class Iterator {
    const list: SkipList
    var node: Node?

    /** The iterator is at index `i` of the keys; the length stands for "not valid". */
    ghost predicate IsAt(i: nat)
      reads this, list
    {
      && i < |list.all| && node == NodeAt(list.all, i + 1)
    }

    constructor (list: SkipList)
      ensures this.list == list && node == null
    {
      this.list, node := list, null;
    }

    method Next(ghost i: nat)
      requires list.Valid() && IsAt(i) && node != null
      modifies this
      ensures IsAt(i + 1)
    {
      assert LinkOk(list.Nexts(), list.all, list.heights, i + 1, 0);
      SuccAtBottom(list.heights, i + 1);
      node := node.next[0];
    }

    /** The last key before the current one; not valid before the first. */
    method Prev(ghost i: nat)
      requires list.Valid() && IsAt(i) && node != null
      modifies this
      ensures IsAt(if i == 0 then |list.Keys()| else i - 1)
    {
      var y, p := list.FindLessThan(node.key);
      list.PlaceOfNode(i + 1, p + 1);
      node := y;
      if node == list.head {
        node := null;
      }
    }

    /** The first key at or after `target`, as a linear scan would find it. */
    method Seek(target: Key) returns (ghost i: nat)
      requires list.Valid()
      modifies this
      ensures i <= |list.Keys()| && IsAt(i)
      ensures forall k :: 0 <= k < i ==> list.Keys()[k] < target
      ensures forall k :: i <= k < |list.Keys()| ==> list.Keys()[k] >= target
    {
      var x, _, q, _ := list.FindGreaterOrEqual(target);
      node := x;
      i := q - 1;
    }

    method SeekToFirst()
      requires list.Valid()
      modifies this
      ensures IsAt(0)
    {
      assert LinkOk(list.Nexts(), list.all, list.heights, 0, 0);
      SuccAtBottom(list.heights, 0);
      node := list.head.next[0];
    }

    method SeekToLast()
      requires list.Valid()
      modifies this
      ensures IsAt(if |list.Keys()| == 0 then 0 else |list.Keys()| - 1)
    {
      node := list.FindLast();
      if node == list.head {
        node := null;
      }
    }
  }

  // ------------------------------------------------------------------------
  // A reader beside the writer

  /** What a search in progress relies on: the node it stands on is linked at its level and lies
      before the target. */
  ghost predicate SearchOk(all: seq<Node>, h: seq<nat>, x: Node, level: nat, target: Key) {
    |all| == |h| && exists p: nat :: p < |all| && all[p] == x && h[p] > level && (p == 0 || x.key < target)
  }

  lemma SearchSurvivesBottom(all: seq<Node>, h: seq<nat>, x: Node, level: nat, target: Key, q: nat, n: Node)
    requires SearchOk(all, h, x, level, target) && 0 < q <= |all|
    ensures SearchOk(InsertAt(all, q, n), InsertAt(h, q, 1), x, level, target)
  {
    var p: nat :| p < |all| && all[p] == x && h[p] > level && (p == 0 || x.key < target);
    assert InsertAt(all, q, n)[Shift(q, p)] == x && InsertAt(h, q, 1)[Shift(q, p)] == h[p];
  }

  lemma SearchSurvivesRaise(all: seq<Node>, h: seq<nat>, x: Node, level: nat, target: Key, q: nat)
    requires SearchOk(all, h, x, level, target) && q < |h|
    ensures SearchOk(all, h[q := h[q] + 1], x, level, target)
  {
    var p: nat :| p < |all| && all[p] == x && h[p] > level && (p == 0 || x.key < target);
    assert h[q := h[q] + 1][p] > level;
  }

  /** After every link store of an insert, up to any height, a search begun before is still sound. */
  lemma {:induction false} SearchSurvivesInsert(all: seq<Node>, h: seq<nat>, x: Node, level: nat, target: Key,
                                                q: nat, n: Node, height: nat)
    requires SearchOk(all, h, x, level, target) && 0 < q <= |all| && height > 0
    ensures SearchOk(InsertAt(all, q, n), InsertAt(h, q, 1)[q := height], x, level, target)
  {
    var all', h' := InsertAt(all, q, n), InsertAt(h, q, 1);
    if height == 1 {
      SearchSurvivesBottom(all, h, x, level, target, q, n);
      assert h'[q := 1] == h';
    } else {
      SearchSurvivesInsert(all, h, x, level, target, q, n, height - 1);
      SearchSurvivesRaise(all', h'[q := height - 1], x, level, target, q);
      assert h'[q := height - 1][q := height] == h'[q := height];
    }
  }

  /** At the bottom, the place of the target is behind the last node before it. */
  lemma EndsAtPlace(head: Node, all: seq<Node>, h: seq<nat>, maxHeight: nat, p: nat, target: Key)
    requires ShapeOk(head, all, h, maxHeight) && p < |all| && (p == 0 || all[p].key < target)
    requires !SkipList.KeyIsAfterNode(target, NodeAt(all, Succ(h, p, 0)))
    ensures Succ(h, p, 0) == p + 1 && IsPlace(all, target, p + 1)
  {
    SuccAtBottom(h, p);
  }

  /** A search whose steps interleave with link stores; each step loads one link. */
  class Search {
    const list: SkipList
    const target: Key
    var x: Node
    var level: nat
    var result: Option<Node?>

    ghost predicate Ok()
      reads this, list
    {
      SearchOk(list.all, list.heights, x, level, target)
    }

    /** Any maximum height seen, also a stale one, will do. */
    constructor (list: SkipList, target: Key, maxHeightSeen: nat)
      requires list.Valid() && 0 < maxHeightSeen <= MAX_HEIGHT
      ensures Ok() && this.list == list && this.target == target && result == None
    {
      this.list, this.target := list, target;
      x, level, result := list.head, maxHeightSeen - 1, None;
      new;
      assert list.all[0] == x && list.heights[0] > level;
    }

    /** The load that ends the search returns what a scan of the whole list returns at that moment. */
    method Step()
      requires list.Valid() && Ok() && result == None
      modifies this
      ensures result.None? ==> Ok()
      ensures result.Some? ==> exists q: nat :: IsPlace(list.all, target, q) && result.value == NodeAt(list.all, q)
    {
      hide ShapeOk;
      hide Succ;
      ghost var p: nat :| p < |list.all| && list.all[p] == x && list.heights[p] > level && (p == 0 || x.key < target);
      ghost var k := Succ(list.heights, p, level);
      assert LinkOk(list.Nexts(), list.all, list.heights, p, level);
      var next := x.next[level];
      if SkipList.KeyIsAfterNode(target, next) {
        assert list.all[k] == next && list.heights[k] > level;
        x := next;
      } else if level == 0 {
        EndsAtPlace(list.head, list.all, list.heights, list.maxHeight, p, target);
        result := Some(next);
      } else {
        level := level - 1;
        assert list.heights[p] > level;
      }
    }
  }
}
