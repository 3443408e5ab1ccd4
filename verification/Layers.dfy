/**
 The order in which a reader searches: a list of entry sets, newest first.

 The store is correct because, for each user key, every layer holds only newer entries
 than the layers after it.  The lemmas here say which changes keep it so.
 */
module Layers {
  import opened Entries

  ghost predicate LayersOk(ls: seq<set<Entry>>) {
    forall i, j :: 0 <= i < j < |ls| ==> Above(ls[i], ls[j])
  }

  ghost function Union(ls: seq<set<Entry>>): set<Entry> {
    set k, e | 0 <= k < |ls| && e in ls[k] :: e
  }

  /** Entries may sink from layer `a` to layer `b` if what they pass is newer. */
  lemma MoveDown(ls: seq<set<Entry>>, a: nat, b: nat, moved: set<Entry>)
    requires LayersOk(ls) && a < b < |ls| && moved <= ls[a]
    requires Above(ls[a] - moved, moved)
    requires forall k :: a < k < b ==> Above(ls[k], moved)
    ensures LayersOk(ls[a := ls[a] - moved][b := ls[b] + moved])
    ensures Union(ls[a := ls[a] - moved][b := ls[b] + moved]) == Union(ls)
  {
    var ls' := ls[a := ls[a] - moved][b := ls[b] + moved];
    forall i, j | 0 <= i < j < |ls'| ensures Above(ls'[i], ls'[j]) {
      assert Above(ls[i], ls[j]);
      if j == b && i < a { assert Above(ls[i], ls[a]); }
      if i == b { assert Above(ls[a], ls[j]); }
    }
    MovedUnion(ls, a, b, moved);
  }

  lemma MovedUnion(ls: seq<set<Entry>>, a: nat, b: nat, moved: set<Entry>)
    requires a < b < |ls| && moved <= ls[a]
    ensures Union(ls[a := ls[a] - moved][b := ls[b] + moved]) == Union(ls)
  {
    var ls' := ls[a := ls[a] - moved][b := ls[b] + moved];
    forall e ensures e in Union(ls') <==> e in Union(ls) {
      if e in Union(ls) {
        var k :| 0 <= k < |ls| && e in ls[k];
        assert e in ls'[k] || e in ls'[b];
      }
      if e in Union(ls') {
        var k :| 0 <= k < |ls| && e in ls'[k];
        assert e in ls[k] || e in ls[a];
      }
    }
  }

  /** Layers may lose entries. */
  lemma Shrink(ls: seq<set<Entry>>, b: nat, fewer: set<Entry>)
    requires LayersOk(ls) && b < |ls| && fewer <= ls[b]
    ensures LayersOk(ls[b := fewer])
    ensures Union(ls[b := fewer]) <= Union(ls)
  {
    var ls' := ls[b := fewer];
    forall e | e in Union(ls') ensures e in Union(ls) {
      var k :| 0 <= k < |ls| && e in ls'[k];
      assert e in ls[k];
    }
  }

  /** The first layer may gain newer entries. */
  lemma GrowTop(ls: seq<set<Entry>>, added: set<Entry>)
    requires LayersOk(ls) && |ls| > 0 && Above(added, Union(ls))
    ensures LayersOk(ls[0 := ls[0] + added])
    ensures Union(ls[0 := ls[0] + added]) == Union(ls) + added
  {
    var ls' := ls[0 := ls[0] + added];
    forall i, j | 0 <= i < j < |ls'| ensures Above(ls'[i], ls'[j]) {
      assert Above(ls[i], ls[j]);
      assert forall e :: e in ls[j] ==> e in Union(ls);
    }
    forall e ensures e in Union(ls') <==> e in Union(ls) + added {
      if e in Union(ls) {
        var k :| 0 <= k < |ls| && e in ls[k];
        assert e in ls'[k];
      }
      if e in added { assert e in ls'[0]; }
      if e in Union(ls') {
        var k :| 0 <= k < |ls'| && e in ls'[k];
        assert e in ls[k] || e in added;
      }
    }
  }

  lemma PrefixAbove(ls: seq<set<Entry>>, n: nat)
    requires LayersOk(ls) && n < |ls|
    ensures Above(Union(ls[..n]), ls[n])
    ensures Union(ls[..n + 1]) == Union(ls[..n]) + ls[n]
  {
    forall a, b | a in Union(ls[..n]) && b in ls[n] && a.key.user == b.key.user
      ensures a.key.seqNo > b.key.seqNo
    {
      var k :| 0 <= k < n && a in ls[k];
      assert Above(ls[k], ls[n]);
    }
    forall e ensures e in Union(ls[..n + 1]) <==> e in Union(ls[..n]) + ls[n] {
      if e in Union(ls[..n + 1]) {
        var k :| 0 <= k < n + 1 && e in ls[..n + 1][k];
        assert k < n ==> e in ls[..n][k];
      }
      if e in Union(ls[..n]) {
        var k :| 0 <= k < n && e in ls[..n][k];
        assert e in ls[..n + 1][k];
      }
      if e in ls[n] { assert e in ls[..n + 1][n]; }
    }
  }

  lemma UnionAbove(ls: seq<set<Entry>>, n: nat, m: nat)
    requires LayersOk(ls) && n <= m < |ls|
    ensures Above(Union(ls[..n]), ls[m])
  {
    forall x, y | x in Union(ls[..n]) && y in ls[m] && x.key.user == y.key.user ensures x.key.seqNo > y.key.seqNo {
      var k :| 0 <= k < n && x in ls[..n][k];
      assert x in ls[k] && Above(ls[k], ls[m]);
    }
  }

  lemma AboveUnion(ls: seq<set<Entry>>, n: nat, m: nat)
    requires LayersOk(ls) && m < n <= |ls|
    ensures Above(ls[m], Union(ls[n..]))
  {
    forall x, y | x in ls[m] && y in Union(ls[n..]) && x.key.user == y.key.user ensures x.key.seqNo > y.key.seqNo {
      var k :| 0 <= k < |ls| - n && y in ls[n..][k];
      assert y in ls[n + k] && Above(ls[m], ls[n + k]);
    }
  }

  /** Cutting the search order in two. */
  lemma Cut(ls: seq<set<Entry>>, n: nat)
    requires LayersOk(ls) && n <= |ls|
    ensures Union(ls[..n]) + Union(ls[n..]) == Union(ls)
    ensures Above(Union(ls[..n]), Union(ls[n..]))
    ensures LayersOk(ls[n..])
  {
    forall x, y | x in Union(ls[..n]) && y in Union(ls[n..]) && x.key.user == y.key.user ensures x.key.seqNo > y.key.seqNo {
      var k :| 0 <= k < n && x in ls[..n][k];
      AboveUnion(ls, n, k);
      assert x in ls[k];
    }
    forall e ensures e in Union(ls[..n]) + Union(ls[n..]) <==> e in Union(ls) {
      if e in Union(ls) {
        var k :| 0 <= k < |ls| && e in ls[k];
        assert if k < n then e in ls[..n][k] else e in ls[n..][k - n];
      }
    }
    forall i, j | 0 <= i < j < |ls| - n ensures Above(ls[n..][i], ls[n..][j]) {
      assert Above(ls[n + i], ls[n + j]);
    }
  }
}
