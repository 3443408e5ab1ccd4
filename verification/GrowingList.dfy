/**
 A sorted list of entries that others add to.

 Memtables grow while an iterator stands on them.  What is added is too new for the iterator to show;
 the lemmas here say that the entries it may show keep their order, and where they come to lie.
 */
module GrowingList {
  import opened Entries

  /** `b` has what `a` has, and nothing else that a reader at `s` may see. */
  ghost predicate Grown(a: set<Entry>, b: set<Entry>, s: nat) {
    a <= b && forall e :: e in b && e.key.seqNo <= s ==> e in a
  }

  /** Nothing changes for a reader at `s`. */
  lemma GrownReads(a: set<Entry>, b: set<Entry>, s: nat, u: UserKey)
    requires Grown(a, b, s) && UniqueSeqNos(b)
    ensures Read(a, u, s) == Read(b, u, s)
  {
    assert UniqueSeqNos(a);
    var r := FindsExists(a, u, s);
    FindsIsRead(a, u, s, r);
    assert forall x :: Visible(b, u, s, x) <==> Visible(a, u, s, x);
    FindsIsRead(b, u, s, r);
  }

  /** Two sorted lists, the second grown from the first. */
  ghost predicate Growth(es: seq<Entry>, es': seq<Entry>, s: nat) {
    Sorted(es) && Sorted(es') && Grown(Elements(es), Elements(es'), s)
  }

  /** Where the entry at `i` comes to lie; a place before the front stays there. */
  function Shifted(es: seq<Entry>, es': seq<Entry>, i: int): int
    requires i < |es|
  {
    if i < 0 then i else FirstAtOrAfter(es', es[i].key)
  }

  lemma PlaceOf(es: seq<Entry>, k: nat)
    requires Sorted(es) && k < |es|
    ensures FirstAtOrAfter(es, es[k].key) == k
  {
    SamePlace(es, FirstAtOrAfter(es, es[k].key), k);
  }

  lemma Kept(es: seq<Entry>, es': seq<Entry>, s: nat, i: nat)
    requires Growth(es, es', s) && i < |es|
    ensures 0 <= Shifted(es, es', i) < |es'| && es'[Shifted(es, es', i)] == es[i]
  {
    assert es[i] in Elements(es);
    assert es[i] in Elements(es');
    var k :| 0 <= k < |es'| && es'[k] == es[i];
    PlaceOf(es', k);
  }

  /** Whatever may be seen was there before. */
  lemma Came(es: seq<Entry>, es': seq<Entry>, s: nat, k: nat) returns (i: nat)
    requires Growth(es, es', s) && k < |es'| && es'[k].key.seqNo <= s
    ensures i < |es| && es[i] == es'[k] && Shifted(es, es', i) == k
  {
    assert es'[k] in Elements(es');
    assert es'[k] in Elements(es);
    i :| 0 <= i < |es| && es[i] == es'[k];
    PlaceOf(es', k);
  }

  lemma ByKey(es: seq<Entry>, i: nat, j: nat)
    requires Sorted(es) && i < |es| && j < |es|
    ensures i < j <==> Less(es[i].key, es[j].key)
  {
    if i < j {
      assert Less(es[i].key, es[j].key);
    } else if j < i {
      assert Less(es[j].key, es[i].key);
    }
  }

  lemma OrderKept(es: seq<Entry>, es': seq<Entry>, s: nat, i: nat, j: nat)
    requires Growth(es, es', s) && i < |es| && j < |es|
    ensures i < j <==> Shifted(es, es', i) < Shifted(es, es', j)
  {
    Kept(es, es', s, i);
    Kept(es, es', s, j);
    ByKey(es, i, j);
    ByKey(es', Shifted(es, es', i), Shifted(es, es', j));
  }

  /** The list grows on both sides of an entry, if at all. */
  lemma {:induction false} NotFewerBefore(es: seq<Entry>, es': seq<Entry>, s: nat, i: nat)
    requires Growth(es, es', s) && i < |es|
    ensures Shifted(es, es', i) >= i
  {
    if i > 0 {
      NotFewerBefore(es, es', s, i - 1);
      OrderKept(es, es', s, i - 1, i);
    }
  }

  lemma {:induction false} NotFewerAfter(es: seq<Entry>, es': seq<Entry>, s: nat, i: nat)
    requires Growth(es, es', s) && i < |es|
    ensures |es'| - Shifted(es, es', i) >= |es| - i
    decreases |es| - i
  {
    Kept(es, es', s, i);
    if i + 1 < |es| {
      NotFewerAfter(es, es', s, i + 1);
      OrderKept(es, es', s, i, i + 1);
    }
  }

  lemma NotShorter(es: seq<Entry>, es': seq<Entry>, s: nat)
    requires Growth(es, es', s)
    ensures |es| <= |es'|
  {
    if |es| > 0 { NotFewerAfter(es, es', s, 0); }
  }

  /** From `all` on, the list only grows by entries too new for a reader at `s`, and not without end. */
  ghost predicate WritesGoOn(all: set<Entry>, later: nat -> seq<Entry>, s: nat, bound: nat) {
    && Grown(all, Elements(later(0)), s)
    && forall t: nat ::
         && Sorted(later(t)) && UniqueSeqNos(Elements(later(t))) && |later(t)| <= bound
         && Grown(Elements(later(t)), Elements(later(t + 1)), s)
  }

  /** Moving on twice is moving on once. */
  lemma ShiftedTwice(es: seq<Entry>, es': seq<Entry>, es'': seq<Entry>, s: nat, i: nat)
    requires Growth(es, es', s) && Growth(es', es'', s) && i < |es|
    ensures 0 <= Shifted(es, es', i) < |es'| && Shifted(es', es'', Shifted(es, es', i)) == Shifted(es, es'', i)
  {
    Kept(es, es', s, i);
  }
}
