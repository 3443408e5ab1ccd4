/**
 The filter block: one filter for every 2 KB of file offset, found again by a block's offset.
 A key is never reported absent from the block it was added for.
 */
module FilterBlock {
  import opened Bloom
  import opened Coding
  import opened Sequences

  const BASE_LG: byte := 11
  const BASE: nat := 2048

  /** The filter of these keys; without keys, no bytes. */
  ghost predicate FilterOf(p: Policy, keys: seq<Bytes>, filter: Bytes) {
    if keys == [] then filter == [] else IsFilter(p, keys, filter)
  }

  /** Where filter `i` ends. */
  function EndOf(offsets: seq<nat>, i: nat, end: nat): nat
    requires i < |offsets|
  {
    if i + 1 < |offsets| then offsets[i + 1] else end
  }

  ghost predicate FilterOk(p: Policy, result: Bytes, offsets: seq<nat>, i: nat, keys: seq<Bytes>)
    requires i < |offsets|
  {
    var end := EndOf(offsets, i, |result|);
    offsets[i] <= end <= |result| && FilterOf(p, keys, result[offsets[i]..end])
  }

  class FilterBlockBuilder {
    const policy: Policy
    var keys: seq<Bytes>       // of the filter being gathered
    var result: Bytes
    var offsets: seq<nat>
    ghost var groups: seq<seq<Bytes>>   // the keys of each finished filter

    ghost predicate Valid()
      reads this
    {
      && |groups| == |offsets|
      && (forall i :: 0 <= i < |offsets| ==> offsets[i] <= |result|)
      && forall i: nat :: i < |offsets| ==> FilterOk(policy, result, offsets, i, groups[i])
    }

    constructor (policy: Policy)
      ensures Valid() && keys == [] && offsets == [] && this.policy == policy
    {
      this.policy := policy;
      keys, result, offsets, groups := [], [], [], [];
    }

    /** Finishes the filters of earlier ranges.  Afterwards new keys go to the filter of this offset. */
    method StartBlock(blockOffset: nat)
      requires Valid() && blockOffset / BASE >= |offsets|
      modifies this
      ensures Valid() && |offsets| == blockOffset / BASE
      ensures old(groups) <= groups
      ensures if |old(offsets)| < |offsets| then keys == [] && groups[|old(offsets)|] == old(keys) else keys == old(keys)
    {
      var filterIndex := blockOffset / BASE;
      while filterIndex > |offsets|
        invariant Valid() && |old(offsets)| <= |offsets| <= filterIndex && old(groups) <= groups
        invariant if |old(offsets)| < |offsets| then keys == [] && groups[|old(offsets)|] == old(keys) else keys == old(keys)
      {
        GenerateFilter();
      }
    }

    method AddKey(key: Bytes)
      modifies `keys
      ensures keys == old(keys) + [key]
    {
      keys := keys + [key];
    }

    method GenerateFilter()
      requires Valid()
      modifies this
      ensures Valid() && |offsets| == |old(offsets)| + 1 && groups == old(groups) + [old(keys)] && keys == []
    {
      ghost var result0, offsets0 := result, offsets;
      offsets := offsets + [|result|];
      if keys != [] {
        result := CreateFilter(policy, keys, result);
        assert result[..|result0|] == result0;
      }
      groups := groups + [keys];
      assert result[|result0|..|result|] == result[|result0|..];
      forall i: nat | i < |offsets| ensures FilterOk(policy, result, offsets, i, groups[i]) {
        if i < |offsets0| {
          assert FilterOk(policy, result0, offsets0, i, groups[i]);
          var end := EndOf(offsets0, i, |result0|);
          SamePrefix(result0, result, offsets0[i], end);
        }
      }
      keys := [];
    }

    /** Adds the array of offsets, where it starts, and the granularity. */
    method Finish() returns (block: Bytes)
      requires Valid()
      modifies this
      ensures if old(keys) == [] then groups == old(groups) else groups == old(groups) + [old(keys)]
      ensures |groups| == |offsets| && block == Layout(result, offsets)
      ensures forall i: nat :: i < |offsets| ==> FilterOk(policy, result, offsets, i, groups[i])
    {
      if keys != [] {
        GenerateFilter();
      }
      block := AppendArray();
    }

    method AppendArray() returns (block: Bytes)
      ensures block == Layout(result, offsets)
    {
      hide Fixed;
      var arrayOffset, starts := |result|, offsets;
      block := result;
      assert block + [] == block;
      for i := 0 to |starts|
        invariant block == result + Words(starts[..i])
      {
        PrefixSnoc(starts, i);
        Assoc(result, Words(starts[..i]), Fixed(starts[i], 4));
        block := block + Fixed(starts[i], 4);
      }
      assert starts[..|starts|] == starts;
      block := block + Fixed(arrayOffset, 4);
      block := block + [BASE_LG];
      Assoc4(result, Words(starts), Fixed(arrayOffset, 4), [BASE_LG]);
    }
  }

  lemma SamePrefix(a: Bytes, b: Bytes, lo: nat, hi: nat)
    requires |a| <= |b| && b[..|a|] == a && lo <= hi <= |a|
    ensures b[lo..hi] == a[lo..hi]
  {
    forall k | 0 <= k < hi - lo ensures b[lo..hi][k] == a[lo..hi][k] {
      assert b[..|a|][lo + k] == b[lo + k];
    }
  }

  function Words(ns: seq<nat>): (b: Bytes)
    ensures |b| == 4 * |ns|
  {
    if |ns| == 0 then [] else Words(ns[..|ns| - 1]) + Fixed(ns[|ns| - 1], 4)
  }

  function Layout(result: Bytes, offsets: seq<nat>): (b: Bytes)
    ensures |b| == |result| + 4 * |offsets| + 5
  {
    result + (Words(offsets) + Fixed(|result|, 4) + [BASE_LG])
  }

  // ------------------------------------------------------------------------
  // The reader

  datatype Reader = Reader(data: Bytes, arrayAt: nat, num: nat, baseLg: nat)

  /** A block too short, or with a bad array offset, has no filters. */
  function Open(contents: Bytes): (r: Reader)
    ensures r.num > 0 ==> r.arrayAt + 4 * r.num + 4 <= |r.data|
  {
    var n := |contents|;
    if n < 5 then Reader(contents, 0, 0, 0)
    else
      var lastWord := FixedValue(contents[n - 5..n - 1]);
      if lastWord > n - 5 then Reader(contents, 0, 0, contents[n - 1])
      else Reader(contents, lastWord, (n - 5 - lastWord) / 4, contents[n - 1])
  }

  function WordAt(data: Bytes, at: nat): nat
    requires at + 4 <= |data|
  {
    FixedValue(data[at..at + 4])
  }

  /** `n >> lg`. */
  function ShiftRight(n: nat, lg: nat): nat {
    if lg == 0 then n else ShiftRight(n / 2, lg - 1)
  }

  lemma ShiftBy3(n: nat, lg: nat)
    ensures ShiftRight(n, lg + 3) == ShiftRight(n / 8, lg)
  {
    assert ShiftRight(n, lg + 3) == ShiftRight(n / 2, lg + 2) == ShiftRight(n / 2 / 2, lg + 1) == ShiftRight(n / 2 / 2 / 2, lg);
    assert n / 2 / 2 / 2 == n / 8;
  }

  lemma ShiftByBase(n: nat)
    ensures ShiftRight(n, BASE_LG) == n / BASE
  {
    ShiftBy3(n, 8);
    ShiftBy3(n / 8, 5);
    ShiftBy3(n / 8 / 8, 2);
    var m := n / 8 / 8 / 8;
    assert ShiftRight(m, 2) == ShiftRight(m / 2, 1) == m / 2 / 2 == m / 4;
    assert m / 4 == n / 2048;
  }

  /** Whether the block at this offset may hold the key; errors count as potential matches. */
  ghost predicate BlockMayMatch(p: Policy, r: Reader, blockOffset: nat, key: Bytes)
    requires r.num > 0 ==> r.arrayAt + 4 * r.num + 4 <= |r.data|
  {
    var index := ShiftRight(blockOffset, r.baseLg);
    if index < r.num then
      var start, limit := WordAt(r.data, r.arrayAt + 4 * index), WordAt(r.data, r.arrayAt + 4 * index + 4);
      if start <= limit && limit <= r.arrayAt then MayMatch(p, key, r.data[start..limit])
      else start != limit
    else true
  }

  method FilterKeyMayMatch(p: Policy, r: Reader, blockOffset: nat, key: Bytes) returns (b: bool)
    requires r.num > 0 ==> r.arrayAt + 4 * r.num + 4 <= |r.data|
    ensures b == BlockMayMatch(p, r, blockOffset, key)
  {
    var index := ShiftRight(blockOffset, r.baseLg);
    if index < r.num {
      var start, limit := WordAt(r.data, r.arrayAt + 4 * index), WordAt(r.data, r.arrayAt + 4 * index + 4);
      if start <= limit && limit <= r.arrayAt {
        b := KeyMayMatch(p, key, r.data[start..limit]);
        return;
      } else if start == limit {
        return false;
      }
    }
    b := true;
  }

  lemma {:induction false} WordsAt(ns: seq<nat>, i: nat)
    requires i < |ns|
    ensures Words(ns)[4 * i..4 * i + 4] == Fixed(ns[i], 4)
  {
    var n := |ns| - 1;
    if i < n {
      WordsAt(ns[..n], i);
      assert Words(ns)[4 * i..4 * i + 4] == Words(ns[..n])[4 * i..4 * i + 4];
    }
  }

  lemma OpenLayout(result: Bytes, offsets: seq<nat>)
    requires |result| < TWO_32
    ensures Open(Layout(result, offsets)) == Reader(Layout(result, offsets), |result|, |offsets|, BASE_LG)
  {
    hide Words;
    hide Fixed;
    var all := Layout(result, offsets);
    var n := |all|;
    assert all == result + Words(offsets) + Fixed(|result|, 4) + [BASE_LG] by {
      Assoc4(result, Words(offsets), Fixed(|result|, 4), [BASE_LG]);
    }
    assert all[n - 5..n - 1] == Fixed(|result|, 4) && all[n - 1] == BASE_LG;
    Fixed32(|result|);
  }

  /** The array word after the last offset is the end of the filters. */
  lemma ArrayWord(result: Bytes, offsets: seq<nat>, i: nat)
    requires |result| < TWO_32 && i <= |offsets| && forall j :: 0 <= j < |offsets| ==> offsets[j] <= |result|
    ensures WordAt(Layout(result, offsets), |result| + 4 * i) == if i < |offsets| then offsets[i] else |result|
  {
    hide Words;
    hide Fixed;
    var all := Layout(result, offsets);
    if i < |offsets| {
      WordsAt(offsets, i);
      Fixed32(offsets[i]);
      assert all[|result| + 4 * i..|result| + 4 * i + 4] == Words(offsets)[4 * i..4 * i + 4];
    } else {
      Fixed32(|result|);
      assert all[|result| + 4 * i..|result| + 4 * i + 4] == Fixed(|result|, 4);
    }
  }

  /** The reader finds the filter of the range that the block's offset lies in. */
  lemma FindsFilter(p: Policy, result: Bytes, offsets: seq<nat>, groups: seq<seq<Bytes>>, blockOffset: nat, key: Bytes)
    requires |result| < TWO_32 && |groups| == |offsets|
    requires forall i: nat :: i < |offsets| ==> FilterOk(p, result, offsets, i, groups[i])
    ensures var i := blockOffset / BASE;
            if i < |offsets| then
              && offsets[i] <= EndOf(offsets, i, |result|) <= |result|
              && FilterOf(p, groups[i], result[offsets[i]..EndOf(offsets, i, |result|)])
              && (BlockMayMatch(p, Open(Layout(result, offsets)), blockOffset, key)
                  <==> MayMatch(p, key, result[offsets[i]..EndOf(offsets, i, |result|)]))
            else BlockMayMatch(p, Open(Layout(result, offsets)), blockOffset, key)
  {
    hide MayMatch;
    hide FilterOf;
    var i := blockOffset / BASE;
    OpenLayout(result, offsets);
    ShiftByBase(blockOffset);
    if i < |offsets| {
      forall j | 0 <= j < |offsets| ensures offsets[j] <= |result| {
        assert FilterOk(p, result, offsets, j, groups[j]);
      }
      assert FilterOk(p, result, offsets, i, groups[i]);
      ArrayWord(result, offsets, i);
      ArrayWord(result, offsets, i + 1);
      var all := Layout(result, offsets);
      var end := EndOf(offsets, i, |result|);
      assert all[offsets[i]..end] == result[offsets[i]..end];
    }
  }

  /** No false negatives: a key of the filter that a block's offset selects may match. */
  lemma NoFalseNegatives(p: Policy, result: Bytes, offsets: seq<nat>, groups: seq<seq<Bytes>>, blockOffset: nat, key: Bytes)
    requires |result| < TWO_32 && |groups| == |offsets|
    requires forall i: nat :: i < |offsets| ==> FilterOk(p, result, offsets, i, groups[i])
    requires blockOffset / BASE < |groups| ==> key in groups[blockOffset / BASE]
    ensures BlockMayMatch(p, Open(Layout(result, offsets)), blockOffset, key)
  {
    hide BlockMayMatch;
    hide IsFilter;
    FindsFilter(p, result, offsets, groups, blockOffset, key);
    var i := blockOffset / BASE;
    if i < |offsets| {
      var k: nat :| k < |groups[i]| && groups[i][k] == key;
      FilterAdmitsKeys(p, groups[i], result[offsets[i]..EndOf(offsets, i, |result|)], k);
    }
  }

  /** And no others than the bits allow: a key is reported absent exactly when one of its probes is no probe of the
      keys added for that range. */
  lemma AnswersExact(p: Policy, result: Bytes, offsets: seq<nat>, groups: seq<seq<Bytes>>, blockOffset: nat, key: Bytes)
    requires |result| < TWO_32 && |groups| == |offsets|
    requires forall i: nat :: i < |offsets| ==> FilterOk(p, result, offsets, i, groups[i])
    ensures var i := blockOffset / BASE;
            BlockMayMatch(p, Open(Layout(result, offsets)), blockOffset, key)
            <==> || i >= |offsets|
                 || (&& |groups[i]| > 0
                     && forall j :: 0 <= j < Probes(p) ==>
                          ProbedByAny(p, groups[i], 8 * Size(p, |groups[i]|),
                                      ProbeHash(Hash(p, key), j) % (8 * Size(p, |groups[i]|))))
  {
    hide BlockMayMatch;
    hide ProbedByAny;
    hide BitsOf;
    FindsFilter(p, result, offsets, groups, blockOffset, key);
    var i := blockOffset / BASE;
    if i < |offsets| && |groups[i]| > 0 {
      FilterExact(p, groups[i], result[offsets[i]..EndOf(offsets, i, |result|)], key);
    }
  }
}
