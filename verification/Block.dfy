/**
 The block format: keys share prefixes with their predecessor except at restart points, whose
 offsets are listed at the end.

 `BlockBuilder` is proved to produce `BlockBytes`; the iterator in `BlockIter` reads it back.
 */
module Block {
  import opened Coding
  import opened Sequences

  datatype Item = Item(key: Bytes, value: Bytes)

  // ------------------------------------------------------------------------
  // Layout

  /** How many bytes item `i` shares with its predecessor. */
  function Shared(items: seq<Item>, interval: nat, i: nat): (n: nat)
    requires interval > 0 && i < |items|
    ensures n <= |items[i].key| && (i > 0 ==> n <= |items[i - 1].key|)
  {
    if i % interval == 0 then 0 else CommonPrefix(items[i - 1].key, items[i].key)
  }

  function EncodeHeader(shared: nat, nonShared: nat, valueLength: nat): Bytes {
    Varint(shared) + (Varint(nonShared) + Varint(valueLength))
  }

  function EncodeItem(shared: nat, item: Item): (b: Bytes)
    requires shared <= |item.key|
    ensures |b| > 0
  {
    EncodeHeader(shared, |item.key| - shared, |item.value|) + (item.key[shared..] + item.value)
  }

  /** The bytes of the first `n` items. */
  function Data(items: seq<Item>, interval: nat, n: nat): Bytes
    requires interval > 0 && n <= |items|
  {
    if n == 0 then [] else Data(items, interval, n - 1) + EncodeItem(Shared(items, interval, n - 1), items[n - 1])
  }

  function Offset(items: seq<Item>, interval: nat, n: nat): nat
    requires interval > 0 && n <= |items|
  {
    |Data(items, interval, n)|
  }

  /** An empty block still has one restart point. */
  function NumRestarts(n: nat, interval: nat): (r: nat)
    requires interval > 0
    ensures r > 0
  {
    if n == 0 then 1 else (n - 1) / interval + 1
  }

  lemma RestartInRange(n: nat, interval: nat, j: nat)
    requires interval > 0 && j < NumRestarts(n, interval)
    ensures j * interval <= n && (n > 0 ==> j * interval < n)
  {
    if n > 0 {
      assert j <= (n - 1) / interval;
      MulMonotone(j, (n - 1) / interval, interval);
    }
  }

  lemma MulMonotone(a: nat, b: nat, c: nat)
    requires a <= b
    ensures a * c <= b * c
  {}

  function Restarts(items: seq<Item>, interval: nat): (r: seq<nat>)
    requires interval > 0
    ensures |r| == NumRestarts(|items|, interval)
  {
    seq(NumRestarts(|items|, interval), j requires 0 <= j < NumRestarts(|items|, interval) =>
      (RestartInRange(|items|, interval, j); Offset(items, interval, j * interval)))
  }

  function FixedArray(rs: seq<nat>): (b: Bytes)
    ensures |b| == 4 * |rs|
  {
    if |rs| == 0 then [] else FixedArray(rs[..|rs| - 1]) + Fixed(rs[|rs| - 1], 4)
  }

  function BlockBytes(items: seq<Item>, interval: nat): (b: Bytes)
    requires interval > 0
    ensures |b| == Offset(items, interval, |items|) + 4 * NumRestarts(|items|, interval) + 4
  {
    Data(items, interval, |items|) + (FixedArray(Restarts(items, interval)) + Fixed(|Restarts(items, interval)|, 4))
  }

  // ------------------------------------------------------------------------
  // Facts about the layout

  lemma {:induction false} DataSplit(items: seq<Item>, interval: nat, i: nat, n: nat) returns (rest: Bytes)
    requires interval > 0 && i <= n <= |items|
    ensures Data(items, interval, n) == Data(items, interval, i) + rest
  {
    if i == n {
      rest := [];
    } else {
      rest := DataSplit(items, interval, i, n - 1);
      var last := EncodeItem(Shared(items, interval, n - 1), items[n - 1]);
      Assoc(Data(items, interval, i), rest, last);
      rest := rest + last;
    }
  }

  lemma OffsetsAscend(items: seq<Item>, interval: nat, i: nat, n: nat)
    requires interval > 0 && i <= n <= |items|
    ensures Offset(items, interval, i) <= Offset(items, interval, n)
    ensures i < n ==> Offset(items, interval, i) < Offset(items, interval, n)
  {
    var rest := DataSplit(items, interval, i, n);
    if i < n {
      var rest' := DataSplit(items, interval, i + 1, n);
    }
  }

  lemma {:induction false} ArrayAt(rs: seq<nat>, j: nat)
    requires j < |rs|
    ensures FixedArray(rs)[4 * j..4 * j + 4] == Fixed(rs[j], 4)
  {
    var n := |rs| - 1;
    if j < n {
      ArrayAt(rs[..n], j);
      assert FixedArray(rs)[4 * j..4 * j + 4] == FixedArray(rs[..n])[4 * j..4 * j + 4];
    }
  }

  lemma {:induction false} DataPrefix(items: seq<Item>, item: Item, interval: nat, k: nat)
    requires interval > 0 && k <= |items|
    ensures Data(items + [item], interval, k) == Data(items, interval, k)
  {
    if k > 0 { DataPrefix(items, item, interval, k - 1); }
  }

  /** The remainder of `n - 1` grows by one, or starts again at a multiple. */
  lemma ModStep(n: nat, interval: nat)
    requires n > 0 && interval > 0
    ensures (n - 1) % interval + 1 == interval ==> n % interval == 0 && n / interval == (n - 1) / interval + 1
    ensures (n - 1) % interval + 1 < interval ==> n % interval == (n - 1) % interval + 1 && n / interval == (n - 1) / interval
  {
    var q, r := (n - 1) / interval, (n - 1) % interval;
    assert n == interval * q + r + 1;
    if r + 1 == interval {
      DivideExactly(n, interval, q + 1, 0);
    } else {
      DivideExactly(n, interval, q, r + 1);
    }
  }

  lemma DivideExactly(n: nat, d: nat, q: nat, r: nat)
    requires d > 0 && r < d && n == d * q + r
    ensures n / d == q && n % d == r
  {
    var q', r' := n / d, n % d;
    assert n == d * q' + r' && 0 <= r' < d;
    if q' < q {
      MulMonotone(q' + 1, q, d);
    } else if q < q' {
      MulMonotone(q + 1, q', d);
    }
  }

  /** What one more item adds to the data. */
  lemma AddData(items: seq<Item>, interval: nat, item: Item)
    requires interval > 0
    ensures var n := |items|; var all := items + [item];
            && Data(all, interval, n + 1) == Data(items, interval, n) + EncodeItem(Shared(all, interval, n), item)
            && Shared(all, interval, n) == (if n % interval == 0 then 0 else CommonPrefix(items[n - 1].key, item.key))
  {
    DataPrefix(items, item, interval, |items|);
  }

  lemma RestartKept(items: seq<Item>, interval: nat, item: Item, j: nat)
    requires interval > 0 && j < NumRestarts(|items|, interval) && j < NumRestarts(|items| + 1, interval)
    ensures Restarts(items + [item], interval)[j] == Restarts(items, interval)[j]
  {
    hide Data;
    RestartInRange(|items|, interval, j);
    RestartInRange(|items| + 1, interval, j);
    DataPrefix(items, item, interval, j * interval);
  }

  /** And to the restart points. */
  lemma AddRestart(items: seq<Item>, interval: nat, item: Item)
    requires interval > 0
    ensures Restarts(items + [item], interval)
            == Restarts(items, interval) + if |items| > 0 && |items| % interval == 0 then [Offset(items, interval, |items|)] else []
  {
    var n, all := |items|, items + [item];
    if n > 0 { ModStep(n, interval); }
    var rs, rs' := Restarts(items, interval), Restarts(all, interval);
    hide Data;
    assert |rs'| == |rs| + if n > 0 && n % interval == 0 then 1 else 0;
    forall j | 0 <= j < |rs| ensures rs'[j] == rs[j] {
      RestartKept(items, interval, item, j);
    }
    if n > 0 && n % interval == 0 {
      assert (n / interval) * interval == n;
      DataPrefix(items, item, interval, n);
    }
  }

  // ------------------------------------------------------------------------
  // The builder

  class BlockBuilder {
    const interval: nat
    var buffer: Bytes
    var restarts: seq<nat>
    var counter: nat
    var lastKey: Bytes
    var finished: bool
    ghost var items: seq<Item>

    ghost predicate Valid()
      reads this
    {
      && interval > 0
      && (!finished ==>
            && buffer == Data(items, interval, |items|)
            && restarts == Restarts(items, interval)
            && counter == (if |items| == 0 then 0 else (|items| - 1) % interval + 1)
            && lastKey == (if |items| == 0 then [] else items[|items| - 1].key))
    }

    constructor (interval: nat)
      requires interval >= 1
      ensures Valid() && !finished && items == [] && this.interval == interval
    {
      this.interval := interval;
      buffer, restarts, counter, lastKey, finished := [], [0], 0, [], false;
      items := [];
      new;
      assert Restarts([], interval) == [0];
    }

    method Add(key: Bytes, value: Bytes)
      requires Valid() && !finished
      modifies this
      ensures Valid() && !finished && items == old(items) + [Item(key, value)]
    {
      hide Data;
      hide Restarts;
      hide CommonPrefix;
      hide Varint;
      AddData(items, interval, Item(key, value));
      AddRestart(items, interval, Item(key, value));
      if |items| > 0 { ModStep(|items|, interval); }
      var shared := 0;
      if counter < interval {
        shared := SharedLength(lastKey, key);
      } else {
        restarts := restarts + [|buffer|];
        counter := 0;
      }
      assert shared == Shared(items + [Item(key, value)], interval, |items|);
      AppendItem(shared, key, value);
      lastKey := lastKey[..shared] + key[shared..];
      counter := counter + 1;
      items := items + [Item(key, value)];
    }

    method AppendItem(shared: nat, key: Bytes, value: Bytes)
      requires shared <= |key|
      modifies this`buffer
      ensures buffer == old(buffer) + EncodeItem(shared, Item(key, value))
    {
      hide Varint;
      var nonShared := |key| - shared;
      Assoc(buffer, EncodeHeader(shared, nonShared, |value|), key[shared..] + value);
      buffer := buffer + (Varint(shared) + (Varint(nonShared) + Varint(|value|)));
      buffer := buffer + (key[shared..] + value);
    }

    method SharedLength(a: Bytes, b: Bytes) returns (shared: nat)
      ensures shared == CommonPrefix(a, b)
    {
      shared := 0;
      while shared < |a| && shared < |b| && a[shared] == b[shared]
        invariant shared <= |a| && shared <= |b|
        invariant CommonPrefix(a, b) == shared + CommonPrefix(a[shared..], b[shared..])
      {
        assert a[shared..][1..] == a[shared + 1..] && b[shared..][1..] == b[shared + 1..];
        shared := shared + 1;
      }
    }

    method Finish() returns (block: Bytes)
      requires Valid() && !finished
      modifies this
      ensures block == BlockBytes(items, interval) && finished && items == old(items)
    {
      hide Fixed;
      hide Data;
      hide Restarts;
      ghost var data := buffer;
      var rs := restarts;
      for i := 0 to |rs|
        invariant buffer == data + FixedArray(rs[..i]) && items == old(items)
      {
        PrefixSnoc(rs, i);
        Assoc(data, FixedArray(rs[..i]), Fixed(rs[i], 4));
        buffer := buffer + Fixed(rs[i], 4);
      }
      assert rs[..|rs|] == rs;
      Assoc(data, FixedArray(rs), Fixed(|rs|, 4));
      buffer := buffer + Fixed(|rs|, 4);
      finished := true;
      block := buffer;
    }
  }
}
