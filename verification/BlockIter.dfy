/**
 Reading a block: entries are parsed forward from a restart point; a binary search over the
 restart points brings a seek near its target.

 For every block that `BlockBuilder` produces, the iterator is a cursor over the items put in.
 */
module BlockIter {
  import opened Block
  import opened Coding
  import opened Entries
  import opened Sequences

  datatype Header = Header(shared: nat, nonShared: nat, valueLength: nat)

  /** The three lengths at the front of an entry, and the bytes after them. */
  function TakeHeader(input: Bytes): (r: Option<Parsed<Header>>)
    ensures r.Some? ==> |r.value.rest| < |input| && r.value.value.nonShared + r.value.value.valueLength <= |r.value.rest|
  {
    if |input| < 3 then None else
    var a := TakeVarint32(input);
    if a.None? then None else
    var b := TakeVarint32(a.value.rest);
    if b.None? then None else
    var c := TakeVarint32(b.value.rest);
    if c.None? || |c.value.rest| < b.value.value + c.value.value then None
    else Some(Parsed(Header(a.value.value, b.value.value, c.value.value), c.value.rest))
  }

  lemma HeaderRoundTrip(shared: nat, nonShared: nat, valueLength: nat, more: Bytes)
    requires shared < TWO_32 && nonShared < TWO_32 && valueLength < TWO_32 && |more| >= nonShared + valueLength
    ensures TakeHeader(EncodeHeader(shared, nonShared, valueLength) + more)
            == Some(Parsed(Header(shared, nonShared, valueLength), more))
  {
    hide Varint;
    hide TakeVarint32;
    var a, b, c := Varint(shared), Varint(nonShared), Varint(valueLength);
    Assoc(a, b + c, more);
    Assoc(b, c, more);
    Varint32RoundTrip(shared, b + (c + more));
    Varint32RoundTrip(nonShared, c + more);
    Varint32RoundTrip(valueLength, more);
  }

  /** All three lengths in one byte each is the common case. */
  method DecodeEntry(input: Bytes) returns (r: Option<Parsed<Header>>)
    ensures r == TakeHeader(input)
  {
    if |input| < 3 {
      return None;
    }
    if input[0] < 128 && input[1] < 128 && input[2] < 128 {
      r := if |input| - 3 < input[1] + input[2] then None
           else Some(Parsed(Header(input[0], input[1], input[2]), input[3..]));
    } else {
      var a := TakeVarint32(input);
      if a.None? { return None; }
      var b := TakeVarint32(a.value.rest);
      if b.None? { return None; }
      var c := TakeVarint32(b.value.rest);
      if c.None? { return None; }
      r := if |c.value.rest| < b.value.value + c.value.value then None
           else Some(Parsed(Header(a.value.value, b.value.value, c.value.value), c.value.rest));
    }
  }

  // ------------------------------------------------------------------------
  // What a block holds at an entry

  /** All lengths and offsets fit their 32-bit fields. */
  predicate Fits(items: seq<Item>, interval: nat)
    requires interval > 0
  {
    && Offset(items, interval, |items|) < TWO_32 && NumRestarts(|items|, interval) < TWO_32
    && forall i :: 0 <= i < |items| ==> |items[i].key| < TWO_32 && |items[i].value| < TWO_32
  }

  /** The data from the start of item `i` on. */
  function From(items: seq<Item>, interval: nat, i: nat): Bytes
    requires interval > 0 && i <= |items|
  {
    OffsetsAscend(items, interval, i, |items|);
    Data(items, interval, |items|)[Offset(items, interval, i)..]
  }

  /** There lie the item's header, its key's own part, its value, and the later items. */
  lemma ItemAt(items: seq<Item>, interval: nat, i: nat) returns (tail: Bytes)
    requires interval > 0 && i < |items| && Fits(items, interval)
    ensures var shared := Shared(items, interval, i); var item := items[i];
            TakeHeader(From(items, interval, i))
            == Some(Parsed(Header(shared, |item.key| - shared, |item.value|), item.key[shared..] + (item.value + tail)))
    ensures Offset(items, interval, |items|) == Offset(items, interval, i + 1) + |tail|
    ensures EndsWith(From(items, interval, i), items[i].key[Shared(items, interval, i)..] + (items[i].value + tail))
  {
    hide Shared;
    hide From;
    hide TakeHeader;
    tail := FromParts(items, interval, i);
    var shared, item := Shared(items, interval, i), items[i];
    hide Data;
    hide EncodeHeader;
    var header, rest := EncodeHeader(shared, |item.key| - shared, |item.value|), item.key[shared..] + (item.value + tail);
    HeaderRoundTrip(shared, |item.key| - shared, |item.value|, rest);
    AfterPrefix(header, rest);
  }

  lemma FromParts(items: seq<Item>, interval: nat, i: nat) returns (tail: Bytes)
    requires interval > 0 && i < |items|
    ensures var shared := Shared(items, interval, i); var item := items[i];
            From(items, interval, i)
            == EncodeHeader(shared, |item.key| - shared, |item.value|) + (item.key[shared..] + (item.value + tail))
    ensures Offset(items, interval, |items|) == Offset(items, interval, i + 1) + |tail|
  {
    hide Shared;
    hide From;
    hide Data;
    hide EncodeHeader;
    tail := FromIs(items, interval, i);
    var shared, item := Shared(items, interval, i), items[i];
    Assoc(EncodeHeader(shared, |item.key| - shared, |item.value|), item.key[shared..] + item.value, tail);
    Assoc(item.key[shared..], item.value, tail);
  }

  predicate EndsWith(a: Bytes, b: Bytes) {
    |b| <= |a| && a[|a| - |b|..] == b
  }

  lemma FromIs(items: seq<Item>, interval: nat, i: nat) returns (tail: Bytes)
    requires interval > 0 && i < |items|
    ensures From(items, interval, i) == EncodeItem(Shared(items, interval, i), items[i]) + tail
    ensures Offset(items, interval, |items|) == Offset(items, interval, i + 1) + |tail|
  {
    tail := DataSplit(items, interval, i + 1, |items|);
    DataUnfold(items, interval, i);
    hide Data;
    hide EncodeItem;
    hide Shared;
    var before, item := Data(items, interval, i), EncodeItem(Shared(items, interval, i), items[i]);
    Assoc(before, item, tail);
    AfterPrefix(before, item + tail);
  }

  lemma DataUnfold(items: seq<Item>, interval: nat, i: nat)
    requires interval > 0 && i < |items|
    ensures Data(items, interval, i + 1) == Data(items, interval, i) + EncodeItem(Shared(items, interval, i), items[i])
  {}

  lemma AfterPrefix(a: Bytes, b: Bytes)
    ensures (a + b)[|a|..] == b
  {}

  lemma RestartPointAt(items: seq<Item>, interval: nat, j: nat)
    requires interval > 0 && Fits(items, interval) && j < NumRestarts(|items|, interval)
    ensures j * interval <= |items|
    ensures var n := Offset(items, interval, |items|);
            FixedValue(BlockBytes(items, interval)[n + 4 * j..n + 4 * j + 4]) == Offset(items, interval, j * interval)
  {
    hide Data;
    hide BlockBytes;
    RestartBytes(items, interval, j);
    OffsetsAscend(items, interval, j * interval, |items|);
    Fixed32(Offset(items, interval, j * interval));
  }

  lemma RestartBytes(items: seq<Item>, interval: nat, j: nat)
    requires interval > 0 && j < NumRestarts(|items|, interval)
    ensures j * interval <= |items|
    ensures var n := Offset(items, interval, |items|);
            BlockBytes(items, interval)[n + 4 * j..n + 4 * j + 4] == Fixed(Offset(items, interval, j * interval), 4)
  {
    hide Data;
    hide Fixed;
    hide FixedArray;
    RestartInRange(|items|, interval, j);
    var rs := Restarts(items, interval);
    assert rs[j] == Offset(items, interval, j * interval);
    ArrayAt(rs, j);
    InMiddle(Data(items, interval, |items|), FixedArray(rs), Fixed(|rs|, 4), 4 * j);
  }

  lemma InMiddle(a: Bytes, b: Bytes, c: Bytes, k: nat)
    requires k + 4 <= |b|
    ensures (a + (b + c))[|a| + k..|a| + k + 4] == b[k..k + 4]
  {}

  // ------------------------------------------------------------------------
  // The iterator

  /** The key comparison is a strict total order. */
  ghost predicate StrictOrder(lt: (Bytes, Bytes) -> bool) {
    && (forall a :: !lt(a, a))
    && (forall a, b, c :: lt(a, b) && lt(b, c) ==> lt(a, c))
    && (forall a, b :: a != b ==> lt(a, b) || lt(b, a))
  }

  ghost predicate SortedItems(lt: (Bytes, Bytes) -> bool, items: seq<Item>) {
    forall i, j :: 0 <= i < j < |items| ==> lt(items[i].key, items[j].key)
  }

  /** These bytes, with the restart array at `restarts`, are the block of these items. */
  ghost predicate BlockOf(data: Bytes, restarts: nat, numRestarts: nat, items: seq<Item>, interval: nat)
    requires interval > 0
  {
    && restarts <= |data| && Fits(items, interval) && data == BlockBytes(items, interval)
    && restarts == Offset(items, interval, |items|) && numRestarts == NumRestarts(|items|, interval)
  }

  /** What the next key shares with its predecessor is at hand. */
  predicate KeyReady(items: seq<Item>, interval: nat, i: nat, key: Bytes)
    requires interval > 0 && i <= |items|
  {
    i < |items| && i % interval != 0 ==> i > 0 && key == items[i - 1].key
  }

  class Iter {
    const lt: (Bytes, Bytes) -> bool
    const data: Bytes
    const restarts: nat      // offset of the restart array
    const numRestarts: nat
    var current: nat         // offset of the current entry; `restarts` or more when not valid
    var restartIndex: nat
    var key: Bytes
    var valueAt: nat
    var valueLength: nat
    var corrupt: bool

    predicate Ok() {
      numRestarts > 0 && restarts + 4 * numRestarts <= |data|
    }

    /** The block was built from these items. */
    ghost predicate Holds(items: seq<Item>, interval: nat)
      requires interval > 0
    {
      BlockOf(data, restarts, numRestarts, items, interval)
    }

    /** The iterator stands on item `i`; the number of items means "not valid". */
    ghost predicate IsAt(items: seq<Item>, interval: nat, i: nat)
      requires interval > 0
      reads this
    {
      && i <= |items| && !corrupt
      && current == Offset(items, interval, i)
      && (i < |items| ==>
            && key == items[i].key && restartIndex < numRestarts
            && valueAt + valueLength == Offset(items, interval, i + 1)
            && valueAt + valueLength <= |data| && data[valueAt..valueAt + valueLength] == items[i].value)
    }

    /** Parsing goes on with item `i`, and `key` holds what that item's key shares. */
    ghost predicate ReadyAt(items: seq<Item>, interval: nat, i: nat)
      requires interval > 0
      reads this
    {
      && i <= |items| && !corrupt && restartIndex < numRestarts
      && valueAt + valueLength == Offset(items, interval, i)
      && KeyReady(items, interval, i, key)
    }

    constructor (lt: (Bytes, Bytes) -> bool, data: Bytes, restarts: nat, numRestarts: nat)
      requires numRestarts > 0 && restarts + 4 * numRestarts <= |data|
      ensures Ok() && current == restarts && !corrupt
      ensures this.lt == lt && this.data == data && this.restarts == restarts && this.numRestarts == numRestarts
    {
      this.lt, this.data, this.restarts, this.numRestarts := lt, data, restarts, numRestarts;
      current, restartIndex, key, valueAt, valueLength, corrupt := restarts, numRestarts, [], 0, 0, false;
    }

    predicate Valid()
      reads this
    {
      current < restarts
    }

    /** The value at the current entry. */
    function Value(): Bytes
      reads this
    {
      if valueAt + valueLength <= |data| then data[valueAt..valueAt + valueLength] else []
    }

    function NextEntryOffset(): nat
      reads this
    {
      valueAt + valueLength
    }

    function GetRestartPoint(index: nat): nat
      requires Ok() && index < numRestarts
    {
      FixedValue(data[restarts + 4 * index..restarts + 4 * index + 4])
    }

    method SeekToRestartPoint(index: nat, ghost items: seq<Item>, ghost interval: nat)
      requires Ok() && index < numRestarts && interval > 0
      modifies this
      ensures key == [] && restartIndex == index && corrupt == old(corrupt) && current == old(current)
      ensures NextEntryOffset() == GetRestartPoint(index)
      ensures Holds(items, interval) && !corrupt ==>
                index * interval <= |items| && ReadyAt(items, interval, index * interval)
    {
      hide Data;
      hide BlockBytes;
      hide FixedValue;
      key := [];
      restartIndex := index;
      valueAt, valueLength := GetRestartPoint(index), 0;
      if Holds(items, interval) {
        RestartPointAt(items, interval, index);
        DivideExactly(index * interval, interval, index, 0);
      }
    }

    method CorruptionError()
      modifies this
      ensures current == restarts && corrupt
    {
      current, restartIndex, corrupt := restarts, numRestarts, true;
      key, valueAt, valueLength := [], 0, 0;
    }

    /** Moves to the entry after the current value; false at the end of the data or on a bad entry. */
    method ParseNextKey() returns (more: bool)
      requires Ok()
      modifies this
      ensures match NextEntry(data, restarts, old(NextEntryOffset()), old(key))
              case End => !more && current == restarts && NextEntryOffset() == old(NextEntryOffset()) && corrupt == old(corrupt)
              case Bad => !more && current == restarts && corrupt
              case Found(k, at, length) =>
                && more && current == old(NextEntryOffset()) && corrupt == old(corrupt)
                && key == k && valueAt == at && valueLength == length
      ensures more && old(restartIndex) < numRestarts ==> restartIndex < numRestarts
    {
      current := NextEntryOffset();
      if current >= restarts {
        current := restarts;
        restartIndex := numRestarts;
        return false;
      }
      var p := DecodeEntry(data[current..restarts]);
      if p.None? || |key| < p.value.value.shared {
        CorruptionError();
        return false;
      }
      var h := p.value.value;
      var at := restarts - |p.value.rest|;
      key := key[..h.shared] + data[at..at + h.nonShared];
      valueAt, valueLength := at + h.nonShared, h.valueLength;
      while restartIndex + 1 < numRestarts && GetRestartPoint(restartIndex + 1) < current
        invariant old(restartIndex) < numRestarts ==> restartIndex < numRestarts
        modifies `restartIndex
      {
        restartIndex := restartIndex + 1;
      }
      more := true;
    }

    /** Parsing in a well-formed block delivers the next item. */
    method ParseItem(ghost items: seq<Item>, ghost interval: nat, ghost i: nat) returns (more: bool)
      requires Ok() && interval > 0 && Holds(items, interval) && ReadyAt(items, interval, i)
      modifies this
      ensures IsAt(items, interval, i) && (more <==> i < |items|)
      ensures i < |items| ==> ReadyAt(items, interval, i + 1)
    {
      ItemParses(data, restarts, numRestarts, items, interval, i, NextEntryOffset(), key);
      hide BlockBytes;
      hide Data;
      hide NextEntry;
      hide BlockOf;
      more := ParseNextKey();
    }

    method Next(ghost items: seq<Item>, ghost interval: nat, ghost i: nat)
      requires Ok() && interval > 0 && Holds(items, interval) && IsAt(items, interval, i) && i < |items|
      modifies this
      ensures IsAt(items, interval, i + 1)
    {
      var _ := ParseItem(items, interval, i + 1);
    }

    method SeekToFirst(ghost items: seq<Item>, ghost interval: nat)
      requires Ok() && interval > 0 && Holds(items, interval) && !corrupt
      modifies this
      ensures IsAt(items, interval, 0)
    {
      SeekToRestartPoint(0, items, interval);
      var _ := ParseItem(items, interval, 0);
    }

    method SeekToLast(ghost items: seq<Item>, ghost interval: nat)
      requires Ok() && interval > 0 && Holds(items, interval) && !corrupt
      modifies this
      ensures IsAt(items, interval, if |items| == 0 then 0 else |items| - 1)
    {
      hide IsAt;
      hide ReadyAt;
      hide Holds;
      ghost var m := LastRestart(items, interval);
      SeekToRestartPoint(numRestarts - 1, items, interval);
      var more := ParseItem(items, interval, m);
      while more && NextEntryOffset() < restarts
        invariant Holds(items, interval) && m <= |items| && (|items| > 0 ==> m < |items|)
        invariant IsAt(items, interval, m) && (more <==> m < |items|)
        invariant more ==> ReadyAt(items, interval, m + 1)
        decreases |items| - m
      {
        LastOrNot(items, interval, m);
        more := ParseItem(items, interval, m + 1);
        m := m + 1;
      }
      if more { LastOrNot(items, interval, m); }
    }

    /** Scans back to a restart point before the current entry, then forward to its predecessor. */
    method Prev(ghost items: seq<Item>, ghost interval: nat, ghost i: nat)
      requires Ok() && interval > 0 && Holds(items, interval) && IsAt(items, interval, i) && i < |items|
      modifies this
      ensures if i == 0 then !Valid() else IsAt(items, interval, i - 1)
    {
      hide Data;
      hide FixedValue;
      hide ReadyAt;
      hide Holds;
      var original := current;
      while GetRestartPoint(restartIndex) >= original
        invariant restartIndex < numRestarts && !corrupt
        decreases restartIndex
      {
        if restartIndex == 0 {
          FirstRestart(items, interval, i);
          current := restarts;
          restartIndex := numRestarts;
          return;
        }
        restartIndex := restartIndex - 1;
      }
      hide IsAt;
      ghost var m := RestartBefore(items, interval, i, restartIndex);
      SeekToRestartPoint(restartIndex, items, interval);
      var more := ParseItem(items, interval, m);
      while more && NextEntryOffset() < original
        invariant Holds(items, interval) && original == Offset(items, interval, i)
        invariant more && m < i && IsAt(items, interval, m) && ReadyAt(items, interval, m + 1)
        decreases i - m
      {
        NotYet(items, interval, i, m);
        more := ParseItem(items, interval, m + 1);
        m := m + 1;
      }
      NotYet(items, interval, i, m);
    }

    lemma FirstRestart(items: seq<Item>, interval: nat, i: nat)
      requires Ok() && interval > 0 && Holds(items, interval) && i <= |items|
      requires GetRestartPoint(0) >= Offset(items, interval, i)
      ensures i == 0
    {
      hide Data;
      hide BlockBytes;
      RestartPointAt(items, interval, 0);
      OffsetsAscend(items, interval, 0, i);
    }

    lemma RestartBefore(items: seq<Item>, interval: nat, i: nat, j: nat) returns (m: nat)
      requires Ok() && interval > 0 && Holds(items, interval) && i < |items| && j < numRestarts
      requires GetRestartPoint(j) < Offset(items, interval, i)
      ensures m == j * interval && m < i
    {
      hide Data;
      hide BlockBytes;
      m := j * interval;
      RestartPointAt(items, interval, j);
      if i <= m { OffsetsAscend(items, interval, i, m); }
    }

    lemma NotYet(items: seq<Item>, interval: nat, i: nat, m: nat)
      requires interval > 0 && m < i <= |items| && ReadyAt(items, interval, m + 1)
      ensures NextEntryOffset() < Offset(items, interval, i) <==> m + 1 < i
    {
      hide Data;
      OffsetsAscend(items, interval, m + 1, i);
    }

    /** The key at a restart point, which shares nothing; none when the entry is malformed. */
    method RegionKey(index: nat) returns (r: Option<Bytes>)
      requires Ok() && index < numRestarts
      ensures r == KeyAtRestart(data, restarts, GetRestartPoint(index))
    {
      var offset := GetRestartPoint(index);
      if offset > restarts {
        return None;
      }
      var p := DecodeEntry(data[offset..restarts]);
      r := if p.None? || p.value.value.shared != 0 then None else Some(p.value.rest[..p.value.value.nonShared]);
    }

    /** The last restart point whose key is below the target, or the first one. */
    method FindRegion(target: Bytes, ghost items: seq<Item>, ghost interval: nat) returns (left: nat, ok: bool)
      requires Ok() && interval > 0
      ensures left < numRestarts
      ensures Holds(items, interval) ==> ok && Below(target, items, interval, left)
    {
      hide Holds;
      left := 0;
      var right := numRestarts - 1;
      while left < right
        invariant left <= right < numRestarts
        invariant Holds(items, interval) ==> Below(target, items, interval, left)
      {
        var mid := (left + right + 1) / 2;
        if Holds(items, interval) { RegionKeyIs(items, interval, mid); }
        var midKey := RegionKey(mid);
        if midKey.None? {
          return left, false;
        }
        if lt(midKey.value, target) {
          left := mid;
        } else {
          right := mid - 1;
        }
      }
      ok := true;
    }

    ghost predicate Below(target: Bytes, items: seq<Item>, interval: nat, j: nat) {
      j == 0 || (j * interval < |items| && lt(items[j * interval].key, target))
    }

    lemma RegionKeyIs(items: seq<Item>, interval: nat, j: nat)
      requires Ok() && interval > 0 && Holds(items, interval) && 0 < j < numRestarts
      ensures j * interval < |items|
      ensures KeyAtRestart(data, restarts, GetRestartPoint(j)) == Some(items[j * interval].key)
    {
      hide Data;
      hide BlockBytes;
      hide KeyAtRestart;
      RestartInRange(|items|, interval, j);
      RestartPointAt(items, interval, j);
      RestartKey(items, interval, j);
    }

    ghost predicate AllBelow(target: Bytes, items: seq<Item>, lo: nat, hi: nat) {
      forall k :: lo <= k < hi ==> k < |items| && lt(items[k].key, target)
    }

    lemma RegionStart(target: Bytes, items: seq<Item>, interval: nat, j: nat)
      requires StrictOrder(lt) && SortedItems(lt, items) && Below(target, items, interval, j)
      ensures AllBelow(target, items, 0, j * interval)
    {
      forall k | 0 <= k < j * interval ensures k < |items| && lt(items[k].key, target) {
        assert j > 0;
        assert lt(items[k].key, items[j * interval].key);
      }
    }

    /** Moves to the first key at or after `target`: binary search over the restart points, then a scan.
        A malformed entry on the way is reported. */
    method Seek(target: Bytes, ghost items: seq<Item>, ghost interval: nat) returns (ghost i: nat)
      requires Ok() && interval > 0
      modifies this
      ensures Holds(items, interval) && StrictOrder(lt) && SortedItems(lt, items) && !old(corrupt) ==>
                IsAt(items, interval, i) && SplitsAt(target, items, i)
    {
      i := 0;
      ghost var good := Holds(items, interval) && StrictOrder(lt) && SortedItems(lt, items) && !corrupt;
      hide Holds;
      hide StrictOrder;
      hide SortedItems;
      hide ReadyAt;
      hide IsAt;
      hide SplitsAt;
      hide AllBelow;
      hide FirstNotBelow;
      var ok, start := ToRegion(target, items, interval);
      if !ok {
        CorruptionError();
        return;
      }
      i := Scan(target, items, interval, start);
      if good { Landed(target, items, start, i); }
    }

    /** Moves to the region in which the target lies. */
    method ToRegion(target: Bytes, ghost items: seq<Item>, ghost interval: nat) returns (ok: bool, ghost start: nat)
      requires Ok() && interval > 0
      modifies this
      ensures Holds(items, interval) && StrictOrder(lt) && SortedItems(lt, items) && !old(corrupt) ==>
                ok && ReadyAt(items, interval, start) && AllBelow(target, items, 0, start)
    {
      hide Holds;
      hide StrictOrder;
      hide SortedItems;
      hide ReadyAt;
      hide AllBelow;
      hide Below;
      var left;
      left, ok := FindRegion(target, items, interval);
      start := left * interval;
      if ok {
        if Holds(items, interval) && StrictOrder(lt) && SortedItems(lt, items) { RegionStart(target, items, interval, left); }
        SeekToRestartPoint(left, items, interval);
      }
    }

    lemma Landed(target: Bytes, items: seq<Item>, start: nat, i: nat)
      requires StrictOrder(lt) && SortedItems(lt, items) && start <= i
      requires AllBelow(target, items, 0, start) && FirstNotBelow(target, items, start, i)
      ensures SplitsAt(target, items, i)
    {
    }

    /** The linear search within a region. */
    method Scan(target: Bytes, ghost items: seq<Item>, ghost interval: nat, ghost start: nat) returns (ghost i: nat)
      requires Ok() && interval > 0
      modifies this
      ensures Holds(items, interval) && old(ReadyAt(items, interval, start)) ==>
                start <= i && IsAt(items, interval, i) && FirstNotBelow(target, items, start, i)
    {
      i := start;
      ghost var good := Holds(items, interval) && ReadyAt(items, interval, start);
      NoneYet(target, items, start);
      hide ReadyAt;
      hide IsAt;
      hide AllBelow;
      hide FirstNotBelow;
      hide BlockOf;
      var done := false;
      while !done
        invariant good ==> start <= i
        invariant good && !done ==> ReadyAt(items, interval, i) && AllBelow(target, items, start, i)
        invariant good && done ==> IsAt(items, interval, i) && FirstNotBelow(target, items, start, i)
        decreases !done, |data| - NextEntryOffset()
      {
        done := ScanOne(target, items, interval, start, i);
        if !done { i := i + 1; }
      }
    }

    /** One turn of the linear search: true when it ends on item `i`, false when item `i` is below the target. */
    method ScanOne(target: Bytes, ghost items: seq<Item>, ghost interval: nat, ghost start: nat, ghost i: nat) returns (done: bool)
      requires Ok() && interval > 0
      modifies this
      ensures !done ==> old(NextEntryOffset()) < NextEntryOffset() <= |data|
      ensures Holds(items, interval) && old(ReadyAt(items, interval, i)) && start <= i && AllBelow(target, items, start, i) ==>
                if done then IsAt(items, interval, i) && FirstNotBelow(target, items, start, i)
                else ReadyAt(items, interval, i + 1) && AllBelow(target, items, start, i + 1)
    {
      ghost var good := Holds(items, interval) && ReadyAt(items, interval, i) && start <= i && AllBelow(target, items, start, i);
      hide ReadyAt;
      hide IsAt;
      hide AllBelow;
      hide FirstNotBelow;
      hide BlockOf;
      var more := ParseMaybe(items, interval, i);
      done := !more || !lt(key, target);
      if good {
        if done {
          Stops(target, items, start, i);
        } else {
          OneMoreBelow(target, items, start, i);
        }
      }
    }

    /** The keys below the target are exactly those before `i`. */
    ghost predicate SplitsAt(target: Bytes, items: seq<Item>, i: nat) {
      && i <= |items|
      && (forall k :: 0 <= k < i ==> lt(items[k].key, target))
      && (forall k :: i <= k < |items| ==> !lt(items[k].key, target))
    }

    /** Every key from `start` on is below the target up to `i`, and the key at `i` is not. */
    ghost predicate FirstNotBelow(target: Bytes, items: seq<Item>, start: nat, i: nat) {
      i <= |items| && AllBelow(target, items, start, i) && (i < |items| ==> !lt(items[i].key, target))
    }

    lemma NoneYet(target: Bytes, items: seq<Item>, start: nat)
      ensures AllBelow(target, items, start, start)
    {}

    lemma OneMoreBelow(target: Bytes, items: seq<Item>, start: nat, i: nat)
      requires AllBelow(target, items, start, i) && i < |items| && lt(items[i].key, target)
      ensures AllBelow(target, items, start, i + 1)
    {}

    lemma Stops(target: Bytes, items: seq<Item>, start: nat, i: nat)
      requires AllBelow(target, items, start, i) && i <= |items| && (i < |items| ==> !lt(items[i].key, target))
      ensures FirstNotBelow(target, items, start, i)
    {}

    /** Parses the next entry of any block; in a well-formed one that is the next item. */
    method ParseMaybe(ghost items: seq<Item>, ghost interval: nat, ghost i: nat) returns (more: bool)
      requires Ok() && interval > 0
      modifies this
      ensures more ==> old(NextEntryOffset()) < NextEntryOffset() <= |data|
      ensures Holds(items, interval) && old(ReadyAt(items, interval, i)) ==>
                && i <= |items| && IsAt(items, interval, i) && (more <==> i < |items|)
                && (i < |items| ==> key == items[i].key && ReadyAt(items, interval, i + 1))
    {
      assert Holds(items, interval) ==> restarts == Offset(items, interval, |items|);
      hide BlockBytes;
      hide Data;
      hide BlockOf;
      hide NextEntry;
      ghost var ready := Holds(items, interval) && ReadyAt(items, interval, i);
      if ready {
        ItemParses(data, restarts, numRestarts, items, interval, i, NextEntryOffset(), key);
      }
      EntryAdvances(data, restarts, NextEntryOffset(), key);
      more := ParseNextKey();
    }

    lemma LastRestart(items: seq<Item>, interval: nat) returns (m: nat)
      requires Ok() && interval > 0 && Holds(items, interval)
      ensures m == (numRestarts - 1) * interval && m <= |items| && (|items| > 0 ==> m < |items|)
    {
      m := (numRestarts - 1) * interval;
      RestartInRange(|items|, interval, numRestarts - 1);
    }

    lemma LastOrNot(items: seq<Item>, interval: nat, m: nat)
      requires interval > 0 && Holds(items, interval) && m < |items| && ReadyAt(items, interval, m + 1)
      ensures NextEntryOffset() < restarts <==> m + 1 < |items|
    {
      hide Data;
      OffsetsAscend(items, interval, m + 1, |items|);
    }
  }

  function KeyAtRestart(data: Bytes, restarts: nat, offset: nat): Option<Bytes>
    requires restarts <= |data|
  {
    if offset > restarts then None
    else
      match TakeHeader(data[offset..restarts])
      case None => None
      case Some(p) => if p.value.shared != 0 then None else Some(p.rest[..p.value.nonShared])
  }

  /** The entry at a restart point holds its whole key. */
  lemma RestartKey(items: seq<Item>, interval: nat, j: nat)
    requires interval > 0 && Fits(items, interval) && j * interval < |items|
    ensures Offset(items, interval, j * interval) <= Offset(items, interval, |items|)
    ensures KeyAtRestart(BlockBytes(items, interval), Offset(items, interval, |items|), Offset(items, interval, j * interval))
            == Some(items[j * interval].key)
  {
    var i := j * interval;
    DivideExactly(i, interval, j, 0);
    var tail := ItemAt(items, interval, i);
    OffsetsAscend(items, interval, i, |items|);
    FromIsData(items, interval, i);
    CommonBytes(items, interval, i);
    hide Data;
    hide BlockBytes;
    hide Shared;
    hide From;
    hide TakeHeader;
    assert items[i].key[0..] == items[i].key;
    assert (items[i].key + (items[i].value + tail))[..|items[i].key|] == items[i].key;
  }

  lemma EntryAdvances(data: Bytes, restarts: nat, offset: nat, key: Bytes)
    requires restarts <= |data|
    ensures var e := NextEntry(data, restarts, offset, key); e.Found? ==> offset < e.valueAt + e.valueLength <= |data|
  {}

  datatype Step = End | Bad | Found(key: Bytes, valueAt: nat, valueLength: nat)

  function NextEntry(data: Bytes, restarts: nat, offset: nat, key: Bytes): Step
    requires restarts <= |data|
  {
    if offset >= restarts then End
    else
      match TakeHeader(data[offset..restarts])
      case None => Bad
      case Some(p) =>
        var h, at := p.value, restarts - |p.rest|;
        if |key| < h.shared then Bad
        else Found(key[..h.shared] + data[at..at + h.nonShared], at + h.nonShared, h.valueLength)
  }

  /** The entry at the start of item `i`, given the bytes its key shares, is item `i`. */
  lemma ItemParses(data: Bytes, restarts: nat, numRestarts: nat, items: seq<Item>, interval: nat, i: nat, offset: nat, key: Bytes)
    requires interval > 0 && BlockOf(data, restarts, numRestarts, items, interval)
    requires i <= |items| && offset == Offset(items, interval, i)
    requires KeyReady(items, interval, i, key)
    ensures i == |items| ==> NextEntry(data, restarts, offset, key) == End
    ensures i < |items| ==> Delivers(NextEntry(data, restarts, offset, key), data, Offset(items, interval, i + 1), items[i])
  {
    hide Data;
    hide BlockBytes;
    hide Shared;
    hide From;
    if i < |items| {
      var tail := ItemAt(items, interval, i);
      OffsetsAscend(items, interval, i, |items|);
      FromIsData(items, interval, i);
      CommonBytes(items, interval, i);
      Assembles(data, restarts, offset, key, items[i], Shared(items, interval, i), tail);
    }
  }

  /** The parsed entry is the item, and its value ends at `end`. */
  predicate Delivers(step: Step, data: Bytes, end: nat, item: Item) {
    && step.Found? && step.key == item.key && step.valueLength == |item.value|
    && step.valueAt + step.valueLength == end && end <= |data| && data[step.valueAt..end] == item.value
  }

  /** An entry is put together from the shared part of the last key and its own bytes. */
  lemma Assembles(data: Bytes, restarts: nat, offset: nat, key: Bytes, item: Item, shared: nat, tail: Bytes)
    requires offset < restarts <= |data| && shared <= |item.key|
    requires shared > 0 ==> shared <= |key| && key[..shared] == item.key[..shared]
    requires var rest := item.key[shared..] + (item.value + tail);
             && TakeHeader(data[offset..restarts]) == Some(Parsed(Header(shared, |item.key| - shared, |item.value|), rest))
             && EndsWith(data[offset..restarts], rest)
    ensures |tail| <= restarts && Delivers(NextEntry(data, restarts, offset, key), data, restarts - |tail|, item)
  {
    hide TakeHeader;
    SliceOfEnd(data, offset, restarts, item.key[shared..], item.value, tail);
    assert item.key[..shared] + item.key[shared..] == item.key;
    assert key[..shared] == item.key[..shared];
  }

  lemma CommonBytes(items: seq<Item>, interval: nat, i: nat)
    requires interval > 0 && i < |items|
    ensures var shared := Shared(items, interval, i);
            i % interval != 0 ==> i > 0 && shared <= |items[i - 1].key| && items[i - 1].key[..shared] == items[i].key[..shared]
    ensures i % interval == 0 ==> Shared(items, interval, i) == 0
  {}

  lemma FromIsData(items: seq<Item>, interval: nat, i: nat)
    requires interval > 0 && i <= |items|
    ensures Offset(items, interval, i) <= Offset(items, interval, |items|)
    ensures BlockBytes(items, interval)[Offset(items, interval, i)..Offset(items, interval, |items|)] == From(items, interval, i)
  {
    OffsetsAscend(items, interval, i, |items|);
    var d := Data(items, interval, |items|);
    var rest := FixedArray(Restarts(items, interval)) + Fixed(|Restarts(items, interval)|, 4);
    assert BlockBytes(items, interval) == d + rest;
  }

  lemma PartsOf(a: Bytes, b: Bytes, c: Bytes)
    ensures var all := a + (b + c); all[0..|a|] == a && all[|a|..|a| + |b|] == b
  {}

  lemma SliceOfSlice(data: Bytes, lo: nat, hi: nat, i: nat, j: nat)
    requires lo <= hi <= |data| && i <= j <= hi - lo
    ensures data[lo..hi][i..j] == data[lo + i..lo + j]
  {
    forall k | 0 <= k < j - i ensures data[lo..hi][i..j][k] == data[lo + i..lo + j][k] {
      assert data[lo..hi][i + k] == data[lo + i + k];
    }
  }

  /** Three pieces at the end of a range of the data, by position. */
  lemma SliceOfEnd(data: Bytes, lo: nat, hi: nat, a: Bytes, b: Bytes, c: Bytes)
    requires lo <= hi <= |data| && EndsWith(data[lo..hi], a + (b + c))
    ensures var at := hi - |a + (b + c)|;
            && 0 <= at && at + |a| + |b| == hi - |c|
            && data[at..at + |a|] == a && data[at + |a|..at + |a| + |b|] == b
  {
    var all := a + (b + c);
    var at := hi - |all|;
    assert data[lo..hi][|data[lo..hi]| - |all|..] == data[at..hi];
    PartsOf(a, b, c);
    SliceOfSlice(data, at, hi, 0, |a|);
    SliceOfSlice(data, at, hi, |a|, |a| + |b|);
  }

  // ------------------------------------------------------------------------
  // Opening a block

  datatype Opened = BadBlock | EmptyBlock | Cursor(restarts: nat, numRestarts: nat)

  /** What the last word and the size say about a block. */
  function Open(data: Bytes): (r: Opened)
    ensures r.Cursor? ==> r.numRestarts > 0 && r.restarts + 4 * r.numRestarts <= |data|
  {
    if |data| < 4 then BadBlock
    else
      var num := FixedValue(data[|data| - 4..]);
      if num > (|data| - 4) / 4 then BadBlock
      else if num == 0 then EmptyBlock
      else Cursor(|data| - (1 + num) * 4, num)
  }

  lemma OpenFinished(items: seq<Item>, interval: nat)
    requires interval > 0 && Fits(items, interval)
    ensures Open(BlockBytes(items, interval)) == Cursor(Offset(items, interval, |items|), NumRestarts(|items|, interval))
  {
    var rs := Restarts(items, interval);
    var data := Data(items, interval, |items|);
    Assoc(data, FixedArray(rs), Fixed(|rs|, 4));
    AfterPrefix(data + FixedArray(rs), Fixed(|rs|, 4));
    hide Data;
    hide Fixed;
    hide FixedArray;
    hide Restarts;
    Fixed32(|rs|);
  }

  /** Iterating over a finished block gives back the items put in. */
  method ReadBlock(lt: (Bytes, Bytes) -> bool, data: Bytes, ghost items: seq<Item>, ghost interval: nat) returns (read: seq<Item>)
    requires interval > 0
    ensures Fits(items, interval) && data == BlockBytes(items, interval) ==> read == items
  {
    read := [];
    ghost var good := Fits(items, interval) && data == BlockBytes(items, interval);
    if good { OpenFinished(items, interval); }
    hide Data;
    hide BlockBytes;
    hide Fits;
    hide NumRestarts;
    var shape := Open(data);
    if shape.Cursor? {
      var iter := new Iter(lt, data, shape.restarts, shape.numRestarts);
      read := ReadFrom(iter, items, interval);
    }
  }

  method ReadFrom(iter: Iter, ghost items: seq<Item>, ghost interval: nat) returns (read: seq<Item>)
    requires iter.Ok() && interval > 0 && !iter.corrupt
    modifies iter
    ensures iter.Holds(items, interval) ==> read == items
  {
    read := [];
    hide BlockOf;
    var ok := true;
    iter.SeekToRestartPoint(0, items, interval);
    ghost var i: nat := 0;
    ghost var good := iter.Holds(items, interval);
    while ok
      invariant iter.Ok()
      invariant good ==> i <= |items| && read == items[..i]
      invariant good ==> if ok then iter.ReadyAt(items, interval, i) else i == |items|
      decreases ok, |iter.data| - iter.NextEntryOffset()
    {
      ok := iter.ParseMaybe(items, interval, i);
      if ok {
        var value := iter.Value();
        if good { PrefixSnoc(items, i); }
        read := read + [Item(iter.key, value)];
        i := i + 1;
      }
    }
    assert good ==> items[..|items|] == items;
  }
}
