/**
 The MANIFEST: every change of the file lists is applied in memory through the builder and
 appended as a record; opening the database replays the records.

 `Describes` says that a list of records replays to the current lists and numbers; it is
 established by the snapshot record and kept by every successful `LogAndApply`.
 */
module Manifest {
  import opened Coding
  import opened Entries
  import opened Sequences
  import opened VersionSet
  import opened LevelEdits
  import opened VersionEdits
  import opened VersionBuilder

  // ------------------------------------------------------------------------
  // An edit, level by level

  function DeletedIn(deleted: seq<(nat, nat)>, level: nat): set<nat> {
    set i | 0 <= i < |deleted| && deleted[i].0 == level :: deleted[i].1
  }

  function NewIn(files: seq<(nat, File)>, level: nat): seq<File> {
    if |files| == 0 then []
    else NewIn(files[..|files| - 1], level) + if files[|files| - 1].0 == level then [files[|files| - 1].1] else []
  }

  /** The file lists after an edit, one change at a time. */
  function ApplyEdit(levels: seq<seq<File>>, e: Edit): (r: seq<seq<File>>)
    requires |levels| == NUM_LEVELS
    ensures |r| == NUM_LEVELS
  {
    seq(NUM_LEVELS, l requires 0 <= l < NUM_LEVELS =>
      AddFiles(DropFiles(levels[l], DeletedIn(e.deleted, l)), NewIn(e.newFiles, l)))
  }

  /** What the builder has gathered. */
  datatype Batch = Batch(deleted: seq<set<nat>>, added: seq<seq<File>>)

  predicate BatchShape(b: Batch) {
    |b.deleted| == NUM_LEVELS && |b.added| == NUM_LEVELS
  }

  const NO_LEVELS: seq<seq<File>> := [[], [], [], [], [], [], []]
  const NO_CHANGES := Batch([{}, {}, {}, {}, {}, {}, {}], [[], [], [], [], [], [], []])

  function Gather(b: Batch, e: Edit): (r: Batch)
    requires BatchShape(b)
    ensures BatchShape(r)
  {
    Batch(
      seq(NUM_LEVELS, l requires 0 <= l < NUM_LEVELS =>
        DeletedAfter(b.deleted[l], DeletedIn(e.deleted, l), NewIn(e.newFiles, l))),
      seq(NUM_LEVELS, l requires 0 <= l < NUM_LEVELS => SetInsertAll(b.added[l], NewIn(e.newFiles, l))))
  }

  function SaveAll(base: seq<seq<File>>, b: Batch): (r: seq<seq<File>>)
    requires |base| == NUM_LEVELS && BatchShape(b)
    ensures |r| == NUM_LEVELS
  {
    seq(NUM_LEVELS, l requires 0 <= l < NUM_LEVELS => Save(base[l], b.deleted[l], b.added[l]))
  }

  predicate AllSorted(levels: seq<seq<File>>) {
    forall l :: 0 <= l < |levels| ==> SortedFiles(levels[l])
  }

  class Builder {
    const base: seq<seq<File>>
    var deleted: seq<set<nat>>
    var added: seq<seq<File>>
    var compactPointer: seq<Bytes>

    ghost predicate Valid()
      reads this
    {
      && |base| == NUM_LEVELS && AllSorted(base) && |compactPointer| == NUM_LEVELS
      && BatchShape(Gathered())
    }

    ghost function Gathered(): Batch
      reads this
    {
      Batch(deleted, added)
    }

    constructor (base: seq<seq<File>>, compactPointer: seq<Bytes>)
      requires |base| == NUM_LEVELS && AllSorted(base) && |compactPointer| == NUM_LEVELS
      ensures Valid() && Gathered() == NO_CHANGES && this.base == base && this.compactPointer == compactPointer
    {
      this.base, this.compactPointer := base, compactPointer;
      deleted, added := [{}, {}, {}, {}, {}, {}, {}], [[], [], [], [], [], [], []];
    }

    method Apply(e: Edit)
      requires Valid() && forall i :: 0 <= i < |e.compactPointers| ==> e.compactPointers[i].0 < NUM_LEVELS
      requires forall i :: 0 <= i < |e.deleted| ==> e.deleted[i].0 < NUM_LEVELS
      requires forall i :: 0 <= i < |e.newFiles| ==> e.newFiles[i].0 < NUM_LEVELS
      modifies this
      ensures Valid() && Gathered() == Gather(old(Gathered()), e)
      ensures forall l :: 0 <= l < NUM_LEVELS ==>
                compactPointer[l] == LastPointer(e.compactPointers, l, old(compactPointer[l]))
    {
      UpdatePointers(e.compactPointers);
      DeleteFiles(e.deleted);
      AddNewFiles(e.newFiles);
    }

    method UpdatePointers(pointers: seq<(nat, Bytes)>)
      requires Valid() && forall i :: 0 <= i < |pointers| ==> pointers[i].0 < NUM_LEVELS
      modifies this`compactPointer
      ensures Valid()
      ensures forall l :: 0 <= l < NUM_LEVELS ==>
                compactPointer[l] == LastPointer(pointers, l, old(compactPointer[l]))
    {
      for i := 0 to |pointers|
        invariant Valid()
        invariant forall l :: 0 <= l < NUM_LEVELS ==>
                    compactPointer[l] == LastPointer(pointers[..i], l, old(compactPointer[l]))
      {
        PrefixSnoc(pointers, i);
        compactPointer := compactPointer[pointers[i].0 := pointers[i].1];
      }
      assert pointers[..|pointers|] == pointers;
    }

    method DeleteFiles(pairs: seq<(nat, nat)>)
      requires Valid() && forall i :: 0 <= i < |pairs| ==> pairs[i].0 < NUM_LEVELS
      modifies this`deleted
      ensures Valid()
      ensures forall l :: 0 <= l < NUM_LEVELS ==> deleted[l] == old(deleted[l]) + DeletedIn(pairs, l)
    {
      for i := 0 to |pairs|
        invariant Valid()
        invariant forall l :: 0 <= l < NUM_LEVELS ==> deleted[l] == old(deleted[l]) + DeletedIn(pairs[..i], l)
      {
        var level, number := pairs[i].0, pairs[i].1;
        deleted := deleted[level := deleted[level] + {number}];
      }
      assert pairs[..|pairs|] == pairs;
    }

    method AddNewFiles(files: seq<(nat, File)>)
      requires Valid() && forall i :: 0 <= i < |files| ==> files[i].0 < NUM_LEVELS
      modifies this`deleted, this`added
      ensures Valid()
      ensures forall l :: 0 <= l < NUM_LEVELS ==>
                deleted[l] == old(deleted[l]) - Numbers(NewIn(files, l)) && added[l] == SetInsertAll(old(added[l]), NewIn(files, l))
    {
      hide SetInsert;
      hide SetInsertAll;
      hide NewIn;
      hide Numbers;
      NothingNew(added);
      assert files[..0] == [];
      for i := 0 to |files|
        invariant Valid()
        invariant forall l :: 0 <= l < NUM_LEVELS ==>
                    && deleted[l] == old(deleted[l]) - Numbers(NewIn(files[..i], l))
                    && added[l] == SetInsertAll(old(added[l]), NewIn(files[..i], l))
      {
        var level, f := files[i].0, files[i].1;
        NewSnoc(files, i, old(added));
        deleted := deleted[level := deleted[level] - {f.number}];
        added := added[level := SetInsert(added[level], f)];
      }
      assert files[..|files|] == files;
    }

    /** The new file lists: one merge per level. */
    method SaveTo() returns (v: seq<seq<File>>)
      requires Valid()
      ensures v == SaveAll(base, Gathered())
    {
      v := [];
      for level := 0 to NUM_LEVELS
        invariant |v| == level
        invariant forall l :: 0 <= l < level ==> v[l] == Save(base[l], deleted[l], added[l])
      {
        var files := SaveLevel(level);
        v := v + [files];
      }
    }

    method SaveLevel(level: nat) returns (files: seq<File>)
      requires Valid() && level < NUM_LEVELS
      ensures files == Save(base[level], deleted[level], added[level])
    {
      hide MergeFiles;
      hide DropFiles;
      hide Save;
      files := [];
      var b, a := 0, 0;
      var bs, as' := base[level], added[level];
      NothingSaved(deleted[level]);
      assert bs[0..] == bs && as'[0..] == as' && bs[|bs|..] == [] && as'[|as'|..] == [];
      while a < |as'|
        invariant a <= |as'| && b <= |bs|
        invariant files + Save(bs[b..], deleted[level], as'[a..]) == Save(bs, deleted[level], as')
      {
        var bpos := UpperBound(bs, b, as'[a]);
        while b < bpos
          invariant b <= bpos <= |bs|
          invariant forall i :: b <= i < bpos ==> !BySmallest(as'[a], bs[i])
          invariant files + Save(bs[b..], deleted[level], as'[a..]) == Save(bs, deleted[level], as')
        {
          TakeBase(files, bs, b, as', a, deleted[level]);
          files := MaybeAddFile(files, level, bs[b]);
          b := b + 1;
        }
        TakeAdded(files, bs, b, as', a, deleted[level]);
        files := MaybeAddFile(files, level, as'[a]);
        a := a + 1;
      }
      while b < |bs|
        invariant b <= |bs|
        invariant files + Save(bs[b..], deleted[level], []) == Save(bs, deleted[level], as')
      {
        TakeBase(files, bs, b, [], 0, deleted[level]);
        files := MaybeAddFile(files, level, bs[b]);
        b := b + 1;
      }
    }

    method MaybeAddFile(files: seq<File>, level: nat, f: File) returns (files': seq<File>)
      requires Valid() && level < NUM_LEVELS
      ensures files' == files + Kept(deleted[level], f)
    {
      files' := files;
      if f.number !in deleted[level] {
        files' := files + [f];
      }
      assert files + [] == files;
    }
  }

  function LastPointer(pointers: seq<(nat, Bytes)>, level: nat, before: Bytes): Bytes {
    if |pointers| == 0 then before
    else if pointers[|pointers| - 1].0 == level then pointers[|pointers| - 1].1
    else LastPointer(pointers[..|pointers| - 1], level, before)
  }

  function Kept(deleted: set<nat>, f: File): seq<File> {
    if f.number in deleted then [] else [f]
  }

  lemma NewSnoc(files: seq<(nat, File)>, i: nat, added: seq<seq<File>>)
    requires i < |files| && |added| == NUM_LEVELS
    ensures forall l :: 0 <= l < NUM_LEVELS && l != files[i].0 ==> NewIn(files[..i + 1], l) == NewIn(files[..i], l)
    ensures var l := files[i].0; var f := files[i].1;
            l < NUM_LEVELS ==>
              && Numbers(NewIn(files[..i + 1], l)) == Numbers(NewIn(files[..i], l)) + {f.number}
              && SetInsertAll(added[l], NewIn(files[..i + 1], l)) == SetInsert(SetInsertAll(added[l], NewIn(files[..i], l)), f)
  {
    PrefixSnoc(files, i);
    var l, f := files[i].0, files[i].1;
    var before := NewIn(files[..i], l);
    assert NewIn(files[..i + 1], l) == before + [f];
    assert (before + [f])[..|before|] == before;
  }

  lemma NothingNew(added: seq<seq<File>>)
    ensures forall l :: NewIn([], l) == [] && Numbers(NewIn([], l)) == {}
    ensures forall l :: 0 <= l < |added| ==> SetInsertAll(added[l], NewIn([], l)) == added[l]
  {}

  /** std::upper_bound: the first file from `lo` on that `f` comes before. */
  method UpperBound(files: seq<File>, lo: nat, f: File) returns (hi: nat)
    requires lo <= |files|
    ensures lo <= hi <= |files| && forall i :: lo <= i < hi ==> !BySmallest(f, files[i])
    ensures hi < |files| ==> BySmallest(f, files[hi])
  {
    hi := lo;
    while hi < |files| && !BySmallest(f, files[hi])
      invariant lo <= hi <= |files|
      invariant forall i :: lo <= i < hi ==> !BySmallest(f, files[i])
    {
      hi := hi + 1;
    }
  }

  lemma NothingSaved(deleted: set<nat>)
    ensures Save([], deleted, []) == []
  {}

  lemma TakeBase(files: seq<File>, bs: seq<File>, b: nat, as': seq<File>, a: nat, deleted: set<nat>)
    requires b < |bs| && a <= |as'| && (a < |as'| ==> !BySmallest(as'[a], bs[b]))
    ensures files + Save(bs[b..], deleted, as'[a..]) == (files + Kept(deleted, bs[b])) + Save(bs[b + 1..], deleted, as'[a..])
  {
    assert bs[b..][1..] == bs[b + 1..] && bs[b..] == [bs[b]] + bs[b + 1..];
    var rest := MergeFiles(bs[b + 1..], as'[a..]);
    assert MergeFiles(bs[b..], as'[a..]) == [bs[b]] + rest;
    Assoc(files, Kept(deleted, bs[b]), DropFiles(rest, deleted));
  }

  lemma TakeAdded(files: seq<File>, bs: seq<File>, b: nat, as': seq<File>, a: nat, deleted: set<nat>)
    requires b <= |bs| && a < |as'| && (b < |bs| ==> BySmallest(as'[a], bs[b]))
    ensures files + Save(bs[b..], deleted, as'[a..]) == (files + Kept(deleted, as'[a])) + Save(bs[b..], deleted, as'[a + 1..])
  {
    assert as'[a..][1..] == as'[a + 1..] && as'[a..] == [as'[a]] + as'[a + 1..];
    var rest := MergeFiles(bs[b..], as'[a + 1..]);
    assert MergeFiles(bs[b..], as'[a..]) == [as'[a]] + rest;
    Assoc(files, Kept(deleted, as'[a]), DropFiles(rest, deleted));
  }

  // ------------------------------------------------------------------------
  // Replaying records

  datatype Found = Found(batch: Batch, logNumber: Option<nat>, prevLogNumber: Option<nat>,
                         nextFile: Option<nat>, lastSequence: Option<nat>, ok: bool)

  const NOTHING_FOUND := Found(NO_CHANGES, None, None, None, None, true)

  function Latest(newer: Option<nat>, older: Option<nat>): Option<nat> {
    if newer.Some? then newer else older
  }

  function ReplayEdit(f: Found, e: Edit): Found
    requires BatchShape(f.batch)
  {
    Found(Gather(f.batch, e), Latest(e.logNumber, f.logNumber), Latest(e.prevLogNumber, f.prevLogNumber),
          Latest(e.nextFile, f.nextFile), Latest(e.lastSequence, f.lastSequence), f.ok)
  }

  /** A record that does not decode, or names another comparator, ends the replay with an error. */
  function ReplayRecord(c: Catalog, name: Bytes, f: Found, record: Bytes): (r: Found)
    requires BatchShape(f.batch)
    ensures BatchShape(r.batch)
  {
    if !f.ok then f
    else
      var d := DecodeFields(c, EMPTY, record);
      if !d.ok || (d.edit.comparator.Some? && d.edit.comparator.value != name) then f.(ok := false)
      else ReplayEdit(f, d.edit)
  }

  function ReplayAll(c: Catalog, name: Bytes, records: seq<Bytes>): (r: Found)
    ensures BatchShape(r.batch)
  {
    if |records| == 0 then NOTHING_FOUND
    else ReplayRecord(c, name, ReplayAll(c, name, records[..|records| - 1]), records[|records| - 1])
  }

  predicate Complete(f: Found) {
    f.ok && f.nextFile.Some? && f.logNumber.Some? && f.lastSequence.Some?
  }

  predicate LevelsInRange(e: Edit) {
    && (forall i :: 0 <= i < |e.compactPointers| ==> e.compactPointers[i].0 < NUM_LEVELS)
    && (forall i :: 0 <= i < |e.deleted| ==> e.deleted[i].0 < NUM_LEVELS)
    && (forall i :: 0 <= i < |e.newFiles| ==> e.newFiles[i].0 < NUM_LEVELS)
  }

  lemma {:induction false} InsertPairRange(s: seq<(nat, nat)>, p: (nat, nat))
    requires p.0 < NUM_LEVELS && forall i :: 0 <= i < |s| ==> s[i].0 < NUM_LEVELS
    ensures forall i :: 0 <= i < |InsertPair(s, p)| ==> InsertPair(s, p)[i].0 < NUM_LEVELS
  {
    if |s| > 0 && !PairLess(s[|s| - 1], p) && s[|s| - 1] != p { InsertPairRange(s[..|s| - 1], p); }
  }

  lemma AbsorbRange(c: Catalog, e: Edit, tag: nat, input: Bytes)
    requires LevelsInRange(e) && TakePayload(tag, input).Some?
    ensures LevelsInRange(Absorb(c, e, TakePayload(tag, input).value.value))
  {
    hide TakeLevel;
    hide TakeMeta;
    hide TakePrefixed;
    hide TakeVarint64;
    hide InsertPair;
    var f := TakePayload(tag, input).value.value;
    if f.DeletedFile? {
      InsertPairRange(e.deleted, (f.level, f.number));
    }
  }

  /** The decoder lets no level out of range through. */
  lemma {:induction false} DecodedLevels(c: Catalog, e: Edit, input: Bytes)
    requires LevelsInRange(e)
    ensures LevelsInRange(DecodeFields(c, e, input).edit)
    decreases |input|
  {
    hide TakePayload;
    hide TakeVarint32;
    hide Absorb;
    hide LevelsInRange;
    var tag := TakeVarint32(input);
    if tag.Some? {
      var p := TakePayload(tag.value.value, tag.value.rest);
      if p.Some? {
        AbsorbRange(c, e, tag.value.value, tag.value.rest);
        DecodedLevels(c, Absorb(c, e, p.value.value), p.value.rest);
      }
    }
  }

  // ------------------------------------------------------------------------
  // What the records describe

  predicate SeenShape(seen: seq<set<nat>>) {
    |seen| == NUM_LEVELS
  }

  /** The records replay to these file lists, and every file they ever added is among `seen`. */
  predicate DescribesFiles(f: Found, levels: seq<seq<File>>, seen: seq<set<nat>>)
    requires BatchShape(f.batch) && SeenShape(seen)
  {
    && f.ok && AllSorted(f.batch.added)
    && levels == SaveAll(NO_LEVELS, f.batch)
    && forall l :: 0 <= l < NUM_LEVELS ==> Numbers(f.batch.added[l]) <= seen[l]
  }

  /** The numbers a database is opened with. */
  datatype Counters = Counters(logNumber: nat, prevLogNumber: nat, nextFile: nat, lastSequence: nat)

  predicate DescribesCounters(f: Found, n: Counters) {
    && f.logNumber == Some(n.logNumber) && f.prevLogNumber == Some(n.prevLogNumber)
    && f.nextFile == Some(n.nextFile) && f.lastSequence == Some(n.lastSequence)
  }

  predicate Describes(c: Catalog, name: Bytes, records: seq<Bytes>, levels: seq<seq<File>>, n: Counters, seen: seq<set<nat>>) {
    var f := ReplayAll(c, name, records);
    SeenShape(seen) && DescribesFiles(f, levels, seen) && DescribesCounters(f, n)
  }

  /** No (level, number) pair is added a second time. */
  predicate FreshEdit(e: Edit, seen: seq<set<nat>>)
    requires SeenShape(seen)
  {
    forall l :: 0 <= l < NUM_LEVELS ==> NumbersDiffer(NewIn(e.newFiles, l)) && NoneOf(NewIn(e.newFiles, l), seen[l])
  }

  function SeenAfter(seen: seq<set<nat>>, e: Edit): (r: seq<set<nat>>)
    requires SeenShape(seen)
    ensures SeenShape(r)
  {
    seq(NUM_LEVELS, l requires 0 <= l < NUM_LEVELS => seen[l] + Numbers(NewIn(e.newFiles, l)))
  }

  lemma NoNumbers()
    ensures Numbers([]) == {}
  {}

  lemma NoneOfSubset(files: seq<File>, small: set<nat>, large: set<nat>)
    requires NoneOf(files, large) && small <= large
    ensures NoneOf(files, small)
  {}

  lemma {:induction false} SetInsertNumbers(files: seq<File>, added: seq<File>)
    requires SortedFiles(files) && NumbersDiffer(added) && NoneOf(added, Numbers(files))
    ensures Numbers(SetInsertAll(files, added)) <= Numbers(files) + Numbers(added)
  {
    AddSorted(files, added);
    AddMembers(files, added);
    forall f | f in AddFiles(files, added) ensures f.number in Numbers(files) + Numbers(added) {
      if f in files {
        assert f.number in Numbers(files);
      } else {
        assert f.number in Numbers(added);
      }
    }
  }

  /** One more record: the batch of all records still describes the edits applied one by one. */
  lemma GatherDescribes(f: Found, levels: seq<seq<File>>, seen: seq<set<nat>>, e: Edit)
    requires BatchShape(f.batch) && SeenShape(seen) && DescribesFiles(f, levels, seen) && FreshEdit(e, seen)
    ensures DescribesFiles(ReplayEdit(f, e), ApplyEdit(levels, e), SeenAfter(seen, e))
  {
    hide Save;
    hide AddFiles;
    hide DropFiles;
    hide SetInsertAll;
    hide DeletedIn;
    hide NewIn;
    hide SortedFiles;
    hide NumbersDiffer;
    hide NoneOf;
    hide Numbers;
    forall l | 0 <= l < NUM_LEVELS
      ensures SortedFiles(SetInsertAll(f.batch.added[l], NewIn(e.newFiles, l)))
      ensures Numbers(SetInsertAll(f.batch.added[l], NewIn(e.newFiles, l))) <= seen[l] + Numbers(NewIn(e.newFiles, l))
      ensures Save([], DeletedAfter(f.batch.deleted[l], DeletedIn(e.deleted, l), NewIn(e.newFiles, l)),
                   SetInsertAll(f.batch.added[l], NewIn(e.newFiles, l)))
              == AddFiles(DropFiles(Save([], f.batch.deleted[l], f.batch.added[l]), DeletedIn(e.deleted, l)), NewIn(e.newFiles, l))
    {
      LevelDescribes(f.batch.deleted[l], f.batch.added[l], DeletedIn(e.deleted, l), NewIn(e.newFiles, l), seen[l]);
    }
  }

  lemma LevelDescribes(deleted: set<nat>, added: seq<File>, del: set<nat>, new': seq<File>, seen: set<nat>)
    requires SortedFiles(added) && Numbers(added) <= seen && NumbersDiffer(new') && NoneOf(new', seen)
    ensures SortedFiles(SetInsertAll(added, new')) && Numbers(SetInsertAll(added, new')) <= seen + Numbers(new')
    ensures Save([], DeletedAfter(deleted, del, new'), SetInsertAll(added, new'))
            == AddFiles(DropFiles(Save([], deleted, added), del), new')
  {
    NoNumbers();
    NoneOfSubset(new', Numbers(added), seen);
    SetInsertNumbers(added, new');
    BatchStep([], deleted, added, del, new');
  }

  predicate CompleteEdit(e: Edit, name: Bytes) {
    && e.logNumber.Some? && e.prevLogNumber.Some? && e.nextFile.Some? && e.lastSequence.Some?
    && (e.comparator.Some? ==> e.comparator.value == name)
  }

  function CountersOf(e: Edit): Counters
    requires e.logNumber.Some? && e.prevLogNumber.Some? && e.nextFile.Some? && e.lastSequence.Some?
  {
    Counters(e.logNumber.value, e.prevLogNumber.value, e.nextFile.value, e.lastSequence.value)
  }

  lemma ReplaySnoc(c: Catalog, name: Bytes, records: seq<Bytes>, e: Edit)
    requires Encodable(c, e) && ReplayAll(c, name, records).ok && (e.comparator.Some? ==> e.comparator.value == name)
    ensures ReplayAll(c, name, records + [EncodeEdit(c, e)]) == ReplayEdit(ReplayAll(c, name, records), e)
  {
    hide EncodeEdit;
    hide DecodeFields;
    hide Encodable;
    EditRoundTrip(c, e);
    assert (records + [EncodeEdit(c, e)])[..|records|] == records;
  }

  /** Appending a successful edit keeps the description. */
  lemma AppendDescribes(c: Catalog, name: Bytes, records: seq<Bytes>, levels: seq<seq<File>>, seen: seq<set<nat>>, e: Edit)
    requires SeenShape(seen) && DescribesFiles(ReplayAll(c, name, records), levels, seen)
    requires Encodable(c, e) && FreshEdit(e, seen) && CompleteEdit(e, name)
    ensures Describes(c, name, records + [EncodeEdit(c, e)], ApplyEdit(levels, e), CountersOf(e), SeenAfter(seen, e))
  {
    hide Encodable;
    hide FreshEdit;
    hide EncodeEdit;
    hide Gather;
    hide ReplayAll;
    hide ApplyEdit;
    hide SeenAfter;
    ReplaySnoc(c, name, records, e);
    GatherDescribes(ReplayAll(c, name, records), levels, seen, e);
  }

  // ------------------------------------------------------------------------
  // The snapshot record

  function AtLevel(files: seq<File>, level: nat): (r: seq<(nat, File)>)
    ensures |r| == |files|
  {
    seq(|files|, i requires 0 <= i < |files| => (level, files[i]))
  }

  /** The files of the first `n` levels, each with its level. */
  function FlatFiles(levels: seq<seq<File>>, n: nat): seq<(nat, File)>
    requires n <= |levels|
  {
    if n == 0 then [] else FlatFiles(levels, n - 1) + AtLevel(levels[n - 1], n - 1)
  }

  function Snapshot(name: Bytes, pointers: seq<(nat, Bytes)>, levels: seq<seq<File>>): Edit {
    Edit(Some(name), None, None, None, None, pointers, [], FlatFiles(levels, |levels|))
  }

  lemma {:induction false} NewInConcat(a: seq<(nat, File)>, b: seq<(nat, File)>, level: nat)
    ensures NewIn(a + b, level) == NewIn(a, level) + NewIn(b, level)
  {
    if |b| == 0 {
      assert a + b == a && NewIn(a, level) + [] == NewIn(a, level);
    } else {
      var n := |b| - 1;
      NewInConcat(a, b[..n], level);
      assert (a + b)[..|a + b| - 1] == a + b[..n];
      Assoc(NewIn(a, level), NewIn(b[..n], level), if b[n].0 == level then [b[n].1] else []);
    }
  }

  lemma {:induction false} NewInAtLevel(files: seq<File>, level: nat, l: nat)
    ensures NewIn(AtLevel(files, level), l) == if l == level then files else []
  {
    if |files| > 0 {
      var n := |files| - 1;
      NewInAtLevel(files[..n], level, l);
      assert AtLevel(files, level)[..n] == AtLevel(files[..n], level);
      Unsnoc(files);
    }
  }

  lemma {:induction false} NewInFlat(levels: seq<seq<File>>, n: nat, l: nat)
    requires n <= |levels|
    ensures NewIn(FlatFiles(levels, n), l) == if l < n then levels[l] else []
  {
    hide NewIn;
    hide AtLevel;
    if n == 0 {
      NothingNew([]);
    } else {
      NewInFlat(levels, n - 1, l);
      NewInConcat(FlatFiles(levels, n - 1), AtLevel(levels[n - 1], n - 1), l);
      NewInAtLevel(levels[n - 1], n - 1, l);
      assert levels[n - 1] + [] == levels[n - 1] && [] + levels[n - 1] == levels[n - 1];
    }
  }

  lemma {:induction false} SetInsertLast(files: seq<File>, f: File)
    requires forall i :: 0 <= i < |files| ==> BySmallest(files[i], f)
    ensures SetInsert(files, f) == files + [f]
  {
    if |files| > 0 {
      SetInsertLast(files[1..], f);
      assert files + [f] == [files[0]] + (files[1..] + [f]);
    }
  }

  lemma {:induction false} SetInsertSorted(files: seq<File>)
    requires SortedFiles(files)
    ensures SetInsertAll([], files) == files
  {
    if |files| > 0 {
      var n := |files| - 1;
      SetInsertSorted(files[..n]);
      SetInsertLast(files[..n], files[n]);
      Unsnoc(files);
    }
  }

  lemma {:induction false} DropNothing(files: seq<File>)
    ensures DropFiles(files, {}) == files
  {
    if |files| > 0 {
      DropNothing(files[1..]);
      assert files == [files[0]] + files[1..];
    }
  }

  lemma SaveFresh(files: seq<File>)
    requires SortedFiles(files)
    ensures SetInsertAll([], files) == files && Save([], {}, files) == files && Save(files, {}, []) == files
  {
    SetInsertSorted(files);
    DropNothing(files);
  }

  function NumbersOf(levels: seq<seq<File>>): (r: seq<set<nat>>)
    requires |levels| == NUM_LEVELS
    ensures SeenShape(r)
  {
    seq(NUM_LEVELS, l requires 0 <= l < NUM_LEVELS => Numbers(levels[l]))
  }

  /** A new MANIFEST starts with a record that describes the current lists. */
  lemma SnapshotDescribes(c: Catalog, name: Bytes, pointers: seq<(nat, Bytes)>, levels: seq<seq<File>>)
    requires |levels| == NUM_LEVELS && AllSorted(levels) && Encodable(c, Snapshot(name, pointers, levels))
    ensures DescribesFiles(ReplayAll(c, name, [EncodeEdit(c, Snapshot(name, pointers, levels))]), levels, NumbersOf(levels))
  {
    hide Encodable;
    hide EncodeEdit;
    hide SetInsertAll;
    hide Save;
    hide Snapshot;
    hide NewIn;
    var e := Snapshot(name, pointers, levels);
    SnapshotIs(name, pointers, levels);
    ReplaySnoc(c, name, [], e);
    assert [] + [EncodeEdit(c, e)] == [EncodeEdit(c, e)];
    var b := Gather(NO_CHANGES, e);
    forall l | 0 <= l < NUM_LEVELS
      ensures b.deleted[l] == {} && b.added[l] == levels[l] && Save([], {}, levels[l]) == levels[l]
    {
      NewInFlat(levels, NUM_LEVELS, l);
      SaveFresh(levels[l]);
    }
  }

  lemma SnapshotIs(name: Bytes, pointers: seq<(nat, Bytes)>, levels: seq<seq<File>>)
    requires |levels| == NUM_LEVELS
    ensures var e := Snapshot(name, pointers, levels);
            e.comparator == Some(name) && e.newFiles == FlatFiles(levels, NUM_LEVELS) && forall l :: DeletedIn(e.deleted, l) == {}
  {}

  // ------------------------------------------------------------------------
  // Whole runs

  function ApplyAll(levels: seq<seq<File>>, es: seq<Edit>): (r: seq<seq<File>>)
    requires |levels| == NUM_LEVELS
    ensures |r| == NUM_LEVELS
  {
    if |es| == 0 then levels else ApplyEdit(ApplyAll(levels, es[..|es| - 1]), es[|es| - 1])
  }

  function SeenAll(seen: seq<set<nat>>, es: seq<Edit>): (r: seq<set<nat>>)
    requires SeenShape(seen)
    ensures SeenShape(r)
  {
    if |es| == 0 then seen else SeenAfter(SeenAll(seen, es[..|es| - 1]), es[|es| - 1])
  }

  /** Every edit can be written, is complete, and adds no (level, number) pair a second time. */
  predicate GoodRun(c: Catalog, name: Bytes, seen: seq<set<nat>>, es: seq<Edit>)
    requires SeenShape(seen)
  {
    |es| == 0 || (
      var init, e := es[..|es| - 1], es[|es| - 1];
      GoodRun(c, name, seen, init) && Encodable(c, e) && CompleteEdit(e, name) && FreshEdit(e, SeenAll(seen, init)))
  }

  function Encoded(c: Catalog, es: seq<Edit>): (r: seq<Bytes>)
    ensures |r| == |es|
  {
    seq(|es|, i requires 0 <= i < |es| => EncodeEdit(c, es[i]))
  }

  /** Replaying a MANIFEST rebuilds the lists that applying its edits one by one produced, and the
      numbers of the last edit. */
  lemma {:induction false} ManifestReplay(c: Catalog, name: Bytes, pointers: seq<(nat, Bytes)>, levels: seq<seq<File>>, es: seq<Edit>)
    requires |levels| == NUM_LEVELS && AllSorted(levels) && Encodable(c, Snapshot(name, pointers, levels))
    requires GoodRun(c, name, NumbersOf(levels), es)
    ensures var f := ReplayAll(c, name, [EncodeEdit(c, Snapshot(name, pointers, levels))] + Encoded(c, es));
            && DescribesFiles(f, ApplyAll(levels, es), SeenAll(NumbersOf(levels), es))
            && (|es| > 0 ==> CompleteEdit(es[|es| - 1], name) && DescribesCounters(f, CountersOf(es[|es| - 1])))
  {
    hide Encodable;
    hide EncodeEdit;
    hide DescribesFiles;
    hide AllSorted;
    hide ApplyEdit;
    hide FreshEdit;
    hide SeenAfter;
    hide NumbersOf;
    hide ReplayAll;
    var first := [EncodeEdit(c, Snapshot(name, pointers, levels))];
    if |es| == 0 {
      SnapshotDescribes(c, name, pointers, levels);
      assert first + [] == first;
    } else {
      var init, e := es[..|es| - 1], es[|es| - 1];
      ManifestReplay(c, name, pointers, levels, init);
      AppendDescribes(c, name, first + Encoded(c, init), ApplyAll(levels, init), SeenAll(NumbersOf(levels), init), e);
      assert Encoded(c, es) == Encoded(c, init) + [EncodeEdit(c, e)];
      Assoc(first, Encoded(c, init), [EncodeEdit(c, e)]);
    }
  }
}
