/**
 The version set: installing an edit, writing the MANIFEST, and recovering from it.
 */
module Versions {
  import opened Coding
  import opened Entries
  import opened Sequences
  import opened VersionSet
  import opened LevelEdits
  import opened VersionEdits
  import opened VersionBuilder
  import opened Manifest
  import opened ManifestRules
  import Log
  import LogFailures
  import LogReader
  import LogRoundTrip

  predicate AllKnown(c: Catalog, files: seq<File>) {
    forall i :: 0 <= i < |files| ==> Known(c, files[i])
  }

  /** What holds of one level: file order, known tables, and `seen` has all its numbers. */
  predicate LevelOk(c: Catalog, files: seq<File>, seen: set<nat>) {
    SortedFiles(files) && AllKnown(c, files) && Numbers(files) <= seen
  }

  predicate LevelsOk(c: Catalog, levels: seq<seq<File>>, seen: seq<set<nat>>) {
    && |levels| == NUM_LEVELS && SeenShape(seen)
    && forall l :: 0 <= l < NUM_LEVELS ==> LevelOk(c, levels[l], seen[l])
  }

  lemma LevelAfter(c: Catalog, files: seq<File>, seen: set<nat>, del: set<nat>, new': seq<File>)
    requires LevelOk(c, files, seen) && AllKnown(c, new') && NumbersDiffer(new') && NoneOf(new', seen)
    ensures LevelOk(c, AddFiles(DropFiles(files, del), new'), seen + Numbers(new'))
    ensures Save(files, DeletedAfter({}, del, new'), SetInsertAll([], new')) == AddFiles(DropFiles(files, del), new')
  {
    hide Known;
    NoNumbers();
    NoneOfSubset(new', Numbers(files), seen);
    BatchStep(files, {}, [], del, new');
    SaveFresh(files);
    DropSorted(files, del);
    DropMembers(files, del);
    AddMembers(DropFiles(files, del), new');
    SubsetNumbers(DropFiles(files, del), files);
    NoneOfSubset(new', Numbers(DropFiles(files, del)), Numbers(files));
    AddSorted(DropFiles(files, del), new');
    MembersKnown(c, files, new', AddFiles(DropFiles(files, del), new'), seen);
  }

  lemma SubsetNumbers(small: seq<File>, large: seq<File>)
    requires forall f :: f in small ==> f in large
    ensures Numbers(small) <= Numbers(large)
  {}

  lemma MembersKnown(c: Catalog, files: seq<File>, new': seq<File>, all: seq<File>, seen: set<nat>)
    requires AllKnown(c, files) && AllKnown(c, new') && Numbers(files) <= seen
    requires forall f :: f in all ==> f in files || f in new'
    ensures AllKnown(c, all) && Numbers(all) <= seen + Numbers(new')
  {
    hide Known;
    forall f | f in all ensures Known(c, f) && f.number in seen + Numbers(new') {
      if f in files {
        assert f.number in Numbers(files);
      } else {
        assert f.number in Numbers(new');
      }
    }
  }

  /** The new file lists are as well-formed as the old ones, and one edit gathered and saved is that edit applied. */
  lemma EditKeepsLevels(c: Catalog, levels: seq<seq<File>>, seen: seq<set<nat>>, e: Edit)
    requires LevelsOk(c, levels, seen) && FilesKnown(c, e.newFiles) && FreshEdit(e, seen)
    ensures LevelsOk(c, ApplyEdit(levels, e), SeenAfter(seen, e))
    ensures SaveAll(levels, Gather(NO_CHANGES, e)) == ApplyEdit(levels, e)
  {
    hide LevelOk;
    hide Save;
    hide SetInsertAll;
    hide DeletedAfter;
    hide AddFiles;
    hide DropFiles;
    hide NumbersDiffer;
    hide NoneOf;
    hide DeletedIn;
    hide NewIn;
    hide FilesKnown;
    forall l | 0 <= l < NUM_LEVELS
      ensures LevelOk(c, ApplyEdit(levels, e)[l], SeenAfter(seen, e)[l])
      ensures SaveAll(levels, Gather(NO_CHANGES, e))[l] == ApplyEdit(levels, e)[l]
    {
      NewKnown(c, e.newFiles, l);
      LevelAfter(c, levels[l], seen[l], DeletedIn(e.deleted, l), NewIn(e.newFiles, l));
    }
  }

  lemma {:induction false} NewKnown(c: Catalog, files: seq<(nat, File)>, l: nat)
    requires FilesKnown(c, files)
    ensures AllKnown(c, NewIn(files, l))
  {
    hide Known;
    if |files| > 0 { NewKnown(c, files[..|files| - 1], l); }
  }

  lemma {:induction false} FlatKnown(c: Catalog, levels: seq<seq<File>>, n: nat)
    requires n <= |levels| && n <= NUM_LEVELS && forall l :: 0 <= l < |levels| ==> AllKnown(c, levels[l])
    ensures FilesKnown(c, FlatFiles(levels, n))
  {
    hide Known;
    if n > 0 { FlatKnown(c, levels, n - 1); }
  }

  predicate PointersOk(pointers: seq<Bytes>) {
    |pointers| == NUM_LEVELS && forall l :: 0 <= l < NUM_LEVELS ==> |pointers[l]| < TWO_32
  }

  /** The pointers that are set, with their levels. */
  function SetPointers(pointers: seq<Bytes>, n: nat): seq<(nat, Bytes)>
    requires n <= |pointers|
  {
    if n == 0 then []
    else SetPointers(pointers, n - 1) + if pointers[n - 1] == [] then [] else [(n - 1, pointers[n - 1])]
  }

  lemma {:induction false} SetPointersFit(pointers: seq<Bytes>, n: nat)
    requires PointersOk(pointers) && n <= NUM_LEVELS
    ensures FieldsFit(PointerFields(SetPointers(pointers, n)))
  {
    if n > 0 {
      SetPointersFit(pointers, n - 1);
      assert forall i :: 0 <= i < |SetPointers(pointers, n - 1)| ==>
                           PointerFields(SetPointers(pointers, n))[i] == PointerFields(SetPointers(pointers, n - 1))[i];
    }
  }

  /** The snapshot restores every pointer. */
  lemma {:induction false} PointersSurvive(pointers: seq<Bytes>, n: nat, level: nat)
    requires |pointers| == NUM_LEVELS && n <= NUM_LEVELS && level < NUM_LEVELS
    ensures LastPointer(SetPointers(pointers, n), level, []) == if level < n then pointers[level] else []
  {
    if n > 0 {
      PointersSurvive(pointers, n - 1, level);
      var s := SetPointers(pointers, n);
      if pointers[n - 1] != [] {
        assert s[..|s| - 1] == SetPointers(pointers, n - 1);
      } else {
        assert s == SetPointers(pointers, n - 1);
      }
    }
  }

  lemma {:induction false} LastPointerFits(pointers: seq<(nat, Bytes)>, level: nat, before: Bytes)
    requires FieldsFit(PointerFields(pointers)) && |before| < TWO_32
    ensures |LastPointer(pointers, level, before)| < TWO_32
  {
    var n := |pointers| - 1;
    if n >= 0 {
      assert FieldFits(PointerFields(pointers)[n]);
      if pointers[n].0 != level {
        assert forall i :: 0 <= i < n ==> PointerFields(pointers[..n])[i] == PointerFields(pointers)[i];
        LastPointerFits(pointers[..n], level, before);
      }
    }
  }

  lemma SnapshotEncodable(c: Catalog, name: Bytes, pointers: seq<Bytes>, levels: seq<seq<File>>, seen: seq<set<nat>>)
    requires |name| < TWO_32 && PointersOk(pointers) && LevelsOk(c, levels, seen)
    ensures Encodable(c, Snapshot(name, SetPointers(pointers, NUM_LEVELS), levels))
  {
    hide Known;
    SetPointersFit(pointers, NUM_LEVELS);
    FlatKnown(c, levels, NUM_LEVELS);
  }

  /** Filling in the counters keeps an edit writable. */
  lemma FilledIn(c: Catalog, e: Edit, e': Edit)
    requires Encodable(c, e) && e.comparator == None
    requires e' == e.(logNumber := e'.logNumber, prevLogNumber := e'.prevLogNumber, nextFile := e'.nextFile,
                      lastSequence := e'.lastSequence)
    requires e'.logNumber.Some? ==> e'.logNumber.value < TWO_64
    requires e'.prevLogNumber.Some? ==> e'.prevLogNumber.value < TWO_64
    requires e'.nextFile.Some? ==> e'.nextFile.value < TWO_64
    requires e'.lastSequence.Some? ==> e'.lastSequence.value < TWO_64
    ensures Encodable(c, e')
  {
    hide Known;
    var fs := HeadFields(e');
    assert forall i :: 0 <= i < |fs| ==> FieldFits(fs[i]);
  }

  class VersionState {
    const c: Catalog
    const name: Bytes
    var current: seq<seq<File>>
    var compactPointer: seq<Bytes>
    var logNumber: nat
    var prevLogNumber: nat
    var nextFile: nat
    var lastSequence: nat
    var manifestNumber: nat
    var manifest: Option<seq<Log.Attempt>>   // what was appended to the open MANIFEST
    ghost var seen: seq<set<nat>>            // numbers added at each level since that MANIFEST began
    ghost var written: Counters              // the counters in its last record
    ghost var clean: bool                    // no record reached that MANIFEST whole whose sync then failed

    ghost predicate Valid()
      reads this
    {
      && LevelsOk(c, current, seen) && PointersOk(compactPointer)
      && |name| < TWO_32 && logNumber < TWO_64 && prevLogNumber < TWO_64
      && (manifest.Some? ==> Log.Possible(manifest.value, 0))
      && (manifest.Some? && clean ==> Describes(c, name, Log.Written(manifest.value), current, written, seen))
    }

    constructor (c: Catalog, name: Bytes)
      requires |name| < TWO_32
      ensures Valid() && current == NO_LEVELS && manifest == None && clean && this.c == c && this.name == name
    {
      this.c, this.name := c, name;
      current, compactPointer := NO_LEVELS, [[], [], [], [], [], [], []];
      logNumber, prevLogNumber, nextFile, lastSequence, manifestNumber := 0, 0, 2, 0, 0;
      manifest, clean := None, true;
      seen, written := [{}, {}, {}, {}, {}, {}, {}], Counters(0, 0, 0, 0);
      new;
      NoNumbers();
    }

    /** What LogAndApply writes: the edit with the counters filled in. */
    function Filled(e: Edit): Edit
      reads this
    {
      e.(logNumber := Latest(e.logNumber, Some(logNumber)), prevLogNumber := Latest(e.prevLogNumber, Some(prevLogNumber)),
         nextFile := Some(nextFile), lastSequence := Some(lastSequence))
    }

    /** What the source asks of an edit. */
    ghost predicate CanApply(e: Edit)
      requires SeenShape(seen)
      reads this
    {
      && e.comparator == None && LevelsInRange(e) && Encodable(c, e) && FreshEdit(e, seen)
      && (e.logNumber.Some? ==> logNumber <= e.logNumber.value < nextFile)
      && (e.prevLogNumber.Some? ==> e.prevLogNumber.value < TWO_64)
      && nextFile < TWO_64 && lastSequence < TWO_64
    }

    /** The outcome is one that appending this edit to the open MANIFEST can have. */
    ghost predicate CanEndWith(e: Edit, outcome: Log.Outcome)
      requires Valid()
      reads this
    {
      manifest.Some? && Encodable(c, Filled(e)) ==>
        Log.CanEnd(EncodeEdit(c, Filled(e)), Log.OffsetOf(manifest.value, 0), outcome)
    }

    /** Applies an edit and writes it to the MANIFEST.  `outcome` and `synced` tell how the writes end;
        a new MANIFEST that was not completed is deleted, an old one stays open. */
    method LogAndApply(e: Edit, outcome: Log.Outcome, synced: bool) returns (ok: bool)
      requires Valid() && CanApply(e) && CanEndWith(e, outcome)
      modifies this
      ensures Valid() && ok == (outcome.Whole? && synced)
      ensures nextFile == old(nextFile) && lastSequence == old(lastSequence)
      ensures ok ==> current == ApplyEdit(old(current), e) && manifest.Some? && written == CountersOf(old(Filled(e)))
      ensures ok ==> logNumber == written.logNumber && prevLogNumber == written.prevLogNumber
      ensures ok ==> written.logNumber == (if e.logNumber.Some? then e.logNumber.value else old(logNumber))
      ensures ok ==> written.prevLogNumber == (if e.prevLogNumber.Some? then e.prevLogNumber.value else old(prevLogNumber))
      ensures ok ==> written.nextFile == nextFile && written.lastSequence == lastSequence
      ensures |old(compactPointer)| == |compactPointer| == NUM_LEVELS
      ensures forall l :: 0 <= l < NUM_LEVELS ==>
                compactPointer[l] == LastPointer(e.compactPointers, l, old(compactPointer)[l])
      ensures ok ==> clean == (old(clean) || old(manifest).None?)
      ensures !ok ==> current == old(current) && logNumber == old(logNumber) && prevLogNumber == old(prevLogNumber)
      ensures !ok ==> written == old(written) && clean == (old(clean) && (old(manifest).None? || outcome.Torn?))
      ensures !ok && old(manifest).None? ==> manifest == None
      ensures old(manifest).Some? ==>
                manifest == Some(old(manifest).value + [Log.Attempt(EncodeEdit(c, old(Filled(e))), outcome)])
    {
      hide DescribesFiles;
      hide ReplayAll;
      hide LevelOk;
      hide Log.CanEnd;
      hide EncodeEdit;
      var edit := Filled(e);
      FilledIn(c, e, edit);
      SameFiles(e, edit);
      var v := BuildVersion(edit);
      ok := outcome.Whole? && synced;
      if !ok {
        if manifest.Some? { KeepFailure(EncodeEdit(c, edit), outcome); }
        return;
      }
      if manifest.None? {
        StartManifest(edit);
      }
      Install(edit, v);
    }

    /** After an error the MANIFEST stays open, with what was left in it. */
    method KeepFailure(record: Bytes, outcome: Log.Outcome)
      requires Valid() && manifest.Some? && Log.CanEnd(record, Log.OffsetOf(manifest.value, 0), outcome)
      modifies this`manifest, this`clean
      ensures Valid() && manifest == Some(old(manifest).value + [Log.Attempt(record, outcome)])
      ensures clean == (old(clean) && outcome.Torn?)
    {
      hide Describes;
      hide LevelsOk;
      hide Log.CanEnd;
      var attempt := Log.Attempt(record, outcome);
      Log.PossibleSnoc(manifest.value, attempt, 0);
      Log.WrittenSnoc(manifest.value, attempt);
      assert outcome.Torn? ==> Log.Written(manifest.value + [attempt]) == Log.Written(manifest.value);
      manifest, clean := Some(manifest.value + [attempt]), clean && outcome.Torn?;
    }

    lemma SameFiles(e: Edit, edit: Edit)
      requires SeenShape(seen) && |current| == NUM_LEVELS
      requires e.newFiles == edit.newFiles && e.deleted == edit.deleted && e.compactPointers == edit.compactPointers
      ensures FreshEdit(e, seen) == FreshEdit(edit, seen) && LevelsInRange(e) == LevelsInRange(edit)
      ensures ApplyEdit(current, e) == ApplyEdit(current, edit)
    {}

    method BuildVersion(edit: Edit) returns (v: seq<seq<File>>)
      requires Valid() && LevelsInRange(edit) && Encodable(c, edit) && FreshEdit(edit, seen)
      modifies this`compactPointer
      ensures Valid() && v == ApplyEdit(current, edit)
      ensures |old(compactPointer)| == |compactPointer| == NUM_LEVELS
      ensures forall l :: 0 <= l < NUM_LEVELS ==>
                compactPointer[l] == LastPointer(edit.compactPointers, l, old(compactPointer)[l])
    {
      hide Describes;
      hide FreshEdit;
      hide SaveAll;
      hide Gather;
      hide ApplyEdit;
      hide LevelOk;
      EditKeepsLevels(c, current, seen, edit);
      assert AllSorted(current) by { LevelsSorted(current); }
      var builder := new Builder(current, compactPointer);
      builder.Apply(edit);
      v := builder.SaveTo();
      forall l | 0 <= l < NUM_LEVELS ensures |builder.compactPointer[l]| < TWO_32 {
        LastPointerFits(edit.compactPointers, l, compactPointer[l]);
      }
      compactPointer := builder.compactPointer;
    }

    lemma LevelsSorted(levels: seq<seq<File>>)
      requires LevelsOk(c, levels, seen)
      ensures AllSorted(levels)
    {}

    /** A new MANIFEST begins with a snapshot of the current lists. */
    method StartManifest(ghost edit: Edit)
      requires Valid() && manifest.None? && FreshEdit(edit, seen)
      modifies this`manifest, this`seen, this`clean
      ensures manifest.Some? && clean && LevelsOk(c, current, seen) && FreshEdit(edit, seen)
      ensures Log.Possible(manifest.value, 0)
      ensures DescribesFiles(ReplayAll(c, name, Log.Written(manifest.value)), current, seen)
    {
      hide Encodable;
      hide EncodeEdit;
      hide DescribesFiles;
      hide Snapshot;
      hide ReplayAll;
      SnapshotEncodable(c, name, compactPointer, current, seen);
      LevelsSorted(current);
      SnapshotDescribes(c, name, SetPointers(compactPointer, NUM_LEVELS), current);
      var snapshot := EncodeEdit(c, Snapshot(name, SetPointers(compactPointer, NUM_LEVELS), current));
      manifest := Some([Log.Attempt(snapshot, Log.Whole)]);
      assert Log.Written(manifest.value) == [snapshot];
      ForgetOld(edit);
      seen, clean := NumbersOf(current), true;
    }

    lemma ForgetOld(edit: Edit)
      requires LevelsOk(c, current, seen) && FreshEdit(edit, seen)
      ensures LevelsOk(c, current, NumbersOf(current)) && FreshEdit(edit, NumbersOf(current))
    {
      hide NumbersDiffer;
      hide SortedFiles;
      hide AllKnown;
      hide NewIn;
      hide Numbers;
    }

    /** The version becomes current once its record is in the MANIFEST. */
    method Install(edit: Edit, v: seq<seq<File>>)
      requires LevelsOk(c, current, seen) && PointersOk(compactPointer) && |name| < TWO_32
      requires manifest.Some? && Log.Possible(manifest.value, 0)
      requires clean ==> DescribesFiles(ReplayAll(c, name, Log.Written(manifest.value)), current, seen)
      requires Encodable(c, edit) && FreshEdit(edit, seen) && CompleteEdit(edit, name) && v == ApplyEdit(current, edit)
      requires edit.logNumber.value < TWO_64 && edit.prevLogNumber.value < TWO_64
      modifies this
      ensures compactPointer == old(compactPointer)
      ensures Valid() && current == v && manifest.Some? && clean == old(clean) && written == CountersOf(edit)
      ensures logNumber == written.logNumber && prevLogNumber == written.prevLogNumber
      ensures nextFile == old(nextFile) && lastSequence == old(lastSequence)
      ensures manifest == Some(old(manifest.value) + [Log.Attempt(EncodeEdit(c, edit), Log.Whole)])
    {
      hide FreshEdit;
      hide DescribesFiles;
      hide EncodeEdit;
      hide ReplayAll;
      hide LevelOk;
      hide SeenAfter;
      hide ApplyEdit;
      hide Describes;
      EditKeepsLevels(c, current, seen, edit);
      if clean {
        AppendDescribes(c, name, Log.Written(manifest.value), current, seen, edit);
      }
      var attempt := Log.Attempt(EncodeEdit(c, edit), Log.Whole);
      Log.PossibleSnoc(manifest.value, attempt, 0);
      Log.WrittenSnoc(manifest.value, attempt);
      manifest := Some(manifest.value + [attempt]);
      current := v;
      seen, written := SeenAfter(seen, edit), CountersOf(edit);
      logNumber, prevLogNumber := edit.logNumber.value, edit.prevLogNumber.value;
    }

    /** Opens an existing database: reads its MANIFEST and replays the records.  A corruption reported by
        the reader is an error. */
    method Recover(crc: Log.Checksum, file: Bytes) returns (ok: bool)
      requires Valid() && current == NO_LEVELS
      modifies this
      ensures var all := LogRoundTrip.ReadAll(crc, file, Log.BLOCK_SIZE); var f := ReplayAll(c, name, all.records);
              && ok == (all.reports == 0 && Complete(f))
              && (ok ==>
                    && current == SaveAll(NO_LEVELS, f.batch)
                    && logNumber == f.logNumber.value && lastSequence == f.lastSequence.value
                    && prevLogNumber == (if f.prevLogNumber.Some? then f.prevLogNumber.value else 0)
                    && manifestNumber == f.nextFile.value && nextFile == f.nextFile.value + 1)
      ensures var all := LogRoundTrip.ReadAll(crc, file, Log.BLOCK_SIZE);
              && (ok <==> all.reports == 0 && Replayable(c, name, all.records))
              && (ok ==> nextFile == manifestNumber + 1
                         && NumbersFrom(c, all.records, logNumber, prevLogNumber, manifestNumber, lastSequence)
                         && PointersFrom(c, all.records, old(compactPointer), compactPointer))
    {
      hide Gather;
      hide SaveAll;
      hide ReplayAll;
      hide StillToRead;
      hide LogReader.ReadLogical;
      hide LogRoundTrip.ReadAll;
      hide Replayable;
      hide NumbersFrom;
      hide PointersFrom;
      LevelsSorted(current);
      NoPointers(c, compactPointer);
      var builder := new Builder(current, compactPointer);
      var reader := new LogReader.Reader(crc, file);
      ghost var all := LogRoundTrip.ReadAll(crc, file, Log.BLOCK_SIZE);
      ghost var done: seq<Bytes> := [];
      ghost var found, pointers := NOTHING_FOUND, compactPointer;
      NothingReplayed(c, name);
      FirstPage(crc, file);
      var log, prevLog, next, last: Option<nat> := None, None, None, None;
      var decodes := true;
      var record := reader.ReadRecord();
      while record.Some? && decodes && reader.reports == 0
        invariant reader.Valid() && reader.crc == crc && fresh(reader)
        invariant builder.Valid() && builder.base == NO_LEVELS && fresh(builder)
        invariant StillToRead(crc, all, done, record, reader.Rest(), reader.off, reader.reports)
        invariant found == ReplayAll(c, name, done) && decodes == found.ok
        invariant decodes ==> found == Found(builder.Gathered(), log, prevLog, next, last, true)
        invariant decodes ==> PointersFrom(c, done, pointers, builder.compactPointer)
        decreases decodes, if record.Some? then |reader.Rest()| + 1 else 0
      {
        ReplayOne(c, name, done, record.value);
        ghost var before := builder.compactPointer;
        decodes, log, prevLog, next, last, found := AbsorbRecord(builder, record.value, found, log, prevLog, next, last);
        if decodes { PointersMove(c, done, record.value, pointers, before, builder.compactPointer); }
        NextPage(crc, all, done, record.value, reader.Rest(), reader.off, reader.reports);
        done := done + [record.value];
        record := reader.ReadRecord();
      }
      AllRead(c, name, crc, all, done, record, reader.Rest(), reader.off, reader.reports);
      CompleteIs(c, name, all.records);
      compactPointer := builder.compactPointer;
      ok := decodes && reader.reports == 0 && next.Some? && log.Some? && last.Some?;
      if ok {
        current := builder.SaveTo();
        manifestNumber := next.value;
        nextFile := next.value + 1;
        lastSequence := last.value;
        logNumber := log.value;
        prevLogNumber := if prevLog.Some? then prevLog.value else 0;
      }
    }

    /** One record: its edit goes to the builder, and the counters it carries replace older ones. */
    method AbsorbRecord(builder: Builder, record: Bytes, ghost found: Found,
                        log: Option<nat>, prevLog: Option<nat>, next: Option<nat>, last: Option<nat>)
      returns (decodes: bool, log': Option<nat>, prevLog': Option<nat>, next': Option<nat>, last': Option<nat>,
               ghost found': Found)
      requires builder.Valid() && found == Found(builder.Gathered(), log, prevLog, next, last, true)
      modifies builder
      ensures builder.Valid() && found' == ReplayRecord(c, name, found, record) && decodes == found'.ok
      ensures decodes ==> found' == Found(builder.Gathered(), log', prevLog', next', last', true)
      ensures decodes ==>
                forall l :: 0 <= l < NUM_LEVELS ==>
                  builder.compactPointer[l] == LastPointer(EditIn(c, record).compactPointers, l, old(builder.compactPointer)[l])
    {
      hide DecodeFields;
      hide Gather;
      log', prevLog', next', last' := log, prevLog, next, last;
      DecodedLevels(c, EMPTY, record);
      var edit, decoded := DecodeFrom(c, EMPTY, record);
      decodes := decoded && (edit.comparator.Some? ==> edit.comparator.value == name);
      if decodes {
        builder.Apply(edit);
        log' := if edit.logNumber.Some? then edit.logNumber else log;
        prevLog' := if edit.prevLogNumber.Some? then edit.prevLogNumber else prevLog;
        next' := if edit.nextFile.Some? then edit.nextFile else next;
        last' := if edit.lastSequence.Some? then edit.lastSequence else last;
        found' := ReplayEdit(found, edit);
      } else {
        found' := found.(ok := false);
      }
    }
  }

  /** What is left of the file after `done` and the record at hand, if any. */
  ghost predicate StillToRead(crc: Log.Checksum, all: LogRoundTrip.All, done: seq<Bytes>, record: Option<Bytes>,
                              rest: Bytes, off: nat, reports: nat)
    requires off <= Log.BLOCK_SIZE
  {
    if record.None? then all == LogRoundTrip.All(done, reports)
    else
      var a := LogRoundTrip.ReadAll(crc, rest, off);
      all == LogRoundTrip.All(done + ([record.value] + a.records), reports + a.reports)
  }

  lemma FirstPage(crc: Log.Checksum, file: Bytes)
    ensures var l := LogReader.ReadLogical(crc, file, Log.BLOCK_SIZE, false, []);
            StillToRead(crc, LogRoundTrip.ReadAll(crc, file, Log.BLOCK_SIZE), [], l.record, l.rest, l.off, l.reports)
  {
    hide LogReader.ReadLogical;
  }

  lemma NextPage(crc: Log.Checksum, all: LogRoundTrip.All, done: seq<Bytes>, record: Bytes,
                 rest: Bytes, off: nat, reports: nat)
    requires off <= Log.BLOCK_SIZE && StillToRead(crc, all, done, Some(record), rest, off, reports)
    ensures var l := LogReader.ReadLogical(crc, rest, off, false, []);
            && StillToRead(crc, all, done + [record], l.record, l.rest, l.off, reports + l.reports)
            && (l.record.Some? ==> |l.rest| < |rest|)
  {
    hide LogReader.ReadLogical;
    var l := LogReader.ReadLogical(crc, rest, off, false, []);
    if l.record.None? {
      assert [record] + [] == [record];
    } else {
      var more := LogRoundTrip.ReadAll(crc, l.rest, l.off).records;
      Assoc(done, [record], [l.record.value] + more);
    }
  }

  lemma NothingReplayed(c: Catalog, name: Bytes)
    ensures ReplayAll(c, name, []) == NOTHING_FOUND
  {}

  lemma ReplayOne(c: Catalog, name: Bytes, done: seq<Bytes>, record: Bytes)
    ensures ReplayAll(c, name, done + [record]) == ReplayRecord(c, name, ReplayAll(c, name, done), record)
  {
    assert (done + [record])[..|done|] == done;
  }

  /** Reading stops at the end, at a report or at a record that is rejected. */
  lemma AllRead(c: Catalog, name: Bytes, crc: Log.Checksum, all: LogRoundTrip.All, done: seq<Bytes>, record: Option<Bytes>,
                rest: Bytes, off: nat, reports: nat)
    requires off <= Log.BLOCK_SIZE && StillToRead(crc, all, done, record, rest, off, reports)
    requires record.None? || !ReplayAll(c, name, done).ok || reports > 0
    ensures record.None? ==> all.records == done
    ensures all.reports == 0 && ReplayAll(c, name, all.records).ok <==> reports == 0 && ReplayAll(c, name, done).ok
    ensures all.reports == 0 && ReplayAll(c, name, all.records).ok ==>
              ReplayAll(c, name, all.records) == ReplayAll(c, name, done)
  {
    hide LogRoundTrip.ReadAll;
    hide ReplayAll;
    assert all.records[..|done|] == done;
    if record.None? {
      assert all.records == done;
    } else if !ReplayAll(c, name, done).ok {
      FailureStays(c, name, all.records, |done|);
    }
  }

  /** Once a record is rejected the replay has failed, whatever follows. */
  lemma {:induction false} FailureStays(c: Catalog, name: Bytes, records: seq<Bytes>, i: nat)
    requires i <= |records| && (i < |records| ==> !ReplayAll(c, name, records[..i]).ok)
    ensures i == |records| ==> ReplayAll(c, name, records[..i]) == ReplayAll(c, name, records)
    ensures i < |records| ==> !ReplayAll(c, name, records).ok
  {
    hide DecodeFields;
    hide Gather;
    if i == |records| {
      assert records[..i] == records;
    } else {
      var n := |records| - 1;
      assert records[..n][..i] == records[..i];
      FailureStays(c, name, records[..n], i);
    }
  }

  /** The appends left a file that reads as the records appended whole. */
  predicate Readable(crc: Log.Checksum, tried: seq<Log.Attempt>)
    requires Log.Possible(tried, 0)
  {
    || LogFailures.Ready(crc, tried)
    || (var n := |tried| - 1;
        && n >= 0 && tried[n].outcome.Torn? && Log.Possible(tried[..n], 0) && LogFailures.Ready(crc, tried[..n])
        && Log.CanEnd(tried[n].record, Log.OffsetOf(tried[..n], 0), tried[n].outcome))
  }

  lemma ReadsReadable(crc: Log.Checksum, tried: seq<Log.Attempt>)
    requires Log.Possible(tried, 0) && Readable(crc, tried)
    ensures LogRoundTrip.ReadAll(crc, Log.FileBytes(crc, tried, 0), Log.BLOCK_SIZE) == LogRoundTrip.All(Log.Written(tried), 0)
  {
    hide Log.FileBytes;
    hide Log.Possible;
    hide Log.Written;
    hide Log.CanEnd;
    hide LogFailures.NeverDrifted;
    hide LogFailures.Aligned;
    hide LogFailures.Complete;
    hide LogRoundTrip.ReadAll;
    if LogFailures.Ready(crc, tried) {
      var file := Log.FileBytes(crc, tried, 0);
      assert tried[..|tried|] == tried;
      LogFailures.ReadsWritten(crc, tried, file);
      LogFailures.CompleteAtLeast(crc, tried, 0, |tried|, |file|);
      assert Log.Written(tried)[..|Log.Written(tried)|] == Log.Written(tried);
    } else {
      var n := |tried| - 1;
      assert tried == tried[..n] + [tried[n]];
      Log.WrittenSnoc(tried[..n], tried[n]);
      LogFailures.LastFailureIsSilent(crc, tried[..n], tried[n]);
    }
  }

  /** Reopening finds the current files and the counters of the last edit applied... */
  lemma RecoverFindsCurrent(v: VersionState, crc: Log.Checksum)
    requires v.Valid() && v.clean && v.manifest.Some? && Readable(crc, v.manifest.value)
    ensures var all := LogRoundTrip.ReadAll(crc, Log.FileBytes(crc, v.manifest.value, 0), Log.BLOCK_SIZE);
            var f := ReplayAll(v.c, v.name, all.records);
            && all.reports == 0 && Complete(f) && SaveAll(NO_LEVELS, f.batch) == v.current
            && f.logNumber.value == v.written.logNumber && f.prevLogNumber == Some(v.written.prevLogNumber)
            && f.lastSequence.value == v.written.lastSequence && f.nextFile.value == v.written.nextFile
  {
    hide ReplayAll;
    hide SaveAll;
    hide LevelsOk;
    hide Readable;
    hide Log.FileBytes;
    hide LogRoundTrip.ReadAll;
    ReadsReadable(crc, v.manifest.value);
  }

  /** ...and when the next append stops anywhere, by a crash or by an error, the file reads as the files
      from before the edit or from after it. */
  lemma EditIsAtomic(v: VersionState, crc: Log.Checksum, e: Edit, file: Bytes)
    requires v.Valid() && v.clean && v.manifest.Some?
    requires LogFailures.Ready(crc, v.manifest.value)
    requires Encodable(v.c, e) && FreshEdit(e, v.seen) && CompleteEdit(e, v.name)
    requires Log.FileBytes(crc, v.manifest.value, 0) <= file
    requires file <= Log.FileBytes(crc, v.manifest.value, 0)
                     + Log.Emit(crc, EncodeEdit(v.c, e), true, Log.OffsetOf(v.manifest.value, 0))
    ensures var all := LogRoundTrip.ReadAll(crc, file, Log.BLOCK_SIZE); var f := ReplayAll(v.c, v.name, all.records);
            && all.reports == 0 && Complete(f)
            && ((SaveAll(NO_LEVELS, f.batch) == v.current && f.lastSequence.value == v.written.lastSequence)
                || (SaveAll(NO_LEVELS, f.batch) == ApplyEdit(v.current, e) && f.lastSequence == e.lastSequence))
  {
    hide ReplayAll;
    hide SaveAll;
    hide LevelsOk;
    hide EncodeEdit;
    hide Encodable;
    hide FreshEdit;
    hide ApplyEdit;
    hide SeenAfter;
    hide Log.FileBytes;
    hide LogFailures.Ready;
    hide LogRoundTrip.ReadAll;
    LogFailures.LastAppendIsAtomic(crc, v.manifest.value, EncodeEdit(v.c, e), file);
    AppendDescribes(v.c, v.name, Log.Written(v.manifest.value), v.current, v.seen, e);
  }
}
