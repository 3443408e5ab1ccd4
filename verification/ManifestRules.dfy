/**
 When a MANIFEST can be replayed, and what its replay finds, said of the records themselves: each has to
 decode and to name no other comparator, and of every number the last one given counts.
 */
module ManifestRules {
  import opened Coding
  import opened Entries
  import opened VersionEdits
  import opened Manifest

  datatype Number = LogFile | PrevLogFile | FreeNumber | LastSeqNo

  function Given(e: Edit, n: Number): Option<nat> {
    match n
    case LogFile => e.logNumber
    case PrevLogFile => e.prevLogNumber
    case FreeNumber => e.nextFile
    case LastSeqNo => e.lastSequence
  }

  function EditIn(c: Catalog, record: Bytes): Edit {
    DecodeFields(c, EMPTY, record).edit
  }

  /** `v` is what the last of the records that gives the number gives; nothing when none does. */
  ghost predicate LastGiven(c: Catalog, records: seq<Bytes>, n: Number, v: Option<nat>) {
    if v.None? then forall i :: 0 <= i < |records| ==> Given(EditIn(c, records[i]), n).None?
    else
      exists i :: && 0 <= i < |records| && Given(EditIn(c, records[i]), n) == v
                  && forall j :: i < j < |records| ==> Given(EditIn(c, records[j]), n).None?
  }

  lemma OneMoreGiven(c: Catalog, records: seq<Bytes>, n: Number, v: Option<nat>)
    requires |records| > 0 && LastGiven(c, records[..|records| - 1], n, v)
    ensures LastGiven(c, records, n, Latest(Given(EditIn(c, records[|records| - 1]), n), v))
  {
    hide EditIn;
    var last := |records| - 1;
    var init := records[..last];
    assert forall i :: 0 <= i < last ==> init[i] == records[i];
    if Given(EditIn(c, records[last]), n).None? && v.Some? {
      var i :| 0 <= i < |init| && Given(EditIn(c, init[i]), n) == v
               && forall j :: i < j < |init| ==> Given(EditIn(c, init[j]), n).None?;
      assert Given(EditIn(c, records[i]), n) == v;
    }
  }

  /** The replay goes through exactly when no record is refused, and finds the last of each number. */
  lemma {:induction false} ReplayIs(c: Catalog, name: Bytes, records: seq<Bytes>)
    ensures var f := ReplayAll(c, name, records);
            && (f.ok <==> forall i :: 0 <= i < |records| ==>
                            && DecodeFields(c, EMPTY, records[i]).ok
                            && (EditIn(c, records[i]).comparator == None || EditIn(c, records[i]).comparator == Some(name)))
            && (f.ok ==>
                  && LastGiven(c, records, LogFile, f.logNumber) && LastGiven(c, records, PrevLogFile, f.prevLogNumber)
                  && LastGiven(c, records, FreeNumber, f.nextFile) && LastGiven(c, records, LastSeqNo, f.lastSequence))
  {
    hide DecodeFields;
    hide Gather;
    if |records| > 0 {
      var n := |records| - 1;
      var init := records[..n];
      ReplayIs(c, name, init);
      assert forall i :: 0 <= i < n ==> init[i] == records[i];
      var f := ReplayAll(c, name, init);
      if f.ok {
        OneMoreGiven(c, records, LogFile, f.logNumber);
        OneMoreGiven(c, records, PrevLogFile, f.prevLogNumber);
        OneMoreGiven(c, records, FreeNumber, f.nextFile);
        OneMoreGiven(c, records, LastSeqNo, f.lastSequence);
        hide LastGiven;
      }
    }
  }

  /** Some record gives the number, exactly when a last one does. */
  lemma GivenSomewhere(c: Catalog, records: seq<Bytes>, n: Number, v: Option<nat>)
    requires LastGiven(c, records, n, v)
    ensures v.Some? <==> exists i :: 0 <= i < |records| && Given(EditIn(c, records[i]), n).Some?
  {
    hide EditIn;
    hide Given;
  }

  /** No record is refused, and each number but that of the previous log is given by some. */
  ghost predicate Replayable(c: Catalog, name: Bytes, records: seq<Bytes>) {
    && (forall i :: 0 <= i < |records| ==>
          && DecodeFields(c, EMPTY, records[i]).ok
          && (EditIn(c, records[i]).comparator == None || EditIn(c, records[i]).comparator == Some(name)))
    && (exists i :: 0 <= i < |records| && EditIn(c, records[i]).logNumber.Some?)
    && (exists i :: 0 <= i < |records| && EditIn(c, records[i]).nextFile.Some?)
    && (exists i :: 0 <= i < |records| && EditIn(c, records[i]).lastSequence.Some?)
  }

  ghost predicate NumbersFrom(c: Catalog, records: seq<Bytes>, logNumber: nat, prevLogNumber: nat, nextFile: nat,
                              lastSequence: nat)
  {
    && LastGiven(c, records, LogFile, Some(logNumber)) && LastGiven(c, records, LastSeqNo, Some(lastSequence))
    && LastGiven(c, records, FreeNumber, Some(nextFile))
    && (LastGiven(c, records, PrevLogFile, Some(prevLogNumber))
        || (LastGiven(c, records, PrevLogFile, None) && prevLogNumber == 0))
  }

  lemma CompleteIs(c: Catalog, name: Bytes, records: seq<Bytes>)
    ensures var f := ReplayAll(c, name, records);
            && (Complete(f) <==> Replayable(c, name, records))
            && (Complete(f) ==>
                  NumbersFrom(c, records, f.logNumber.value, if f.prevLogNumber.Some? then f.prevLogNumber.value else 0,
                              f.nextFile.value, f.lastSequence.value))
  {
    hide DecodeFields;
    hide ReplayAll;
    hide LastGiven;
    hide EditIn;
    ReplayIs(c, name, records);
    var f := ReplayAll(c, name, records);
    if f.ok {
      GivenSomewhere(c, records, LogFile, f.logNumber);
      GivenSomewhere(c, records, FreeNumber, f.nextFile);
      GivenSomewhere(c, records, LastSeqNo, f.lastSequence);
      assert forall i :: 0 <= i < |records| ==> Given(EditIn(c, records[i]), LogFile) == EditIn(c, records[i]).logNumber;
      assert forall i :: 0 <= i < |records| ==> Given(EditIn(c, records[i]), FreeNumber) == EditIn(c, records[i]).nextFile;
      assert forall i :: 0 <= i < |records| ==> Given(EditIn(c, records[i]), LastSeqNo) == EditIn(c, records[i]).lastSequence;
    }
  }

  // ------------------------------------------------------------------------
  // Compaction pointers

  function PointersIn(c: Catalog, records: seq<Bytes>): seq<(nat, Bytes)> {
    if |records| == 0 then []
    else PointersIn(c, records[..|records| - 1]) + EditIn(c, records[|records| - 1]).compactPointers
  }

  /** A level's pointer is the last one given for it, or what it was. */
  lemma {:induction false} LastPointerIs(pointers: seq<(nat, Bytes)>, level: nat, before: Bytes)
    ensures var r := LastPointer(pointers, level, before);
            || (r == before && forall j :: 0 <= j < |pointers| ==> pointers[j].0 != level)
            || (exists i :: && 0 <= i < |pointers| && pointers[i] == (level, r)
                            && forall j :: i < j < |pointers| ==> pointers[j].0 != level)
  {
    if |pointers| > 0 {
      var n := |pointers| - 1;
      if pointers[n].0 != level {
        LastPointerIs(pointers[..n], level, before);
        assert forall j :: 0 <= j < n ==> pointers[..n][j] == pointers[j];
      }
    }
  }

  lemma {:induction false} LastPointerConcat(a: seq<(nat, Bytes)>, b: seq<(nat, Bytes)>, level: nat, before: Bytes)
    ensures LastPointer(a + b, level, before) == LastPointer(b, level, LastPointer(a, level, before))
  {
    if |b| == 0 {
      assert a + b == a;
    } else {
      var n := |b| - 1;
      assert (a + b)[..|a + b| - 1] == a + b[..n];
      LastPointerConcat(a, b[..n], level, before);
    }
  }

  lemma OneMorePointers(c: Catalog, done: seq<Bytes>, record: Bytes, level: nat, before: Bytes)
    ensures LastPointer(PointersIn(c, done + [record]), level, before)
            == LastPointer(EditIn(c, record).compactPointers, level, LastPointer(PointersIn(c, done), level, before))
  {
    hide EditIn;
    assert (done + [record])[..|done|] == done;
    LastPointerConcat(PointersIn(c, done), EditIn(c, record).compactPointers, level, before);
  }

  ghost predicate PointersFrom(c: Catalog, records: seq<Bytes>, before: seq<Bytes>, now: seq<Bytes>) {
    && |before| == |now|
    && forall l :: 0 <= l < |now| ==> now[l] == LastPointer(PointersIn(c, records), l, before[l])
  }

  lemma NoPointers(c: Catalog, before: seq<Bytes>)
    ensures PointersFrom(c, [], before, before)
  {}

  lemma PointersMove(c: Catalog, done: seq<Bytes>, record: Bytes, before: seq<Bytes>, now: seq<Bytes>, next: seq<Bytes>)
    requires PointersFrom(c, done, before, now) && |next| == |now|
    requires forall l :: 0 <= l < |now| ==> next[l] == LastPointer(EditIn(c, record).compactPointers, l, now[l])
    ensures PointersFrom(c, done + [record], before, next)
  {
    hide EditIn;
    forall l | 0 <= l < |now| ensures next[l] == LastPointer(PointersIn(c, done + [record]), l, before[l]) {
      OneMorePointers(c, done, record, l, before[l]);
    }
  }
}
