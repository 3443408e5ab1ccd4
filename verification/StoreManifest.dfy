/**
 The edits that the store's own steps write to the MANIFEST: a flush, a move and a compaction each
 hand one to the version set.

 They add no file to a level it was in before, so that replaying the MANIFEST after any run finds
 the files the store had.
 */
module StoreManifest {
  import opened Coding
  import opened Sequences
  import opened VersionSet
  import opened CompactionInputs
  import opened CompactionWork
  import opened LevelEdits
  import opened Store
  import opened StoreSteps
  import opened CompactionStep
  import opened CompactionTheorem
  import opened VersionEdits
  import opened VersionBuilder
  import opened Manifest
  import Runs

  /** What a step does to the files: inputs leave `level` and the next, outputs join `to`. */
  datatype Change = Change(level: nat, in0: seq<File>, in1: seq<File>, to: nat, outputs: seq<File>)

  predicate ChangesFiles(s: Runs.Step) {
    s.Flush? || s.Move? || s.Compact?
  }

  ghost function ChangeOf(st: State, s: Runs.Step): Change
    requires |st.levels| == NUM_LEVELS && ChangesFiles(s) && Runs.Enabled(st, s)
  {
    match s
    case Flush(level, size) =>
      Change(level, [], [], level, if |st.imm.value| == 0 then [] else [MakeFile(st.nextFile, size, st.imm.value)])
    case Move(level, f) => Change(level, [f], [], level + 1, [f])
    case Compact(level, in0, in1, _, outputs) => Change(level, in0, in1, level + 1, outputs)
  }

  /** Deleted files are collected in an ordered set. */
  function DeletePairs(s: seq<(nat, nat)>, level: nat, files: seq<File>): seq<(nat, nat)> {
    if |files| == 0 then s
    else InsertPair(DeletePairs(s, level, files[..|files| - 1]), (level, files[|files| - 1].number))
  }

  /** The edit of a change; `rest` brings the counters and the compaction pointers. */
  function EditOf(ch: Change, rest: Edit): Edit {
    rest.(deleted := DeletePairs(DeletePairs([], ch.level, ch.in0), ch.level + 1, ch.in1),
          newFiles := AtLevel(ch.outputs, ch.to))
  }

  // ------------------------------------------------------------------------
  // The set of deleted files

  lemma {:induction false} InsertPairMembers(s: seq<(nat, nat)>, p: (nat, nat))
    ensures forall q :: q in InsertPair(s, p) <==> q in s || q == p
  {
    if |s| > 0 && !PairLess(s[|s| - 1], p) && s[|s| - 1] != p {
      InsertPairMembers(s[..|s| - 1], p);
      Unsnoc(s);
    }
  }

  lemma {:induction false} InsertPairAscends(s: seq<(nat, nat)>, p: (nat, nat))
    requires Ascending(s)
    ensures Ascending(InsertPair(s, p))
  {
    if |s| > 0 && !PairLess(s[|s| - 1], p) && s[|s| - 1] != p {
      var n := |s| - 1;
      InsertPairAscends(s[..n], p);
      InsertPairMembers(s[..n], p);
      var r := InsertPair(s[..n], p);
      forall k | 0 <= k < |r| ensures PairLess(r[k], s[n]) {
        assert r[k] in r;
        if r[k] in s[..n] {
          var m :| 0 <= m < n && s[m] == r[k];
        }
      }
    }
  }

  lemma {:induction false} DeletePairsMembers(s: seq<(nat, nat)>, level: nat, files: seq<File>)
    ensures forall q :: q in DeletePairs(s, level, files) <==> q in s || (q.0 == level && q.1 in Numbers(files))
  {
    hide InsertPair;
    if |files| > 0 {
      var n := |files| - 1;
      DeletePairsMembers(s, level, files[..n]);
      InsertPairMembers(DeletePairs(s, level, files[..n]), (level, files[n].number));
      NumbersSnoc(files);
    }
  }

  lemma NumbersSnoc(files: seq<File>)
    requires |files| > 0
    ensures Numbers(files) == Numbers(files[..|files| - 1]) + {files[|files| - 1].number}
  {
    var n := |files| - 1;
    Unsnoc(files);
    assert files[n] in files;
    forall f | f in files[..n] ensures f in files {}
  }

  lemma {:induction false} DeletePairsAscend(s: seq<(nat, nat)>, level: nat, files: seq<File>)
    requires Ascending(s)
    ensures Ascending(DeletePairs(s, level, files))
  {
    if |files| > 0 {
      DeletePairsAscend(s, level, files[..|files| - 1]);
      InsertPairAscends(DeletePairs(s, level, files[..|files| - 1]), (level, files[|files| - 1].number));
    }
  }

  function DeletedAt(ch: Change, l: nat): set<nat> {
    if l == ch.level then Numbers(ch.in0) else if l == ch.level + 1 then Numbers(ch.in1) else {}
  }

  function AddedAt(ch: Change, l: nat): seq<File> {
    if l == ch.to then ch.outputs else []
  }

  /** Level by level, the edit deletes the inputs and adds the outputs. */
  lemma EditByLevel(ch: Change, rest: Edit, l: nat)
    ensures DeletedIn(EditOf(ch, rest).deleted, l) == DeletedAt(ch, l)
    ensures NewIn(EditOf(ch, rest).newFiles, l) == AddedAt(ch, l)
  {
    hide DeletePairs;
    hide Numbers;
    var first := DeletePairs([], ch.level, ch.in0);
    DeletePairsMembers([], ch.level, ch.in0);
    DeletePairsMembers(first, ch.level + 1, ch.in1);
    var d := EditOf(ch, rest).deleted;
    forall n ensures n in DeletedIn(d, l) <==> (l, n) in d {
      if (l, n) in d { var i :| 0 <= i < |d| && d[i] == (l, n); }
    }
    NewInAtLevel(ch.outputs, ch.to, l);
  }

  // ------------------------------------------------------------------------
  // One step

  /** `seen` has the numbers each level ever held, all of them handed out; no file is at a level above
      one it was at before. */
  ghost predicate SeenOk(levels: seq<seq<File>>, nextFile: nat, seen: seq<set<nat>>) {
    && |levels| == NUM_LEVELS && SeenShape(seen)
    && (forall l, n :: 0 <= l < NUM_LEVELS && n in seen[l] ==> n < nextFile)
    && (forall l, f :: 0 <= l < NUM_LEVELS && f in levels[l] ==> f.number in seen[l])
    && (forall l, m, f :: 0 <= l < m < NUM_LEVELS && f in levels[l] ==> f.number !in seen[m])
  }

  /** Outputs have new numbers, or are inputs that go one level down. */
  ghost predicate ChangeOk(levels: seq<seq<File>>, nextFile: nat, ch: Change, nextFile': nat)
    requires |levels| == NUM_LEVELS
  {
    && ch.level < NUM_LEVELS && ch.to < NUM_LEVELS && nextFile <= nextFile'
    && (|ch.in0| > 0 ==> ch.to == ch.level + 1)
    && (forall f :: f in ch.in0 ==> f in levels[ch.level])
    && (forall f :: f in ch.in1 ==> ch.level + 1 < NUM_LEVELS && f in levels[ch.level + 1])
    && NumbersDiffer(ch.outputs)
    && (forall f :: f in ch.outputs ==> f.number < nextFile' && (f.number >= nextFile || f in ch.in0))
  }

  lemma ChangeIsFresh(levels: seq<seq<File>>, nextFile: nat, ch: Change, nextFile': nat, rest: Edit, seen: seq<set<nat>>)
    requires SeenOk(levels, nextFile, seen) && ChangeOk(levels, nextFile, ch, nextFile')
    ensures FreshEdit(EditOf(ch, rest), seen)
  {
    hide EditOf;
    hide NewIn;
    forall l | 0 <= l < NUM_LEVELS
      ensures NumbersDiffer(NewIn(EditOf(ch, rest).newFiles, l)) && NoneOf(NewIn(EditOf(ch, rest).newFiles, l), seen[l])
    {
      EditByLevel(ch, rest, l);
      forall i | 0 <= i < |ch.outputs| ensures ch.outputs[i].number !in seen[ch.to] {
        assert ch.outputs[i] in ch.outputs;
      }
    }
  }

  lemma ChangeKeepsSeen(levels: seq<seq<File>>, nextFile: nat, ch: Change, nextFile': nat, rest: Edit, seen: seq<set<nat>>)
    requires SeenOk(levels, nextFile, seen) && ChangeOk(levels, nextFile, ch, nextFile') && NumbersUnique(levels)
    ensures SeenOk(ApplyEdit(levels, EditOf(ch, rest)), nextFile', SeenAfter(seen, EditOf(ch, rest)))
  {
    hide EditOf;
    hide NewIn;
    hide DeletedIn;
    var levels', seen' := ApplyEdit(levels, EditOf(ch, rest)), SeenAfter(seen, EditOf(ch, rest));
    forall l | 0 <= l < NUM_LEVELS
      ensures seen'[l] == seen[l] + Numbers(AddedAt(ch, l))
      ensures forall f :: f in levels'[l] <==> (f in levels[l] && f.number !in DeletedAt(ch, l)) || f in AddedAt(ch, l)
    {
      EditByLevel(ch, rest, l);
      DropMembers(levels[l], DeletedAt(ch, l));
      AddMembers(DropFiles(levels[l], DeletedAt(ch, l)), AddedAt(ch, l));
    }
    forall l: nat, m: nat, f: File | l < m < NUM_LEVELS && f in levels'[l] ensures f.number !in seen'[m] {
      StaysAbove(levels, nextFile, ch, nextFile', seen, l, m, f);
    }
  }

  lemma StaysAbove(levels: seq<seq<File>>, nextFile: nat, ch: Change, nextFile': nat, seen: seq<set<nat>>,
                   l: nat, m: nat, f: File)
    requires SeenOk(levels, nextFile, seen) && ChangeOk(levels, nextFile, ch, nextFile') && NumbersUnique(levels)
    requires l < m < NUM_LEVELS
    requires (f in levels[l] && f.number !in DeletedAt(ch, l)) || f in AddedAt(ch, l)
    ensures f.number !in seen[m] + Numbers(AddedAt(ch, m))
  {
    if f in AddedAt(ch, l) {
      NoNumbers();
    } else if m == ch.to {
      forall g | g in ch.outputs ensures g.number != f.number {
        if g in ch.in0 {
          if g.number == f.number { SameNumber(levels, ch.level, l, g, f); }
          assert g.number in Numbers(ch.in0);
        } else {
          assert f.number in seen[l];
        }
      }
    } else {
      NoNumbers();
    }
  }

  lemma FlushIsOk(st: State, level: nat, size: nat)
    requires Inv(st) && Runs.Enabled(st, Runs.Flush(level, size))
    ensures ChangeOk(st.levels, st.nextFile, ChangeOf(st, Runs.Flush(level, size)), Flushed(st, level, size).nextFile)
    ensures forall l :: 0 <= l < NUM_LEVELS ==>
              Flushed(st, level, size).levels[l] == AddFiles(st.levels[l], AddedAt(ChangeOf(st, Runs.Flush(level, size)), l))
  {
    if |st.imm.value| > 0 {
      AddOne(st.levels[level], MakeFile(st.nextFile, size, st.imm.value));
    }
  }

  lemma AddOne(files: seq<File>, f: File)
    ensures AddFiles(files, [f]) == InsertFile(files, f)
  {
    assert [f][..0] == [];
  }

  /** The levels after a rearrangement, one by one. */
  lemma RearrangedLevel(levels: seq<seq<File>>, ch: Change, l: nat)
    requires |levels| == NUM_LEVELS && ch.level + 1 < NUM_LEVELS && ch.to == ch.level + 1 && l < NUM_LEVELS
    ensures EditLevels(levels, ch.level, ch.in0, ch.in1, ch.outputs)[l]
            == AddFiles(DropFiles(levels[l], DeletedAt(ch, l)), AddedAt(ch, l))
  {
    DropNothing(levels[l]);
  }

  lemma MoveIsOk(st: State, level: nat, f: File)
    requires Inv(st) && Runs.Enabled(st, Runs.Move(level, f))
    ensures ChangeOk(st.levels, st.nextFile, ChangeOf(st, Runs.Move(level, f)), st.nextFile)
  {
    InputsInLevels(st.levels, level, [f], []);
    assert f in [f];
    assert FileOk(f, st.nextFile);
  }

  lemma CompactIsOk(st: State, s: Runs.Step)
    requires Inv(st) && s.Compact? && Runs.Enabled(st, s)
    ensures ChangeOk(st.levels, st.nextFile, ChangeOf(st, s), st.nextFile + |s.outputs|)
  {
    hide Inv;
    hide ClosedInputs;
    InvLevels(st);
    InputsInLevels(st.levels, s.level, s.in0, s.in1);
    NumberedFrom(s.outputs, st.nextFile);
  }

  lemma InvLevels(st: State)
    requires Inv(st)
    ensures LevelsOk(st.levels, st.nextFile) && NumbersUnique(st.levels)
  {}

  lemma NumberedFrom(outputs: seq<File>, first: nat)
    requires OutputsFrom(outputs, first)
    ensures NumbersDiffer(outputs) && forall f :: f in outputs ==> first <= f.number < first + |outputs|
  {}

  lemma StepChangeOk(st: State, s: Runs.Step)
    requires Inv(st) && ChangesFiles(s) && Runs.Enabled(st, s)
    ensures ChangeOk(st.levels, st.nextFile, ChangeOf(st, s), Runs.Apply(st, s).nextFile)
  {
    hide ChangeOk;
    hide Inv;
    match s
    case Flush(level, size) => FlushIsOk(st, level, size);
    case Move(level, f) => MoveIsOk(st, level, f);
    case Compact(_, _, _, _, _) => CompactIsOk(st, s);
  }

  /** The edit says what the step does to the levels. */
  lemma EditIsStep(st: State, s: Runs.Step, rest: Edit)
    requires Inv(st) && ChangesFiles(s) && Runs.Enabled(st, s)
    ensures ApplyEdit(st.levels, EditOf(ChangeOf(st, s), rest)) == Runs.Apply(st, s).levels
  {
    hide Inv;
    hide EditOf;
    hide NewIn;
    hide DeletedIn;
    hide GoodInputs;
    hide CompactionOutput;
    InvLevels(st);
    var ch := ChangeOf(st, s);
    var levels' := Runs.Apply(st, s).levels;
    if s.Flush? { FlushIsOk(st, s.level, s.size); }
    forall l: nat | l < NUM_LEVELS
      ensures ApplyEdit(st.levels, EditOf(ch, rest))[l] == levels'[l]
    {
      EditByLevel(ch, rest, l);
      if s.Flush? {
        NoNumbers();
        DropNothing(st.levels[l]);
      } else {
        RearrangedLevel(st.levels, ch, l);
      }
    }
  }

  /** A flush, a move and a compaction each give `LogAndApply` a fresh edit, and it makes the levels theirs. */
  lemma StepEdit(st: State, s: Runs.Step, rest: Edit, seen: seq<set<nat>>)
    requires Inv(st) && ChangesFiles(s) && Runs.Enabled(st, s) && SeenOk(st.levels, st.nextFile, seen)
    ensures var e := EditOf(ChangeOf(st, s), rest); var st' := Runs.Apply(st, s);
            && FreshEdit(e, seen) && ApplyEdit(st.levels, e) == st'.levels
            && SeenOk(st'.levels, st'.nextFile, SeenAfter(seen, e))
  {
    hide Inv;
    hide EditOf;
    hide ChangeOf;
    hide ChangeOk;
    hide SeenOk;
    hide FreshEdit;
    hide ApplyEdit;
    hide SeenAfter;
    hide Runs.Apply;
    hide Runs.Enabled;
    InvLevels(st);
    var ch := ChangeOf(st, s);
    StepChangeOk(st, s);
    EditIsStep(st, s, rest);
    ChangeIsFresh(st.levels, st.nextFile, ch, Runs.Apply(st, s).nextFile, rest, seen);
    ChangeKeepsSeen(st.levels, st.nextFile, ch, Runs.Apply(st, s).nextFile, rest, seen);
  }

  // ------------------------------------------------------------------------
  // Whole runs

  /** The edits written by the first `k` steps of a run, in order. */
  ghost function EditsOf(states: seq<State>, steps: seq<Runs.Step>, rest: seq<Edit>, k: nat): seq<Edit>
    requires Runs.IsRun(states, steps) && |rest| == |steps| && k <= |steps|
  {
    if k == 0 then []
    else EditsOf(states, steps, rest, k - 1)
         + if ChangesFiles(steps[k - 1]) then [EditOf(ChangeOf(states[k - 1], steps[k - 1]), rest[k - 1])] else []
  }

  lemma AppendEdit(levels: seq<seq<File>>, seen: seq<set<nat>>, es: seq<Edit>, e: Edit)
    requires |levels| == NUM_LEVELS && SeenShape(seen)
    ensures ApplyAll(levels, es + [e]) == ApplyEdit(ApplyAll(levels, es), e)
    ensures SeenAll(seen, es + [e]) == SeenAfter(SeenAll(seen, es), e)
  {
    hide ApplyEdit;
    hide SeenAfter;
    assert (es + [e])[..|es|] == es;
  }

  lemma OtherStepKeepsFiles(st: State, s: Runs.Step)
    requires |st.levels| == NUM_LEVELS && Runs.Enabled(st, s) && !ChangesFiles(s)
    ensures Runs.Apply(st, s).levels == st.levels && Runs.Apply(st, s).nextFile == st.nextFile
  {
    if s.WriteBatch? { WriteKeepsFiles(st, s.ops); }
  }

  lemma {:induction false} WriteKeepsFiles(st: State, ops: seq<Op>)
    ensures Write(st, ops).levels == st.levels && Write(st, ops).nextFile == st.nextFile
  {
    if |ops| > 0 {
      WriteKeepsFiles(st, ops[..|ops| - 1]);
    }
  }

  lemma StartSeen()
    ensures Runs.EMPTY.levels == NO_LEVELS && SeenOk(NO_LEVELS, Runs.EMPTY.nextFile, NumbersOf(NO_LEVELS))
  {
    NoNumbers();
    assert forall l :: 0 <= l < NUM_LEVELS ==> NO_LEVELS[l] == [];
  }

  /** Applying the edits one by one follows the store, and each of them is fresh. */
  lemma {:induction false} EditsFollow(states: seq<State>, steps: seq<Runs.Step>, rest: seq<Edit>, k: nat)
    requires Runs.IsRun(states, steps) && |rest| == |steps| && k <= |steps|
    ensures var es := EditsOf(states, steps, rest, k);
            && ApplyAll(NO_LEVELS, es) == states[k].levels
            && SeenOk(states[k].levels, states[k].nextFile, SeenAll(NumbersOf(NO_LEVELS), es))
  {
    hide Inv;
    hide EditOf;
    hide ChangeOf;
    hide SeenOk;
    hide FreshEdit;
    hide ApplyEdit;
    hide SeenAfter;
    hide NumbersOf;
    hide Runs.Apply;
    hide Runs.Enabled;
    hide Runs.Safe;
    if k == 0 {
      StartSeen();
    } else {
      EditsFollow(states, steps, rest, k - 1);
      Runs.RunsAreFaithful(states, steps, k - 1, 0, 0);
      var es := EditsOf(states, steps, rest, k - 1);
      var st, s := states[k - 1], steps[k - 1];
      if ChangesFiles(s) {
        var e := EditOf(ChangeOf(st, s), rest[k - 1]);
        StepEdit(st, s, rest[k - 1], SeenAll(NumbersOf(NO_LEVELS), es));
        AppendEdit(NO_LEVELS, NumbersOf(NO_LEVELS), es, e);
      } else {
        OtherStepKeepsFiles(st, s);
        assert es + [] == es;
      }
    }
  }

  /** The counters of the edit fit their fields, and the tables it adds are known. */
  ghost predicate Writable(c: Catalog, name: Bytes, ch: Change, rest: Edit) {
    && FieldsFit(HeadFields(rest)) && FieldsFit(PointerFields(rest.compactPointers)) && CompleteEdit(rest, name)
    && FilesKnown(c, AtLevel(ch.outputs, ch.to))
  }

  ghost predicate AllWritable(c: Catalog, name: Bytes, states: seq<State>, steps: seq<Runs.Step>, rest: seq<Edit>)
    requires Runs.IsRun(states, steps) && |rest| == |steps|
  {
    forall i :: 0 <= i < |steps| && ChangesFiles(steps[i]) ==>
      states[i].nextFile <= TWO_64 && Writable(c, name, ChangeOf(states[i], steps[i]), rest[i])
  }

  /** File numbers in use fit their field. */
  lemma DeletedFit(st: State, ch: Change, rest: Edit, nextFile': nat)
    requires LevelsOk(st.levels, st.nextFile) && st.nextFile <= TWO_64
    requires ChangeOk(st.levels, st.nextFile, ch, nextFile')
    ensures FieldsFit(DeletedFields(EditOf(ch, rest).deleted)) && Ascending(EditOf(ch, rest).deleted)
  {
    hide DeletePairs;
    var first := DeletePairs([], ch.level, ch.in0);
    DeletePairsMembers([], ch.level, ch.in0);
    DeletePairsMembers(first, ch.level + 1, ch.in1);
    DeletePairsAscend([], ch.level, ch.in0);
    DeletePairsAscend(first, ch.level + 1, ch.in1);
    var d := EditOf(ch, rest).deleted;
    forall i | 0 <= i < |d| ensures d[i].0 < NUM_LEVELS && d[i].1 < TWO_64 {
      assert d[i] in d;
      if d[i] in first {
        var f :| f in ch.in0 && f.number == d[i].1;
        assert FileOk(f, st.nextFile);
      } else {
        var f :| f in ch.in1 && f.number == d[i].1;
        assert FileOk(f, st.nextFile);
      }
    }
  }

  lemma StepEncodable(c: Catalog, name: Bytes, st: State, s: Runs.Step, rest: Edit)
    requires Inv(st) && ChangesFiles(s) && Runs.Enabled(st, s) && st.nextFile <= TWO_64
    requires Writable(c, name, ChangeOf(st, s), rest)
    ensures Encodable(c, EditOf(ChangeOf(st, s), rest)) && CompleteEdit(EditOf(ChangeOf(st, s), rest), name)
  {
    hide Inv;
    hide ChangeOf;
    hide ChangeOk;
    hide Known;
    hide FieldFits;
    hide Runs.Apply;
    hide Runs.Enabled;
    InvLevels(st);
    StepChangeOk(st, s);
    DeletedFit(st, ChangeOf(st, s), rest, Runs.Apply(st, s).nextFile);
    var e := EditOf(ChangeOf(st, s), rest);
    assert HeadFields(e) == HeadFields(rest);
  }

  /** One more edit of a good run. */
  lemma GoodSnoc(c: Catalog, name: Bytes, seen: seq<set<nat>>, es: seq<Edit>, e: Edit)
    requires SeenShape(seen) && GoodRun(c, name, seen, es)
    requires Encodable(c, e) && CompleteEdit(e, name) && FreshEdit(e, SeenAll(seen, es))
    ensures GoodRun(c, name, seen, es + [e])
  {
    hide Encodable;
    hide CompleteEdit;
    hide FreshEdit;
    hide SeenAll;
    assert (es + [e])[..|es|] == es;
  }

  lemma NextEditIsGood(c: Catalog, name: Bytes, states: seq<State>, steps: seq<Runs.Step>, rest: seq<Edit>, k: nat)
    requires Runs.IsRun(states, steps) && |rest| == |steps| && k < |steps| && AllWritable(c, name, states, steps, rest)
    requires ChangesFiles(steps[k])
    requires GoodRun(c, name, NumbersOf(NO_LEVELS), EditsOf(states, steps, rest, k))
    ensures GoodRun(c, name, NumbersOf(NO_LEVELS), EditsOf(states, steps, rest, k + 1))
  {
    hide Inv;
    hide EditOf;
    hide ChangeOf;
    hide SeenOk;
    hide FreshEdit;
    hide SeenAfter;
    hide SeenAll;
    hide NumbersOf;
    hide Encodable;
    hide CompleteEdit;
    hide Writable;
    hide GoodRun;
    hide Runs.Apply;
    hide Runs.Enabled;
    hide Runs.Safe;
    var es := EditsOf(states, steps, rest, k);
    var st, s := states[k], steps[k];
    Runs.RunsAreFaithful(states, steps, k, 0, 0);
    EditsFollow(states, steps, rest, k);
    StepEdit(st, s, rest[k], SeenAll(NumbersOf(NO_LEVELS), es));
    StepEncodable(c, name, st, s, rest[k]);
    GoodSnoc(c, name, NumbersOf(NO_LEVELS), es, EditOf(ChangeOf(st, s), rest[k]));
  }

  lemma {:induction false} EditsAreGood(c: Catalog, name: Bytes, states: seq<State>, steps: seq<Runs.Step>,
                                        rest: seq<Edit>, k: nat)
    requires Runs.IsRun(states, steps) && |rest| == |steps| && k <= |steps| && AllWritable(c, name, states, steps, rest)
    ensures GoodRun(c, name, NumbersOf(NO_LEVELS), EditsOf(states, steps, rest, k))
  {
    hide Runs.IsRun;
    hide AllWritable;
    if k > 0 {
      EditsAreGood(c, name, states, steps, rest, k - 1);
      if ChangesFiles(steps[k - 1]) {
        NextEditIsGood(c, name, states, steps, rest, k - 1);
      } else {
        var es := EditsOf(states, steps, rest, k - 1);
        assert es + [] == es;
      }
    }
  }

  /** Replaying the MANIFEST that a run has written finds the files the store has. */
  lemma RunReplays(c: Catalog, name: Bytes, states: seq<State>, steps: seq<Runs.Step>, rest: seq<Edit>, k: nat)
    requires Runs.IsRun(states, steps) && |rest| == |steps| && k <= |steps| && AllWritable(c, name, states, steps, rest)
    requires |name| < TWO_32
    ensures var es := EditsOf(states, steps, rest, k);
            var f := ReplayAll(c, name, [EncodeEdit(c, Snapshot(name, [], NO_LEVELS))] + Encoded(c, es));
            && f.ok && SaveAll(NO_LEVELS, f.batch) == states[k].levels
            && (|es| > 0 ==> CompleteEdit(es[|es| - 1], name) && DescribesCounters(f, CountersOf(es[|es| - 1])))
  {
    hide Runs.IsRun;
    hide AllWritable;
    hide EditsOf;
    hide EncodeEdit;
    hide SaveAll;
    hide ReplayAll;
    hide GoodRun;
    hide NumbersOf;
    FirstRecordFits(c, name);
    EditsAreGood(c, name, states, steps, rest, k);
    EditsFollow(states, steps, rest, k);
    ManifestReplay(c, name, [], NO_LEVELS, EditsOf(states, steps, rest, k));
  }

  lemma FirstRecordFits(c: Catalog, name: Bytes)
    requires |name| < TWO_32
    ensures AllSorted(NO_LEVELS) && Encodable(c, Snapshot(name, [], NO_LEVELS))
  {
    assert forall l :: 0 <= l < NUM_LEVELS ==> NO_LEVELS[l] == [];
    NoFlatFiles(NUM_LEVELS);
  }

  lemma {:induction false} NoFlatFiles(n: nat)
    requires n <= NUM_LEVELS
    ensures FlatFiles(NO_LEVELS, n) == []
  {
    if n > 0 {
      NoFlatFiles(n - 1);
      assert NO_LEVELS[n - 1] == [];
    }
  }
}
