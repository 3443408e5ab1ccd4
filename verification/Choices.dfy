/**
 What the database itself chooses when it takes a step: the level of a flushed memtable, whether a
 compaction is a mere move, and where its outputs are cut.  `Runs` leaves all of this open.
 */
module Choices {
  import opened Entries
  import opened VersionSet
  import opened CompactionInputs
  import opened OutputCuts
  import opened Store
  import Runs

  /** The limits set by the options, and the sizes that the table builder reports. */
  datatype Options = Options(overlap: nat, fileSize: nat, sizeOf: seq<Entry> -> nat)

  const MAX_MEM_COMPACT_LEVEL := 2

  ghost predicate OverlapsLevel(files: seq<File>, lo: UserKey, hi: UserKey) {
    exists f :: f in files && Overlaps(f, Some(lo), Some(hi))
  }

  /** A new file may go down to `level` from the one above. */
  ghost predicate MayEnter(levels: seq<seq<File>>, level: nat, lo: UserKey, hi: UserKey, overlap: nat)
    requires level < |levels|
  {
    && !OverlapsLevel(levels[level], lo, hi)
    && (level + 1 < |levels| ==> TotalFileSize(OverlapFilter(levels[level + 1], Some(lo), Some(hi))) <= overlap)
  }

  /** The level a flushed memtable goes to: as far down as it may, but not beyond the second. */
  ghost predicate FlushLevel(levels: seq<seq<File>>, level: nat, lo: UserKey, hi: UserKey, overlap: nat)
    requires |levels| == NUM_LEVELS
  {
    && level <= MAX_MEM_COMPACT_LEVEL
    && if OverlapsLevel(levels[0], lo, hi) then level == 0
       else
         && (forall l :: 1 <= l <= level ==> MayEnter(levels, l, lo, hi, overlap))
         && (level < MAX_MEM_COMPACT_LEVEL ==> !MayEnter(levels, level + 1, lo, hi, overlap))
  }

  /** A lone input with nothing to merge it with, and not too much below it, is moved as it is. */
  predicate IsTrivialMove(levels: seq<seq<File>>, level: nat, in0: seq<File>, in1: seq<File>, o: Options)
    requires |levels| == NUM_LEVELS
  {
    |in0| == 1 && |in1| == 0 && TotalFileSize(Grandparents(levels, level, in0, in1)) <= o.overlap
  }

  function LimitsOf(levels: seq<seq<File>>, level: nat, in0: seq<File>, in1: seq<File>, o: Options): Limits
    requires |levels| == NUM_LEVELS && |in0| > 0
  {
    Limits(Grandparents(levels, level, in0, in1), o.overlap, o.fileSize, o.sizeOf)
  }

  /** The step is one the database takes with these options. */
  ghost predicate Chosen(st: State, s: Runs.Step, o: Options, manual: bool)
    requires |st.levels| == NUM_LEVELS && Runs.Enabled(st, s)
  {
    match s
    case Flush(level, _) =>
      var es := st.imm.value;
      |es| > 0 ==> FlushLevel(st.levels, level, es[0].key.user, es[|es| - 1].key.user, o.overlap)
    case Move(level, f) => !manual && IsTrivialMove(st.levels, level, [f], [], o)
    case Compact(level, in0, in1, input, outputs) =>
      && (manual || !IsTrivialMove(st.levels, level, in0, in1, o))
      && CutAsTold(LimitsOf(st.levels, level, in0, in1, o), input, outputs)
    case _ => true
  }

  /** Compacting a whole key range reaches every level above the last one with files in it. */
  predicate RangeReaches(levels: seq<seq<File>>, level: nat) {
    exists m :: level < m < |levels| && |levels[m]| > 0
  }

  // ------------------------------------------------------------------------
  // Runs of the database itself

  /** A background step, or a step of a compaction of a whole key range. */
  ghost predicate Taken(st: State, s: Runs.Step, o: Options)
    requires |st.levels| == NUM_LEVELS && Runs.Enabled(st, s)
  {
    Chosen(st, s, o, false) || (s.Compact? && RangeReaches(st.levels, s.level) && Chosen(st, s, o, true))
  }

  ghost predicate IsTakenRun(states: seq<State>, steps: seq<Runs.Step>, o: Options) {
    Runs.IsRun(states, steps) && forall i :: 0 <= i < |steps| ==> Taken(states[i], steps[i], o)
  }

  /** Some run of the database ends here. */
  ghost predicate Reached(st: State, o: Options) {
    exists states, steps :: IsTakenRun(states, steps, o) && states[|steps|] == st
  }

  lemma StartIsReached(o: Options)
    ensures Reached(Runs.EMPTY, o)
  {
    assert IsTakenRun([Runs.EMPTY], [], o);
  }

  lemma StepIsReached(st: State, s: Runs.Step, o: Options)
    requires Reached(st, o) && |st.levels| == NUM_LEVELS && Runs.Enabled(st, s) && Runs.Safe(st, s) && Taken(st, s, o)
    ensures Reached(Runs.Apply(st, s), o)
  {
    hide Taken;
    hide Runs.Enabled;
    hide Runs.Safe;
    hide Runs.Apply;
    var states, steps :| IsTakenRun(states, steps, o) && states[|steps|] == st;
    var states', steps' := states + [Runs.Apply(st, s)], steps + [s];
    forall i | 0 <= i < |steps'|
      ensures |states'[i].levels| == NUM_LEVELS && Runs.Enabled(states'[i], steps'[i]) && Runs.Safe(states'[i], steps'[i])
      ensures states'[i + 1] == Runs.Apply(states'[i], steps'[i]) && Taken(states'[i], steps'[i], o)
    {
      if i < |steps| { assert states'[i] == states[i] && states'[i + 1] == states[i + 1] && steps'[i] == steps[i]; }
    }
    assert IsTakenRun(states', steps', o);
  }

  lemma ReachedIsGood(st: State, o: Options)
    requires Reached(st, o)
    ensures Runs.Good(st) && Faithful(st)
  {
    hide Taken;
    hide Runs.Good;
    hide Faithful;
    var states, steps :| IsTakenRun(states, steps, o) && states[|steps|] == st;
    Runs.RunsAreFaithful(states, steps, |steps|, 0, 0);
  }
}
