/**
 A compaction that readers do not notice, and a crash that they do.

 Key 2, once deleted, is written again; only the log and the memtable have the new value.  The compaction
 of `ResurrectionExample` then drops the deletion and leaves the value from before it, hidden by the new
 one.  If the crash takes the end of the log, the value from before the deletion is what the store shows.
 */
module LostOverwriteExample {
  import opened Entries
  import opened VersionSet
  import opened CompactionInputs
  import opened CompactionWork
  import opened Layers
  import opened Store
  import opened CompactionMeaning
  import opened CompactionStep
  import opened CompactionTheorem
  import opened ResurrectionExample
  import opened ResurrectionRun
  import opened CrashSafety
  import opened Choices
  import opened Runs

  const AGAIN2 := Entry(InternalKey(2, 6, Value), "again")
  const WRITTEN_AGAIN := State([AGAIN2], None, LEVELS, 6, [], 7, ALL + {AGAIN2})

  lemma WriteAgain()
    ensures Write(STATE, [Put(2, "again")]) == WRITTEN_AGAIN
  {
    OneOp(STATE, Put(2, "again"));
    InsertFirst(AGAIN2);
  }

  lemma AgainIsReached()
    ensures Reached(WRITTEN_AGAIN, OPTIONS)
  {
    hide Reached;
    ExampleIsReachable();
    WriteAgain();
    Reaches(STATE, WriteBatch([Put(2, "again")]), WRITTEN_AGAIN);
  }

  lemma LastIsEnabled()
    ensures Runs.Enabled(WRITTEN_AGAIN, LAST)
  {
    hide GoodInputs;
    hide BaseLevel;
    hide KeptUpTo;
    LastOutput();
    ExampleInputs();
    ExampleContents();
    NothingBelow();
    ExampleKept([NEW1, OLD1, GONE2], 6, BaseLevel(LEVELS, 2));
  }

  lemma NothingBelow()
    ensures BaseLevel(LEVELS, 2)(2)
  {}

  lemma LastOutput()
    ensures OutputsFrom([OUTPUT], 7) && AllEntries([OUTPUT]) == [NEW1]
    ensures Elements([NEW1, OLD1, GONE2]) == {NEW1} + {OLD1, GONE2} && Sorted([NEW1, OLD1, GONE2])
  {}

  lemma AgainLayers()
    ensures LayersOf(WRITTEN_AGAIN) == LayersOf(STATE)[0 := {AGAIN2}]
  {
    assert Elements([AGAIN2]) == {AGAIN2};
  }

  lemma AgainSplit()
    ensures var p := SplitOf(WRITTEN_AGAIN, 2, [UPPER], [LEFT]);
            p.left1 == {OLD2, FAR9} && p.in1 == {OLD1, GONE2} && AGAIN2 in p.Before()
  {
    hide Read;
    ExampleContents();
    ExampleLayers();
    AgainLayers();
    var ls := LayersOf(WRITTEN_AGAIN);
    assert ls[0] == {AGAIN2} && ls[5] == LOWER;
    assert ls[..4][0] == {AGAIN2};
    assert AGAIN2 in Union(ls[..4]);
  }

  /** Everyone who reads sees the new value, so no deletion mark is the newest entry of key 2. */
  lemma LastIsSafe()
    ensures forall u :: !ResurrectsKey(WRITTEN_AGAIN, 2, [UPPER], [LEFT], u)
  {
    AgainSplit();
    NothingBack(SplitOf(WRITTEN_AGAIN, 2, [UPPER], [LEFT]), BaseLevel(LEVELS, 2));
  }

  lemma NothingBack(p: Split, base: UserKey -> bool)
    requires p.left1 == {OLD2, FAR9} && p.in1 == {OLD1, GONE2} && AGAIN2 in p.Before()
    ensures forall u :: !p.Resurrects(u, 6, base)
  {
    hide Split.Before;
    forall u, t | t in p.in1 && u == 2 ensures !Newest(p.Before(), u, 6, t) {
      assert Visible(p.Before(), 2, 6, AGAIN2);
    }
  }

  lemma ReopensAsExample()
    ensures |LEVELS| == NUM_LEVELS && Replayed(Compacted(WRITTEN_AGAIN, 2, [UPPER], [LEFT], [OUTPUT]), [])
    ensures Reopened(Compacted(WRITTEN_AGAIN, 2, [UPPER], [LEFT], [OUTPUT]), [], 5)
            == Compacted(STATE, 2, [UPPER], [LEFT], [OUTPUT])
  {
    hide EditLevels;
    assert Elements([AGAIN2]) == {AGAIN2};
    assert ALL + {AGAIN2} - {AGAIN2} == ALL;
  }

  lemma AfterIsFaithful()
    requires Reached(WRITTEN_AGAIN, OPTIONS) && Runs.Enabled(WRITTEN_AGAIN, LAST) && Safe(WRITTEN_AGAIN, LAST)
    ensures Faithful(Runs.Apply(WRITTEN_AGAIN, LAST))
  {
    ReachedIsGood(WRITTEN_AGAIN, OPTIONS);
    StepOk(WRITTEN_AGAIN, LAST);
  }

  lemma LaterUnseen()
    requires Read(ALL, 2, 5) == None
    ensures Read(ALL + {AGAIN2}, 2, 5) == None
  {
    ExampleSeqNos();
    NewerIsUnseen(ALL, AGAIN2, 2, 5);
  }

  lemma LastIsApplied()
    requires Runs.Enabled(WRITTEN_AGAIN, LAST)
    ensures Runs.Apply(WRITTEN_AGAIN, LAST) == Compacted(WRITTEN_AGAIN, 2, [UPPER], [LEFT], [OUTPUT])
    ensures Runs.Apply(WRITTEN_AGAIN, LAST).history == ALL + {AGAIN2}
  {}

  /** After a run of safe steps a compaction is safe, readers see the history before and after it, and still a
      crash that loses only the last, unflushed write brings key 2 back. */
  lemma LostOverwriteReturns()
    ensures Reached(WRITTEN_AGAIN, OPTIONS) && Runs.Enabled(WRITTEN_AGAIN, LAST) && Safe(WRITTEN_AGAIN, LAST)
    ensures Chosen(WRITTEN_AGAIN, LAST, OPTIONS, false)
    ensures var after := Runs.Apply(WRITTEN_AGAIN, LAST); var reopened := Reopened(after, [], 5);
            && Faithful(after) && Replayed(after, [])
            && Read(after.history, 2, 5) == None && Read(Stored(reopened), 2, 5).Some?
  {
    hide Reached;
    hide Chosen;
    hide Inv;
    hide GoodInputs;
    hide CompactionOutput;
    hide ResurrectsKey;
    hide Compacted;
    hide Replayed;
    hide Reopened;
    hide Stored;
    hide Faithful;
    AgainIsReached();
    LastIsEnabled();
    LastIsSafe();
    LastIsChosen(WRITTEN_AGAIN);
    AfterIsFaithful();
    LastIsApplied();
    ReopensAsExample();
    ValueIsBack();
    LaterUnseen();
  }
}
