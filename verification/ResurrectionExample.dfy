/**
 A run after which a compaction does change what readers see.

 Level 3 holds two neighbours that share user key 2: the first ends with its deletion
 (sequence 4), the second begins with an older value (sequence 3), kept apart from it by a compaction
 that ran while a snapshot still needed the value.  Compacting the level-2 file, which only meets the
 first, drops the deletion as a base-level marker and leaves the value behind.
 */
module ResurrectionExample {
  import opened Entries
  import opened VersionSet
  import opened CompactionInputs
  import opened CompactionWork
  import opened Layers
  import opened Store
  import opened CompactionMeaning
  import opened CompactionTheorem

  const FAR9 := Entry(InternalKey(9, 1, Value), "far")
  const OLD1 := Entry(InternalKey(1, 2, Value), "old")
  const OLD2 := Entry(InternalKey(2, 3, Value), "back")
  const GONE2 := Entry(InternalKey(2, 4, Deletion), "")
  const NEW1 := Entry(InternalKey(1, 5, Value), "new")

  /** Sizes count entries: a file is full with two of them. */
  const FAR := MakeFile(2, 1, [FAR9])
  const LEFT := MakeFile(4, 2, [OLD1, GONE2])
  const RIGHT := MakeFile(5, 1, [OLD2])
  const UPPER := MakeFile(6, 1, [NEW1])
  const OUTPUT := MakeFile(7, 1, [NEW1])
  const LEVELS: seq<seq<File>> := [[], [], [UPPER], [LEFT, RIGHT, FAR], [], [], []]
  const LOWER: set<Entry> := {OLD1, GONE2, OLD2, FAR9}
  const ALL: set<Entry> := {NEW1, OLD1, GONE2, OLD2, FAR9}
  const STATE := State([], None, LEVELS, 5, [], 7, ALL)

  lemma FileContents(f: File)
    ensures Contents([f]) == Elements(f.entries)
  {
    assert f in [f];
  }

  lemma ExampleContents()
    ensures Contents([UPPER]) == {NEW1} && Contents([LEFT]) == {OLD1, GONE2}
    ensures Contents([RIGHT]) == {OLD2} && Contents([FAR]) == {FAR9}
    ensures Contents(LEVELS[2]) == {NEW1} && Contents(LEVELS[3]) == LOWER
  {
    FileContents(UPPER);
    FileContents(LEFT);
    FileContents(RIGHT);
    FileContents(FAR);
    assert LEVELS[3] == [LEFT] + [RIGHT] + [FAR];
    assert Contents([LEFT] + [RIGHT] + [FAR]) == Contents([LEFT]) + Contents([RIGHT]) + Contents([FAR]);
  }

  lemma ExampleLayers()
    ensures forall k :: 0 <= k < LAYERS && k != 4 && k != 5 ==> LayersOf(STATE)[k] == {}
    ensures LayersOf(STATE)[4] == {NEW1} && LayersOf(STATE)[5] == LOWER
    ensures |LayersOf(STATE)| == LAYERS
    ensures Stored(STATE) == ALL
  {
    ExampleContents();
    var ls := LayersOf(STATE);
    forall k | 0 <= k < LAYERS && k != 4 && k != 5 ensures ls[k] == {} {
      if k >= 2 {
        assert ls[k] == Contents(LEVELS[k - 2]);
        assert LEVELS[k - 2] == [];
      }
    }
    assert ls[4] == Contents(LEVELS[2]) && ls[5] == Contents(LEVELS[3]);
  }

  lemma ExampleFiles()
    ensures WellFormedFile(UPPER) && WellFormedFile(LEFT) && WellFormedFile(RIGHT) && WellFormedFile(FAR)
  {}

  lemma LevelsFrom(levels: seq<seq<File>>, upper: File, left: File, right: File, far: File)
    requires |levels| == NUM_LEVELS && levels[2] == [upper] && levels[3] == [left, right, far]
    requires forall l :: 0 <= l < NUM_LEVELS && l != 2 && l != 3 ==> levels[l] == []
    requires WellFormedFile(upper) && WellFormedFile(left) && WellFormedFile(right) && WellFormedFile(far)
    requires far.number == 2 && left.number == 4 && right.number == 5 && upper.number == 6
    requires Less(left.largest, right.smallest) && Less(right.largest, far.smallest) && Less(left.largest, far.smallest)
    ensures LevelsOk(levels, 7)
  {
    forall n: nat, l: nat, m: nat, f, g | Names(levels, n, l, f) && Names(levels, n, m, g) ensures l == m && f == g {
      assert (l == 2 && f == upper) || (l == 3 && (f == left || f == right || f == far));
      assert (m == 2 && g == upper) || (m == 3 && (g == left || g == right || g == far));
    }
    forall l | 0 <= l < NUM_LEVELS ensures FilesOk(levels[l], 7) {}
  }

  lemma ExampleInv()
    ensures Inv(STATE) && Faithful(STATE)
  {
    hide LevelsOk;
    hide LayersOk;
    hide SeqNosOk;
    hide Stored;
    hide LayersOf;
    ExampleLayers();
    ExampleFiles();
    LevelsFrom(LEVELS, UPPER, LEFT, RIGHT, FAR);
    TwoLayersOk(LayersOf(STATE), 4, 5);
    ExampleSeqNos();
  }

  lemma TwoLayersOk(ls: seq<set<Entry>>, a: nat, b: nat)
    requires a < b < |ls| && Above(ls[a], ls[b])
    requires forall k :: 0 <= k < |ls| && k != a && k != b ==> ls[k] == {}
    ensures LayersOk(ls)
  {}

  lemma ExampleSeqNos()
    ensures SeqNosOk(ALL, ALL, 5)
  {}

  /** Key 1 lies in the first of the three files. */
  lemma ExampleMet()
    ensures OverlapFilter(LEVELS[3], Some(1), Some(1)) == [LEFT]
  {
    assert LEVELS[3][..2] == [LEFT, RIGHT] && [LEFT, RIGHT][..1] == [LEFT];
    assert OverlapFilter([LEFT], Some(1), Some(1)) == [LEFT];
    assert OverlapFilter([LEFT, RIGHT], Some(1), Some(1)) == [LEFT];
  }

  lemma ExampleInputs()
    ensures GoodInputs(LEVELS, 2, [UPPER], [LEFT])
  {
    assert ClosedRun(LEVELS[2], [UPPER], 0);
    ExampleMet();
  }

  lemma ExampleKept(input: seq<Entry>, smallest: nat, base: UserKey -> bool)
    requires input == [NEW1, OLD1, GONE2] && base(2) && 5 <= smallest < MAX_SEQUENCE
    ensures KeptUpTo(input, 3, smallest, base) == [NEW1]
  {
    assert !Drops(input, 0, smallest, base) && Drops(input, 1, smallest, base) && Drops(input, 2, smallest, base);
    assert KeptUpTo(input, 1, smallest, base) == [NEW1];
    assert KeptUpTo(input, 2, smallest, base) == [NEW1];
  }

  lemma ExampleOutput()
    ensures CompactionOutput(STATE, 2, [UPPER], [LEFT], [NEW1, OLD1, GONE2], [OUTPUT])
  {
    ExampleContents();
    ExampleKept([NEW1, OLD1, GONE2], 5, BaseLevel(LEVELS, 2));
    assert AllEntries([OUTPUT]) == [NEW1];
  }

  lemma ExampleResurrects()
    ensures ResurrectsKey(STATE, 2, [UPPER], [LEFT], 2)
  {
    ExampleBefore();
    ExampleSplit();
    MarkedAndLeft(SplitOf(STATE, 2, [UPPER], [LEFT]), BaseLevel(LEVELS, 2));
  }

  lemma ExampleBefore()
    ensures SplitOf(STATE, 2, [UPPER], [LEFT]).Before() == ALL
  {
    ExampleInv();
    ExampleInputs();
    ExampleLayers();
    SplitIsLayered(STATE, 2, [UPPER], [LEFT]);
  }

  lemma ExampleSplit()
    ensures SplitOf(STATE, 2, [UPPER], [LEFT]).left1 == {OLD2, FAR9}
    ensures SplitOf(STATE, 2, [UPPER], [LEFT]).in1 == {OLD1, GONE2}
  {
    ExampleContents();
    ExampleLayers();
  }

  lemma MarkedAndLeft(p: Split, base: UserKey -> bool)
    requires p.Before() == ALL && p.left1 == {OLD2, FAR9} && p.in1 == {OLD1, GONE2} && base(2)
    ensures p.Resurrects(2, 5, base)
  {
    assert Visible(ALL, 2, 5, GONE2) && Visible(p.left1, 2, 5, OLD2);
    assert Newest(p.Before(), 2, 5, GONE2) && Newest(p.left1, 2, 5, OLD2);
  }

  lemma ValueIsBack()
    ensures Read(STATE.history, 2, 5) == None
    ensures Read(Stored(Compacted(STATE, 2, [UPPER], [LEFT], [OUTPUT])), 2, 5).Some?
  {
    hide Inv;
    hide GoodInputs;
    hide CompactionOutput;
    hide LayersOf;
    ExampleInv();
    ExampleInputs();
    ExampleOutput();
    ExampleResurrects();
    ExampleBefore();
    var p := SplitOf(STATE, 2, [UPPER], [LEFT]);
    CompactionOutputOk(STATE, 2, [UPPER], [LEFT], [NEW1, OLD1, GONE2], [OUTPUT]);
    CompactedStored(STATE, 2, [UPPER], [LEFT], [OUTPUT]);
    SplitIsLayered(STATE, 2, [UPPER], [LEFT]);
    ResurrectionShows(p, 5, BaseLevel(LEVELS, 2), 2);
  }

  /** A well-formed, faithful store and inputs the code picks, after which key 2 is back. */
  lemma DeletedKeyReturns()
    ensures Inv(STATE) && Faithful(STATE)
    ensures GoodInputs(LEVELS, 2, [UPPER], [LEFT])
    ensures CompactionOutput(STATE, 2, [UPPER], [LEFT], [NEW1, OLD1, GONE2], [OUTPUT])
    ensures !Faithful(Compacted(STATE, 2, [UPPER], [LEFT], [OUTPUT]))
    ensures Read(STATE.history, 2, 5) == None && Read(Stored(Compacted(STATE, 2, [UPPER], [LEFT], [OUTPUT])), 2, 5).Some?
  {
    ValueIsBack();
    ExampleInv();
    ExampleInputs();
    ExampleOutput();
    ExampleResurrects();
    CompactionExact(STATE, 2, [UPPER], [LEFT], [NEW1, OLD1, GONE2], [OUTPUT]);
  }
}
