/**
 The three steps that rearrange files: writing the immutable memtable to a level, moving a
 file down, and merging files into the next level.
 */
module StoreSteps {
  import opened Entries
  import opened VersionSet
  import opened CompactionWork
  import opened LevelEdits
  import opened Layers
  import opened Store

  // ------------------------------------------------------------------------
  // Contents of edited levels

  lemma ContentsAdd(files: seq<File>, added: seq<File>)
    ensures Contents(AddFiles(files, added)) == Contents(files) + Contents(added)
  {
    AddMembers(files, added);
  }

  /** Different files hold different entries. */
  ghost predicate ShareNothing(files: seq<File>) {
    forall f, g, e :: f in files && g in files && e in f.entries && e in g.entries ==> f == g
  }

  lemma LevelsShareNothing(levels: seq<seq<File>>, nextFile: nat, l: nat)
    requires LevelsOk(levels, nextFile) && l < NUM_LEVELS
    ensures ShareNothing(levels[l])
  {
    var files := levels[l];
    forall f, g, e | f in files && g in files && e in f.entries && e in g.entries ensures f == g {
      if l == 0 {
        assert e in Elements(f.entries) && e in Elements(g.entries);
        assert f.number == g.number;
        SameNumber(levels, l, l, f, g);
      } else {
        assert FileOk(f, nextFile) && FileOk(g, nextFile);
        EntryInRange(f, e);
        EntryInRange(g, e);
        if f != g {
          InOrder(files, f, g);
        }
      }
    }
  }

  lemma ContentsDrop(levels: seq<seq<File>>, nextFile: nat, l: nat, ins: seq<File>)
    requires LevelsOk(levels, nextFile) && l < NUM_LEVELS
    requires forall f :: f in ins ==> f in levels[l]
    ensures Contents(DropFiles(levels[l], Numbers(ins))) == Contents(levels[l]) - Contents(ins)
    ensures forall g :: g in DropFiles(levels[l], Numbers(ins)) <==> g in levels[l] && g !in ins
  {
    var files := levels[l];
    DropMembers(files, Numbers(ins));
    LevelsShareNothing(levels, nextFile, l);
    forall g | g in files ensures g.number in Numbers(ins) <==> g in ins {
      if g.number in Numbers(ins) {
        var f :| f in ins && f.number == g.number;
        SameNumber(levels, l, l, f, g);
      }
    }
    forall g, e | g in files && e in g.entries && e in Contents(ins) ensures g in ins {
      var f :| f in ins && e in f.entries;
      assert f == g;
    }
  }

  // ------------------------------------------------------------------------
  // Flush

  ghost predicate NoOverlapUpTo(levels: seq<seq<File>>, level: nat, lo: UserKey, hi: UserKey)
    requires level < |levels|
  {
    level > 0 ==> forall l, g :: 0 <= l <= level && g in levels[l] ==> !Overlaps(g, Some(lo), Some(hi))
  }

  /** The immutable memtable becomes a file of `level`; an empty one just goes away. */
  function Flushed(st: State, level: nat, size: nat): State
    requires st.imm.Some? && level < |st.levels|
  {
    if |st.imm.value| == 0 then st.(imm := None)
    else
      var f := MakeFile(st.nextFile, size, st.imm.value);
      st.(imm := None, levels := st.levels[level := InsertFile(st.levels[level], f)], nextFile := st.nextFile + 1)
  }

  lemma FlushOk(st: State, level: nat, size: nat)
    requires Inv(st) && st.imm.Some? && level < NUM_LEVELS
    requires |st.imm.value| > 0 ==>
               NoOverlapUpTo(st.levels, level, st.imm.value[0].key.user, st.imm.value[|st.imm.value| - 1].key.user)
    ensures Inv(Flushed(st, level, size))
    ensures Stored(Flushed(st, level, size)) == Stored(st)
  {
    var st' := Flushed(st, level, size);
    if |st.imm.value| == 0 {
      assert LayersOf(st')[1] == LayersOf(st)[1];
      assert LayersOf(st') == LayersOf(st);
    } else {
      var f := MakeFile(st.nextFile, size, st.imm.value);
      FlushedFileOk(st, f);
      FlushLevels(st, level, f);
      FlushLayers(st, level, f);
    }
  }

  lemma FlushLayers(st: State, level: nat, f: File)
    requires LevelsOk(st.levels, st.nextFile) && LayersOk(LayersOf(st)) && st.imm.Some? && |st.imm.value| > 0 && level < NUM_LEVELS
    requires f == MakeFile(st.nextFile, f.size, st.imm.value) && WellFormedFile(f)
    requires NoOverlapUpTo(st.levels, level, f.smallest.user, f.largest.user)
    ensures LayersOk(LayersOf(Flushed(st, level, f.size)))
    ensures Stored(Flushed(st, level, f.size)) == Stored(st)
  {
    var ls := LayersOf(st);
    var moved := Elements(f.entries);
    forall k | 1 < k < level + 2 ensures Above(ls[k], moved) {
      NoOverlapNoUser(st.levels, st.nextFile, level, k - 2, f);
    }
    FlushedLayers(st, level, f);
    SinkWhole(ls, level + 2, moved);
  }

  lemma SinkWhole(ls: seq<set<Entry>>, b: nat, moved: set<Entry>)
    requires LayersOk(ls) && 1 < b < |ls| && moved == ls[1]
    requires forall k :: 1 < k < b ==> Above(ls[k], moved)
    ensures LayersOk(ls[1 := ls[1] - moved][b := ls[b] + moved])
    ensures Union(ls[1 := ls[1] - moved][b := ls[b] + moved]) == Union(ls)
  {
    assert ls[1] - moved == {};
    MoveDown(ls, 1, b, moved);
  }

  lemma FlushedLayers(st: State, level: nat, f: File)
    requires st.imm.Some? && |st.imm.value| > 0 && level < NUM_LEVELS == |st.levels|
    requires f == MakeFile(st.nextFile, f.size, st.imm.value)
    ensures LayersOf(Flushed(st, level, f.size))
            == LayersOf(st)[1 := LayersOf(st)[1] - Elements(f.entries)]
                           [level + 2 := LayersOf(st)[level + 2] + Elements(f.entries)]
    ensures LayersOf(st)[1] - Elements(f.entries) == {}
  {
    ContentsInsert(st.levels[level], f);
    var ls, ls' := LayersOf(st), LayersOf(Flushed(st, level, f.size));
    var moved := Elements(f.entries);
    assert ls[1] - moved == {} == ls'[1];
    assert ls'[level + 2] == ls[level + 2] + moved;
    assert ls' == ls[1 := ls[1] - moved][level + 2 := ls[level + 2] + moved];
  }

  lemma ContentsInsert(files: seq<File>, f: File)
    ensures Contents(InsertFile(files, f)) == Contents(files) + Elements(f.entries)
  {
    InsertMembers(files, f);
  }

  lemma FlushedFileOk(st: State, f: File)
    requires Inv(st) && st.imm.Some? && |st.imm.value| > 0
    requires f == MakeFile(st.nextFile, f.size, st.imm.value)
    ensures WellFormedFile(f)
  {
    var e := f.entries[|f.entries| - 1];
    assert e in LayersOf(st)[1];
    assert e in Stored(st);
  }

  /** A level above with no file in the range holds no entry for its keys. */
  lemma NoOverlapNoUser(levels: seq<seq<File>>, nextFile: nat, level: nat, l: nat, f: File)
    requires LevelsOk(levels, nextFile) && l <= level < NUM_LEVELS && level > 0 && WellFormedFile(f)
    requires NoOverlapUpTo(levels, level, f.smallest.user, f.largest.user)
    ensures Above(Contents(levels[l]), Elements(f.entries))
  {
    forall a, b | a in Contents(levels[l]) && b in Elements(f.entries) && a.key.user == b.key.user ensures false {
      var g :| g in levels[l] && a in g.entries;
      assert FileOk(g, nextFile);
      EntryInRange(g, a);
      EntryInRange(f, b);
      assert Overlaps(g, Some(f.smallest.user), Some(f.largest.user));
    }
  }

  lemma FlushLevels(st: State, level: nat, f: File)
    requires Inv(st) && st.imm.Some? && |st.imm.value| > 0 && level < NUM_LEVELS
    requires f == MakeFile(st.nextFile, f.size, st.imm.value) && WellFormedFile(f)
    requires NoOverlapUpTo(st.levels, level, f.smallest.user, f.largest.user)
    ensures LevelsOk(st.levels[level := InsertFile(st.levels[level], f)], st.nextFile + 1)
  {
    var levels, n := st.levels, st.nextFile;
    var levels' := levels[level := InsertFile(levels[level], f)];
    InsertMembers(levels[level], f);
    FlushNumbers(levels, n, level, f);
    forall l | 0 <= l < NUM_LEVELS ensures FilesOk(levels'[l], n + 1) {
      assert FilesOk(levels[l], n);
    }
    if level > 0 {
      LevelsHaveRanges(levels, n);
      RangeIsOk(f);
      forall g | g in levels[level] ensures Apart(f, g) {
        assert !Overlaps(g, Some(f.smallest.user), Some(f.largest.user));
      }
      InsertDisjoint(levels[level], f);
    } else {
      FlushNewest(st, f);
    }
  }

  lemma FlushNumbers(levels: seq<seq<File>>, n: nat, level: nat, f: File)
    requires |levels| == NUM_LEVELS && NumbersUnique(levels) && level < NUM_LEVELS && f.number == n
    requires forall l :: 0 <= l < NUM_LEVELS ==> FilesOk(levels[l], n)
    ensures NumbersUnique(levels[level := InsertFile(levels[level], f)])
  {
    var levels' := levels[level := InsertFile(levels[level], f)];
    InsertMembers(levels[level], f);
    forall k: nat, l: nat, m: nat, g, h | Names(levels', k, l, g) && Names(levels', k, m, h) ensures l == m && g == h {
      assert g in levels[l] ==> FileOk(g, n);
      assert h in levels[m] ==> FileOk(h, n);
      if g in levels[l] && h in levels[m] {
        SameNumber(levels, l, m, g, h);
      }
    }
  }

  lemma FlushNewest(st: State, f: File)
    requires Inv(st) && st.imm.Some? && |st.imm.value| > 0
    requires f == MakeFile(st.nextFile, f.size, st.imm.value)
    ensures NewestFirstOk(InsertFile(st.levels[0], f)) && NoDup(InsertFile(st.levels[0], f))
  {
    InsertMembers(st.levels[0], f);
    var ls := LayersOf(st);
    assert Above(ls[1], ls[2]);
    forall g | g in st.levels[0] ensures Above(Elements(f.entries), Elements(g.entries)) && g.number < f.number {
      assert FileOk(g, st.nextFile);
    }
    InsertNoDup(st.levels[0], f);
  }
}
