/**
 Point lookups: memtable, immutable memtable, then level by level, stopping at the first hit.
 */
module Lookup {
  import opened Entries
  import opened Sequences
  import opened VersionSet
  import opened Layers
  import opened Store

  predicate NewestFirst(files: seq<File>) {
    forall i, j :: 0 <= i < j < |files| ==> files[i].number >= files[j].number
  }

  function InsertByNumber(files: seq<File>, f: File): seq<File> {
    if |files| == 0 || f.number > files[0].number then [f] + files
    else [files[0]] + InsertByNumber(files[1..], f)
  }

  function SortNewestFirst(files: seq<File>): seq<File> {
    if |files| == 0 then [] else InsertByNumber(SortNewestFirst(files[1..]), files[0])
  }

  lemma {:induction false} InsertByNumberOk(files: seq<File>, f: File)
    requires NewestFirst(files)
    ensures NewestFirst(InsertByNumber(files, f))
    ensures forall g :: g in InsertByNumber(files, f) <==> g in files || g == f
  {
    if |files| > 0 && f.number <= files[0].number {
      InsertByNumberOk(files[1..], f);
      var r := InsertByNumber(files[1..], f);
      assert files == [files[0]] + files[1..];
      forall j | 0 <= j < |r| ensures r[j].number <= files[0].number {
        assert r[j] in r;
      }
    }
  }

  lemma {:induction false} SortNewestFirstOk(files: seq<File>)
    ensures NewestFirst(SortNewestFirst(files))
    ensures forall g :: g in SortNewestFirst(files) <==> g in files
  {
    if |files| > 0 {
      SortNewestFirstOk(files[1..]);
      InsertByNumberOk(SortNewestFirst(files[1..]), files[0]);
      assert files == [files[0]] + files[1..];
    }
  }

  lemma FileFinds(f: File, n: nat, u: UserKey, snapshot: nat)
    requires FileOk(f, n)
    ensures Finds(Elements(f.entries), u, snapshot, SeekUser(f.entries, u, snapshot))
  {
    SeekUserFinds(f.entries, u, snapshot);
  }

  predicate Covers(f: File, u: UserKey) {
    f.smallest.user <= u <= f.largest.user
  }

  /** `tmp` lists the files that cover `u`. */
  ghost predicate Covering(files: seq<File>, tmp: seq<File>, u: UserKey) {
    forall f :: f in tmp <==> f in files && Covers(f, u)
  }

  ghost predicate Silent(f: File, u: UserKey, snapshot: nat) {
    forall x :: !Visible(Elements(f.entries), u, snapshot, x)
  }

  /** Level 0: the files covering the user key, newest first, until one answers. */
  method SearchLevelZero(files: seq<File>, ghost nextFile: nat, u: UserKey, snapshot: nat) returns (r: Option<Entry>)
    requires FilesOk(files, nextFile) && NewestFirstOk(files)
    requires forall f, g :: f in files && g in files && f.number == g.number ==> f == g
    ensures Finds(Contents(files), u, snapshot, r)
  {
    var tmp: seq<File> := [];
    for i := 0 to |files|
      invariant Covering(files[..i], tmp, u)
    {
      PrefixSnoc(files, i);
      if u >= files[i].smallest.user && u <= files[i].largest.user {
        tmp := tmp + [files[i]];
      }
    }
    assert files[..|files|] == files;
    SortNewestFirstOk(tmp);
    tmp := SortNewestFirst(tmp);
    r := None;
    for i := 0 to |tmp|
      invariant r == None && forall k :: 0 <= k < i ==> Silent(tmp[k], u, snapshot)
    {
      assert tmp[i] in tmp;
      FileFinds(tmp[i], nextFile, u, snapshot);
      r := SeekUser(tmp[i].entries, u, snapshot);
      if r.Some? {
        HitIsNewest(files, nextFile, tmp, i, u, snapshot, r.value);
        return;
      }
    }
    forall x | Visible(Contents(files), u, snapshot, x) ensures false {
      var k := Holder(files, nextFile, tmp, u, snapshot, x);
    }
  }

  lemma Holder(files: seq<File>, nextFile: nat, tmp: seq<File>, u: UserKey, snapshot: nat, x: Entry) returns (k: nat)
    requires FilesOk(files, nextFile) && Covering(files, tmp, u)
    requires Visible(Contents(files), u, snapshot, x)
    ensures k < |tmp| && Visible(Elements(tmp[k].entries), u, snapshot, x)
  {
    var f :| f in files && x in f.entries;
    assert FileOk(f, nextFile);
    EntryInRange(f, x);
    assert f in tmp;
    k :| 0 <= k < |tmp| && tmp[k] == f;
  }

  lemma HitIsNewest(files: seq<File>, nextFile: nat, tmp: seq<File>, i: nat, u: UserKey, snapshot: nat, e: Entry)
    requires FilesOk(files, nextFile) && NewestFirstOk(files) && NewestFirst(tmp) && i < |tmp|
    requires forall f, g :: f in files && g in files && f.number == g.number ==> f == g
    requires Covering(files, tmp, u)
    requires forall k :: 0 <= k < i ==> Silent(tmp[k], u, snapshot)
    requires Newest(Elements(tmp[i].entries), u, snapshot, e)
    ensures Newest(Contents(files), u, snapshot, e)
  {
    assert tmp[i] in tmp;
    assert Visible(Elements(tmp[i].entries), u, snapshot, e);
    assert e in Contents(files);
    forall x | Visible(Contents(files), u, snapshot, x) ensures x.key.seqNo <= e.key.seqNo {
      var k := Holder(files, nextFile, tmp, u, snapshot, x);
      assert tmp[k] in tmp && k >= i;
      if tmp[k].number != tmp[i].number {
        assert Above(Elements(tmp[i].entries), Elements(tmp[k].entries));
      }
    }
  }

  /** Levels above 0: the one file that can hold the answer, found by binary search. */
  method SearchLevel(files: seq<File>, ghost nextFile: nat, u: UserKey, snapshot: nat) returns (r: Option<Entry>)
    requires FilesOk(files, nextFile) && Disjoint(files) && RangesOk(files)
    ensures Finds(Contents(files), u, snapshot, r)
  {
    var target := InternalKey(u, snapshot, SEEK_KIND);
    var index := FindFile(files, target);
    if index >= |files| {
      r := None;
    } else if u < files[index].smallest.user {
      r := None;
    } else {
      r := SeekUser(files[index].entries, u, snapshot);
      FileFinds(files[index], nextFile, u, snapshot);
    }
    forall x | Visible(Contents(files), u, snapshot, x)
      ensures r.Some? && x.key.seqNo <= r.value.key.seqNo
    {
      OnlyCandidate(files, nextFile, u, snapshot, index, x);
    }
  }

  /** Nothing visible lies outside the file at `index`, unless something newer lies in it. */
  lemma OnlyCandidate(files: seq<File>, nextFile: nat, u: UserKey, snapshot: nat, index: nat, x: Entry)
    requires FilesOk(files, nextFile) && Disjoint(files) && RangesOk(files) && index <= |files|
    requires forall i :: 0 <= i < index ==> Less(files[i].largest, InternalKey(u, snapshot, SEEK_KIND))
    requires index < |files| ==> !Less(files[index].largest, InternalKey(u, snapshot, SEEK_KIND))
    requires Visible(Contents(files), u, snapshot, x)
    ensures index < |files| && files[index].smallest.user <= u
    ensures exists y :: Visible(Elements(files[index].entries), u, snapshot, y) && x.key.seqNo <= y.key.seqNo
  {
    var f :| f in files && x in f.entries;
    assert FileOk(f, nextFile);
    EntryInRange(f, x);
    var k :| 0 <= k < |files| && files[k] == f;
    assert k >= index;
    if k == index {
      assert Visible(Elements(f.entries), u, snapshot, x);
    } else {
      var g := files[index];
      assert Less(g.largest, f.smallest) && FileOk(g, nextFile);
      var y := g.entries[|g.entries| - 1];
      assert y in g.entries;
      assert Visible(Elements(g.entries), u, snapshot, y);
    }
  }

  method VersionGet(levels: seq<seq<File>>, ghost nextFile: nat, u: UserKey, snapshot: nat) returns (r: Option<Entry>)
    requires LevelsOk(levels, nextFile) && LayersOk(LevelLayers(levels))
    ensures Finds(Union(LevelLayers(levels)), u, snapshot, r)
  {
    LevelsHaveRanges(levels, nextFile);
    var ls := LevelLayers(levels);
    r := None;
    for level := 0 to NUM_LEVELS
      invariant r == None && Finds(Union(ls[..level]), u, snapshot, None)
    {
      if level == 0 {
        forall f, g | f in levels[0] && g in levels[0] && f.number == g.number ensures f == g {
          SameNumber(levels, 0, 0, f, g);
        }
        r := SearchLevelZero(levels[0], nextFile, u, snapshot);
      } else {
        r := SearchLevel(levels[level], nextFile, u, snapshot);
      }
      PrefixAbove(ls, level);
      FirstHitIsNewest(Union(ls[..level]), ls[level], u, snapshot, None, r);
      if r.Some? {
        RestIsOlder(ls, level + 1, u, snapshot, r.value);
        return;
      }
    }
    assert ls[..NUM_LEVELS] == ls;
  }

  /** A hit in the first layers stands against the remaining ones. */
  lemma RestIsOlder(ls: seq<set<Entry>>, n: nat, u: UserKey, snapshot: nat, e: Entry)
    requires LayersOk(ls) && n <= |ls| && Newest(Union(ls[..n]), u, snapshot, e)
    ensures Newest(Union(ls), u, snapshot, e)
  {
    assert Visible(Union(ls[..n]), u, snapshot, e);
    var a :| 0 <= a < n && e in ls[..n][a];
    assert e in ls[a];
    forall x | Visible(Union(ls), u, snapshot, x) ensures x.key.seqNo <= e.key.seqNo {
      var k :| 0 <= k < |ls| && x in ls[k];
      if k < n {
        assert x in ls[..n][k];
        assert Visible(Union(ls[..n]), u, snapshot, x);
      } else {
        assert Above(ls[a], ls[k]);
      }
    }
    assert Visible(Union(ls), u, snapshot, e);
  }

  /** Memtable, then immutable memtable. */
  method MemGet(mem: seq<Entry>, imm: Option<seq<Entry>>, ghost st: State, u: UserKey, snapshot: nat)
    returns (r: Option<Entry>)
    requires mem == st.mem && imm == st.imm && MemOk(st) && LayersOk(LayersOf(st))
    ensures Finds(Union(LayersOf(st)[..2]), u, snapshot, r)
  {
    ghost var ls := LayersOf(st);
    SeekUserFinds(mem, u, snapshot);
    r := SeekUser(mem, u, snapshot);
    ghost var first := r;
    ghost var second := None;
    if imm.Some? {
      SeekUserFinds(imm.value, u, snapshot);
      second := SeekUser(imm.value, u, snapshot);
    }
    if r.None? && imm.Some? {
      r := SeekUser(imm.value, u, snapshot);
    }
    assert Above(ls[0], ls[1]);
    FirstHitIsNewest(ls[0], ls[1], u, snapshot, first, second);
    TwoLayers(ls);
  }

  lemma TwoLayers(ls: seq<set<Entry>>)
    requires |ls| >= 2
    ensures Union(ls[..2]) == ls[0] + ls[1]
  {
    assert ls[..2][0] == ls[0] && ls[..2][1] == ls[1];
  }

  /** The first place that answers holds the newest visible entry of the whole store. */
  method Get(mem: seq<Entry>, imm: Option<seq<Entry>>, levels: seq<seq<File>>, ghost st: State,
             u: UserKey, snapshot: nat)
    returns (value: Option<UserValue>)
    requires Inv(st) && mem == st.mem && imm == st.imm && levels == st.levels
    ensures value == Read(Stored(st), u, snapshot)
    ensures Faithful(st) && snapshot >= SmallestSnapshot(st) ==> value == Read(st.history, u, snapshot)
  {
    var r := MemGet(mem, imm, st, u, snapshot);
    Cut(LayersOf(st), 2);
    assert LayersOf(st)[2..] == LevelLayers(st.levels);
    if r.None? {
      r := VersionGet(levels, st.nextFile, u, snapshot);
      FirstHitIsNewest(Union(LayersOf(st)[..2]), Union(LevelLayers(st.levels)), u, snapshot, None, r);
    } else {
      RestIsOlder(LayersOf(st), 2, u, snapshot, r.value);
    }
    FindsIsRead(Stored(st), u, snapshot, r);
    value := Answer(r);
  }
}
