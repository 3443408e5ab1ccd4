/**
 Editing the file list of a level: files are kept ordered by smallest key, ties by number.
 `Manifest.Builder` computes the same lists in one merge.
 */
module LevelEdits {
  import opened Entries
  import opened VersionSet

  predicate BySmallest(f: File, g: File) {
    Less(f.smallest, g.smallest) || (f.smallest == g.smallest && f.number < g.number)
  }

  function InsertFile(files: seq<File>, f: File): seq<File> {
    if |files| == 0 || BySmallest(f, files[0]) then [f] + files
    else [files[0]] + InsertFile(files[1..], f)
  }

  function AddFiles(files: seq<File>, added: seq<File>): seq<File> {
    if |added| == 0 then files
    else InsertFile(AddFiles(files, added[..|added| - 1]), added[|added| - 1])
  }

  function DropFiles(files: seq<File>, numbers: set<nat>): seq<File> {
    if |files| == 0 then []
    else (if files[0].number in numbers then [] else [files[0]]) + DropFiles(files[1..], numbers)
  }

  function Numbers(files: seq<File>): set<nat> {
    set f | f in files :: f.number
  }

  lemma {:induction false} InsertMembers(files: seq<File>, f: File)
    ensures forall g :: g in InsertFile(files, f) <==> g in files || g == f
  {
    if |files| > 0 && !BySmallest(f, files[0]) {
      InsertMembers(files[1..], f);
      assert files == [files[0]] + files[1..];
    }
  }

  lemma {:induction false} AddMembers(files: seq<File>, added: seq<File>)
    ensures forall g :: g in AddFiles(files, added) <==> g in files || g in added
  {
    if |added| > 0 {
      var init := added[..|added| - 1];
      AddMembers(files, init);
      InsertMembers(AddFiles(files, init), added[|added| - 1]);
      assert added == init + [added[|added| - 1]];
    }
  }

  lemma {:induction false} DropMembers(files: seq<File>, numbers: set<nat>)
    ensures forall g :: g in DropFiles(files, numbers) <==> g in files && g.number !in numbers
  {
    if |files| > 0 {
      DropMembers(files[1..], numbers);
      assert files == [files[0]] + files[1..];
    }
  }

  lemma {:induction false} InsertNoDup(files: seq<File>, f: File)
    requires NoDup(files) && f !in files
    ensures NoDup(InsertFile(files, f))
  {
    if |files| > 0 && !BySmallest(f, files[0]) {
      assert files == [files[0]] + files[1..];
      InsertNoDup(files[1..], f);
      InsertMembers(files[1..], f);
      assert files[0] !in files[1..];
    }
  }

  lemma {:induction false} DropNoDup(files: seq<File>, numbers: set<nat>)
    requires NoDup(files)
    ensures NoDup(DropFiles(files, numbers))
  {
    if |files| > 0 {
      DropNoDup(files[1..], numbers);
      DropMembers(files[1..], numbers);
      assert files[0] !in files[1..];
    }
  }

  ghost predicate BeforeAll(f: File, files: seq<File>) {
    forall g :: g in files ==> Less(f.largest, g.smallest)
  }

  lemma DisjointCons(f: File, files: seq<File>)
    ensures Disjoint([f] + files) <==> Disjoint(files) && BeforeAll(f, files)
  {
    var all := [f] + files;
    if Disjoint(all) {
      forall i, j | 0 <= i < j < |files| ensures Less(files[i].largest, files[j].smallest) {
        assert all[i + 1] == files[i] && all[j + 1] == files[j];
      }
      forall g | g in files ensures Less(f.largest, g.smallest) {
        var k :| 0 <= k < |files| && files[k] == g;
        assert all[0] == f && all[k + 1] == g;
      }
    }
  }

  predicate Apart(f: File, g: File) {
    Less(f.largest, g.smallest) || Less(g.largest, f.smallest)
  }

  /** A file whose range meets none of the others finds its place among them. */
  lemma {:induction false} InsertDisjoint(files: seq<File>, f: File)
    requires Disjoint(files) && RangesOk(files) && RangeOk(f)
    requires forall g :: g in files ==> Apart(f, g)
    ensures Disjoint(InsertFile(files, f)) && RangesOk(InsertFile(files, f))
  {
    if |files| > 0 {
      assert files == [files[0]] + files[1..];
      DisjointCons(files[0], files[1..]);
      assert RangeOk(files[0]) && Apart(f, files[0]);
      if BySmallest(f, files[0]) {
        DisjointCons(f, files);
      } else {
        InsertDisjoint(files[1..], f);
        InsertMembers(files[1..], f);
        DisjointCons(files[0], InsertFile(files[1..], f));
      }
    }
  }

  lemma {:induction false} AddDisjoint(files: seq<File>, added: seq<File>)
    requires Disjoint(files) && RangesOk(files) && Disjoint(added) && RangesOk(added)
    requires forall f, g :: f in added && g in files ==> Apart(f, g)
    ensures Disjoint(AddFiles(files, added)) && RangesOk(AddFiles(files, added))
  {
    if |added| > 0 {
      var n := |added| - 1;
      var init, f := added[..n], added[n];
      AddDisjoint(files, init);
      AddMembers(files, init);
      forall g | g in AddFiles(files, init) ensures Apart(f, g) {
        if g in init {
          var k :| 0 <= k < n && added[k] == g;
        }
      }
      InsertDisjoint(AddFiles(files, init), f);
    }
  }

  lemma {:induction false} DropDisjoint(files: seq<File>, numbers: set<nat>)
    requires Disjoint(files) && RangesOk(files)
    ensures Disjoint(DropFiles(files, numbers)) && RangesOk(DropFiles(files, numbers))
  {
    if |files| > 0 {
      assert files == [files[0]] + files[1..];
      DisjointCons(files[0], files[1..]);
      DropDisjoint(files[1..], numbers);
      DropMembers(files[1..], numbers);
      DisjointCons(files[0], DropFiles(files[1..], numbers));
      assert RangeOk(files[0]);
    }
  }
}
