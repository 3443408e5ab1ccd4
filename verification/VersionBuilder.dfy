/**
 The version builder: many edits are gathered into one set of deletions and one sorted set of
 additions per level, and the new file lists are written by one merge.

 `BatchStep` shows that this equals applying the edits one by one, as `LevelEdits` does.
 */
module VersionBuilder {
  import opened VersionSet
  import opened LevelEdits

  // ------------------------------------------------------------------------
  // Lists in file order

  predicate SortedFiles(files: seq<File>) {
    forall i, j :: 0 <= i < j < |files| ==> BySmallest(files[i], files[j])
  }

  predicate NumbersDiffer(files: seq<File>) {
    forall i, j :: 0 <= i < j < |files| ==> files[i].number != files[j].number
  }

  predicate NoneOf(files: seq<File>, numbers: set<nat>) {
    forall i :: 0 <= i < |files| ==> files[i].number !in numbers
  }

  ghost predicate FirstOfAll(f: File, files: seq<File>) {
    forall g :: g in files ==> BySmallest(f, g)
  }

  lemma SortedCons(f: File, files: seq<File>)
    ensures SortedFiles([f] + files) <==> SortedFiles(files) && FirstOfAll(f, files)
  {
    var all := [f] + files;
    if SortedFiles(all) {
      forall i, j | 0 <= i < j < |files| ensures BySmallest(files[i], files[j]) {
        assert all[i + 1] == files[i] && all[j + 1] == files[j];
      }
      forall g | g in files ensures BySmallest(f, g) {
        var k :| 0 <= k < |files| && files[k] == g;
        assert all[0] == f && all[k + 1] == g;
      }
    }
  }

  /** A sorted list is determined by its members. */
  lemma {:induction false} SortedUnique(a: seq<File>, b: seq<File>)
    requires SortedFiles(a) && SortedFiles(b)
    requires forall f :: f in a <==> f in b
    ensures a == b
  {
    assert |b| > 0 ==> b[0] in b;
    assert |a| > 0 ==> a[0] in a;
    if |a| > 0 {
      SameHead(a, b);
      forall f ensures f in a[1..] <==> f in b[1..] {
        HeadNotInTail(a, f);
        HeadNotInTail(b, f);
      }
      SortedUnique(a[1..], b[1..]);
      assert a == [a[0]] + a[1..] && b == [b[0]] + b[1..];
    }
  }

  lemma SameHead(a: seq<File>, b: seq<File>)
    requires |a| > 0 && |b| > 0 && FirstOfAll(a[0], a[1..]) && FirstOfAll(b[0], b[1..])
    requires a[0] in b && b[0] in a
    ensures a[0] == b[0]
  {
    HeadNotInTail(a, b[0]);
    HeadNotInTail(b, a[0]);
  }

  lemma HeadNotInTail(a: seq<File>, f: File)
    requires |a| > 0 && FirstOfAll(a[0], a[1..])
    ensures f in a[1..] <==> f in a && f != a[0]
  {
    assert a == [a[0]] + a[1..];
  }

  // ------------------------------------------------------------------------
  // Merging

  /** The files already there come first among equals. */
  function MergeFiles(base: seq<File>, added: seq<File>): seq<File> {
    if |added| == 0 then base
    else if |base| == 0 then added
    else if BySmallest(added[0], base[0]) then [added[0]] + MergeFiles(base, added[1..])
    else [base[0]] + MergeFiles(base[1..], added)
  }

  /** Insertion into a std::set ordered by `BySmallest`: an equivalent member stays. */
  function SetInsert(files: seq<File>, f: File): seq<File> {
    if |files| == 0 || BySmallest(f, files[0]) then [f] + files
    else if BySmallest(files[0], f) then [files[0]] + SetInsert(files[1..], f)
    else files
  }

  function SetInsertAll(files: seq<File>, added: seq<File>): seq<File> {
    if |added| == 0 then files
    else SetInsert(SetInsertAll(files, added[..|added| - 1]), added[|added| - 1])
  }

  /** The new file list of a level. */
  function Save(base: seq<File>, deleted: set<nat>, added: seq<File>): seq<File> {
    DropFiles(MergeFiles(base, added), deleted)
  }

  lemma {:induction false} MergeMembers(base: seq<File>, added: seq<File>, g: File)
    ensures g in MergeFiles(base, added) <==> g in base || g in added
  {
    if |base| > 0 && |added| > 0 {
      if BySmallest(added[0], base[0]) {
        MergeMembers(base, added[1..], g);
        assert added == [added[0]] + added[1..];
      } else {
        MergeMembers(base[1..], added, g);
        assert base == [base[0]] + base[1..];
      }
    }
  }

  predicate Comparable(f: File, g: File) {
    BySmallest(f, g) || BySmallest(g, f)
  }

  ghost predicate AllComparable(a: seq<File>, b: seq<File>) {
    forall f, g :: f in a && g in b ==> Comparable(f, g)
  }

  lemma {:induction false} MergeSorted(base: seq<File>, added: seq<File>)
    requires SortedFiles(base) && SortedFiles(added) && AllComparable(base, added)
    ensures SortedFiles(MergeFiles(base, added))
  {
    if |base| > 0 && |added| > 0 {
      assert added == [added[0]] + added[1..] && base == [base[0]] + base[1..];
      assert base[0] in base && added[0] in added;
      if BySmallest(added[0], base[0]) {
        MergeSorted(base, added[1..]);
        HeadFirst(added[0], base, added[1..]);
        SortedCons(added[0], MergeFiles(base, added[1..]));
      } else {
        assert Comparable(base[0], added[0]);
        MergeSorted(base[1..], added);
        HeadFirst(base[0], base[1..], added);
        SortedCons(base[0], MergeFiles(base[1..], added));
      }
    }
  }

  /** A file before the heads of two sorted lists is before everything in their merge. */
  lemma HeadFirst(f: File, base: seq<File>, added: seq<File>)
    requires SortedFiles(base) && SortedFiles(added)
    requires |base| > 0 ==> BySmallest(f, base[0])
    requires |added| > 0 ==> BySmallest(f, added[0])
    ensures FirstOfAll(f, MergeFiles(base, added))
  {
    forall g | g in MergeFiles(base, added) ensures BySmallest(f, g) {
      MergeMembers(base, added, g);
      if g in base {
        var k :| 0 <= k < |base| && base[k] == g;
      } else {
        var k :| 0 <= k < |added| && added[k] == g;
      }
    }
  }

  lemma {:induction false} DropSorted(files: seq<File>, numbers: set<nat>)
    requires SortedFiles(files)
    ensures SortedFiles(DropFiles(files, numbers))
  {
    if |files| > 0 {
      DropSorted(files[1..], numbers);
      DropMembers(files[1..], numbers);
      SortedCons(files[0], DropFiles(files[1..], numbers));
    }
  }

  lemma {:induction false} InsertSortedFile(files: seq<File>, f: File)
    requires SortedFiles(files) && forall g :: g in files ==> Comparable(f, g)
    ensures SortedFiles(InsertFile(files, f)) && SetInsert(files, f) == InsertFile(files, f)
  {
    if |files| > 0 {
      assert files == [files[0]] + files[1..];
      assert files[0] in files;
      if BySmallest(f, files[0]) {
        SortedCons(f, files);
      } else {
        InsertSortedFile(files[1..], f);
        InsertMembers(files[1..], f);
        SortedCons(files[0], InsertFile(files[1..], f));
      }
    }
  }

  /** Adding files with new, different numbers. */
  lemma {:induction false} AddSorted(files: seq<File>, added: seq<File>)
    requires SortedFiles(files) && NumbersDiffer(added) && NoneOf(added, Numbers(files))
    ensures SortedFiles(AddFiles(files, added)) && SetInsertAll(files, added) == AddFiles(files, added)
  {
    if |added| > 0 {
      var n := |added| - 1;
      AddSorted(files, added[..n]);
      AddMembers(files, added[..n]);
      forall g | g in AddFiles(files, added[..n]) ensures Comparable(added[n], g) {
        if g in files {
          assert g.number in Numbers(files);
        } else {
          var k :| 0 <= k < n && added[k] == g;
        }
      }
      InsertSortedFile(AddFiles(files, added[..n]), added[n]);
    }
  }

  // ------------------------------------------------------------------------
  // Gathering equals applying one by one

  lemma SaveMembers(base: seq<File>, deleted: set<nat>, added: seq<File>, g: File)
    ensures g in Save(base, deleted, added) <==> (g in base || g in added) && g.number !in deleted
  {
    DropMembers(MergeFiles(base, added), deleted);
    MergeMembers(base, added, g);
  }

  lemma ComparableByNumber(a: seq<File>, b: seq<File>)
    requires NoneOf(b, Numbers(a))
    ensures AllComparable(a, b)
  {
    forall f, g | f in a && g in b ensures Comparable(f, g) {
      var k :| 0 <= k < |b| && b[k] == g;
      assert f.number in Numbers(a);
    }
  }

  lemma SaveSorted(base: seq<File>, deleted: set<nat>, added: seq<File>)
    requires SortedFiles(base) && SortedFiles(added) && NoneOf(added, Numbers(base))
    ensures SortedFiles(Save(base, deleted, added))
  {
    ComparableByNumber(base, added);
    MergeSorted(base, added);
    DropSorted(MergeFiles(base, added), deleted);
  }

  /** What one more edit does to the gathered changes of a level. */
  function DeletedAfter(deleted: set<nat>, del: set<nat>, new': seq<File>): set<nat> {
    (deleted + del) - Numbers(new')
  }

  /** Gathering one more edit and saving equals saving first and then applying the edit. */
  lemma BatchStep(base: seq<File>, deleted: set<nat>, added: seq<File>, del: set<nat>, new': seq<File>)
    requires SortedFiles(base) && SortedFiles(added) && NoneOf(added, Numbers(base))
    requires NumbersDiffer(new') && NoneOf(new', Numbers(base)) && NoneOf(new', Numbers(added))
    ensures SortedFiles(SetInsertAll(added, new')) && NoneOf(SetInsertAll(added, new'), Numbers(base))
    ensures Save(base, DeletedAfter(deleted, del, new'), SetInsertAll(added, new'))
            == AddFiles(DropFiles(Save(base, deleted, added), del), new')
  {
    AddSorted(added, new');
    AddMembers(added, new');
    forall i | 0 <= i < |AddFiles(added, new')| ensures AddFiles(added, new')[i].number !in Numbers(base) {
      NotInBase(base, added, new', AddFiles(added, new')[i]);
    }
    var one := AddFiles(DropFiles(Save(base, deleted, added), del), new');
    var all := Save(base, DeletedAfter(deleted, del, new'), AddFiles(added, new'));
    SaveSorted(base, DeletedAfter(deleted, del, new'), AddFiles(added, new'));
    OneByOneSorted(base, deleted, added, del, new');
    forall g ensures g in one <==> g in all {
      SameMember(base, deleted, added, del, new', g);
    }
    SortedUnique(one, all);
  }

  lemma NotInBase(base: seq<File>, added: seq<File>, new': seq<File>, g: File)
    requires NoneOf(added, Numbers(base)) && NoneOf(new', Numbers(base)) && (g in added || g in new')
    ensures g.number !in Numbers(base)
  {
    if g in added {
      var k :| 0 <= k < |added| && added[k] == g;
    } else {
      var k :| 0 <= k < |new'| && new'[k] == g;
    }
  }

  lemma OneByOneSorted(base: seq<File>, deleted: set<nat>, added: seq<File>, del: set<nat>, new': seq<File>)
    requires SortedFiles(base) && SortedFiles(added) && NoneOf(added, Numbers(base))
    requires NumbersDiffer(new') && NoneOf(new', Numbers(base)) && NoneOf(new', Numbers(added))
    ensures SortedFiles(AddFiles(DropFiles(Save(base, deleted, added), del), new'))
  {
    var saved := Save(base, deleted, added);
    SaveSorted(base, deleted, added);
    DropSorted(saved, del);
    DropMembers(saved, del);
    forall f | f in DropFiles(saved, del) ensures f.number in Numbers(base) || f.number in Numbers(added) {
      SaveMembers(base, deleted, added, f);
    }
    AddSorted(DropFiles(saved, del), new');
  }

  lemma SameMember(base: seq<File>, deleted: set<nat>, added: seq<File>, del: set<nat>, new': seq<File>, g: File)
    requires NoneOf(new', Numbers(base)) && NoneOf(new', Numbers(added))
    ensures g in AddFiles(DropFiles(Save(base, deleted, added), del), new')
            <==> g in Save(base, DeletedAfter(deleted, del, new'), AddFiles(added, new'))
  {
    var saved := Save(base, deleted, added);
    AddMembers(DropFiles(saved, del), new');
    DropMembers(saved, del);
    SaveMembers(base, deleted, added, g);
    SaveMembers(base, DeletedAfter(deleted, del, new'), AddFiles(added, new'), g);
    AddMembers(added, new');
    if g in base || g in added {
      OldIsNotNew(base, added, new', g);
    } else if g in new' {
      assert g.number in Numbers(new');
    }
  }

  lemma OldIsNotNew(base: seq<File>, added: seq<File>, new': seq<File>, g: File)
    requires NoneOf(new', Numbers(base)) && NoneOf(new', Numbers(added)) && (g in base || g in added)
    ensures g.number !in Numbers(new') && g !in new'
  {
    assert g.number in Numbers(base) || g.number in Numbers(added);
  }
}
