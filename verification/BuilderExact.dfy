/**
 Gathering edits against applying them one at a time, without any assumption that files are new.

 Both sides are the version builder: one builder that gathers a further edit before it saves, and one
 that saves first and hands the result to a second builder for that edit.  `BatchExact` says for all
 inputs when they list the same files.
 */
module BuilderExact {
  import opened VersionSet
  import opened LevelEdits
  import opened VersionBuilder

  // ------------------------------------------------------------------------
  // Lists with repetitions

  /** A number names one file. */
  ghost predicate OneFilePerNumber(files: set<File>) {
    forall f, g :: f in files && g in files && f.number == g.number ==> f == g
  }

  /** In file order, equal files next to each other. */
  predicate Ordered(files: seq<File>) {
    forall i, j :: 0 <= i < j < |files| ==> AtOrBefore(files[i], files[j])
  }

  predicate AtOrBefore(f: File, g: File) {
    f == g || BySmallest(f, g)
  }

  predicate Within(files: seq<File>, all: set<File>) {
    forall i :: 0 <= i < |files| ==> files[i] in all
  }

  lemma BothWays(f: File, g: File, all: set<File>)
    requires OneFilePerNumber(all) && f in all && g in all
    ensures AtOrBefore(f, g) || AtOrBefore(g, f)
    ensures AtOrBefore(f, g) && AtOrBefore(g, f) ==> f == g
    ensures BySmallest(f, g) <==> !AtOrBefore(g, f)
  {}

  lemma OrderedCons(f: File, files: seq<File>)
    ensures Ordered([f] + files) <==> Ordered(files) && forall g :: g in files ==> AtOrBefore(f, g)
  {
    var all := [f] + files;
    if Ordered(all) {
      forall i, j | 0 <= i < j < |files| ensures AtOrBefore(files[i], files[j]) {
        assert all[i + 1] == files[i] && all[j + 1] == files[j];
      }
      forall g | g in files ensures AtOrBefore(f, g) {
        var k :| 0 <= k < |files| && files[k] == g;
        assert all[0] == f && all[k + 1] == g;
      }
    }
  }

  lemma HeadAndTail(files: seq<File>)
    requires |files| > 0
    ensures files == [files[0]] + files[1..] && multiset(files) == multiset{files[0]} + multiset(files[1..])
    ensures Ordered(files) ==> Ordered(files[1..]) && forall g :: g in files[1..] ==> AtOrBefore(files[0], g)
  {
    assert files == [files[0]] + files[1..];
    OrderedCons(files[0], files[1..]);
  }

  /** An ordered list is determined by how often each file occurs. */
  lemma {:induction false} OrderedUnique(a: seq<File>, b: seq<File>, all: set<File>)
    requires Ordered(a) && Ordered(b) && Within(a, all) && OneFilePerNumber(all)
    requires multiset(a) == multiset(b)
    ensures a == b
  {
    if |a| == 0 || |b| == 0 {
      assert |multiset(a)| == |a| && |multiset(b)| == |b|;
    } else {
      HeadAndTail(a);
      HeadAndTail(b);
      SameFirst(a, b, all);
      assert multiset(a[1..]) == multiset(a) - multiset{a[0]} && multiset(b[1..]) == multiset(b) - multiset{b[0]};
      OrderedUnique(a[1..], b[1..], all);
    }
  }

  lemma SameFirst(a: seq<File>, b: seq<File>, all: set<File>)
    requires |a| > 0 && |b| > 0 && Ordered(a) && Ordered(b) && Within(a, all) && OneFilePerNumber(all)
    requires multiset(a) == multiset(b)
    ensures a[0] == b[0]
  {
    assert a[0] in multiset(b) && b[0] in multiset(a);
    var i :| 0 <= i < |b| && b[i] == a[0];
    var j :| 0 <= j < |a| && a[j] == b[0];
    BothWays(a[0], b[0], all);
  }

  // ------------------------------------------------------------------------
  // How often a file is listed

  lemma {:induction false} MergeCounts(base: seq<File>, added: seq<File>)
    ensures multiset(MergeFiles(base, added)) == multiset(base) + multiset(added)
  {
    if |added| > 0 && |base| > 0 {
      HeadAndTail(base);
      HeadAndTail(added);
      if BySmallest(added[0], base[0]) { MergeCounts(base, added[1..]); } else { MergeCounts(base[1..], added); }
    }
  }

  lemma {:induction false} DropCounts(files: seq<File>, numbers: set<nat>, g: File)
    ensures multiset(DropFiles(files, numbers))[g] == if g.number in numbers then 0 else multiset(files)[g]
  {
    if |files| > 0 {
      HeadAndTail(files);
      DropCounts(files[1..], numbers, g);
    }
  }

  lemma {:induction false} MergeOrdered(base: seq<File>, added: seq<File>, all: set<File>)
    requires Ordered(base) && Ordered(added) && Within(base, all) && Within(added, all) && OneFilePerNumber(all)
    ensures Ordered(MergeFiles(base, added))
  {
    if |added| > 0 && |base| > 0 {
      HeadAndTail(base);
      HeadAndTail(added);
      BothWays(added[0], base[0], all);
      if BySmallest(added[0], base[0]) {
        MergeOrdered(base, added[1..], all);
        BeforeMerged(added[0], base, added[1..]);
        OrderedCons(added[0], MergeFiles(base, added[1..]));
      } else {
        MergeOrdered(base[1..], added, all);
        BeforeMerged(base[0], base[1..], added);
        OrderedCons(base[0], MergeFiles(base[1..], added));
      }
    }
  }

  lemma BeforeMerged(f: File, base: seq<File>, added: seq<File>)
    requires Ordered(base) && Ordered(added)
    requires (|base| > 0 ==> AtOrBefore(f, base[0])) && (|added| > 0 ==> AtOrBefore(f, added[0]))
    ensures forall g :: g in MergeFiles(base, added) ==> AtOrBefore(f, g)
  {
    forall g | g in MergeFiles(base, added) ensures AtOrBefore(f, g) {
      MergeMembers(base, added, g);
      if g in base {
        var k :| 0 <= k < |base| && base[k] == g;
      } else {
        var k :| 0 <= k < |added| && added[k] == g;
      }
    }
  }

  lemma {:induction false} DropOrdered(files: seq<File>, numbers: set<nat>)
    requires Ordered(files)
    ensures Ordered(DropFiles(files, numbers))
  {
    if |files| > 0 {
      HeadAndTail(files);
      DropOrdered(files[1..], numbers);
      DropMembers(files[1..], numbers);
      OrderedCons(files[0], DropFiles(files[1..], numbers));
    }
  }

  /** In a sorted set each file occurs once. */
  lemma {:induction false} SortedCounts(files: seq<File>, g: File)
    requires SortedFiles(files)
    ensures Ordered(files) && multiset(files)[g] == if g in files then 1 else 0
  {
    if |files| > 0 {
      assert files == [files[0]] + files[1..];
      SortedCounts(files[1..], g);
      HeadAndTail(files);
    }
  }

  lemma {:induction false} SetInsertOk(files: seq<File>, f: File, all: set<File>)
    requires SortedFiles(files) && Within(files, all) && f in all && OneFilePerNumber(all)
    ensures SortedFiles(SetInsert(files, f)) && Within(SetInsert(files, f), all)
    ensures forall g :: g in SetInsert(files, f) <==> g in files || g == f
  {
    if |files| > 0 {
      assert files == [files[0]] + files[1..];
      BothWays(f, files[0], all);
      if BySmallest(f, files[0]) {
        SortedCons(f, files);
      } else if BySmallest(files[0], f) {
        SetInsertOk(files[1..], f, all);
        SortedCons(files[0], SetInsert(files[1..], f));
      }
    }
  }

  lemma {:induction false} SetInsertAllOk(files: seq<File>, added: seq<File>, all: set<File>)
    requires SortedFiles(files) && Within(files, all) && Within(added, all) && OneFilePerNumber(all)
    ensures SortedFiles(SetInsertAll(files, added)) && Within(SetInsertAll(files, added), all)
    ensures forall g :: g in SetInsertAll(files, added) <==> g in files || g in added
  {
    if |added| > 0 {
      var n := |added| - 1;
      SetInsertAllOk(files, added[..n], all);
      assert added == added[..n] + [added[n]];
      SetInsertOk(SetInsertAll(files, added[..n]), added[n], all);
    }
  }

  function Once(b: bool): nat {
    if b then 1 else 0
  }

  /** A saved level lists a file once for the base and once for the set of added files. */
  lemma SaveCounts(base: seq<File>, deleted: set<nat>, added: seq<File>, g: File)
    requires SortedFiles(added)
    ensures multiset(Save(base, deleted, added))[g] == if g.number in deleted then 0 else multiset(base)[g] + Once(g in added)
  {
    MergeCounts(base, added);
    DropCounts(MergeFiles(base, added), deleted, g);
    SortedCounts(added, g);
  }

  lemma SaveOrdered(base: seq<File>, deleted: set<nat>, added: seq<File>, all: set<File>)
    requires Ordered(base) && SortedFiles(added) && Within(base, all) && Within(added, all) && OneFilePerNumber(all)
    ensures Ordered(Save(base, deleted, added)) && Within(Save(base, deleted, added), all)
  {
    if |added| > 0 { SortedCounts(added, added[0]); }
    MergeOrdered(base, added, all);
    DropOrdered(MergeFiles(base, added), deleted);
    forall i | 0 <= i < |Save(base, deleted, added)| ensures Save(base, deleted, added)[i] in all {
      SaveMembers(base, deleted, added, Save(base, deleted, added)[i]);
    }
  }

  // ------------------------------------------------------------------------
  // The exact condition

  /** The edit is gathered with the changes already made, and all are saved at once. */
  function Gathered(base: seq<File>, deleted: set<nat>, added: seq<File>, del: set<nat>, new': seq<File>): seq<File> {
    Save(base, DeletedAfter(deleted, del, new'), SetInsertAll(added, new'))
  }

  /** The changes made are saved, and a second builder applies the edit to the result. */
  function OneAtATime(base: seq<File>, deleted: set<nat>, added: seq<File>, del: set<nat>, new': seq<File>): seq<File> {
    Save(Save(base, deleted, added), DeletedAfter({}, del, new'), SetInsertAll([], new'))
  }

  /** No new file revives a deleted file of the base, and none is among the added ones. */
  predicate NothingAgain(base: seq<File>, deleted: set<nat>, added: seq<File>, new': seq<File>) {
    forall i :: 0 <= i < |new'| ==> if new'[i].number in deleted then new'[i] !in base else new'[i] !in added
  }

  function AllOf(base: seq<File>, added: seq<File>, new': seq<File>): set<File> {
    (set f | f in base) + (set f | f in added) + (set f | f in new')
  }

  lemma Counts(base: seq<File>, deleted: set<nat>, added: seq<File>, del: set<nat>, new': seq<File>, g: File)
    requires SortedFiles(base) && SortedFiles(added) && OneFilePerNumber(AllOf(base, added, new'))
    ensures var old' := Once(g in base) + Once(g in added);
            && multiset(Gathered(base, deleted, added, del, new'))[g]
               == (if g in new' then Once(g in base) + 1
                   else if g.number in DeletedAfter(deleted, del, new') then 0 else old')
            && multiset(OneAtATime(base, deleted, added, del, new'))[g]
               == (if g in new' then (if g.number in deleted then 0 else old') + 1
                   else if g.number in DeletedAfter({}, del, new') then 0 else if g.number in deleted then 0 else old')
  {
    var all := AllOf(base, added, new');
    SetInsertAllOk(added, new', all);
    SetInsertAllOk([], new', all);
    SortedCounts(base, g);
    SaveCounts(base, DeletedAfter(deleted, del, new'), SetInsertAll(added, new'), g);
    SaveCounts(base, deleted, added, g);
    SaveCounts(Save(base, deleted, added), DeletedAfter({}, del, new'), SetInsertAll([], new'), g);
    assert g in new' ==> g.number in Numbers(new');
  }

  /** The two agree exactly when nothing is added again. */
  lemma BatchExact(base: seq<File>, deleted: set<nat>, added: seq<File>, del: set<nat>, new': seq<File>)
    requires SortedFiles(base) && SortedFiles(added) && OneFilePerNumber(AllOf(base, added, new'))
    ensures Gathered(base, deleted, added, del, new') == OneAtATime(base, deleted, added, del, new')
            <==> NothingAgain(base, deleted, added, new')
  {
    hide Gathered;
    hide OneAtATime;
    hide SortedFiles;
    hide OneFilePerNumber;
    var one, many := OneAtATime(base, deleted, added, del, new'), Gathered(base, deleted, added, del, new');
    if NothingAgain(base, deleted, added, new') {
      forall g ensures multiset(one)[g] == multiset(many)[g] {
        Counts(base, deleted, added, del, new', g);
        NewNumbers(base, added, new', g);
      }
      assert multiset(one) == multiset(many);
      BothOrdered(base, deleted, added, del, new');
      OrderedUnique(one, many, AllOf(base, added, new'));
    } else {
      var i :| 0 <= i < |new'| && !(if new'[i].number in deleted then new'[i] !in base else new'[i] !in added);
      Counts(base, deleted, added, del, new', new'[i]);
    }
  }

  lemma NewNumbers(base: seq<File>, added: seq<File>, new': seq<File>, g: File)
    requires OneFilePerNumber(AllOf(base, added, new'))
    ensures g in base || g in added ==> (g.number in Numbers(new') <==> g in new')
  {}

  lemma BothOrdered(base: seq<File>, deleted: set<nat>, added: seq<File>, del: set<nat>, new': seq<File>)
    requires SortedFiles(base) && SortedFiles(added) && OneFilePerNumber(AllOf(base, added, new'))
    ensures Ordered(Gathered(base, deleted, added, del, new')) && Ordered(OneAtATime(base, deleted, added, del, new'))
    ensures Within(OneAtATime(base, deleted, added, del, new'), AllOf(base, added, new'))
  {
    var all := AllOf(base, added, new');
    if |base| > 0 { SortedCounts(base, base[0]); }
    SetInsertAllOk(added, new', all);
    SetInsertAllOk([], new', all);
    SaveOrdered(base, DeletedAfter(deleted, del, new'), SetInsertAll(added, new'), all);
    SaveOrdered(base, deleted, added, all);
    SaveOrdered(Save(base, deleted, added), DeletedAfter({}, del, new'), SetInsertAll([], new'), all);
  }

  /** A file deleted by one edit and added again by the next is listed twice when both are gathered. */
  lemma DeletedThenAddedIsDoubled(f: File)
    ensures Gathered([f], {f.number}, [], {}, [f]) == [f, f]
    ensures OneAtATime([f], {f.number}, [], {}, [f]) == [f]
    ensures !NothingAgain([f], {f.number}, [], [f])
  {
    assert [f][..0] == [] && [f][1..] == [];
    assert SetInsertAll([], [f]) == [f];
    assert MergeFiles([], [f]) == [f];
    assert MergeFiles([f], [f]) == [[f][0]] + MergeFiles([f][1..], [f]);
    assert [f, f][1..] == [f];
    assert DropFiles([f, f], {}) == [f] + DropFiles([f], {});
    assert MergeFiles([f], []) == [f] && DropFiles([f], {f.number}) == [] + DropFiles([], {f.number});
    assert DropFiles([f], {}) == [f] + DropFiles([], {}) == [f];
    assert Save([f], {f.number}, []) == [] && Save([], {}, [f]) == [f];
    assert DeletedAfter({f.number}, {}, [f]) == {} && DeletedAfter({}, {}, [f]) == {};
  }
}
