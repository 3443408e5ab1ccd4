/**
 Version edits: the changes to the file lists that a MANIFEST record holds, and their encoding.

 The file entries of an edit name tables; a `Catalog` says what file an entry stands for and which
 entry describes a file, so that edits can be stated on the files of the level structure.
 */
module VersionEdits {
  import opened Coding
  import opened Entries
  import opened Sequences
  import opened VersionSet

  /** The written form of a file: number, size and encoded boundary keys. */
  datatype FileMeta = FileMeta(number: nat, size: nat, smallest: Bytes, largest: Bytes)

  datatype Catalog = Catalog(load: FileMeta -> File, meta: File -> FileMeta)

  datatype Edit = Edit(
    comparator: Option<Bytes>, logNumber: Option<nat>, prevLogNumber: Option<nat>,
    nextFile: Option<nat>, lastSequence: Option<nat>,
    compactPointers: seq<(nat, Bytes)>, deleted: seq<(nat, nat)>, newFiles: seq<(nat, File)>)

  const EMPTY := Edit(None, None, None, None, None, [], [], [])

  // ------------------------------------------------------------------------
  // Fields

  datatype Field =
    | Comparator(name: Bytes)
    | LogNumber(number: nat)
    | PrevLogNumber(number: nat)
    | NextFileNumber(number: nat)
    | LastSequence(number: nat)
    | CompactPointer(level: nat, key: Bytes)
    | DeletedFile(level: nat, number: nat)
    | NewFile(level: nat, meta: FileMeta)

  function Tag(f: Field): nat {
    match f
    case Comparator(_) => 1
    case LogNumber(_) => 2
    case NextFileNumber(_) => 3
    case LastSequence(_) => 4
    case CompactPointer(_, _) => 5
    case DeletedFile(_, _) => 6
    case NewFile(_, _) => 7
    case PrevLogNumber(_) => 9
  }

  function EncodeMeta(m: FileMeta): Bytes {
    Varint(m.number) + (Varint(m.size) + (Prefixed(m.smallest) + Prefixed(m.largest)))
  }

  function Payload(f: Field): Bytes {
    match f
    case Comparator(name) => Prefixed(name)
    case LogNumber(n) => Varint(n)
    case PrevLogNumber(n) => Varint(n)
    case NextFileNumber(n) => Varint(n)
    case LastSequence(n) => Varint(n)
    case CompactPointer(level, key) => Varint(level) + Prefixed(key)
    case DeletedFile(level, n) => Varint(level) + Varint(n)
    case NewFile(level, m) => Varint(level) + EncodeMeta(m)
  }

  function EncodeField(f: Field): (b: Bytes)
    ensures |b| > 0
  {
    Varint(Tag(f)) + Payload(f)
  }

  predicate MetaFits(m: FileMeta) {
    m.number < TWO_64 && m.size < TWO_64 && |m.smallest| < TWO_32 && |m.largest| < TWO_32
  }

  predicate FieldFits(f: Field) {
    match f
    case Comparator(name) => |name| < TWO_32
    case LogNumber(n) => n < TWO_64
    case PrevLogNumber(n) => n < TWO_64
    case NextFileNumber(n) => n < TWO_64
    case LastSequence(n) => n < TWO_64
    case CompactPointer(level, key) => level < NUM_LEVELS && |key| < TWO_32
    case DeletedFile(level, n) => level < NUM_LEVELS && n < TWO_64
    case NewFile(level, m) => level < NUM_LEVELS && MetaFits(m)
  }

  function TakeLevel(input: Bytes): (r: Option<Parsed<nat>>)
    ensures r.Some? ==> r.value.value < NUM_LEVELS && |r.value.rest| < |input|
  {
    var p := TakeVarint32(input);
    if p.Some? && p.value.value < NUM_LEVELS then p else None
  }

  function TakeMeta(input: Bytes): (r: Option<Parsed<FileMeta>>)
    ensures r.Some? ==> |r.value.rest| < |input|
  {
    var number := TakeVarint64(input);
    if number.None? then None else
    var size := TakeVarint64(number.value.rest);
    if size.None? then None else
    var smallest := TakePrefixed(size.value.rest);
    if smallest.None? then None else
    var largest := TakePrefixed(smallest.value.rest);
    if largest.None? then None else
    Some(Parsed(FileMeta(number.value.value, size.value.value, smallest.value.value, largest.value.value),
                largest.value.rest))
  }

  /** The field of the given tag; none when the tag is unknown or the field is malformed. */
  function TakePayload(tag: nat, input: Bytes): (r: Option<Parsed<Field>>)
    ensures r.Some? ==> |r.value.rest| < |input|
  {
    if tag == 1 then
      var p := TakePrefixed(input);
      if p.Some? then Some(Parsed(Comparator(p.value.value), p.value.rest)) else None
    else if tag == 2 then
      var p := TakeVarint64(input);
      if p.Some? then Some(Parsed(LogNumber(p.value.value), p.value.rest)) else None
    else if tag == 3 then
      var p := TakeVarint64(input);
      if p.Some? then Some(Parsed(NextFileNumber(p.value.value), p.value.rest)) else None
    else if tag == 4 then
      var p := TakeVarint64(input);
      if p.Some? then Some(Parsed(LastSequence(p.value.value), p.value.rest)) else None
    else if tag == 5 then
      var l := TakeLevel(input);
      if l.None? then None else
      var p := TakePrefixed(l.value.rest);
      if p.Some? then Some(Parsed(CompactPointer(l.value.value, p.value.value), p.value.rest)) else None
    else if tag == 6 then
      var l := TakeLevel(input);
      if l.None? then None else
      var p := TakeVarint64(l.value.rest);
      if p.Some? then Some(Parsed(DeletedFile(l.value.value, p.value.value), p.value.rest)) else None
    else if tag == 7 then
      var l := TakeLevel(input);
      if l.None? then None else
      var p := TakeMeta(l.value.rest);
      if p.Some? then Some(Parsed(NewFile(l.value.value, p.value.value), p.value.rest)) else None
    else if tag == 9 then
      var p := TakeVarint64(input);
      if p.Some? then Some(Parsed(PrevLogNumber(p.value.value), p.value.rest)) else None
    else None
  }

  lemma MetaRoundTrip(m: FileMeta, rest: Bytes)
    requires MetaFits(m)
    ensures TakeMeta(EncodeMeta(m) + rest) == Some(Parsed(m, rest))
  {
    hide Varint;
    hide Prefixed;
    hide TakeVarint64;
    hide TakePrefixed;
    var a, b, c, d := Varint(m.number), Varint(m.size), Prefixed(m.smallest), Prefixed(m.largest);
    Assoc(a, b + (c + d), rest);
    Assoc(b, c + d, rest);
    Assoc(c, d, rest);
    Varint64RoundTrip(m.number, b + (c + d) + rest);
    Varint64RoundTrip(m.size, c + d + rest);
    PrefixedRoundTrip(m.smallest, d + rest);
    PrefixedRoundTrip(m.largest, rest);
  }

  lemma LevelRoundTrip(level: nat, rest: Bytes)
    requires level < NUM_LEVELS
    ensures TakeLevel(Varint(level) + rest) == Some(Parsed(level, rest))
  {
    hide Varint;
    hide TakeVarint32;
    Varint32RoundTrip(level, rest);
  }

  lemma PayloadRoundTrip(f: Field, rest: Bytes)
    requires FieldFits(f)
    ensures TakePayload(Tag(f), Payload(f) + rest) == Some(Parsed(f, rest))
  {
    hide Varint;
    hide Prefixed;
    hide TakeVarint64;
    hide TakePrefixed;
    hide TakeLevel;
    hide TakeMeta;
    hide EncodeMeta;
    match f
    case Comparator(name) => PrefixedRoundTrip(name, rest);
    case LogNumber(n) => Varint64RoundTrip(n, rest);
    case PrevLogNumber(n) => Varint64RoundTrip(n, rest);
    case NextFileNumber(n) => Varint64RoundTrip(n, rest);
    case LastSequence(n) => Varint64RoundTrip(n, rest);
    case CompactPointer(level, key) =>
      Assoc(Varint(level), Prefixed(key), rest);
      LevelRoundTrip(level, Prefixed(key) + rest);
      PrefixedRoundTrip(key, rest);
    case DeletedFile(level, n) =>
      Assoc(Varint(level), Varint(n), rest);
      LevelRoundTrip(level, Varint(n) + rest);
      Varint64RoundTrip(n, rest);
    case NewFile(level, m) =>
      Assoc(Varint(level), EncodeMeta(m), rest);
      LevelRoundTrip(level, EncodeMeta(m) + rest);
      MetaRoundTrip(m, rest);
  }

  // ------------------------------------------------------------------------
  // Edits

  function EncodeFields(fs: seq<Field>): Bytes {
    if |fs| == 0 then [] else EncodeField(fs[0]) + EncodeFields(fs[1..])
  }

  function PointerFields(pointers: seq<(nat, Bytes)>): (r: seq<Field>)
    ensures |r| == |pointers|
  {
    seq(|pointers|, i requires 0 <= i < |pointers| => CompactPointer(pointers[i].0, pointers[i].1))
  }

  function DeletedFields(deleted: seq<(nat, nat)>): (r: seq<Field>)
    ensures |r| == |deleted|
  {
    seq(|deleted|, i requires 0 <= i < |deleted| => DeletedFile(deleted[i].0, deleted[i].1))
  }

  function NewFields(c: Catalog, files: seq<(nat, File)>): (r: seq<Field>)
    ensures |r| == |files|
  {
    seq(|files|, i requires 0 <= i < |files| => NewFile(files[i].0, c.meta(files[i].1)))
  }

  function ComparatorField(e: Edit): seq<Field> {
    if e.comparator.Some? then [Comparator(e.comparator.value)] else []
  }

  function LogField(e: Edit): seq<Field> {
    if e.logNumber.Some? then [LogNumber(e.logNumber.value)] else []
  }

  function PrevLogField(e: Edit): seq<Field> {
    if e.prevLogNumber.Some? then [PrevLogNumber(e.prevLogNumber.value)] else []
  }

  function NextFileField(e: Edit): seq<Field> {
    if e.nextFile.Some? then [NextFileNumber(e.nextFile.value)] else []
  }

  function LastSequenceField(e: Edit): seq<Field> {
    if e.lastSequence.Some? then [LastSequence(e.lastSequence.value)] else []
  }

  /** The fields in the order in which they are written. */
  function HeadFields(e: Edit): seq<Field> {
    ComparatorField(e) + LogField(e) + PrevLogField(e) + NextFileField(e) + LastSequenceField(e)
  }

  function Fields(c: Catalog, e: Edit): seq<Field> {
    HeadFields(e) + PointerFields(e.compactPointers) + DeletedFields(e.deleted) + NewFields(c, e.newFiles)
  }

  function EncodeEdit(c: Catalog, e: Edit): Bytes {
    EncodeFields(Fields(c, e))
  }

  predicate PairLess(a: (nat, nat), b: (nat, nat)) {
    a.0 < b.0 || (a.0 == b.0 && a.1 < b.1)
  }

  /** Insertion into the ordered set of deleted files. */
  function InsertPair(s: seq<(nat, nat)>, p: (nat, nat)): seq<(nat, nat)> {
    if |s| == 0 || PairLess(s[|s| - 1], p) then s + [p]
    else if s[|s| - 1] == p then s
    else InsertPair(s[..|s| - 1], p) + [s[|s| - 1]]
  }

  predicate Ascending(s: seq<(nat, nat)>) {
    forall i, j :: 0 <= i < j < |s| ==> PairLess(s[i], s[j])
  }

  function Absorb(c: Catalog, e: Edit, f: Field): Edit {
    match f
    case Comparator(name) => e.(comparator := Some(name))
    case LogNumber(n) => e.(logNumber := Some(n))
    case PrevLogNumber(n) => e.(prevLogNumber := Some(n))
    case NextFileNumber(n) => e.(nextFile := Some(n))
    case LastSequence(n) => e.(lastSequence := Some(n))
    case CompactPointer(level, key) => e.(compactPointers := e.compactPointers + [(level, key)])
    case DeletedFile(level, n) => e.(deleted := InsertPair(e.deleted, (level, n)))
    case NewFile(level, m) => e.(newFiles := e.newFiles + [(level, c.load(m))])
  }

  function AbsorbAll(c: Catalog, e: Edit, fs: seq<Field>): Edit
    decreases |fs|
  {
    if |fs| == 0 then e else AbsorbAll(c, Absorb(c, e, fs[0]), fs[1..])
  }

  datatype Decoded = Decoded(edit: Edit, ok: bool)

  /** The decoding loop, from the fields absorbed so far. */
  function DecodeFields(c: Catalog, e: Edit, input: Bytes): Decoded
    decreases |input|
  {
    match TakeVarint32(input)
    case None => Decoded(e, input == [])
    case Some(tag) =>
      match TakePayload(tag.value, tag.rest)
      case None => Decoded(e, false)
      case Some(p) => DecodeFields(c, Absorb(c, e, p.value), p.rest)
  }

  /** Clear does not reset the compaction pointers. */
  function Cleared(e: Edit): Edit {
    EMPTY.(compactPointers := e.compactPointers)
  }

  method DecodeFrom(c: Catalog, e: Edit, src: Bytes) returns (edit: Edit, ok: bool)
    ensures Decoded(edit, ok) == DecodeFields(c, Cleared(e), src)
  {
    edit := Cleared(e);
    var input := src;
    ok := true;
    while ok
      invariant DecodeFields(c, Cleared(e), src) == if ok then DecodeFields(c, edit, input) else Decoded(edit, false)
      decreases ok, |input|
    {
      var tag := TakeVarint32(input);
      if tag.None? {
        ok := input == [];
        break;
      }
      var p := TakePayload(tag.value.value, tag.value.rest);
      if p.None? {
        ok := false;
      } else {
        edit := Absorb(c, edit, p.value.value);
        input := p.value.rest;
      }
    }
  }

  // ------------------------------------------------------------------------
  // Round trip

  predicate FieldsFit(fs: seq<Field>) {
    forall i :: 0 <= i < |fs| ==> FieldFits(fs[i])
  }

  lemma {:induction false} FieldsRoundTrip(c: Catalog, e: Edit, fs: seq<Field>)
    requires FieldsFit(fs)
    ensures DecodeFields(c, e, EncodeFields(fs)) == Decoded(AbsorbAll(c, e, fs), true)
    decreases |fs|
  {
    hide Varint;
    hide TakePayload;
    hide TakeVarint32;
    hide Payload;
    hide Absorb;
    hide FieldFits;
    if |fs| == 0 {
    } else {
      var rest := EncodeFields(fs[1..]);
      Assoc(Varint(Tag(fs[0])), Payload(fs[0]), rest);
      Varint32RoundTrip(Tag(fs[0]), Payload(fs[0]) + rest);
      PayloadRoundTrip(fs[0], rest);
      FieldsRoundTrip(c, Absorb(c, e, fs[0]), fs[1..]);
    }
  }

  lemma {:induction false} AbsorbConcat(c: Catalog, e: Edit, a: seq<Field>, b: seq<Field>)
    ensures AbsorbAll(c, e, a + b) == AbsorbAll(c, AbsorbAll(c, e, a), b)
    decreases |a|
  {
    hide Absorb;
    if |a| == 0 {
      assert a + b == b;
    } else {
      ConsTail(a, b);
      AbsorbConcat(c, Absorb(c, e, a[0]), a[1..], b);
    }
  }

  lemma {:induction false} AbsorbPointers(c: Catalog, e: Edit, pointers: seq<(nat, Bytes)>)
    ensures AbsorbAll(c, e, PointerFields(pointers)) == e.(compactPointers := e.compactPointers + pointers)
    decreases |pointers|
  {
    if |pointers| == 0 {
      assert e.compactPointers + pointers == e.compactPointers;
    } else {
      var fs := PointerFields(pointers);
      assert fs[1..] == PointerFields(pointers[1..]);
      AbsorbPointers(c, Absorb(c, e, fs[0]), pointers[1..]);
      assert e.compactPointers + pointers == e.compactPointers + [pointers[0]] + pointers[1..];
    }
  }

  lemma {:induction false} AbsorbDeleted(c: Catalog, e: Edit, deleted: seq<(nat, nat)>)
    requires Ascending(e.deleted + deleted)
    ensures AbsorbAll(c, e, DeletedFields(deleted)) == e.(deleted := e.deleted + deleted)
    decreases |deleted|
  {
    if |deleted| == 0 {
      assert e.deleted + deleted == e.deleted;
    } else {
      var fs := DeletedFields(deleted);
      assert fs[1..] == DeletedFields(deleted[1..]);
      var all := e.deleted + deleted;
      assert |e.deleted| > 0 ==> PairLess(all[|e.deleted| - 1], all[|e.deleted|]);
      assert InsertPair(e.deleted, deleted[0]) == e.deleted + [deleted[0]];
      assert all == e.deleted + [deleted[0]] + deleted[1..];
      AbsorbDeleted(c, Absorb(c, e, fs[0]), deleted[1..]);
    }
  }

  /** The table a file entry names is the file it was written for. */
  predicate Known(c: Catalog, f: File) {
    c.load(c.meta(f)) == f && MetaFits(c.meta(f))
  }

  predicate FilesKnown(c: Catalog, files: seq<(nat, File)>) {
    forall i :: 0 <= i < |files| ==> files[i].0 < NUM_LEVELS && Known(c, files[i].1)
  }

  lemma {:induction false} AbsorbNew(c: Catalog, e: Edit, files: seq<(nat, File)>)
    requires FilesKnown(c, files)
    ensures AbsorbAll(c, e, NewFields(c, files)) == e.(newFiles := e.newFiles + files)
    decreases |files|
  {
    if |files| == 0 {
      assert e.newFiles + files == e.newFiles;
    } else {
      var fs := NewFields(c, files);
      assert fs[1..] == NewFields(c, files[1..]);
      AbsorbNew(c, Absorb(c, e, fs[0]), files[1..]);
      assert e.newFiles + files == e.newFiles + [files[0]] + files[1..];
    }
  }

  /** What the callers of the encoder guarantee. */
  predicate Encodable(c: Catalog, e: Edit) {
    && FieldsFit(HeadFields(e)) && FieldsFit(PointerFields(e.compactPointers)) && FieldsFit(DeletedFields(e.deleted))
    && Ascending(e.deleted)
    && FilesKnown(c, e.newFiles)
  }

  lemma AbsorbOne(c: Catalog, e: Edit, fs: seq<Field>)
    requires |fs| <= 1
    ensures AbsorbAll(c, e, fs) == if |fs| == 0 then e else Absorb(c, e, fs[0])
  {
    assert |fs| == 1 ==> fs[1..] == [];
  }

  lemma AbsorbHead(c: Catalog, e: Edit)
    ensures AbsorbAll(c, EMPTY, HeadFields(e))
            == EMPTY.(comparator := e.comparator, logNumber := e.logNumber, prevLogNumber := e.prevLogNumber,
                      nextFile := e.nextFile, lastSequence := e.lastSequence)
  {
    hide AbsorbAll;
    var a, b, d, f, g := ComparatorField(e), LogField(e), PrevLogField(e), NextFileField(e), LastSequenceField(e);
    AbsorbConcat(c, EMPTY, a + b + d + f, g);
    AbsorbConcat(c, EMPTY, a + b + d, f);
    AbsorbConcat(c, EMPTY, a + b, d);
    AbsorbConcat(c, EMPTY, a, b);
    var e1 := EMPTY.(comparator := e.comparator);
    AbsorbOne(c, EMPTY, a);
    AbsorbOne(c, e1, b);
    AbsorbOne(c, e1.(logNumber := e.logNumber), d);
    AbsorbOne(c, e1.(logNumber := e.logNumber, prevLogNumber := e.prevLogNumber), f);
    AbsorbOne(c, e1.(logNumber := e.logNumber, prevLogNumber := e.prevLogNumber, nextFile := e.nextFile), g);
  }

  /** Reading a written edit gives the edit back. */
  lemma EditRoundTrip(c: Catalog, e: Edit)
    requires Encodable(c, e)
    ensures DecodeFields(c, EMPTY, EncodeEdit(c, e)) == Decoded(e, true)
  {
    hide AbsorbAll;
    hide HeadFields;
    hide FieldFits;
    hide DecodeFields;
    hide EncodeFields;
    var head, pointers := HeadFields(e), PointerFields(e.compactPointers);
    var deleted, files := DeletedFields(e.deleted), NewFields(c, e.newFiles);
    assert FieldsFit(files) by { NewFilesFit(c, e.newFiles); }
    FieldsRoundTrip(c, EMPTY, Fields(c, e));
    AbsorbConcat(c, EMPTY, head + pointers + deleted, files);
    AbsorbConcat(c, EMPTY, head + pointers, deleted);
    AbsorbConcat(c, EMPTY, head, pointers);
    AbsorbHead(c, e);
    var e1 := AbsorbAll(c, EMPTY, head);
    AbsorbPointers(c, e1, e.compactPointers);
    var e2 := AbsorbAll(c, e1, pointers);
    assert e2.deleted + e.deleted == e.deleted;
    AbsorbDeleted(c, e2, e.deleted);
    var e3 := AbsorbAll(c, e2, deleted);
    AbsorbNew(c, e3, e.newFiles);
  }

  lemma NewFilesFit(c: Catalog, files: seq<(nat, File)>)
    requires FilesKnown(c, files)
    ensures FieldsFit(NewFields(c, files))
  {}
}
