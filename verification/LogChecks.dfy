/**
 What the reader makes of any file, damaged or not: each record it returns is put together from fragments that
 lie in the file one behind the other, each with the checksum stored in front of it.
 */
module LogChecks {
  import opened Coding
  import opened Log
  import opened LogReader
  import opened LogRoundTrip
  import opened Sequences

  // ------------------------------------------------------------------------
  // Fragments

  /** At this place the file holds a whole fragment of this type, with its checksum. */
  ghost predicate ChunkAt(crc: Checksum, file: Bytes, at: nat, t: byte, payload: Bytes) {
    && at + HEADER_SIZE + |payload| <= |file|
    && file[at..at + 4] == crc(t, payload) && file[at + 6] == t
    && (file[at + 4] as int) + 256 * (file[at + 5] as int) == |payload|
    && file[at + HEADER_SIZE..at + HEADER_SIZE + |payload|] == payload
  }

  lemma ParsedIsChecked(crc: Checksum, rest: Bytes, off: nat)
    requires off <= BLOCK_SIZE
    ensures var p := ParseBuffer(crc, rest, off);
            p.code != EOF_CODE && p.code != BAD_RECORD_CODE ==>
              p.code < 256 && ChunkAt(crc, rest, 0, p.code, p.fragment) && p.rest == rest[HEADER_SIZE + |p.fragment|..]
  {
    var buffer := Buffer(rest, off);
    if |buffer| >= HEADER_SIZE {
      var length := (buffer[4] as int) + 256 * (buffer[5] as int);
      if HEADER_SIZE + length <= |buffer| {
        assert buffer[..4] == rest[..4];
        assert buffer[HEADER_SIZE..HEADER_SIZE + length] == rest[HEADER_SIZE..HEADER_SIZE + length];
      }
    }
  }

  /** A fragment is delivered only with its checksum... */
  lemma FragmentIsChecked(crc: Checksum, file: Bytes, pos: nat, off: nat) returns (at: nat)
    requires off <= BLOCK_SIZE && pos <= |file|
    ensures var p := ReadPhysical(crc, file[pos..], off);
            p.code != EOF_CODE && p.code != BAD_RECORD_CODE ==>
              && pos <= at && p.code < 256 && ChunkAt(crc, file, at, p.code, p.fragment)
              && at + HEADER_SIZE + |p.fragment| <= |file| && p.rest == file[at + HEADER_SIZE + |p.fragment|..]
  {
    hide ReadPhysical;
    hide ParseBuffer;
    hide ChunkAt;
    var off';
    at, off' := ReadsAt(crc, file, pos, off);
    ParsedIsChecked(crc, file[at..], off');
    ChunkMoves(crc, file, at, ReadPhysical(crc, file[pos..], off));
  }

  /** The reader parses where it stands, or behind the trailer. */
  lemma ReadsAt(crc: Checksum, file: Bytes, pos: nat, off: nat) returns (at: nat, off': nat)
    requires off <= BLOCK_SIZE && pos <= |file|
    ensures pos <= at <= |file| && off' <= BLOCK_SIZE
    ensures ReadPhysical(crc, file[pos..], off) == ParseBuffer(crc, file[at..], off')
  {
    hide ParseBuffer;
    var rest := file[pos..];
    var n := |Buffer(rest, off)|;
    if n < HEADER_SIZE && !AtEof(rest, off) {
      at, off' := pos + n, 0;
      DropTwice(file, pos, n);
    } else {
      at, off' := pos, off;
    }
  }

  lemma ChunkMoves(crc: Checksum, file: Bytes, at: nat, p: Physical)
    requires at <= |file|
    ensures p.code < 256 && ChunkAt(crc, file[at..], 0, p.code, p.fragment) ==>
              && ChunkAt(crc, file, at, p.code, p.fragment) && at + HEADER_SIZE + |p.fragment| <= |file|
              && file[at..][HEADER_SIZE + |p.fragment|..] == file[at + HEADER_SIZE + |p.fragment|..]
  {
    var rest, n := file[at..], |p.fragment|;
    if p.code < 256 && ChunkAt(crc, rest, 0, p.code, p.fragment) {
      assert rest[..4] == file[at..at + 4];
      assert rest[HEADER_SIZE..HEADER_SIZE + n] == file[at + HEADER_SIZE..at + HEADER_SIZE + n];
    }
  }

  /** ...and one with a wrong checksum is reported, with the rest of its block passed over. */
  lemma BadChecksumIsReported(crc: Checksum, rest: Bytes, off: nat)
    requires off + HEADER_SIZE <= BLOCK_SIZE && |rest| >= HEADER_SIZE
    requires var length := (rest[4] as int) + 256 * (rest[5] as int);
             && HEADER_SIZE + length <= |rest| && off + HEADER_SIZE + length <= BLOCK_SIZE
             && (rest[6] != ZERO_TYPE || length > 0)
             && rest[..4] != crc(rest[6], rest[HEADER_SIZE..HEADER_SIZE + length])
    ensures var n := Min(|rest|, BLOCK_SIZE - off);
            ReadPhysical(crc, rest, off) == Physical(BAD_RECORD_CODE, [], rest[n..], off + n, 1)
  {
    var length := (rest[4] as int) + 256 * (rest[5] as int);
    var buffer := Buffer(rest, off);
    assert buffer[..4] == rest[..4];
    assert buffer[HEADER_SIZE..HEADER_SIZE + length] == rest[HEADER_SIZE..HEADER_SIZE + length];
  }

  // ------------------------------------------------------------------------
  // Records

  function Joined(parts: seq<Bytes>): Bytes {
    if |parts| == 0 then [] else Joined(parts[..|parts| - 1]) + parts[|parts| - 1]
  }

  /** The type of part `i` of `n`. */
  function PartType(i: nat, n: nat): byte {
    if n == 1 then FULL_TYPE else if i == 0 then FIRST_TYPE else if i + 1 == n then LAST_TYPE else MIDDLE_TYPE
  }

  /** The parts lie in the file in this order. */
  ghost predicate InOrder(parts: seq<Bytes>, ats: seq<nat>) {
    && |ats| == |parts|
    && forall i :: 0 <= i < |parts| - 1 ==> ats[i] + HEADER_SIZE + |parts[i]| <= ats[i + 1]
  }

  /** The record is in the file, whole. */
  ghost predicate MadeOf(crc: Checksum, file: Bytes, record: Bytes, parts: seq<Bytes>, ats: seq<nat>) {
    && |parts| > 0 && InOrder(parts, ats) && record == Joined(parts)
    && forall i :: 0 <= i < |parts| ==> ChunkAt(crc, file, ats[i], PartType(i, |parts|), parts[i])
  }

  /** Its first parts are. */
  ghost predicate Begun(crc: Checksum, file: Bytes, scratch: Bytes, parts: seq<Bytes>, ats: seq<nat>, pos: nat) {
    && |parts| > 0 && InOrder(parts, ats) && scratch == Joined(parts)
    && ats[|parts| - 1] + HEADER_SIZE + |parts[|parts| - 1]| <= pos
    && forall i :: 0 <= i < |parts| ==> ChunkAt(crc, file, ats[i], if i == 0 then FIRST_TYPE else MIDDLE_TYPE, parts[i])
  }

  lemma OnePart(crc: Checksum, file: Bytes, at: nat, t: byte, part: Bytes)
    requires ChunkAt(crc, file, at, t, part)
    ensures t == FULL_TYPE ==> MadeOf(crc, file, part, [part], [at])
    ensures t == FIRST_TYPE ==> Begun(crc, file, part, [part], [at], at + HEADER_SIZE + |part|)
  {
    assert [part][..0] == [];
    assert Joined([part]) == [] + part;
    hide ChunkAt;
  }

  lemma NextPart(crc: Checksum, file: Bytes, scratch: Bytes, parts: seq<Bytes>, ats: seq<nat>, pos: nat, at: nat, t: byte, part: Bytes)
    requires Begun(crc, file, scratch, parts, ats, pos) && pos <= at && ChunkAt(crc, file, at, t, part)
    ensures t == MIDDLE_TYPE ==> Begun(crc, file, scratch + part, parts + [part], ats + [at], at + HEADER_SIZE + |part|)
    ensures t == LAST_TYPE ==> MadeOf(crc, file, scratch + part, parts + [part], ats + [at])
  {
    hide ChunkAt;
    assert (parts + [part])[..|parts|] == parts;
  }

  lemma {:induction false} RecordIsThere(crc: Checksum, file: Bytes, pos: nat, off: nat, inFragment: bool, scratch: Bytes,
                                         parts: seq<Bytes>, ats: seq<nat>)
    returns (parts': seq<Bytes>, ats': seq<nat>)
    requires off <= BLOCK_SIZE && pos <= |file| && ReadLogical(crc, file[pos..], off, inFragment, scratch).record.Some?
    requires inFragment ==> Begun(crc, file, scratch, parts, ats, pos)
    ensures MadeOf(crc, file, ReadLogical(crc, file[pos..], off, inFragment, scratch).record.value, parts', ats')
    decreases |file| - pos
  {
    hide ReadPhysical;
    hide ChunkAt;
    hide Begun;
    hide MadeOf;
    var p := ReadPhysical(crc, file[pos..], off);
    var at := FragmentIsChecked(crc, file, pos, off);
    var next := |file| - |p.rest|;
    RestIsSuffix(crc, file, pos, off);
    if p.code == FULL_TYPE as nat || p.code == FIRST_TYPE as nat {
      OnePart(crc, file, at, p.code, p.fragment);
      parts', ats' := [p.fragment], [at];
    } else if (p.code == MIDDLE_TYPE as nat || p.code == LAST_TYPE as nat) && inFragment {
      NextPart(crc, file, scratch, parts, ats, pos, at, p.code, p.fragment);
      parts', ats' := parts + [p.fragment], ats + [at];
    } else {
      parts', ats' := parts, ats;
    }
    match Handle(p.code, p.fragment, inFragment, scratch)
    case Done(_, _) =>
    case More(f, s, _) =>
      parts', ats' := RecordIsThere(crc, file, next, p.off, f, s, parts', ats');
  }

  lemma ParseSuffix(crc: Checksum, rest: Bytes, off: nat)
    requires off <= BLOCK_SIZE
    ensures var p := ParseBuffer(crc, rest, off); |p.rest| <= |rest| && p.rest == rest[|rest| - |p.rest|..]
  {}

  lemma DropTwice(file: Bytes, a: nat, b: nat)
    requires a + b <= |file|
    ensures file[a..][b..] == file[a + b..]
  {}

  lemma RestIsSuffix(crc: Checksum, file: Bytes, pos: nat, off: nat)
    requires off <= BLOCK_SIZE && pos <= |file|
    ensures var p := ReadPhysical(crc, file[pos..], off);
            |p.rest| <= |file| - pos && p.rest == file[|file| - |p.rest|..]
  {
    hide ParseBuffer;
    hide ReadPhysical;
    var at, off' := ReadsAt(crc, file, pos, off);
    ParseSuffix(crc, file[at..], off');
    var p := ReadPhysical(crc, file[pos..], off);
    DropTwice(file, at, |file| - at - |p.rest|);
  }

  /** Whatever the file holds, each record read from it is there, whole and in order, every part with its checksum. */
  lemma {:induction false} EveryRecordIsThere(crc: Checksum, file: Bytes, pos: nat, off: nat, k: nat)
    returns (parts: seq<Bytes>, ats: seq<nat>)
    requires off <= BLOCK_SIZE && pos <= |file| && k < |ReadAll(crc, file[pos..], off).records|
    ensures MadeOf(crc, file, ReadAll(crc, file[pos..], off).records[k], parts, ats)
    decreases |file| - pos
  {
    hide ReadLogical;
    hide MadeOf;
    var l := ReadLogical(crc, file[pos..], off, false, []);
    if k == 0 {
      parts, ats := RecordIsThere(crc, file, pos, off, false, [], [], []);
    } else {
      LogicalSuffix(crc, file, pos, off, false, []);
      parts, ats := EveryRecordIsThere(crc, file, |file| - |l.rest|, l.off, k - 1);
    }
  }

  lemma {:induction false} LogicalSuffix(crc: Checksum, file: Bytes, pos: nat, off: nat, inFragment: bool, scratch: Bytes)
    requires off <= BLOCK_SIZE && pos <= |file|
    ensures var l := ReadLogical(crc, file[pos..], off, inFragment, scratch);
            |l.rest| <= |file| - pos && l.rest == file[|file| - |l.rest|..]
    decreases |file| - pos
  {
    hide ReadPhysical;
    RestIsSuffix(crc, file, pos, off);
    var p := ReadPhysical(crc, file[pos..], off);
    match Handle(p.code, p.fragment, inFragment, scratch)
    case Done(_, _) =>
    case More(f, s, _) => LogicalSuffix(crc, file, |file| - |p.rest|, p.off, f, s);
  }

  // ------------------------------------------------------------------------
  // Reports

  function Concat(parts: seq<Bytes>): Bytes {
    if |parts| == 0 then [] else parts[0] + Concat(parts[1..])
  }

  /** What the fragments of records hold that the reader comes by until the end of the log. */
  function Payloads(crc: Checksum, rest: Bytes, off: nat): Bytes
    requires off <= BLOCK_SIZE
    decreases |rest|
  {
    var p := ReadPhysical(crc, rest, off);
    if p.code == EOF_CODE then []
    else (if FULL_TYPE as nat <= p.code <= LAST_TYPE as nat then p.fragment else []) + Payloads(crc, p.rest, p.off)
  }

  lemma {:induction false} RecordKeepsAll(crc: Checksum, rest: Bytes, off: nat, inFragment: bool, scratch: Bytes)
    requires off <= BLOCK_SIZE
    ensures var l := ReadLogical(crc, rest, off, inFragment, scratch);
            l.reports == 0 && l.record.Some? ==>
              (if inFragment then scratch else []) + Payloads(crc, rest, off) == l.record.value + Payloads(crc, l.rest, l.off)
    decreases |rest|
  {
    hide ReadPhysical;
    var p := ReadPhysical(crc, rest, off);
    var begun := if inFragment then scratch else [];
    match Handle(p.code, p.fragment, inFragment, scratch)
    case Done(record, n) =>
      if record.Some? && n == 0 { Assoc(begun, p.fragment, Payloads(crc, p.rest, p.off)); }
    case More(inFragment', scratch', n) =>
      RecordKeepsAll(crc, p.rest, p.off, inFragment', scratch');
      Assoc(begun, p.fragment, Payloads(crc, p.rest, p.off));
  }

  /** When nothing is reported nothing was dropped: the records, and what is left of an unfinished one at the end, are
      all that the fragments in the file hold. */
  lemma {:induction false} NoReportNoLoss(crc: Checksum, rest: Bytes, off: nat)
    requires off <= BLOCK_SIZE && ReadAll(crc, rest, off).reports == 0
    ensures Concat(ReadAll(crc, rest, off).records) <= Payloads(crc, rest, off)
    decreases |rest|
  {
    hide ReadLogical;
    hide Payloads;
    var l := ReadLogical(crc, rest, off, false, []);
    if l.record.Some? {
      var more := ReadAll(crc, l.rest, l.off).records;
      NoReportNoLoss(crc, l.rest, l.off);
      RecordKeepsAll(crc, rest, off, false, []);
      assert [] + Payloads(crc, rest, off) == Payloads(crc, rest, off);
      assert ([l.record.value] + more)[1..] == more;
      SamePrefix(l.record.value, Concat(more), Payloads(crc, l.rest, l.off));
    }
  }

  lemma SamePrefix(a: Bytes, b: Bytes, c: Bytes)
    requires b <= c
    ensures a + b <= a + c
  {}
}
