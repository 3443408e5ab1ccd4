/**
 Reading a log back.  The reader loads one block at a time; its position is described by the
 bytes still to come, `rest`, and how far the current block has been used, `off`.
 */
module LogReader {
  import opened Coding
  import opened Entries
  import opened Log

  /** Result of one physical read: a code, a fragment, the new position, and whether a
      corruption was reported. */
  datatype Physical = Physical(code: nat, fragment: Bytes, rest: Bytes, off: nat, reports: nat)

  /** Result of reading one record. */
  datatype Logical = Logical(record: Option<Bytes>, rest: Bytes, off: nat, reports: nat)

  function Min(a: nat, b: nat): nat {
    if a < b then a else b
  }

  /** What the reader has in its buffer. */
  function Buffer(rest: Bytes, off: nat): Bytes
    requires off <= BLOCK_SIZE
  {
    rest[..Min(|rest|, BLOCK_SIZE - off)]
  }

  /** The last read fell short of a full block. */
  predicate AtEof(rest: Bytes, off: nat)
    requires off <= BLOCK_SIZE
  {
    |rest| < BLOCK_SIZE - off
  }

  /** Takes the next physical record out of the buffer. */
  function ParseBuffer(crc: Checksum, rest: Bytes, off: nat): (p: Physical)
    requires off <= BLOCK_SIZE
    ensures p.off <= BLOCK_SIZE
    ensures p.code != EOF_CODE ==> |p.rest| < |rest|
  {
    var buffer := Buffer(rest, off);
    if |buffer| < HEADER_SIZE then Physical(EOF_CODE, [], rest[|buffer|..], off + |buffer|, 0)
    else
      var length := (buffer[4] as int) + 256 * (buffer[5] as int);
      if HEADER_SIZE + length > |buffer| then
        if AtEof(rest, off) then Physical(EOF_CODE, [], rest[|buffer|..], off + |buffer|, 0)
        else Physical(BAD_RECORD_CODE, [], rest[|buffer|..], off + |buffer|, 1)
      else if buffer[6] == ZERO_TYPE && length == 0 then
        Physical(BAD_RECORD_CODE, [], rest[|buffer|..], off + |buffer|, 0)
      else
        var payload := buffer[HEADER_SIZE..HEADER_SIZE + length];
        if crc(buffer[6], payload) != buffer[..4] then
          Physical(BAD_RECORD_CODE, [], rest[|buffer|..], off + |buffer|, 1)
        else
          Physical(buffer[6], payload, rest[HEADER_SIZE + length..], off + HEADER_SIZE + length, 0)
  }

  /** Skips a block's trailer, then takes the next physical record. */
  function ReadPhysical(crc: Checksum, rest: Bytes, off: nat): (p: Physical)
    requires off <= BLOCK_SIZE
    ensures p.off <= BLOCK_SIZE
    ensures p.code != EOF_CODE ==> |p.rest| < |rest|
  {
    var buffer := Buffer(rest, off);
    if |buffer| < HEADER_SIZE && !AtEof(rest, off) then ParseBuffer(crc, rest[|buffer|..], 0)
    else ParseBuffer(crc, rest, off)
  }

  function Report(condition: bool): nat {
    if condition then 1 else 0
  }

  /** What one physical record does to the record being assembled. */
  datatype Turn = Done(record: Option<Bytes>, reports: nat) | More(inFragment: bool, scratch: Bytes, reports: nat)

  function Handle(code: nat, fragment: Bytes, inFragment: bool, scratch: Bytes): (t: Turn)
    ensures code == EOF_CODE <==> t.Done? && t.record.None?
  {
    if code == FULL_TYPE as nat then Done(Some(fragment), Report(inFragment && scratch != []))
    else if code == FIRST_TYPE as nat then More(true, fragment, Report(inFragment && scratch != []))
    else if code == MIDDLE_TYPE as nat then
      if inFragment then More(true, scratch + fragment, 0) else More(false, scratch, 1)
    else if code == LAST_TYPE as nat then
      if inFragment then Done(Some(scratch + fragment), 0) else More(false, scratch, 1)
    else if code == EOF_CODE then Done(None, 0)
    else if code == BAD_RECORD_CODE then
      if inFragment then More(false, [], 1) else More(false, scratch, 0)
    else More(false, [], 1)
  }

  /** Reads physical records until one completes a record or the log ends. */
  function ReadLogical(crc: Checksum, rest: Bytes, off: nat, inFragment: bool, scratch: Bytes): (l: Logical)
    requires off <= BLOCK_SIZE
    ensures l.off <= BLOCK_SIZE
    ensures l.record.Some? ==> |l.rest| < |rest|
    decreases |rest|
  {
    var p := ReadPhysical(crc, rest, off);
    match Handle(p.code, p.fragment, inFragment, scratch)
    case Done(record, n) => Logical(record, p.rest, p.off, p.reports + n)
    case More(inFragment', scratch', n) =>
      var l := ReadLogical(crc, p.rest, p.off, inFragment', scratch');
      l.(reports := p.reports + n + l.reports)
  }

  function AfterReports(l: Logical, reports: nat): Logical {
    l.(reports := reports + l.reports)
  }

  class Reader {
    const crc: Checksum
    var unread: Bytes   // the part of the file not yet loaded
    var buffer: Bytes
    var eof: bool
    var reports: nat    // corruptions reported so far
    ghost var off: nat

    constructor (crc: Checksum, file: Bytes)
      ensures Valid() && Rest() == file && off == BLOCK_SIZE && reports == 0 && this.crc == crc
    {
      this.crc, unread, buffer, eof, reports := crc, file, [], false, 0;
      off := BLOCK_SIZE;
    }

    ghost predicate Valid()
      reads this
    {
      && off + |buffer| <= BLOCK_SIZE
      && (if eof then unread == [] && off + |buffer| < BLOCK_SIZE else off + |buffer| == BLOCK_SIZE)
    }

    ghost function Rest(): Bytes
      reads this
    {
      buffer + unread
    }

    method LoadBlock()
      requires Valid() && !eof
      modifies this
      ensures Valid() && off == 0 && Rest() == old(unread) && reports == old(reports)
    {
      var n := Min(|unread|, BLOCK_SIZE);
      buffer, unread := unread[..n], unread[n..];
      off := 0;
      if |buffer| < BLOCK_SIZE {
        eof := true;
      }
    }

    method ReadPhysicalRecord() returns (code: nat, fragment: Bytes)
      requires Valid()
      modifies this
      ensures Valid()
      ensures var p := ReadPhysical(crc, old(Rest()), old(off));
              code == p.code && fragment == p.fragment && Rest() == p.rest && off == p.off
              && reports == old(reports) + p.reports
    {
      if |buffer| < HEADER_SIZE && !eof {
        LoadBlock();
      }
      code, fragment := TakeRecord();
    }

    method DropBuffer()
      requires Valid()
      modifies this
      ensures Valid() && Rest() == old(Rest())[|old(buffer)|..] && off == old(off) + |old(buffer)|
      ensures reports == old(reports)
    {
      off := off + |buffer|;
      buffer := [];
    }

    method TakeRecord() returns (code: nat, fragment: Bytes)
      requires Valid()
      modifies this
      ensures Valid()
      ensures var p := ParseBuffer(crc, old(Rest()), old(off));
              code == p.code && fragment == p.fragment && Rest() == p.rest && off == p.off
              && reports == old(reports) + p.reports
    {
      code, fragment := BAD_RECORD_CODE, [];
      if |buffer| < HEADER_SIZE {
        DropBuffer();
        return EOF_CODE, [];
      }
      var length := (buffer[4] as int) + 256 * (buffer[5] as int);
      if HEADER_SIZE + length > |buffer| {
        DropBuffer();
        if eof {
          return EOF_CODE, [];
        }
        reports := reports + 1;
      } else if buffer[6] == ZERO_TYPE && length == 0 {
        DropBuffer();
      } else {
        var payload := buffer[HEADER_SIZE..HEADER_SIZE + length];
        if crc(buffer[6], payload) != buffer[..4] {
          DropBuffer();
          reports := reports + 1;
        } else {
          code, fragment := buffer[6], payload;
          buffer := buffer[HEADER_SIZE + length..];
          off := off + HEADER_SIZE + length;
        }
      }
    }

    /** Updates the record under assembly; `done` tells whether it is complete or the log ended. */
    method Assemble(code: nat, fragment: Bytes, inFragment: bool, scratch: Bytes)
      returns (done: bool, record: Option<Bytes>, inFragment': bool, scratch': Bytes)
      modifies this`reports
      ensures match Handle(code, fragment, inFragment, scratch)
              case Done(r, n) => done && record == r && reports == old(reports) + n
              case More(f, t, n) => !done && inFragment' == f && scratch' == t && reports == old(reports) + n
    {
      done, record, inFragment', scratch' := false, None, inFragment, scratch;
      if code == FULL_TYPE as nat {
        if inFragment && scratch != [] {
          reports := reports + 1;
        }
        done, record := true, Some(fragment);
      } else if code == FIRST_TYPE as nat {
        if inFragment && scratch != [] {
          reports := reports + 1;
        }
        scratch', inFragment' := fragment, true;
      } else if code == MIDDLE_TYPE as nat {
        if !inFragment {
          reports := reports + 1;
        } else {
          scratch' := scratch + fragment;
        }
      } else if code == LAST_TYPE as nat {
        if !inFragment {
          reports := reports + 1;
        } else {
          done, record := true, Some(scratch + fragment);
        }
      } else if code == EOF_CODE {
        done := true;
      } else if code == BAD_RECORD_CODE {
        if inFragment {
          reports := reports + 1;
          inFragment', scratch' := false, [];
        }
      } else {
        reports := reports + 1;
        inFragment', scratch' := false, [];
      }
    }

    method ReadRecord() returns (record: Option<Bytes>)
      requires Valid()
      modifies this
      ensures Valid()
      ensures var l := ReadLogical(crc, old(Rest()), old(off), false, []);
              record == l.record && Rest() == l.rest && off == l.off && reports == old(reports) + l.reports
    {
      var scratch: Bytes := [];
      var inFragment, done := false, false;
      record := None;
      ghost var target := AfterReports(ReadLogical(crc, Rest(), off, false, []), reports);
      while !done
        invariant Valid()
        invariant target == if done then Logical(record, Rest(), off, reports)
                            else AfterReports(ReadLogical(crc, Rest(), off, inFragment, scratch), reports)
        decreases !done, |Rest()|
      {
        var code, fragment := ReadPhysicalRecord();
        done, record, inFragment, scratch := Assemble(code, fragment, inFragment, scratch);
      }
    }
  }
}
