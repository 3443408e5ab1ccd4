/**
 The write batch: its byte representation, how operations are put in, and how they are read
 back into a memtable with consecutive sequence numbers.
 */
module WriteBatches {
  import opened Coding
  import opened Entries
  import opened Sequences

  datatype BatchOp = PutOp(key: Bytes, value: Bytes) | DeleteOp(key: Bytes)

  /** One call of MemTable::Add. */
  datatype Added = Added(seqNo: nat, op: BatchOp)

  datatype Status = Ok | Corruption | IOError

  const HEADER: nat := 12
  const VALUE_TAG: byte := 1
  const DELETION_TAG: byte := 0

  /** The number of operations a signed 32-bit counter can count. */
  const COUNT_LIMIT: nat := 0x8000_0000

  // ------------------------------------------------------------------------
  // Representation

  predicate Fits(op: BatchOp) {
    |op.key| < TWO_32 && (op.PutOp? ==> |op.value| < TWO_32)
  }

  predicate AllFit(ops: seq<BatchOp>) {
    forall i :: 0 <= i < |ops| ==> Fits(ops[i])
  }

  function EncodeOp(op: BatchOp): (b: Bytes)
    ensures |b| > 0
  {
    match op
    case PutOp(k, v) => [VALUE_TAG] + Prefixed(k) + Prefixed(v)
    case DeleteOp(k) => [DELETION_TAG] + Prefixed(k)
  }

  function EncodeOps(ops: seq<BatchOp>): Bytes {
    if |ops| == 0 then [] else EncodeOp(ops[0]) + EncodeOps(ops[1..])
  }

  /** sequence: fixed64, count: fixed32, then the operations. */
  function Rep(seqNo: nat, ops: seq<BatchOp>): (b: Bytes)
    ensures |b| >= HEADER
  {
    Fixed(seqNo, 8) + Fixed(|ops|, 4) + EncodeOps(ops)
  }

  function SequenceOf(rep: Bytes): nat
    requires |rep| >= HEADER
  {
    FixedValue(rep[..8])
  }

  function CountOf(rep: Bytes): nat
    requires |rep| >= HEADER
  {
    FixedValue(rep[8..HEADER])
  }

  lemma RepParts(seqNo: nat, ops: seq<BatchOp>)
    ensures var rep := Rep(seqNo, ops);
            rep[..8] == Fixed(seqNo, 8) && rep[8..HEADER] == Fixed(|ops|, 4) && rep[HEADER..] == EncodeOps(ops)
  {}

  lemma HeaderRoundTrip(seqNo: nat, ops: seq<BatchOp>)
    requires seqNo < TWO_64 && |ops| < TWO_32
    ensures SequenceOf(Rep(seqNo, ops)) == seqNo && CountOf(Rep(seqNo, ops)) == |ops|
  {
    RepParts(seqNo, ops);
    Fixed64(seqNo);
    Fixed32(|ops|);
  }

  lemma {:induction false} EncodeOpsConcat(a: seq<BatchOp>, b: seq<BatchOp>)
    ensures EncodeOps(a + b) == EncodeOps(a) + EncodeOps(b)
  {
    hide EncodeOp;
    if |a| == 0 {
      assert a + b == b;
    } else {
      EncodeOpsConcat(a[1..], b);
      ConsTail(a, b);
      Assoc(EncodeOp(a[0]), EncodeOps(a[1..]), EncodeOps(b));
    }
  }

  // ------------------------------------------------------------------------
  // Parsing

  function TakeOp(input: Bytes): (r: Option<Parsed<BatchOp>>)
    ensures r.Some? ==> |r.value.rest| < |input|
  {
    if |input| == 0 then None
    else if input[0] == VALUE_TAG then
      match TakePrefixed(input[1..])
      case None => None
      case Some(k) =>
        (match TakePrefixed(k.rest)
         case None => None
         case Some(v) => Some(Parsed(PutOp(k.value, v.value), v.rest)))
    else if input[0] == DELETION_TAG then
      match TakePrefixed(input[1..])
      case None => None
      case Some(k) => Some(Parsed(DeleteOp(k.value), k.rest))
    else None
  }

  datatype ParsedOps = ParsedOps(ops: seq<BatchOp>, ok: bool)

  /** The operations up to the first malformed one, and whether there was none. */
  function ParseOps(input: Bytes): ParsedOps
    decreases |input|
  {
    if |input| == 0 then ParsedOps([], true)
    else
      match TakeOp(input)
      case None => ParsedOps([], false)
      case Some(p) =>
        var r := ParseOps(p.rest);
        ParsedOps([p.value] + r.ops, r.ok)
  }

  lemma OpRoundTrip(op: BatchOp, rest: Bytes)
    requires Fits(op)
    ensures TakeOp(EncodeOp(op) + rest) == Some(Parsed(op, rest))
  {
    hide Prefixed;
    hide TakePrefixed;
    var input := EncodeOp(op) + rest;
    match op
    case PutOp(k, v) =>
      assert input[1..] == Prefixed(k) + (Prefixed(v) + rest);
      PrefixedRoundTrip(k, Prefixed(v) + rest);
      PrefixedRoundTrip(v, rest);
    case DeleteOp(k) =>
      assert input[1..] == Prefixed(k) + rest;
      PrefixedRoundTrip(k, rest);
  }

  lemma {:induction false} OpsRoundTrip(ops: seq<BatchOp>)
    requires AllFit(ops)
    ensures ParseOps(EncodeOps(ops)) == ParsedOps(ops, true)
  {
    hide EncodeOp;
    hide TakeOp;
    if |ops| > 0 {
      OpRoundTrip(ops[0], EncodeOps(ops[1..]));
      OpsRoundTrip(ops[1..]);
      assert ops == [ops[0]] + ops[1..];
    }
  }

  /** What reading a batch does: the operations handed to the handler, and the verdict. */
  function StatusOf(rep: Bytes): Status {
    if |rep| < HEADER then Corruption
    else
      var p := ParseOps(rep[HEADER..]);
      if p.ok && |p.ops| == CountOf(rep) then Ok else Corruption
  }

  function OpsOf(rep: Bytes): seq<BatchOp> {
    if |rep| < HEADER then [] else ParseOps(rep[HEADER..]).ops
  }

  /** A batch reads back as its sequence number and its operations. */
  lemma BatchRoundTrip(seqNo: nat, ops: seq<BatchOp>)
    requires seqNo < TWO_64 && |ops| < COUNT_LIMIT && AllFit(ops)
    ensures SequenceOf(Rep(seqNo, ops)) == seqNo
    ensures OpsOf(Rep(seqNo, ops)) == ops && StatusOf(Rep(seqNo, ops)) == Ok
  {
    HeaderRoundTrip(seqNo, ops);
    RepParts(seqNo, ops);
    OpsRoundTrip(ops);
  }

  /** Operations in order, with consecutive sequence numbers. */
  function AddedFrom(seqNo: nat, ops: seq<BatchOp>): (r: seq<Added>)
    ensures |r| == |ops| && forall i :: 0 <= i < |ops| ==> r[i] == Added(seqNo + i, ops[i])
  {
    seq(|ops|, i requires 0 <= i < |ops| => Added(seqNo + i, ops[i]))
  }

  ghost function Onto(done: seq<BatchOp>, p: ParsedOps): ParsedOps {
    ParsedOps(done + p.ops, p.ok)
  }

  /** One turn of the reading loop. */
  lemma ParseOne(done: seq<BatchOp>, input: Bytes)
    requires input != []
    ensures var p := TakeOp(input);
            Onto(done, ParseOps(input))
            == if p.None? then ParsedOps(done, false) else Onto(done + [p.value.value], ParseOps(p.value.rest))
  {
    hide TakeOp;
    var p := TakeOp(input);
    if p.Some? {
      Assoc(done, [p.value.value], ParseOps(p.value.rest).ops);
    } else {
      assert done + [] == done;
    }
  }

  // ------------------------------------------------------------------------
  // The classes

  class MemTableInserter {
    var sequence: nat
    var mem: seq<Added>

    constructor (sequence: nat, mem: seq<Added>)
      ensures this.sequence == sequence && this.mem == mem
    {
      this.sequence, this.mem := sequence, mem;
    }

    method Put(key: Bytes, value: Bytes)
      modifies this
      ensures mem == old(mem) + [Added(old(sequence), PutOp(key, value))] && sequence == old(sequence) + 1
    {
      mem := mem + [Added(sequence, PutOp(key, value))];
      sequence := sequence + 1;
    }

    method Delete(key: Bytes)
      modifies this
      ensures mem == old(mem) + [Added(old(sequence), DeleteOp(key))] && sequence == old(sequence) + 1
    {
      mem := mem + [Added(sequence, DeleteOp(key))];
      sequence := sequence + 1;
    }

    /** Hands one parsed operation to `Put` or `Delete`. */
    method Handle(op: BatchOp)
      modifies this
      ensures mem == old(mem) + [Added(old(sequence), op)] && sequence == old(sequence) + 1
    {
      match op
      case PutOp(k, v) => Put(k, v);
      case DeleteOp(k) => Delete(k);
    }
  }

  class WriteBatch {
    var rep: Bytes

    predicate Valid()
      reads this
    {
      |rep| >= HEADER
    }

    ghost predicate Holds(seqNo: nat, ops: seq<BatchOp>)
      reads this
    {
      rep == Rep(seqNo, ops)
    }

    constructor ()
      ensures Valid() && Holds(0, [])
    {
      new;
      Clear();
    }

    method Clear()
      modifies this
      ensures Valid() && Holds(0, [])
    {
      rep := Fixed(0, 8) + Fixed(0, 4);
    }

    method SetSequence(seqNo: nat)
      requires Valid()
      modifies this
      ensures Valid() && forall s, ops :: old(Holds(s, ops)) ==> Holds(seqNo, ops)
    {
      hide Rep;
      forall s, ops | Holds(s, ops)
        ensures Fixed(seqNo, 8) + rep[8..] == Rep(seqNo, ops)
      {
        Resequence(s, ops, seqNo);
      }
      rep := Fixed(seqNo, 8) + rep[8..];
    }

    method SetCount(n: nat)
      requires Valid()
      modifies this
      ensures rep == old(rep)[..8] + Fixed(n, 4) + old(rep)[HEADER..]
    {
      rep := rep[..8] + Fixed(n, 4) + rep[HEADER..];
    }

    method Put(key: Bytes, value: Bytes)
      requires Valid()
      modifies this
      ensures Valid() && forall s, ops :: old(Holds(s, ops)) && |ops| < COUNT_LIMIT ==> Holds(s, ops + [PutOp(key, value)])
    {
      hide Rep;
      hide FixedValue;
      hide Prefixed;
      SetCount(CountOf(rep) + 1);
      rep := rep + [VALUE_TAG];
      rep := rep + Prefixed(key);
      rep := rep + Prefixed(value);
      forall s, ops | old(Holds(s, ops)) && |ops| < COUNT_LIMIT
        ensures Holds(s, ops + [PutOp(key, value)])
      {
        PutRep(s, ops, key, value);
      }
    }

    method Delete(key: Bytes)
      requires Valid()
      modifies this
      ensures Valid() && forall s, ops :: old(Holds(s, ops)) && |ops| < COUNT_LIMIT ==> Holds(s, ops + [DeleteOp(key)])
    {
      hide Rep;
      hide FixedValue;
      hide Prefixed;
      SetCount(CountOf(rep) + 1);
      rep := rep + [DELETION_TAG];
      rep := rep + Prefixed(key);
      forall s, ops | old(Holds(s, ops)) && |ops| < COUNT_LIMIT
        ensures Holds(s, ops + [DeleteOp(key)])
      {
        DeleteRep(s, ops, key);
      }
    }

    /** Appends another batch's operations, keeping this batch's sequence number. */
    method Append(source: WriteBatch)
      requires Valid() && source.Valid() && source != this
      modifies this
      ensures Valid()
      ensures forall s, ops, s', ops' :: old(Holds(s, ops)) && source.Holds(s', ops') && |ops| + |ops'| < COUNT_LIMIT ==>
                Holds(s, ops + ops')
    {
      hide Rep;
      SetCount(CountOf(rep) + CountOf(source.rep));
      rep := rep + source.rep[HEADER..];
      forall s, ops, s', ops' | old(Holds(s, ops)) && source.Holds(s', ops') && |ops| + |ops'| < COUNT_LIMIT
        ensures Holds(s, ops + ops')
      {
        AppendRep(s, ops, s', ops');
      }
    }

    /** Reads the operations back and hands each to the handler, up to the first malformed one. */
    method Iterate(handler: MemTableInserter) returns (status: Status)
      modifies handler
      ensures status == StatusOf(rep)
      ensures handler.mem == old(handler.mem) + AddedFrom(old(handler.sequence), OpsOf(rep))
    {
      hide TakeOp;
      hide AddedFrom;
      hide FixedValue;
      if |rep| < HEADER {
        assert AddedFrom(handler.sequence, []) == [];
        return Corruption;
      }
      var input := rep[HEADER..];
      var found := 0;
      ghost var done: seq<BatchOp> := [];
      ghost var all := ParseOps(input);
      while input != []
        invariant found == |done|
        invariant all == Onto(done, ParseOps(input))
        invariant handler.mem == old(handler.mem) + AddedFrom(old(handler.sequence), done)
        invariant handler.sequence == old(handler.sequence) + |done|
        decreases |input|
      {
        found := found + 1;
        var p := TakeOp(input);
        ParseOne(done, input);
        if p.None? {
          return Corruption;
        }
        handler.Handle(p.value.value);
        done := done + [p.value.value];
        input := p.value.rest;
      }
      assert done + [] == done;
      status := if found != CountOf(rep) then Corruption else Ok;
    }

    /** Applies the batch to a memtable, starting at the batch's own sequence number. */
    method InsertInto(mem: seq<Added>) returns (status: Status, mem': seq<Added>)
      requires Valid()
      ensures status == StatusOf(rep)
      ensures mem' == mem + AddedFrom(SequenceOf(rep), OpsOf(rep))
    {
      var inserter := new MemTableInserter(SequenceOf(rep), mem);
      status := Iterate(inserter);
      mem' := inserter.mem;
    }

    method SetContents(contents: Bytes)
      requires |contents| >= HEADER
      modifies this
      ensures Valid() && rep == contents
    {
      rep := contents;
    }
  }

  lemma AppendRep(s: nat, ops: seq<BatchOp>, s': nat, ops': seq<BatchOp>)
    requires |ops| + |ops'| < COUNT_LIMIT
    ensures var a, b := Rep(s, ops), Rep(s', ops');
            Rep(s, ops + ops') == a[..8] + Fixed(CountOf(a) + CountOf(b), 4) + a[HEADER..] + b[HEADER..]
  {
    hide Rep;
    hide Fixed;
    hide EncodeOps;
    hide CountOf;
    GrowRep(s, ops, ops');
    RepParts(s', ops');
    CountIs(s', ops');
  }

  lemma OneOp(op: BatchOp)
    ensures EncodeOps([op]) == EncodeOp(op)
  {
    assert EncodeOps([op]) == EncodeOp(op) + EncodeOps([]);
  }

  lemma CountIs(seqNo: nat, ops: seq<BatchOp>)
    requires |ops| < TWO_32
    ensures CountOf(Rep(seqNo, ops)) == |ops|
  {
    RepParts(seqNo, ops);
    Fixed32(|ops|);
  }

  /** A batch's bytes with a higher count and more operations at the end. */
  function Extended(rep: Bytes, count: nat, more: Bytes): Bytes
    requires |rep| >= HEADER
  {
    rep[..8] + Fixed(CountOf(rep) + count, 4) + rep[HEADER..] + more
  }

  lemma ExtendedIs(rep: Bytes, count: nat, more: Bytes, seqNo: Bytes, before: Bytes)
    requires |rep| >= HEADER && rep[..8] == seqNo && rep[HEADER..] == before
    ensures Extended(rep, count, more) == seqNo + Fixed(CountOf(rep) + count, 4) + (before + more)
  {
    hide Fixed;
    hide CountOf;
    Assoc(seqNo + Fixed(CountOf(rep) + count, 4), before, more);
  }

  /** The bytes of more operations, from those of the first ones. */
  lemma RepMore(seqNo: nat, ops: seq<BatchOp>, more: seq<BatchOp>)
    ensures Rep(seqNo, ops + more) == Fixed(seqNo, 8) + Fixed(|ops| + |more|, 4) + (EncodeOps(ops) + EncodeOps(more))
  {
    hide Fixed;
    hide EncodeOps;
    EncodeOpsConcat(ops, more);
  }

  lemma GrowRep(seqNo: nat, ops: seq<BatchOp>, more: seq<BatchOp>)
    requires |ops| < TWO_32
    ensures Rep(seqNo, ops + more) == Extended(Rep(seqNo, ops), |more|, EncodeOps(more))
  {
    hide Rep;
    hide Fixed;
    hide EncodeOps;
    hide CountOf;
    hide Extended;
    RepMore(seqNo, ops, more);
    RepParts(seqNo, ops);
    CountIs(seqNo, ops);
    ExtendedIs(Rep(seqNo, ops), |more|, EncodeOps(more), Fixed(seqNo, 8), EncodeOps(ops));
  }

  /** A new sequence number leaves the rest. */
  lemma Resequence(s: nat, ops: seq<BatchOp>, seqNo: nat)
    ensures Fixed(seqNo, 8) + Rep(s, ops)[8..] == Rep(seqNo, ops)
  {
    var a, b, c := Fixed(s, 8), Fixed(|ops|, 4), EncodeOps(ops);
    Assoc(a, b, c);
    assert (a + (b + c))[8..] == b + c;
    Assoc(Fixed(seqNo, 8), b, c);
  }

  lemma DeleteRep(s: nat, ops: seq<BatchOp>, key: Bytes)
    requires |ops| < COUNT_LIMIT
    ensures var a := Rep(s, ops);
            Rep(s, ops + [DeleteOp(key)]) == a[..8] + Fixed(CountOf(a) + 1, 4) + a[HEADER..] + [DELETION_TAG] + Prefixed(key)
  {
    hide Rep;
    var a := Rep(s, ops);
    GrowRep(s, ops, [DeleteOp(key)]);
    OneOp(DeleteOp(key));
    Assoc(a[..8] + Fixed(CountOf(a) + 1, 4) + a[HEADER..], [DELETION_TAG], Prefixed(key));
  }

  lemma PutRep(s: nat, ops: seq<BatchOp>, key: Bytes, value: Bytes)
    requires |ops| < COUNT_LIMIT
    ensures var a := Rep(s, ops);
            Rep(s, ops + [PutOp(key, value)])
            == a[..8] + Fixed(CountOf(a) + 1, 4) + a[HEADER..] + [VALUE_TAG] + Prefixed(key) + Prefixed(value)
  {
    hide Rep;
    var a := Rep(s, ops);
    GrowRep(s, ops, [PutOp(key, value)]);
    OneOp(PutOp(key, value));
    Assoc4(a[..8] + Fixed(CountOf(a) + 1, 4) + a[HEADER..], [VALUE_TAG], Prefixed(key), Prefixed(value));
  }
}
