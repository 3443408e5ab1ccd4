/**
 Batches that are not whole: reading one that was cut short, or whose count is wrong, ends with an error, and hands
 on no more than its first operations.
 */
module BatchChecks {
  import opened Coding
  import opened Entries
  import opened WriteBatches

  // ------------------------------------------------------------------------
  // Cut values

  lemma {:induction false} CutVarint(v: nat, m: nat, n: nat)
    requires m < |Varint(v)|
    ensures TakeVarint(Varint(v)[..m], n) == None
  {
    if v >= 128 && m > 0 && n > 0 {
      assert Varint(v)[..m][1..] == Varint(v / 128)[..m - 1];
      CutVarint(v / 128, m - 1, n - 1);
    }
  }

  lemma CutPrefixed(b: Bytes, m: nat)
    requires |b| < TWO_32 && m < |Prefixed(b)|
    ensures TakePrefixed(Prefixed(b)[..m]) == None
  {
    hide TakeVarint;
    hide Varint;
    var n := |Varint(|b|)|;
    if m < n {
      assert Prefixed(b)[..m] == Varint(|b|)[..m];
      CutVarint(|b|, m, 5);
    } else {
      assert Prefixed(b)[..m] == Varint(|b|) + b[..m - n];
      Varint32RoundTrip(|b|, b[..m - n]);
    }
  }

  lemma CutPut(k: Bytes, v: Bytes, m: nat)
    requires |k| < TWO_32 && |v| < TWO_32 && 0 < m < |EncodeOp(PutOp(k, v))|
    ensures TakeOp(EncodeOp(PutOp(k, v))[..m]) == None
  {
    hide Prefixed;
    hide TakePrefixed;
    var input := EncodeOp(PutOp(k, v))[..m];
    var n := |Prefixed(k)|;
    assert input[0] == VALUE_TAG;
    if m - 1 < n {
      assert input[1..] == Prefixed(k)[..m - 1];
      CutPrefixed(k, m - 1);
    } else {
      assert input[1..] == Prefixed(k) + Prefixed(v)[..m - 1 - n];
      PrefixedRoundTrip(k, Prefixed(v)[..m - 1 - n]);
      CutPrefixed(v, m - 1 - n);
    }
  }

  lemma CutOp(op: BatchOp, m: nat)
    requires Fits(op) && m < |EncodeOp(op)|
    ensures TakeOp(EncodeOp(op)[..m]) == None
  {
    hide Prefixed;
    hide TakePrefixed;
    var input := EncodeOp(op)[..m];
    if m > 0 {
      match op
      case PutOp(k, v) => CutPut(k, v, m);
      case DeleteOp(k) =>
        assert input[1..] == Prefixed(k)[..m - 1];
        CutPrefixed(k, m - 1);
    }
  }

  /** Of cut operations the whole ones are read, and not all are whole. */
  lemma {:induction false} CutOps(ops: seq<BatchOp>, m: nat)
    requires AllFit(ops) && m < |EncodeOps(ops)|
    ensures ParseOps(EncodeOps(ops)[..m]).ops < ops
  {
    hide EncodeOp;
    hide TakeOp;
    var first := EncodeOp(ops[0]);
    var rest := EncodeOps(ops[1..]);
    var input := EncodeOps(ops)[..m];
    if m < |first| {
      assert input == first[..m];
      CutOp(ops[0], m);
    } else {
      assert input == first + rest[..m - |first|];
      OpRoundTrip(ops[0], rest[..m - |first|]);
      CutOps(ops[1..], m - |first|);
      assert ops == [ops[0]] + ops[1..];
    }
  }

  // ------------------------------------------------------------------------
  // Batches

  /** A batch that was cut short is refused. */
  lemma CutBatch(seqNo: nat, ops: seq<BatchOp>, m: nat)
    requires |ops| < COUNT_LIMIT && AllFit(ops) && m < |Rep(seqNo, ops)|
    ensures StatusOf(Rep(seqNo, ops)[..m]) == Corruption
    ensures OpsOf(Rep(seqNo, ops)[..m]) <= ops
  {
    RepParts(seqNo, ops);
    var rep := Rep(seqNo, ops);
    if m >= HEADER {
      assert rep[..m][8..HEADER] == rep[8..HEADER];
      assert rep[..m][HEADER..] == rep[HEADER..][..m - HEADER];
      hide Rep;
      CutOps(ops, m - HEADER);
      Fixed32(|ops|);
    }
  }

  /** The count in front has to be that of the operations. */
  lemma CountIsChecked(seqNo: nat, ops: seq<BatchOp>, count: nat)
    requires count < TWO_32 && AllFit(ops)
    ensures StatusOf(Fixed(seqNo, 8) + Fixed(count, 4) + EncodeOps(ops)) == Ok <==> count == |ops|
  {
    var rep := Fixed(seqNo, 8) + Fixed(count, 4) + EncodeOps(ops);
    assert rep[8..HEADER] == Fixed(count, 4) && rep[HEADER..] == EncodeOps(ops);
    hide Fixed;
    OpsRoundTrip(ops);
    Fixed32(count);
  }
}
