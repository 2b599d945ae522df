/** The bytes of a write batch (db/write_batch.cc): a sequence number, a count, and the operations. */
module WriteBatches {
  import opened Entries
  import opened Coding

  datatype Op = PutOp(key: Bytes, value: Bytes) | DeleteOp(key: Bytes)

  const HEADER := 12
  const DELETION_TAG: Byte := 0
  const VALUE_TAG: Byte := 1

  /** Lengths are written as 32-bit numbers. */
  predicate Encodable(op: Op) {
    |op.key| < TWO_32 && (op.PutOp? ==> |op.value| < TWO_32)
  }

  function EncodeOp(op: Op): (r: Bytes)
    ensures 0 < |r|
  {
    if op.PutOp? then [VALUE_TAG] + (EncodeString(op.key) + EncodeString(op.value))
    else [DELETION_TAG] + EncodeString(op.key)
  }

  // ----- Iterating -----

  datatype Error = TooSmall | BadPut | BadDelete | UnknownTag | WrongCount

  /** The operation at position `p`, and where it ends. */
  function DecodeOp(rep: Bytes, p: nat): (r: Found<Op, Error>)
    ensures r.Item? ==> p < r.next <= |rep|
  {
    if p < |rep| && rep[p] == VALUE_TAG then
      var key := GetString(rep, p + 1);
      if key.None? then Bad(BadPut)
      else
        var value := GetString(rep, key.value.1);
        if value.None? then Bad(BadPut) else Item(PutOp(key.value.0, value.value.0), value.value.1)
    else if p < |rep| && rep[p] == DELETION_TAG then
      var key := GetString(rep, p + 1);
      if key.None? then Bad(BadDelete) else Item(DeleteOp(key.value.0), key.value.1)
    else Bad(UnknownTag)
  }

  lemma OpRoundTrip(rep: Bytes, p: nat, op: Op)
    requires Holds(rep, p, EncodeOp(op)) && Encodable(op)
    ensures DecodeOp(rep, p) == Item(op, p + |EncodeOp(op)|)
  {
    if op.PutOp? {
      HoldsParts(rep, p, [VALUE_TAG], EncodeString(op.key) + EncodeString(op.value));
      HoldsParts(rep, p + 1, EncodeString(op.key), EncodeString(op.value));
      StringRoundTrip(rep, p + 1, op.key);
      StringRoundTrip(rep, p + 1 + |EncodeString(op.key)|, op.value);
      assert rep[p] == [VALUE_TAG][0];
    } else {
      HoldsParts(rep, p, [DELETION_TAG], EncodeString(op.key));
      StringRoundTrip(rep, p + 1, op.key);
      assert rep[p] == [DELETION_TAG][0];
    }
  }

  lemma OpDecodes(rep: Bytes, op: Op)
    requires Encodable(op)
    ensures Decodes(EncodeOp, DecodeOp, rep, op)
  {
    forall p: nat | Holds(rep, p, EncodeOp(op)) ensures DecodeOp(rep, p) == Item(op, p + |EncodeOp(op)|) {
      OpRoundTrip(rep, p, op);
    }
  }

  lemma OpsRoundTrip(rep: Bytes, p: nat, ops: seq<Op>)
    requires Holds(rep, p, EncodeAll(EncodeOp, ops, 0)) && |rep| == p + |EncodeAll(EncodeOp, ops, 0)|
    requires forall op :: op in ops ==> Encodable(op)
    ensures DecodeAll(DecodeOp, rep, p) == (ops, None)
  {
    forall k {:trigger ops[k]} | 0 <= k < |ops| ensures Decodes(EncodeOp, DecodeOp, rep, ops[k]) {
      OpDecodes(rep, ops[k]);
    }
    AllRoundTrip(EncodeOp, DecodeOp, rep, p, ops, 0);
    assert DecodeAll(DecodeOp, rep, p).0 == ops;
  }

  /** The bytes of a batch. */
  function Encoded(sequence: nat, ops: seq<Op>): Bytes {
    EncodeFixed(sequence, 8) + EncodeFixed(|ops|, 4) + EncodeAll(EncodeOp, ops, 0)
  }

  ghost predicate Representable(sequence: nat, ops: seq<Op>) {
    sequence < Bound(8) && |ops| < 0x8000_0000 && forall op :: op in ops ==> Encodable(op)
  }

  /** Iterating over a batch gives back its operations, sequence number and count. */
  lemma BatchRoundTrip(rep: Bytes, sequence: nat, ops: seq<Op>)
    requires rep == Encoded(sequence, ops) && Representable(sequence, ops)
    ensures |rep| >= HEADER && DecodeFixed(rep, 0, 8) == sequence && DecodeFixed(rep, 8, 4) == |ops|
    ensures DecodeAll(DecodeOp, rep, HEADER) == (ops, None)
  {
    var a, b, c := EncodeFixed(sequence, 8), EncodeFixed(|ops|, 4), EncodeAll(EncodeOp, ops, 0);
    assert Holds(rep, 0, a + b + c);
    HoldsParts(rep, 0, a + b, c);
    HoldsParts(rep, 0, a, b);
    FixedRoundTrip(rep, 0, sequence, 8);
    assert Bound(4) == 256 * (256 * (256 * 256));
    FixedRoundTrip(rep, 8, |ops|, 4);
    OpsRoundTrip(rep, HEADER, ops);
  }

  class WriteBatch {
    var rep: Bytes
    ghost var sequence: nat
    ghost var ops: seq<Op>

    ghost predicate Valid()
      reads this
    {
      rep == Encoded(sequence, ops) && Representable(sequence, ops)
    }

    constructor ()
      ensures Valid() && sequence == 0 && ops == []
    {
      rep := seq(HEADER, _ => 0);
      sequence, ops := 0, [];
      new;
      ZeroHeader();
    }

    function Count(): (r: nat)
      reads this
      requires |rep| >= HEADER
    {
      DecodeFixed(rep, 8, 4)
    }

    method SetCount(n: nat)
      requires |rep| >= HEADER
      modifies this`rep
      ensures rep == Counted(old(rep), n)
    {
      rep := rep[..8] + EncodeFixed(n, 4) + rep[HEADER..];
    }

    method SetSequence(n: nat)
      requires Valid() && n < Bound(8)
      modifies this
      ensures Valid() && sequence == n && ops == old(ops)
    {
      SplitRep(rep, sequence, ops);
      Associates(EncodeFixed(n, 8), EncodeFixed(|ops|, 4), EncodeAll(EncodeOp, ops, 0));
      rep := EncodeFixed(n, 8) + rep[8..];
      sequence := n;
    }

    method Put(key: Bytes, value: Bytes)
      requires Valid() && |ops| + 1 < 0x8000_0000 && |key| < TWO_32 && |value| < TWO_32
      modifies this
      ensures Valid() && sequence == old(sequence) && ops == old(ops) + [PutOp(key, value)]
    {
      var n := AddOne([PutOp(key, value)]);
      ghost var counted := rep;
      rep := rep + [VALUE_TAG];
      rep := rep + EncodeString(key);
      rep := rep + EncodeString(value);
      FourParts(counted, [VALUE_TAG], EncodeString(key), EncodeString(value));
      Adding(old(rep), sequence, ops, [PutOp(key, value)]);
      OnlyOne(PutOp(key, value));
      ops := ops + [PutOp(key, value)];
    }

    method Delete(key: Bytes)
      requires Valid() && |ops| + 1 < 0x8000_0000 && |key| < TWO_32
      modifies this
      ensures Valid() && sequence == old(sequence) && ops == old(ops) + [DeleteOp(key)]
    {
      var n := AddOne([DeleteOp(key)]);
      ghost var counted := rep;
      rep := rep + [DELETION_TAG];
      rep := rep + EncodeString(key);
      Associates(counted, [DELETION_TAG], EncodeString(key));
      Adding(old(rep), sequence, ops, [DeleteOp(key)]);
      OnlyOne(DeleteOp(key));
      ops := ops + [DeleteOp(key)];
    }

    /** Appends another batch's operations. */
    method Append(source: WriteBatch)
      requires Valid() && source.Valid() && source != this && |ops| + |source.ops| < 0x8000_0000
      modifies this
      ensures Valid() && sequence == old(sequence) && ops == old(ops) + source.ops
    {
      Joining(rep, sequence, ops, source.rep, source.sequence, source.ops);
      var n, m := Count(), source.Count();
      SetCount(n + m);
      rep := rep + source.rep[HEADER..];
      ops := ops + source.ops;
    }

    /** Counts one more operation. */
    method AddOne(ghost more: seq<Op>) returns (n: nat)
      requires Valid() && |more| == 1
      modifies this`rep
      ensures rep == Counted(old(rep), |ops| + 1) && |old(rep)| >= HEADER
    {
      BatchRoundTrip(rep, sequence, ops);
      n := Count();
      SetCount(n + 1);
    }

    /** Hands every operation to the handler, and checks the count at the end. */
    method Iterate() returns (handled: seq<Op>, error: Option<Error>)
      ensures |rep| < HEADER ==> handled == [] && error == Some(TooSmall)
      ensures |rep| >= HEADER ==>
                var d := DecodeAll(DecodeOp, rep, HEADER);
                handled == d.0 && error == if d.1.None? && |d.0| != Count() then Some(WrongCount) else d.1
    {
      handled, error := [], None;
      if |rep| < HEADER {
        return [], Some(TooSmall);
      }
      var p := HEADER;
      ghost var all := DecodeAll(DecodeOp, rep, p);
      assert [] + all.0 == all.0;
      while p < |rep|
        invariant HEADER <= p <= |rep| && error == None && Handled(rep, p, handled, all)
      {
        HandleOne(rep, p, handled, all);
        match DecodeOp(rep, p)
        case Bad(e) =>
          return handled, Some(e);
        case Item(op, next) =>
          handled, p := handled + [op], next;
      }
      if |handled| != Count() {
        error := Some(WrongCount);
      }
    }
  }

  /** Iterating over a batch hands over its operations, in order, and finds nothing wrong. */
  method ReadBatch(b: WriteBatch) returns (handled: seq<Op>)
    requires b.Valid()
    ensures handled == b.ops
  {
    BatchRoundTrip(b.rep, b.sequence, b.ops);
    var error;
    handled, error := b.Iterate();
  }

  method SequenceOf(b: WriteBatch) returns (n: nat)
    requires b.Valid()
    ensures n == b.sequence && |b.rep| >= HEADER
  {
    BatchRoundTrip(b.rep, b.sequence, b.ops);
    n := DecodeFixed(b.rep, 0, 8);
  }

  /** Inserting a batch into a memtable: consecutive sequence numbers from the batch's own. */
  method InsertInto(b: WriteBatch) returns (added: seq<(nat, Op)>)
    requires b.Valid()
    ensures |added| == |b.ops| && forall i :: 0 <= i < |added| ==> added[i] == (b.sequence + i, b.ops[i])
  {
    var sequence := SequenceOf(b);
    var handled := ReadBatch(b);
    added := Number(sequence, handled);
  }

  /** The inserter's handler: one entry for each operation, and one sequence number. */
  method Number(start: nat, handled: seq<Op>) returns (added: seq<(nat, Op)>)
    ensures |added| == |handled| && forall i :: 0 <= i < |added| ==> added[i] == (start + i, handled[i])
  {
    var sequence := start;
    added := [];
    for i := 0 to |handled|
      invariant sequence == start + i && |added| == i
      invariant forall j :: 0 <= j < i ==> added[j] == (start + j, handled[j])
    {
      added := added + [(sequence, handled[i])];
      sequence := sequence + 1;
    }
  }

  /** What has been handled and what is still to come make up the whole. */
  ghost predicate Handled(rep: Bytes, p: nat, handled: seq<Op>, all: (seq<Op>, Option<Error>)) {
    all == (handled + DecodeAll(DecodeOp, rep, p).0, DecodeAll(DecodeOp, rep, p).1)
  }

  lemma HandleOne(rep: Bytes, p: nat, handled: seq<Op>, all: (seq<Op>, Option<Error>))
    requires p < |rep| && Handled(rep, p, handled, all)
    ensures match DecodeOp(rep, p)
            case Item(op, next) => Handled(rep, next, handled + [op], all)
            case Bad(e) => all == (handled, Some(e))
  {
    match DecodeOp(rep, p)
    case Item(op, next) =>
      Associates(handled, [op], DecodeAll(DecodeOp, rep, next).0);
    case Bad(e) =>
      Unit(handled);
  }

  lemma ZeroHeader()
    ensures seq(HEADER, _ => 0) == Encoded(0, [])
  {
  }

  /** The bytes of a batch with another count. */
  function Counted(rep: Bytes, n: nat): Bytes
    requires |rep| >= HEADER
  {
    rep[..8] + EncodeFixed(n, 4) + rep[HEADER..]
  }

  lemma ThreeParts(a: Bytes, b: Bytes, c: Bytes)
    requires |a| == 8 && |b| == 4
    ensures var r := a + b + c; |r| >= HEADER && r[..8] == a && r[HEADER..] == c && r[8..] == b + c
  {
  }

  /** The three parts of a batch's bytes. */
  lemma SplitRep(rep: Bytes, sequence: nat, ops: seq<Op>)
    requires rep == Encoded(sequence, ops)
    ensures |rep| >= HEADER && rep[..8] == EncodeFixed(sequence, 8) && rep[HEADER..] == EncodeAll(EncodeOp, ops, 0)
    ensures rep[8..] == EncodeFixed(|ops|, 4) + EncodeAll(EncodeOp, ops, 0)
  {
    ThreeParts(EncodeFixed(sequence, 8), EncodeFixed(|ops|, 4), EncodeAll(EncodeOp, ops, 0));
  }

  lemma OnlyOne(op: Op)
    ensures EncodeAll(EncodeOp, [op], 0) == EncodeOp(op)
  {
    EncodeAllPush(EncodeOp, [], op);
    assert [] + [op] == [op] && [] + EncodeOp(op) == EncodeOp(op);
  }

  /** Growing a batch: a new count, and the new operations at the end. */
  lemma {:induction false} Adding(rep: Bytes, sequence: nat, ops: seq<Op>, more: seq<Op>)
    requires rep == Encoded(sequence, ops)
    ensures |rep| >= HEADER
    ensures Encoded(sequence, ops + more) == Counted(rep, |ops| + |more|) + EncodeAll(EncodeOp, more, 0)
  {
    EncodeAllConcat(EncodeOp, ops, more, 0);
    NewCount(EncodeFixed(sequence, 8), EncodeFixed(|ops|, 4), EncodeFixed(|ops| + |more|, 4),
        EncodeAll(EncodeOp, ops, 0),
             EncodeAll(EncodeOp, more, 0));
  }

  lemma NewCount(a: Bytes, b: Bytes, b2: Bytes, c: Bytes, more: Bytes)
    requires |a| == 8 && |b| == 4
    ensures var rep := a + b + c; |rep| >= HEADER && a + b2 + (c + more) == rep[..8] + b2 + rep[HEADER..] + more
  {
    ThreeParts(a, b, c);
    Associates(a + b2, c, more);
  }

  /** Two batches become one. */
  lemma Joining(rep: Bytes, sequence: nat, ops: seq<Op>, rep2: Bytes, sequence2: nat, ops2: seq<Op>)
    requires rep == Encoded(sequence, ops) && Representable(sequence, ops)
    requires rep2 == Encoded(sequence2, ops2) && Representable(sequence2, ops2)
    ensures |rep| >= HEADER && |rep2| >= HEADER && DecodeFixed(rep, 8, 4) == |ops| && DecodeFixed(rep2, 8, 4) == |ops2|
    ensures Counted(rep, |ops| + |ops2|) + rep2[HEADER..] == Encoded(sequence, ops + ops2)
  {
    BatchRoundTrip(rep, sequence, ops);
    BatchRoundTrip(rep2, sequence2, ops2);
    Adding(rep, sequence, ops, ops2);
    Body(rep2, sequence2, ops2);
  }

  lemma Body(rep: Bytes, sequence: nat, ops: seq<Op>)
    requires rep == Encoded(sequence, ops)
    ensures |rep| >= HEADER && rep[HEADER..] == EncodeAll(EncodeOp, ops, 0)
  {
    SplitRep(rep, sequence, ops);
  }
}
