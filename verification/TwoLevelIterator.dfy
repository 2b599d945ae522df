/** The iterator over a table (table/two_level_iterator.cc): a cursor over the index, and a cursor over the
    block the index stands at, skipping blocks without entries. */
module TwoLevelIterator {
  import opened Entries
  import opened Cursors
  import opened Coding
  import opened Blocks
  import opened BlockIterator
  import opened Separators
  import opened Tables

  /** Block `b` has the entries from `cut[b]` up to `cut[b + 1]`; it may have none. */
  ghost predicate CutInto(cut: seq<nat>, n: nat) {
    && |cut| > 0 && cut[0] == 0 && cut[|cut| - 1] == n
    && forall a, b :: 0 <= a <= b < |cut| ==> cut[a] <= cut[b]
  }

  /** A separator is at or above a target when an entry of its block is, and only when every entry of the
      blocks after it is; an entry after one at or above a target is too. */
  ghost predicate Separated<T(!new), K(!new)>(entries: seq<T>, cut: seq<nat>, atOrAbove: (T, K) -> bool,
                                              separator: (nat, K) -> bool)
    requires CutInto(cut, |entries|)
  {
    forall t: K {:trigger TargetOk(entries, cut, atOrAbove, separator, t)} ::
        TargetOk(entries, cut, atOrAbove, separator, t)
  }

  ghost predicate TargetOk<T, K>(entries: seq<T>, cut: seq<nat>, atOrAbove: (T, K) -> bool,
                                 separator: (nat, K) -> bool, t: K)
    requires CutInto(cut, |entries|)
  {
    && (forall i, j :: 0 <= i <= j < |entries| && atOrAbove(entries[i], t) ==> atOrAbove(entries[j], t))
    && (forall b, i :: 0 <= b < |cut| - 1 && cut[b] <= i < cut[b + 1] && atOrAbove(entries[i], t) ==> separator(b, t))
    && (forall b, i :: 0 <= b < |cut| - 1 && cut[b + 1] <= i < |entries| && separator(b, t) ==>
         atOrAbove(entries[i], t))
  }

  lemma BlockOf(cut: seq<nat>, n: nat, i: nat, c: nat) returns (b: nat)
    requires CutInto(cut, n) && c < |cut| && i < cut[c]
    ensures b < c && cut[b] <= i < cut[b + 1]
  {
    b := c - 1;
    while i < cut[b]
      invariant b < c && i < cut[b + 1]
      decreases b
    {
      b := b - 1;
    }
  }

  /** No entry of the blocks before the separator found is at or above the target. */
  lemma NoneBefore<T, K>(entries: seq<T>, cut: seq<nat>, atOrAbove: (T, K) -> bool, separator: (nat, K) -> bool, t: K,
                         c: nat)
    requires CutInto(cut, |entries|) && TargetOk(entries, cut, atOrAbove, separator, t) && c < |cut|
    requires forall b :: 0 <= b < c ==> !separator(b, t)
    ensures forall i :: 0 <= i < cut[c] ==> !atOrAbove(entries[i], t)
  {
    forall i | 0 <= i < cut[c] ensures !atOrAbove(entries[i], t) {
      var b := BlockOf(cut, |entries|, i, c);
    }
  }

  // ----- The blocks of a table -----

  function SeparatorOf(index: seq<Pair>): (nat, Bytes) -> bool {
    (b: nat, t: Bytes) => b < |index| && !InternalLess(index[b].key, t)
  }

  /** The cuts and separators of a table are as the iterator needs them. */
  lemma TableSeparated(index: seq<Pair>, entries: seq<Pair>, p: Placing)
    requires Indexed(index, entries, p) && |index| == |p.handles| && p.cut[|p.handles|] == |entries|
    requires Increasing(InternalLess, entries)
    ensures CutInto(p.cut, |entries|) && Separated(entries, p.cut, AtOrAbove(InternalLess), SeparatorOf(index))
  {
    forall a, b | 0 <= a <= b < |p.cut| ensures p.cut[a] <= p.cut[b] {
      if a < b {
        p.CutsOrdered(|entries|, a, b);
      }
    }
    forall t: Bytes ensures TargetOk(entries, p.cut, AtOrAbove(InternalLess), SeparatorOf(index), t) {
      TableTargetOk(index, entries, p, t);
    }
  }

  lemma TableTargetOk(index: seq<Pair>, entries: seq<Pair>, p: Placing, t: Bytes)
    requires Indexed(index, entries, p) && |index| == |p.handles| && p.cut[|p.handles|] == |entries|
    requires Increasing(InternalLess, entries) && CutInto(p.cut, |entries|)
    ensures TargetOk(entries, p.cut, AtOrAbove(InternalLess), SeparatorOf(index), t)
  {
    forall i, j | 0 <= i <= j < |entries| && !InternalLess(entries[i].key, t) ensures !InternalLess(entries[j].key, t) {
      InternalOrder(entries[i].key, entries[j].key, t);
    }
    forall b, i | 0 <= b < |index| && p.cut[b] <= i < p.cut[b + 1] && !InternalLess(entries[i].key, t)
      ensures SeparatorOf(index)(b, t)
    {
      assert IndexAt(index, entries, p, b);
      var last := p.cut[b + 1] - 1;
      assert i < last ==> InternalLess(entries[i].key, entries[last].key);
      if InternalLess(index[b].key, t) {
        NotAboveBelow(entries[i].key, entries[last].key, index[b].key, t);
      }
    }
    forall b, i | 0 <= b < |index| && p.cut[b + 1] <= i < |entries| && SeparatorOf(index)(b, t)
      ensures !InternalLess(entries[i].key, t)
    {
      assert IndexAt(index, entries, p, b);
      InternalOrder(index[b].key, entries[p.cut[b + 1]].key, entries[i].key);
      InternalOrder(index[b].key, entries[i].key, t);
    }
  }

  // ----- The iterator -----

  class TwoLevelIter<T(!new), K(!new)> {
    const entries: seq<T>
    const cut: seq<nat>
    const atOrAbove: (T, K) -> bool
    const separator: (nat, K) -> bool
    var index: nat             // the block the index stands at; the number of blocks when it is not valid
    var block: Option<nat>     // the block the data cursor is over, if there is one
    var at: nat                // where it stands in it; the length of the block when it is not valid

    ghost predicate Setting() {
      CutInto(cut, |entries|) && Separated(entries, cut, atOrAbove, separator)
    }

    function NumBlocks(): nat
      requires |cut| > 0
    {
      |cut| - 1
    }

    function Length(b: nat): nat
      requires b + 1 < |cut| && cut[b] <= cut[b + 1]
    {
      cut[b + 1] - cut[b]
    }

    /** The data cursor, if there is one, is over the block the index stands at. */
    ghost predicate Sound()
      reads this
    {
      && Setting() && index <= NumBlocks()
      && (block.Some? ==> block.value == index < NumBlocks() && at <= Length(index))
    }

    ghost predicate Valid()
      reads this
    {
      Sound() && (block.Some? ==> at < Length(index))
    }

    /** The entry it stands at, as an index into the entries. */
    ghost function Position(): (p: nat)
      requires Valid()
      reads this
      ensures p <= |entries|
    {
      if block.Some? then cut[index] + at else |entries|
    }

    constructor (entries: seq<T>, cut: seq<nat>, atOrAbove: (T, K) -> bool, separator: (nat, K) -> bool)
      requires CutInto(cut, |entries|) && Separated(entries, cut, atOrAbove, separator)
      ensures Valid() && Position() == |entries|
      ensures this.entries == entries && this.atOrAbove == atOrAbove
    {
      this.entries, this.cut, this.atOrAbove, this.separator := entries, cut, atOrAbove, separator;
      index, block, at := |cut| - 1, None, 0;
    }

    function DataValid(): bool
      requires Sound()
      reads this
    {
      block.Some? && at < Length(block.value)
    }

    /** A cursor over the block the index stands at; kept if it is there already. */
    method InitDataBlock()
      requires Setting() && index <= NumBlocks()
      requires block.Some? ==> block.value < NumBlocks() && at <= Length(block.value)
      modifies this`block, this`at
      ensures Sound() && (block.Some? <==> index < NumBlocks())
    {
      if index == NumBlocks() {
        block := None;
      } else if block != Some(index) {
        block, at := Some(index), Length(index);
      }
    }

    /** On to the first entry of the blocks after this one, when the data cursor is past its end. */
    method SkipEmptyDataBlocksForward()
      requires Sound()
      modifies this
      ensures Valid()
      ensures Position() == if old(block).None? then old(if index == NumBlocks() then |entries| else cut[index + 1])
                            else old(cut[index] + at)
    {
      ghost var target := if block.Some? then cut[index] + at
                          else if index == NumBlocks() then |entries| else cut[index + 1];
      while !DataValid()
        invariant Sound()
        invariant target == if block.Some? then cut[index] + at
                            else if index == NumBlocks() then |entries| else cut[index + 1]
        decreases NumBlocks() - index, if block.Some? then 1 else 0
      {
        if index == NumBlocks() {
          block := None;
          return;
        }
        index := index + 1;
        InitDataBlock();
        if block.Some? {
          at := 0;
        }
      }
    }

    /** Back to the last entry of the blocks before this one, when the data cursor is not valid. */
    method SkipEmptyDataBlocksBackward()
      requires Sound() && (block.None? ==> index == NumBlocks())
      modifies this
      ensures Valid()
      ensures Position() ==
                old(if DataValid() then cut[index] + at else if index == NumBlocks() || cut[index] == 0 then |entries|
                                else cut[index] - 1)
    {
      ghost var target := if DataValid() then cut[index] + at
          else if index == NumBlocks() || cut[index] == 0 then |entries|
                          else cut[index] - 1;
      while !DataValid()
        invariant Sound() && (block.None? ==> index == NumBlocks())
        invariant target == if DataValid() then cut[index] + at
                    else if index == NumBlocks() || cut[index] == 0 then |entries|
                            else cut[index] - 1
        decreases if index == NumBlocks() then 0 else index + 1
      {
        if index == NumBlocks() {
          block := None;
          return;
        }
        index := if index == 0 then NumBlocks() else index - 1;
        InitDataBlock();
        if block.Some? {
          at := if Length(index) == 0 then 0 else Length(index) - 1;
        }
      }
    }

    method SeekToFirst()
      requires Valid()
      modifies this
      ensures Valid() && Position() == 0
    {
      index := 0;
      InitDataBlock();
      if block.Some? {
        at := 0;
      }
      SkipEmptyDataBlocksForward();
    }

    method SeekToLast()
      requires Valid()
      modifies this
      ensures Valid() && Position() == if entries == [] then 0 else |entries| - 1
    {
      index := if NumBlocks() == 0 then 0 else NumBlocks() - 1;
      InitDataBlock();
      if block.Some? {
        at := if Length(index) == 0 then 0 else Length(index) - 1;
      }
      SkipEmptyDataBlocksBackward();
    }

    method Next()
      requires Valid() && Position() < |entries|
      modifies this
      ensures Valid() && Position() == old(Position()) + 1
    {
      at := at + 1;
      SkipEmptyDataBlocksForward();
    }

    method Prev()
      requires Valid() && Position() < |entries|
      modifies this
      ensures Valid() && Position() == if old(Position()) == 0 then |entries| else old(Position()) - 1
    {
      at := if at == 0 then Length(index) else at - 1;
      SkipEmptyDataBlocksBackward();
    }

    /** The index to the first separator at or above the target, the data to the first entry. */
    method Seek(target: K)
      requires Valid()
      modifies this
      ensures Valid() && Position() == FirstAtOrAbove(entries, atOrAbove, target)
    {
      assert TargetOk(entries, cut, atOrAbove, separator, target);
      index := SeekIndex(target);
      NoneBefore(entries, cut, atOrAbove, separator, target, index);
      InitDataBlock();
      if block.Some? {
        at := SeekData(target);
      }
      SkipEmptyDataBlocksForward();
      FirstAtOrAboveIs(entries, atOrAbove, target, Position());
    }

    /** The index iterator's search. */
    method SeekIndex(target: K) returns (b: nat)
      requires Setting()
      ensures b <= NumBlocks() && (forall a :: 0 <= a < b ==> !separator(a, target))
      ensures b < NumBlocks() ==> separator(b, target)
    {
      b := 0;
      while b < NumBlocks() && !separator(b, target)
        invariant b <= NumBlocks() && forall a :: 0 <= a < b ==> !separator(a, target)
      {
        b := b + 1;
      }
    }

    /** The data iterator's search. */
    method SeekData(target: K) returns (i: nat)
      requires Sound() && block.Some?
      ensures i <= Length(index) && (forall a :: cut[index] <= a < cut[index] + i ==> !atOrAbove(entries[a], target))
      ensures i < Length(index) ==> atOrAbove(entries[cut[index] + i], target)
    {
      i := 0;
      while i < Length(index) && !atOrAbove(entries[cut[index] + i], target)
        invariant i <= Length(index) && forall a :: cut[index] <= a < cut[index] + i ==> !atOrAbove(entries[a], target)
      {
        i := i + 1;
      }
    }

    method Do(op: Op<K>)
      requires Valid()
      modifies this
      ensures Valid() && Position() == Move(entries, atOrAbove, old(Position()), op)
    {
      match op
      case SeekToFirst => SeekToFirst();
      case SeekToLast => SeekToLast();
      case Seek(t) => Seek(t);
      case Next => if DataValid() { Next(); }
      case Prev => if DataValid() { Prev(); }
    }

    /** What a client sees over a sequence of moves: what an index into all the entries shows. */
    method Run(ops: seq<Op<K>>) returns (seen: seq<Option<T>>)
      requires Valid()
      modifies this
      ensures Valid() && seen == Transcript(entries, atOrAbove, old(Position()), ops)
    {
      seen := [];
      for i := 0 to |ops|
        invariant Valid() && Position() == Final(entries, atOrAbove, old(Position()), ops[..i])
        invariant seen == Transcript(entries, atOrAbove, old(Position()), ops[..i])
      {
        Do(ops[i]);
        TranscriptStep(entries, atOrAbove, old(Position()), ops[..i], ops[i]);
        assert ops[..i + 1] == ops[..i] + [ops[i]];
        seen := seen + [if DataValid() then Some(entries[cut[index] + at]) else None];
      }
      assert ops[..|ops|] == ops;
    }
  }
}
