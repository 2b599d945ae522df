/** Iterating over a prefix-compressed block (table/block.cc). */
module BlockIterator {
  import opened Entries
  import opened Coding
  import opened Blocks
  import opened Cursors

  // ----- Reading the trailer -----

  /** The number of restart points a block says it has. */
  function NumRestarts(data: Bytes): nat
    requires |data| >= 4
  {
    DecodeFixed(data, |data| - 4, 4)
  }

  /** Where the restart array starts; None when the block is too small for what it says. */
  function RestartOffset(data: Bytes): Option<nat> {
    if |data| < 4 || NumRestarts(data) > (|data| - 4) / 4 then None
    else Some(|data| - (1 + NumRestarts(data)) * 4)
  }

  /** The parts of a finished block, read back from its end. */
  lemma BlockParts(area: Bytes, points: seq<nat>)
    requires |points| < TWO_32 && forall k :: 0 <= k < |points| ==> points[k] < TWO_32
    ensures var data := Block(area, points);
            && |data| >= 4 && NumRestarts(data) == |points| && RestartOffset(data) == Some(|area|)
            && Holds(data, 0, area) && |data| == |area| + 4 * |points| + 4
            && forall j :: 0 <= j < |points| ==> Word(data, |area|, j) == points[j]
  {
    WordsLength(points, 0);
    ThreeParts(area, EncodeAll(Fixed32, points, 0), Fixed32(|points|));
    CountBack(Block(area, points), |area| + 4 * |points|, |points|);
    WordsBack(Block(area, points), |area|, points);
  }

  lemma ThreeParts(a: Bytes, b: Bytes, c: Bytes)
    ensures var data := a + b + c; Holds(data, 0, a) && Holds(data, |a|, b) && Holds(data, |a| + |b|, c)
  {
  }

  lemma CountBack(data: Bytes, p: nat, n: nat)
    requires Holds(data, p, Fixed32(n)) && n < TWO_32 && |data| == p + 4
    ensures NumRestarts(data) == n
  {
    WordBack(data, p, n);
  }

  // ----- Entries of a layout -----

  lemma {:induction false} OffsetsIncrease(area: Bytes, entries: seq<Pair>, l: Layout, i: nat, j: nat)
    requires Laid(area, entries, l) && i < j <= |entries|
    ensures l.offset[i] < l.offset[j]
    decreases j - i
  {
    assert EntryAt(area, entries, l, j - 1);
    assert |EncodeEntry(l.shared[j - 1], entries[j - 1])| > 0;
    if i < j - 1 {
      OffsetsIncrease(area, entries, l, i, j - 1);
    }
  }

  lemma OffsetsOrdered(area: Bytes, entries: seq<Pair>, l: Layout, i: nat, j: nat)
    requires Laid(area, entries, l) && i <= |entries| && j <= |entries|
    ensures l.offset[i] < l.offset[j] <==> i < j
    ensures l.offset[i] <= |area| && (i < |entries| ==> l.offset[i] < |area|)
  {
    if i < j {
      OffsetsIncrease(area, entries, l, i, j);
    } else if j < i {
      OffsetsIncrease(area, entries, l, j, i);
    }
    if i < |entries| {
      OffsetsIncrease(area, entries, l, i, |entries|);
    }
  }

  /** Keys and values whose lengths are 32-bit numbers. */
  ghost predicate Small(e: Pair) {
    |e.key| + |e.value| < TWO_32
  }

  /** Putting an entry's key together from the key before it and the bytes in the block. */
  lemma ParseEntry(area: Bytes, entries: seq<Pair>, l: Layout, i: nat, before: Bytes)
    requires Laid(area, entries, l) && i < |entries| && Small(entries[i])
    requires l.shared[i] <= |before| && l.shared[i] <= |entries[i].key|
               && before[..l.shared[i]] == entries[i].key[..l.shared[i]]
    ensures l.offset[i] <= |area|
    ensures var h := DecodeEntry(area, l.offset[i]);
            && h.Some? && h.value.shared == l.shared[i]
            && h.value.next + h.value.unshared + h.value.length == l.offset[i + 1] <= |area|
            && before[..h.value.shared] + area[h.value.next..h.value.next + h.value.unshared] == entries[i].key
            && area[h.value.next + h.value.unshared..l.offset[i + 1]] == entries[i].value
  {
    assert EntryAt(area, entries, l, i);
    var e, shared := entries[i], l.shared[i];
    EntryRoundTrip(area, l.offset[i], shared, e);
    var h := DecodeEntry(area, l.offset[i]).value;
    HoldsSlice(area, h.next, Suffix(e.key, shared));
    HoldsSlice(area, h.next + h.unshared, e.value);
    Rejoin(before, e.key, shared);
  }

  lemma Rejoin(before: Bytes, key: Bytes, shared: nat)
    requires shared <= |before| && shared <= |key| && before[..shared] == key[..shared]
    ensures before[..shared] + Suffix(key, shared) == key
  {
  }

  // ----- The iterator -----

  ghost predicate StrictOrder(less: (Bytes, Bytes) -> bool) {
    && (forall a, b, c :: less(a, b) && less(b, c) ==> less(a, c))
    && (forall a :: !less(a, a))
  }

  ghost predicate Increasing(less: (Bytes, Bytes) -> bool, entries: seq<Pair>) {
    forall i, j :: 0 <= i < j < |entries| ==> less(entries[i].key, entries[j].key)
  }

  function AtOrAbove(less: (Bytes, Bytes) -> bool): (Pair, Bytes) -> bool {
    (e: Pair, t: Bytes) => !less(e.key, t)
  }

  class Iter {
    const data: Bytes
    const area: Bytes            // the entries, up to the restart array
    const restarts: nat
    const numRestarts: nat
    const less: (Bytes, Bytes) -> bool
    var current: nat
    var restartIndex: nat
    var key: Bytes
    var valueAt: nat             // the value is `valueLength` bytes of the block, from here
    var valueLength: nat
    var corrupted: bool
    ghost const entries: seq<Pair>
    ghost const layout: Layout
    ghost const points: seq<nat>
    ghost var at: nat            // the entry it stands at; the number of entries when it is not valid

    /** What the block it was given is. */
    ghost predicate BlockOk() {
      && Laid(area, entries, layout) && Restarts(entries, layout, points)
      && |points| == numRestarts && restarts == |area| && restarts + 4 * numRestarts <= |data|
      && (forall j :: 0 <= j < numRestarts ==> Word(data, restarts, j) == points[j])
      && StrictOrder(less) && Increasing(less, entries) && (forall i :: 0 <= i < |entries| ==> Small(entries[i]))
    }

    function NextEntryOffset(): nat
      reads this
    {
      valueAt + valueLength
    }

    ghost predicate Valid()
      reads this
    {
      && BlockOk() && !corrupted && at <= |entries|
      && (at == |entries| ==> current == restarts)
      && (at < |entries| ==>
            && current == layout.offset[at] && key == entries[at].key
            && NextEntryOffset() == layout.offset[at + 1] <= |area|
                 && area[valueAt..NextEntryOffset()] == entries[at].value
            && RestartIndexOk(current))
    }

    ghost predicate RestartIndexOk(offset: nat)
      reads this
      requires BlockOk()
    {
      restartIndex < numRestarts && points[restartIndex] <= offset
    }

    /** What entry `i` leaves out is a prefix of `before`. */
    ghost predicate Continues(i: nat, before: Bytes)
      requires BlockOk() && i < |entries|
    {
      && layout.shared[i] <= |before| && layout.shared[i] <= |entries[i].key|
      && before[..layout.shared[i]] == entries[i].key[..layout.shared[i]]
    }

    /** Ready to parse entry `i` next. */
    ghost predicate Before(i: nat)
      reads this
    {
      && BlockOk() && !corrupted && i <= |entries| && NextEntryOffset() == layout.offset[i]
      && RestartIndexOk(layout.offset[i]) && (i < |entries| ==> Continues(i, key))
    }

    constructor (data: Bytes, less: (Bytes, Bytes) -> bool, ghost entries: seq<Pair>)
      requires IsBlock(data, entries) && |data| < TWO_32 && forall i :: 0 <= i < |entries| ==> Small(entries[i])
      requires StrictOrder(less) && Increasing(less, entries)
      ensures Valid() && at == |entries| && this.entries == entries && this.less == less
    {
      ghost var area, layout, points
        :| Laid(area, entries, layout) && Restarts(entries, layout, points) && data == Block(area, points);
      PointsSmall(area, entries, layout, points);
      BlockParts(area, points);
      var num := NumRestarts(data);
      var start := |data| - (1 + num) * 4;
      this.data, this.less, numRestarts, restarts := data, less, num, start;
      this.area := data[..start];
      current, restartIndex := start, num;
      key, valueAt, valueLength, corrupted := [], 0, 0, false;
      this.entries, this.layout, this.points, at := entries, layout, points, |entries|;
      HoldsSlice(data, 0, area);
      assert data[..start] == data[0..start] == area;
    }

    /** Parses the entry after the current value; false when there is none. */
    method ParseNextKey(ghost i: nat) returns (more: bool)
      requires Before(i)
      modifies this`current, this`restartIndex, this`key, this`valueAt, this`valueLength, this`corrupted, this`at
      ensures Valid() && at == i && more == (i < |entries|)
    {
      current := NextEntryOffset();
      at := i;
      OffsetsOrdered(area, entries, layout, i, |entries|);
      if current >= restarts {
        current, restartIndex := restarts, numRestarts;
        return false;
      }
      var e := ReadPair(i, current, key);
      corrupted := e.None?;
      if corrupted {
        return false;              // not in a finished block
      }
      key, valueAt, valueLength := e.value.0, e.value.1, e.value.2;
      AdvanceRestart();
      more := true;
    }

    /** The key of the entry at an offset, given the key before it, and where its value is. */
    method ReadPair(ghost i: nat, offset: nat, before: Bytes) returns (r: Option<(Bytes, nat, nat)>)
      requires BlockOk() && i < |entries| && offset == layout.offset[i] && Continues(i, before)
      ensures r.Some? && r.value.0 == entries[i].key && r.value.1 + r.value.2 == layout.offset[i + 1] <= |area|
      ensures area[r.value.1..r.value.1 + r.value.2] == entries[i].value
    {
      ParseEntry(area, entries, layout, i, before);
      var h := ReadEntry(area, offset);
      if h.None? || |before| < h.value.shared {
        return None;
      }
      var keyEnd := h.value.next + h.value.unshared;
      r := Some((before[..h.value.shared] + area[h.value.next..keyEnd], keyEnd, h.value.length));
    }

    /** On to the last restart point before the current entry. */
    method AdvanceRestart()
      requires BlockOk() && RestartIndexOk(current)
      modifies this`restartIndex
      ensures RestartIndexOk(current)
    {
      while restartIndex + 1 < numRestarts && Word(data, restarts, restartIndex + 1) < current
        invariant RestartIndexOk(current)
        decreases numRestarts - restartIndex
      {
        restartIndex := restartIndex + 1;
      }
    }

    method SeekToWord(j: nat)
      requires BlockOk() && j < numRestarts && !corrupted
      modifies this`restartIndex, this`key, this`valueAt, this`valueLength
      ensures Before(layout.first[j])
    {
      assert RestartAt(entries, layout, points, j);
      key, restartIndex := [], j;
      valueAt, valueLength := Word(data, restarts, j), 0;
      ghost var i := layout.first[j];
      if i < |entries| {
        assert EntryAt(area, entries, layout, i);
        assert key[..0] == entries[i].key[..0];
      }
    }

    /** After entry `i`, the entry that follows it can be parsed. */
    lemma AfterEntry()
      requires Valid() && at < |entries|
      ensures Before(at + 1)
    {
      OffsetsOrdered(area, entries, layout, at, at + 1);
      if at + 1 < |entries| {
        assert EntryAt(area, entries, layout, at + 1);
      }
    }

    method Next()
      requires Valid() && at < |entries|
      modifies this`current, this`restartIndex, this`key, this`valueAt, this`valueLength, this`corrupted, this`at
      ensures Valid() && at == old(at) + 1
    {
      AfterEntry();
      var more := ParseNextKey(at + 1);
    }

    method SeekToFirst()
      requires Valid()
      modifies this`current, this`restartIndex, this`key, this`valueAt, this`valueLength, this`corrupted, this`at
      ensures Valid() && at == 0
    {
      assert RestartAt(entries, layout, points, 0);
      SeekToWord(0);
      var more := ParseNextKey(0);
    }

    method SeekToLast()
      requires Valid()
      modifies this`current, this`restartIndex, this`key, this`valueAt, this`valueLength, this`corrupted, this`at
      ensures Valid() && at == if entries == [] then 0 else |entries| - 1
    {
      assert RestartAt(entries, layout, points, numRestarts - 1);
      SeekToWord(numRestarts - 1);
      ScanToEnd(layout.first[numRestarts - 1]);
    }

    /** The linear search for the end of the block from a restart point. */
    method ScanToEnd(ghost i: nat)
      requires Before(i) && (i < |entries| || entries == [])
      modifies this`current, this`restartIndex, this`key, this`valueAt, this`valueLength, this`corrupted, this`at
      ensures Valid() && at == if entries == [] then 0 else |entries| - 1
    {
      var more := ParseNextKey(i);
      while more && NextEntryOffset() < restarts
        invariant Valid() && more == (at < |entries|) && (entries != [] ==> more)
        decreases |entries| - at
      {
        OffsetsOrdered(area, entries, layout, at + 1, |entries|);
        AfterEntry();
        more := ParseNextKey(at + 1);
      }
      if more {
        OffsetsOrdered(area, entries, layout, at + 1, |entries|);
      }
    }

    /** Back to a restart point before the current entry, and forward to the entry just before it. */
    method Prev()
      requires Valid() && at < |entries|
      modifies this`current, this`restartIndex, this`key, this`valueAt, this`valueLength, this`corrupted, this`at
      ensures Valid() && at == if old(at) == 0 then |entries| else old(at) - 1
    {
      var original := current;
      ghost var was := at;
      while Word(data, restarts, restartIndex) >= original
        invariant BlockOk() && !corrupted && restartIndex < numRestarts && original == layout.offset[was] && at == was
        decreases restartIndex
      {
        if restartIndex == 0 {
          assert RestartAt(entries, layout, points, 0);
          OffsetsOrdered(area, entries, layout, 0, was);
          current, restartIndex, at := restarts, numRestarts, |entries|;
          return;
        }
        restartIndex := restartIndex - 1;
      }
      assert RestartAt(entries, layout, points, restartIndex);
      ghost var i := layout.first[restartIndex];
      OffsetsOrdered(area, entries, layout, i, was);
      SeekToWord(restartIndex);
      var more := ParseNextKey(i);
      OffsetsOrdered(area, entries, layout, at + 1, was);
      while more && NextEntryOffset() < original
        invariant Valid() && more == (at < |entries|) && at < was && was < |entries| && original == layout.offset[was]
        invariant layout.offset[at + 1] < layout.offset[was] <==> at + 1 < was
        decreases |entries| - at
      {
        AfterEntry();
        more := ParseNextKey(at + 1);
        OffsetsOrdered(area, entries, layout, at + 1, was);
      }
    }

    /** The key at a restart point, read from the block. */
    method RestartKey(j: nat) returns (k: Option<Bytes>)
      requires BlockOk() && j < numRestarts && entries != []
      ensures layout.first[j] < |entries| && k == Some(entries[layout.first[j]].key)
    {
      assert RestartAt(entries, layout, points, j);
      ghost var i := layout.first[j];
      assert EntryAt(area, entries, layout, i);
      OffsetsOrdered(area, entries, layout, i, |entries|);
      ParseEntry(area, entries, layout, i, []);
      var h := ReadEntry(area, Word(data, restarts, j));
      if h.None? || h.value.shared != 0 {
        return None;
      }
      var piece := area[h.value.next..h.value.next + h.value.unshared];
      NoPrefix(piece);
      k := Some(piece);
    }

    /** Binary search over the restart points for the last one whose key is before the target. */
    method FindRestart(target: Bytes) returns (left: nat)
      requires Valid()
      ensures left < numRestarts
                && (left > 0 ==> layout.first[left] < |entries| && less(entries[layout.first[left]].key, target))
    {
      left := 0;
      var right := numRestarts - 1;
      while left < right
        invariant left <= right < numRestarts
        invariant left > 0 ==> layout.first[left] < |entries| && less(entries[layout.first[left]].key, target)
        decreases right - left
      {
        var mid := (left + right + 1) / 2;
        assert RestartAt(entries, layout, points, mid) && RestartAt(entries, layout, points, mid - 1);
        assert layout.first[mid - 1] < layout.first[mid];
        var k := RestartKey(mid);
        if less(k.value, target) {
          left := mid;
        } else {
          right := mid - 1;
        }
      }
    }

    method Seek(target: Bytes)
      requires Valid()
      modifies this`current, this`restartIndex, this`key, this`valueAt, this`valueLength, this`corrupted, this`at
      ensures Valid() && at == FirstAtOrAbove(entries, AtOrAbove(less), target)
    {
      var left := FindRestart(target);
      ghost var i := layout.first[left];
      assert RestartAt(entries, layout, points, left) && RestartAt(entries, layout, points, 0);
      forall a | 0 <= a < i ensures less(entries[a].key, target) {
        assert left > 0;
        assert less(entries[a].key, entries[i].key);
      }
      SeekToWord(left);
      ScanForward(i, target);
      FirstAtOrAboveIs(entries, AtOrAbove(less), target, at);
    }

    /** The linear search from a restart point. */
    method ScanForward(ghost i: nat, target: Bytes)
      requires Before(i) && forall a :: 0 <= a < i ==> less(entries[a].key, target)
      modifies this`current, this`restartIndex, this`key, this`valueAt, this`valueLength, this`corrupted, this`at
      ensures Valid() && (at < |entries| ==> !less(entries[at].key, target))
      ensures forall a :: 0 <= a < at ==> less(entries[a].key, target)
    {
      var more := ParseNextKey(i);
      while more && less(key, target)
        invariant Valid() && more == (at < |entries|) && forall a :: 0 <= a < at ==> less(entries[a].key, target)
        decreases |entries| - at
      {
        AfterEntry();
        more := ParseNextKey(at + 1);
      }
    }

    /** What a client sees: nothing when the iterator is not valid. */
    method Current() returns (r: Option<Pair>)
      requires Valid()
      ensures r == Shown(entries, at)
    {
      OffsetsOrdered(area, entries, layout, at, |entries|);
      if current < restarts {
        r := Some(Pair(key, area[valueAt..NextEntryOffset()]));
      } else {
        r := None;
      }
    }

    method Do(op: Op<Bytes>)
      requires Valid()
      modifies this`current, this`restartIndex, this`key, this`valueAt, this`valueLength, this`corrupted, this`at
      ensures Valid() && at == Move(entries, AtOrAbove(less), old(at), op)
    {
      OffsetsOrdered(area, entries, layout, at, |entries|);
      match op
      case SeekToFirst => SeekToFirst();
      case SeekToLast => SeekToLast();
      case Seek(t) => Seek(t);
      case Next => if current < restarts { Next(); }
      case Prev => if current < restarts { Prev(); }
    }

    /** What a client sees over a sequence of moves. */
    method Run(ops: seq<Op<Bytes>>) returns (seen: seq<Option<Pair>>)
      requires Valid()
      modifies this`current, this`restartIndex, this`key, this`valueAt, this`valueLength, this`corrupted, this`at
      ensures Valid() && seen == Transcript(entries, AtOrAbove(less), old(at), ops)
    {
      seen := [];
      for i := 0 to |ops|
        invariant Valid() && at == Final(entries, AtOrAbove(less), old(at), ops[..i])
        invariant seen == Transcript(entries, AtOrAbove(less), old(at), ops[..i])
      {
        Do(ops[i]);
        var now := Current();
        TranscriptStep(entries, AtOrAbove(less), old(at), ops[..i], ops[i]);
        assert ops[..i + 1] == ops[..i] + [ops[i]];
        seen := seen + [now];
      }
      assert ops[..|ops|] == ops;
    }
  }

  lemma NoPrefix(piece: Bytes)
    ensures [][..0] + piece == piece
  {
  }

  /** Offsets within a block of less than 2^32 bytes fit in 32 bits. */
  lemma PointsSmall(area: Bytes, entries: seq<Pair>, l: Layout, points: seq<nat>)
    requires Laid(area, entries, l) && Restarts(entries, l, points) && |Block(area, points)| < TWO_32
    ensures |points| < TWO_32 && forall k :: 0 <= k < |points| ==> points[k] < TWO_32
  {
    WordsLength(points, 0);
    forall k | 0 <= k < |points| ensures points[k] < TWO_32 {
      assert RestartAt(entries, l, points, k);
      OffsetsOrdered(area, entries, l, l.first[k], 0);
    }
  }

  /** The finished block of a list of entries. */
  method Build(interval: nat, entries: seq<Pair>) returns (data: Bytes)
    requires interval >= 1
    ensures IsBlock(data, entries)
  {
    var builder := new BlockBuilder(interval);
    for i := 0 to |entries|
      invariant builder.Valid() && builder.entries == entries[..i]
      invariant fresh(builder)
    {
      builder.Add(entries[i].key, entries[i].value);
      assert entries[..i + 1] == entries[..i] + [entries[i]];
    }
    assert entries[..|entries|] == entries;
    data := builder.Finish();
  }

  /** For every list of increasing keys, every restart interval and every sequence of moves, iterating over
      the finished block shows what an index into the list shows, unless that block has 2^32 bytes or more. */
  method Drive(less: (Bytes, Bytes) -> bool, interval: nat, entries: seq<Pair>, ops: seq<Op<Bytes>>)
    returns (data: Bytes, shown: Option<seq<Option<Pair>>>)
    requires interval >= 1 && StrictOrder(less) && Increasing(less, entries)
    requires forall i :: 0 <= i < |entries| ==> Small(entries[i])
    ensures shown.Some? ==> shown.value == Transcript(entries, AtOrAbove(less), |entries|, ops)
    ensures IsBlock(data, entries) && (shown.None? <==> |data| >= TWO_32)
  {
    data := Build(interval, entries);
    if |data| >= TWO_32 {
      return data, None;           // offsets are 32-bit numbers
    }
    var it := new Iter(data, less, entries);
    var seen := it.Run(ops);
    shown := Some(seen);
  }
}
