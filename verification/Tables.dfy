/** What a table file is: data blocks of consecutive entries, an index with one separator for each, an
    optional filter, and a footer; and why a lookup through the index misses nothing (table/table.cc). */
module Tables {
  import opened Entries
  import opened Coding
  import opened Cursors
  import opened Blocks
  import opened BlockIterator
  import opened Separators
  import opened Bloom
  import opened FilterBlocks
  import opened TableFormat

  /** The name the filter's handle is stored under: "filter." and the policy's name. */
  const FILTER_KEY: Bytes :=
    [102, 105, 108, 116, 101, 114, 46, 108, 101, 118, 101, 108, 100, 98, 46, 66, 117, 105, 108, 116, 105, 110,
     66, 108, 111, 111, 109, 70, 105, 108, 116, 101, 114, 50]

  // ----- The data blocks -----

  /** Which entries each block has (from one cut to the next), and where it is. */
  datatype Placing = Placing(cut: seq<nat>, handles: seq<Handle>) {
    ghost predicate Cuts(n: nat) {
      && |cut| == |handles| + 1 && cut[0] == 0 && cut[|handles|] <= n
      && forall b {:trigger CutAt(b)} :: 0 <= b < |handles| ==> CutAt(b)
    }

    ghost predicate CutAt(b: nat)
      requires b < |handles| && |cut| == |handles| + 1
    {
      cut[b] < cut[b + 1]
    }

    lemma CutsOrdered(n: nat, a: nat, b: nat)
      requires Cuts(n) && a < b <= |handles|
      ensures cut[a] < cut[b] <= n
      decreases |handles| - a
    {
      CutsEnd(n, b);
      CutsFrom(n, a, b);
    }

    lemma {:induction false} CutsFrom(n: nat, a: nat, b: nat)
      requires Cuts(n) && a < b <= |handles|
      ensures cut[a] < cut[b]
      decreases b - a
    {
      assert CutAt(b - 1);
      if a < b - 1 {
        CutsFrom(n, a, b - 1);
      }
    }

    lemma CutsEnd(n: nat, b: nat)
      requires Cuts(n) && b <= |handles|
      ensures cut[b] <= n
    {
      if b < |handles| {
        CutsFrom(n, b, |handles|);
      }
    }
  }

  /** A stored block of these entries is where the handle says. */
  ghost predicate BlockIn(file: Bytes, h: Handle, entries: seq<Pair>) {
    exists contents {:trigger IsBlock(contents, entries)} ::
      Holds(file, h.offset, RawBlock(contents)) && |contents| == h.size && IsBlock(contents, entries)
  }

  /** The entries from `lo` up to `hi`. */
  ghost predicate IsSlice(block: seq<Pair>, entries: seq<Pair>, lo: nat, hi: nat) {
    && lo + |block| == hi <= |entries|
    && forall k :: 0 <= k < |block| ==> block[k] == entries[lo + k]
  }

  ghost predicate DataBlockAt(file: Bytes, entries: seq<Pair>, p: Placing, b: nat)
    requires p.Cuts(|entries|) && b < |p.handles|
  {
    exists block {:trigger BlockIn(file, p.handles[b], block)} ::
      IsSlice(block, entries, p.cut[b], p.cut[b + 1]) && BlockIn(file, p.handles[b], block)
  }

  ghost predicate DataBlocks(file: Bytes, entries: seq<Pair>, p: Placing) {
    && p.Cuts(|entries|)
    && forall b {:trigger DataBlockAt(file, entries, p, b)} :: 0 <= b < |p.handles| ==> DataBlockAt(file, entries, p, b)
  }

  // ----- The index -----

  /** The separator of block `b` is at or above its last key, and below the first key of the next block; a
      separator that is not the last key itself has a smaller user key than the next block's first. */
  ghost predicate IndexAt(index: seq<Pair>, entries: seq<Pair>, p: Placing, b: nat)
    requires p.Cuts(|entries|) && b < |p.handles| && b < |index|
  {
    p.CutsOrdered(|entries|, b, b + 1);
    var last, next, sep := entries[p.cut[b + 1] - 1].key, p.cut[b + 1], index[b].key;
    && index[b].value == EncodeHandle(p.handles[b]) && |sep| <= |last| && !InternalLess(sep, last)
    && (next < |entries| ==>
          InternalLess(sep, entries[next].key) && (sep == last || Less(UserKey(sep), UserKey(entries[next].key))))
  }

  ghost predicate Indexed(index: seq<Pair>, entries: seq<Pair>, p: Placing) {
    && p.Cuts(|entries|) && |index| <= |p.handles|
    && forall b {:trigger IndexAt(index, entries, p, b)} :: 0 <= b < |index| ==> IndexAt(index, entries, p, b)
  }

  // ----- The filter -----

  /** The keys of the block are in the filter of the range its offset is in. */
  ghost predicate RecordedAt(keysOf: nat -> seq<Bytes>, entries: seq<Pair>, p: Placing, b: nat)
    requires p.Cuts(|entries|) && b < |p.handles|
  {
    p.CutsOrdered(|entries|, b, b + 1);
    forall i :: p.cut[b] <= i < p.cut[b + 1] ==> entries[i].key in keysOf(Range(p.handles[b].offset, BASE_LG))
  }

  ghost predicate Recorded(keysOf: nat -> seq<Bytes>, entries: seq<Pair>, p: Placing) {
    && p.Cuts(|entries|)
    && forall b {:trigger RecordedAt(keysOf, entries, p, b)} :: 0 <= b < |p.handles| ==>
         RecordedAt(keysOf, entries, p, b)
  }

  ghost function KeysIn(filters: seq<seq<Bytes>>, pending: seq<Bytes>): nat -> seq<Bytes> {
    (range: nat) => KeysOf(filters, pending, range)
  }

  // ----- The file -----

  datatype Parts = Parts(p: Placing, index: seq<Pair>, indexHandle: Handle, metaHandle: Handle, filter: Option<Filter>)
  datatype Filter = Filter(handle: Handle, contents: Bytes, filters: seq<seq<Bytes>>, bitsPerKey: nat)

  /** The entries of the metaindex block. */
  function MetaIndex(filterHandle: Option<Handle>): seq<Pair> {
    if filterHandle.None? then [] else [Pair(FILTER_KEY, EncodeHandle(filterHandle.value))]
  }

  function MetaEntries(filter: Option<Filter>): seq<Pair> {
    MetaIndex(if filter.None? then None else Some(filter.value.handle))
  }

  ghost predicate FilterIn(file: Bytes, f: Filter, hash: Hash, entries: seq<Pair>, p: Placing) {
    && Holds(file, f.handle.offset, RawBlock(f.contents)) && |f.contents| == f.handle.size
    && IsFilterBlock(f.contents, f.filters, hash, f.bitsPerKey) && Recorded(KeysIn(f.filters, []), entries, p)
  }

  ghost predicate IsTable(file: Bytes, entries: seq<Pair>, hash: Hash, t: Parts) {
    && DataBlocks(file, entries, t.p) && t.p.cut[|t.p.handles|] == |entries|
    && Indexed(t.index, entries, t.p) && |t.index| == |t.p.handles|
    && BlockIn(file, t.indexHandle, t.index) && BlockIn(file, t.metaHandle, MetaEntries(t.filter))
    && (t.filter.Some? ==> FilterIn(file, t.filter.value, hash, entries, t.p))
    && |file| >= 48 && file[|file| - 48..] == EncodeFooter(t.metaHandle, t.indexHandle)
  }

  /** Internal keys, in order, that leave room for a handle beside them in an index entry. */
  ghost predicate TableEntries(entries: seq<Pair>) {
    && Increasing(InternalLess, entries)
    && forall i :: 0 <= i < |entries| ==> Small(entries[i]) && 8 <= |entries[i].key| < TWO_32 - 20
  }

  /** Offsets into blocks are 32-bit numbers, offsets into the file 64-bit ones. */
  ghost predicate Fits(t: Parts) {
    && (forall b :: 0 <= b < |t.p.handles| ==> BlockFits(t.p.handles[b]))
    && BlockFits(t.indexHandle) && BlockFits(t.metaHandle) && (t.filter.Some? ==> BlockFits(t.filter.value.handle))
  }

  ghost predicate BlockFits(h: Handle) {
    h.offset < TWO_64 && h.size < TWO_32
  }

  /** A file of less than 2^32 bytes always does. */
  lemma SmallFileFits(file: Bytes, entries: seq<Pair>, hash: Hash, t: Parts)
    requires IsTable(file, entries, hash, t) && |file| < TWO_32
    ensures Fits(t)
  {
    forall b | 0 <= b < |t.p.handles| ensures BlockFits(t.p.handles[b]) {
      assert DataBlockAt(file, entries, t.p, b);
    }
  }

  // ----- Looking a key up -----

  lemma InternalIsStrict()
    ensures StrictOrder(InternalLess)
  {
    forall a, b, c ensures (InternalLess(a, b) && InternalLess(b, c) ==> InternalLess(a, c)) && !InternalLess(a, a) {
      InternalOrder(a, b, c);
    }
  }

  lemma IndexIncreasing(index: seq<Pair>, entries: seq<Pair>, p: Placing)
    requires Indexed(index, entries, p) && Increasing(InternalLess, entries)
    ensures Increasing(InternalLess, index)
  {
    forall i, j | 0 <= i < j < |index| ensures InternalLess(index[i].key, index[j].key) {
      assert IndexAt(index, entries, p, i) && IndexAt(index, entries, p, j);
      p.CutsOrdered(|entries|, i + 1, j + 1);
      var next, last := p.cut[i + 1], p.cut[j + 1] - 1;
      assert next < last ==> InternalLess(entries[next].key, entries[last].key);
      BelowThrough(index[i].key, entries[next].key, entries[last].key, index[j].key);
    }
  }

  /** a < b, b at most c, c at most d. */
  lemma BelowThrough(a: Bytes, b: Bytes, c: Bytes, d: Bytes)
    requires InternalLess(a, b) && (b == c || InternalLess(b, c)) && !InternalLess(d, c)
    ensures InternalLess(a, d)
  {
    InternalOrder(a, b, c);
    InternalOrder(a, d, c);
  }

  /** Everything before `r` is below the target, and what is at `r` is not. */
  ghost predicate FirstAt(entries: seq<Pair>, target: Bytes, r: nat) {
    && r <= |entries| && (forall a :: 0 <= a < r ==> InternalLess(entries[a].key, target))
    && (r < |entries| ==> !InternalLess(entries[r].key, target))
  }

  function FirstOf(entries: seq<Pair>, target: Bytes): (r: nat)
    ensures r <= |entries|
  {
    FirstAtOrAbove(entries, AtOrAbove(InternalLess), target)
  }

  lemma FirstAtHolds(entries: seq<Pair>, target: Bytes)
    ensures FirstAt(entries, target, FirstOf(entries, target))
  {
    FirstAtOrAboveHolds(entries, AtOrAbove(InternalLess), target);
    var r := FirstOf(entries, target);
    forall a | 0 <= a < r ensures InternalLess(entries[a].key, target) {
      assert !AtOrAbove(InternalLess)(entries[a], target);
    }
  }

  lemma FirstAtIs(entries: seq<Pair>, target: Bytes, r: nat)
    requires FirstAt(entries, target, r)
    ensures FirstOf(entries, target) == r
  {
    FirstAtOrAboveIs(entries, AtOrAbove(InternalLess), target, r);
  }

  /** Every entry before the block is below the target. */
  lemma BeforeBlock(index: seq<Pair>, entries: seq<Pair>, p: Placing, target: Bytes, b: nat)
    requires Indexed(index, entries, p) && |index| == |p.handles| && Increasing(InternalLess, entries)
    requires FirstAt(index, target, b)
    ensures forall i :: 0 <= i < p.cut[b] <= |entries| ==> InternalLess(entries[i].key, target)
  {
    if b > 0 {
      assert IndexAt(index, entries, p, b - 1);
      p.CutsOrdered(|entries|, b - 1, b);
      forall i | 0 <= i < p.cut[b] ensures InternalLess(entries[i].key, target) {
        var last := entries[p.cut[b] - 1].key;
        assert i < p.cut[b] - 1 ==> InternalLess(entries[i].key, last);
        NotAboveBelow(entries[i].key, last, index[b - 1].key, target);
      }
    }
  }

  /** a at most b, b at most c, c < d. */
  lemma NotAboveBelow(a: Bytes, b: Bytes, c: Bytes, d: Bytes)
    requires (a == b || InternalLess(a, b)) && !InternalLess(c, b) && InternalLess(c, d)
    ensures InternalLess(a, d)
  {
    InternalOrder(c, d, b);
    InternalOrder(b, d, a);
    InternalOrder(a, b, d);
    InternalOrder(b, c, d);
    InternalOrder(c, b, d);
    InternalOrder(b, d, c);
  }

  /** The first entry after the block is above the target, and of another user key. */
  lemma AfterBlock(index: seq<Pair>, entries: seq<Pair>, p: Placing, target: Bytes, b: nat)
    requires Indexed(index, entries, p) && |index| == |p.handles| && b < |index| && FirstAt(index, target, b)
    requires p.cut[b + 1] < |entries|
    requires p.cut[b + 1] > 0 && InternalLess(entries[p.cut[b + 1] - 1].key, target)
    ensures !InternalLess(entries[p.cut[b + 1]].key, target)
    ensures UserKey(entries[p.cut[b + 1]].key) != UserKey(target)
  {
    assert IndexAt(index, entries, p, b);
    assert p.CutAt(b);
    var sep, next := index[b].key, entries[p.cut[b + 1]].key;
    InternalOrder(sep, next, target);
    InternalOrder(next, target, sep);
    LessOrder(UserKey(sep), UserKey(next), UserKey(target));
    LessOrder(UserKey(sep), UserKey(target), UserKey(sep));
    LessOrder(UserKey(next), UserKey(target), UserKey(sep));
  }

  lemma FirstInSlice(entries: seq<Pair>, target: Bytes, block: seq<Pair>, lo: nat, hi: nat, c: nat)
    requires IsSlice(block, entries, lo, hi) && FirstAt(block, target, c)
    requires forall a :: 0 <= a < lo ==> InternalLess(entries[a].key, target)
    requires c == hi - lo && hi < |entries| ==> !InternalLess(entries[hi].key, target)
    ensures FirstAt(entries, target, lo + c)
  {
    forall a | 0 <= a < lo + c ensures InternalLess(entries[a].key, target) {
      assert a >= lo ==> entries[a] == block[a - lo];
    }
  }

  /** The first entry at or above the target, from its place in the block the index search ends at. */
  lemma TableSeek(index: seq<Pair>, entries: seq<Pair>, p: Placing, target: Bytes, block: seq<Pair>)
    requires Indexed(index, entries, p) && |index| == |p.handles| && p.cut[|p.handles|] == |entries|
    requires Increasing(InternalLess, entries)
    requires var b := FirstOf(index, target);
             b < |index| ==> IsSlice(block, entries, p.cut[b], p.cut[b + 1])
    ensures var b, i, c := FirstOf(index, target), FirstOf(entries, target), FirstOf(block, target);
            && (b == |index| ==> i == |entries|)
            && (b < |index| ==>
                  && i == p.cut[b] + c && (c < |block| ==> i < |entries| && block[c] == entries[i])
                  && (c == |block| && i < |entries| ==> UserKey(entries[i].key) != UserKey(target)))
  {
    var b, c := FirstOf(index, target), FirstOf(block, target);
    FirstAtHolds(index, target);
    BeforeBlock(index, entries, p, target, b);
    if b == |index| {
      FirstAtIs(entries, target, |entries|);
    } else {
      FirstAtHolds(block, target);
      if c == |block| && p.cut[b + 1] < |entries| {
        assert p.CutAt(b) && block[c - 1] == entries[p.cut[b + 1] - 1];
        AfterBlock(index, entries, p, target, b);
      }
      FirstInSlice(entries, target, block, p.cut[b], p.cut[b + 1], c);
      FirstAtIs(entries, target, p.cut[b] + c);
    }
  }
}
