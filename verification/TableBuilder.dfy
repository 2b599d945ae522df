/** Writing a table file (table/table_builder.cc). */
module TableBuilder {
  import opened Entries
  import opened Coding
  import opened Blocks
  import opened BlockIterator
  import opened Separators
  import opened Bloom
  import opened FilterBlocks
  import opened TableFormat
  import opened Tables

  // ----- What a longer file, another entry and another block keep -----

  lemma LongerFile(file: Bytes, longer: Bytes, entries: seq<Pair>, p: Placing)
    requires DataBlocks(file, entries, p) && Holds(longer, 0, file)
    ensures DataBlocks(longer, entries, p)
  {
    forall b | 0 <= b < |p.handles| ensures DataBlockAt(longer, entries, p, b) {
      assert DataBlockAt(file, entries, p, b);
      var block :| IsSlice(block, entries, p.cut[b], p.cut[b + 1]) && BlockIn(file, p.handles[b], block);
      LongerBlock(file, longer, p.handles[b], block);
    }
  }

  lemma LongerBlock(file: Bytes, longer: Bytes, h: Handle, entries: seq<Pair>)
    requires BlockIn(file, h, entries) && Holds(longer, 0, file)
    ensures BlockIn(longer, h, entries)
  {
    var contents :| Holds(file, h.offset, RawBlock(contents)) && |contents| == h.size && IsBlock(contents, entries);
    LongerHolds(file, longer, h.offset, RawBlock(contents));
  }

  lemma LongerHolds(file: Bytes, longer: Bytes, p: nat, e: Bytes)
    requires Holds(file, p, e) && Holds(longer, 0, file)
    ensures Holds(longer, p, e)
  {
  }

  lemma AppendedBlock(file: Bytes, longer: Bytes, contents: Bytes, entries: seq<Pair>)
    requires Holds(longer, |file|, RawBlock(contents)) && IsBlock(contents, entries)
    ensures BlockIn(longer, Handle(|file|, |contents|), entries)
  {
  }

  /** One more entry after the blocks. */
  lemma MoreEntries(file: Bytes, entries: seq<Pair>, e: Pair, p: Placing, index: seq<Pair>)
    requires DataBlocks(file, entries, p) && Indexed(index, entries, p)
    requires index != [] && p.cut[|index|] == |entries| ==>
               entries != [] && Separates(index[|index| - 1].key, entries[|entries| - 1].key, e.key)
    ensures DataBlocks(file, entries + [e], p) && Indexed(index, entries + [e], p)
  {
    MoreData(file, entries, e, p);
    MoreIndexed(entries, e, p, index);
  }

  lemma MoreData(file: Bytes, entries: seq<Pair>, e: Pair, p: Placing)
    requires DataBlocks(file, entries, p)
    ensures DataBlocks(file, entries + [e], p)
  {
    var all := entries + [e];
    assert p.Cuts(|all|);
    forall b | 0 <= b < |p.handles| ensures DataBlockAt(file, all, p, b) {
      assert DataBlockAt(file, entries, p, b);
      var block :| IsSlice(block, entries, p.cut[b], p.cut[b + 1]) && BlockIn(file, p.handles[b], block);
      assert IsSlice(block, all, p.cut[b], p.cut[b + 1]);
    }
  }

  lemma MoreIndexed(entries: seq<Pair>, e: Pair, p: Placing, index: seq<Pair>)
    requires Indexed(index, entries, p)
    requires index != [] && p.cut[|index|] == |entries| ==>
               entries != [] && Separates(index[|index| - 1].key, entries[|entries| - 1].key, e.key)
    ensures Indexed(index, entries + [e], p)
  {
    var all := entries + [e];
    assert p.Cuts(|all|);
    forall b | 0 <= b < |index| ensures IndexAt(index, all, p, b) {
      assert IndexAt(index, entries, p, b);
      p.CutsOrdered(|entries|, b, b + 1);
      if b + 1 < |index| {
        p.CutsOrdered(|entries|, b + 1, |index|);
      }
    }
  }

  ghost predicate Separates(sep: Bytes, last: Bytes, next: Bytes) {
    InternalLess(sep, next) && (sep == last || Less(UserKey(sep), UserKey(next)))
  }

  /** The last block gets its index entry. */
  lemma MoreIndex(entries: seq<Pair>, p: Placing, index: seq<Pair>, sep: Bytes)
    requires Indexed(index, entries, p) && |index| + 1 == |p.handles| && p.cut[|p.handles|] == |entries| > 0
    requires |sep| <= |entries[|entries| - 1].key| && !InternalLess(sep, entries[|entries| - 1].key)
    ensures Indexed(index + [Pair(sep, EncodeHandle(p.handles[|index|]))], entries, p)
  {
    var all := index + [Pair(sep, EncodeHandle(p.handles[|index|]))];
    forall b | 0 <= b < |all| ensures IndexAt(all, entries, p, b) {
      p.CutsOrdered(|entries|, b, b + 1);
      if b < |index| {
        assert IndexAt(index, entries, p, b);
      }
    }
  }

  function Placed(p: Placing, n: nat, h: Handle): Placing {
    Placing(p.cut + [n], p.handles + [h])
  }

  lemma MoreCuts(p: Placing, n: nat, h: Handle)
    requires p.Cuts(n) && p.cut[|p.handles|] < n
    ensures Placed(p, n, h).Cuts(n)
  {
    var q := Placed(p, n, h);
    forall b | 0 <= b < |q.handles| ensures q.CutAt(b) {
      assert b < |p.handles| ==> p.CutAt(b);
    }
  }

  /** The entries since the last cut become a block. */
  lemma MoreBlocks(file: Bytes, entries: seq<Pair>, p: Placing, h: Handle, block: seq<Pair>)
    requires DataBlocks(file, entries, p)
    requires block != [] && IsSlice(block, entries, p.cut[|p.handles|], |entries|) && BlockIn(file, h, block)
    ensures DataBlocks(file, entries, Placed(p, |entries|, h))
  {
    var q := Placed(p, |entries|, h);
    MoreCuts(p, |entries|, h);
    forall b | 0 <= b < |q.handles| ensures DataBlockAt(file, entries, q, b) {
      if b < |p.handles| {
        assert DataBlockAt(file, entries, p, b);
        var part :| IsSlice(part, entries, p.cut[b], p.cut[b + 1]) && BlockIn(file, p.handles[b], part);
        assert IsSlice(part, entries, q.cut[b], q.cut[b + 1]) && BlockIn(file, q.handles[b], part);
      } else {
        assert IsSlice(block, entries, q.cut[b], q.cut[b + 1]) && BlockIn(file, q.handles[b], block);
      }
    }
  }

  lemma StillIndexed(entries: seq<Pair>, p: Placing, index: seq<Pair>, h: Handle)
    requires Indexed(index, entries, p) && p.cut[|p.handles|] < |entries|
    ensures Indexed(index, entries, Placed(p, |entries|, h))
  {
    var q := Placed(p, |entries|, h);
    MoreCuts(p, |entries|, h);
    forall b | 0 <= b < |index| ensures IndexAt(index, entries, q, b) {
      assert IndexAt(index, entries, p, b);
    }
  }

  /** Recorded keys stay recorded when every range keeps the keys it had. */
  lemma StillRecorded(f: nat -> seq<Bytes>, g: nat -> seq<Bytes>, entries: seq<Pair>, e: seq<Pair>, p: Placing)
    requires Recorded(f, entries, p) && forall r: nat, k {:trigger k in f(r)} :: k in f(r) ==> k in g(r)
    ensures Recorded(g, entries + e, p)
  {
    assert p.Cuts(|entries + e|);
    forall b | 0 <= b < |p.handles| ensures RecordedAt(g, entries + e, p, b) {
      assert RecordedAt(f, entries, p, b);
      p.CutsOrdered(|entries|, b, b + 1);
      forall i | p.cut[b] <= i < p.cut[b + 1] ensures (entries + e)[i].key in g(Range(p.handles[b].offset, BASE_LG)) {
        assert entries[i].key in f(Range(p.handles[b].offset, BASE_LG));
      }
    }
  }

  lemma MoreRecorded(f: nat -> seq<Bytes>, entries: seq<Pair>, p: Placing, h: Handle)
    requires Recorded(f, entries, p) && p.cut[|p.handles|] < |entries|
    requires forall i :: p.cut[|p.handles|] <= i < |entries| ==> entries[i].key in f(Range(h.offset, BASE_LG))
    ensures Recorded(f, entries, Placed(p, |entries|, h))
  {
    var q := Placed(p, |entries|, h);
    MoreCuts(p, |entries|, h);
    forall b | 0 <= b < |q.handles| ensures RecordedAt(f, entries, q, b) {
      if b < |p.handles| {
        assert RecordedAt(f, entries, p, b);
      }
    }
  }

  lemma {:induction false} RangeMonotone(a: nat, b: nat, lg: nat)
    requires a <= b
    ensures Range(a, lg) <= Range(b, lg)
  {
    if lg > 0 {
      RangeMonotone(a / 2, b / 2, lg - 1);
    }
  }

  // ----- What the builder has written -----

  /** The blocks in the file, their index entries, and the entries after the last block. */
  ghost predicate Written(file: Bytes, entries: seq<Pair>, p: Placing, index: seq<Pair>, current: seq<Pair>) {
    && DataBlocks(file, entries, p) && Indexed(index, entries, p)
    && IsSlice(current, entries, p.cut[|p.handles|], |entries|)
  }

  /** The filters have the keys of every block written, and the pending one those of the next block, whose
      range it is for. */
  ghost predicate Filtered(filters: seq<seq<Bytes>>, pending: seq<Bytes>, size: nat, entries: seq<Pair>, p: Placing) {
    && Recorded(KeysIn(filters, pending), entries, p) && |filters| == Range(size, BASE_LG)
    && forall i :: p.cut[|p.handles|] <= i < |entries| ==> entries[i].key in pending
  }

  /** The last separator, when no entry follows its block yet, will be below the next entry. */
  ghost predicate Awaits(entries: seq<Pair>, p: Placing, index: seq<Pair>, key: Bytes) {
    index != [] && |index| < |p.cut| && p.cut[|index|] == |entries| ==>
      entries != [] && Separates(index[|index| - 1].key, entries[|entries| - 1].key, key)
  }

  lemma EntryAdded(file: Bytes, entries: seq<Pair>, p: Placing, index: seq<Pair>, current: seq<Pair>, e: Pair)
    requires Written(file, entries, p, index, current) && Awaits(entries, p, index, e.key)
    ensures Written(file, entries + [e], p, index, current + [e])
  {
    MoreEntries(file, entries, e, p, index);
  }

  lemma FilterAdded(filters: seq<seq<Bytes>>, pending: seq<Bytes>, size: nat, entries: seq<Pair>, p: Placing, e: Pair)
    requires Filtered(filters, pending, size, entries, p)
    ensures Filtered(filters, pending + [e.key], size, entries + [e], p)
  {
    StillRecorded(KeysIn(filters, pending), KeysIn(filters, pending + [e.key]), entries, [e], p);
    forall i | p.cut[|p.handles|] <= i < |entries + [e]| ensures (entries + [e])[i].key in pending + [e.key] {
      if i < |entries| {
        assert entries[i].key in pending;
      } else {
        assert (pending + [e.key])[|pending|] == e.key;
      }
    }
  }

  lemma BlockAdded(file: Bytes, longer: Bytes, entries: seq<Pair>, p: Placing, index: seq<Pair>, current: seq<Pair>,
                   h: Handle)
    requires Written(file, entries, p, index, current) && current != [] && Holds(longer, 0, file)
               && BlockIn(longer, h, current)
    ensures Written(longer, entries, Placed(p, |entries|, h), index, [])
  {
    LongerFile(file, longer, entries, p);
    MoreBlocks(longer, entries, p, h, current);
    StillIndexed(entries, p, index, h);
  }

  lemma FilterFlushed(filters: seq<seq<Bytes>>, pending: seq<Bytes>, size: nat, filters2: seq<seq<Bytes>>,
                      pending2: seq<Bytes>, size2: nat, entries: seq<Pair>, p: Placing, h: Handle)
    requires Filtered(filters, pending, size, entries, p) && p.cut[|p.handles|] < |entries| && h.offset == size
    requires SameRanges(filters, pending, filters2, pending2) && |filters2| == Range(size2, BASE_LG)
    ensures Filtered(filters2, pending2, size2, entries, Placed(p, |entries|, h))
  {
    MoreRecorded(KeysIn(filters, pending), entries, p, h);
    assert entries + [] == entries;
    StillRecorded(KeysIn(filters, pending), KeysIn(filters2, pending2), entries, [], Placed(p, |entries|, h));
  }

  /** The last block gets its index entry. */
  lemma IndexAdded(file: Bytes, entries: seq<Pair>, p: Placing, index: seq<Pair>, current: seq<Pair>, sep: Bytes,
                   h: Handle)
    requires Written(file, entries, p, index, current) && |index| + 1 == |p.handles| && h == p.handles[|index|]
    requires current == [] && entries != []
    requires |sep| <= |entries[|entries| - 1].key| && !InternalLess(sep, entries[|entries| - 1].key)
    ensures Written(file, entries, p, index + [Pair(sep, EncodeHandle(h))], current)
  {
    MoreIndex(entries, p, index, sep);
  }

  /** With the separator for the key that comes next. */
  lemma SeparatorAdded(file: Bytes, entries: seq<Pair>, p: Placing, index: seq<Pair>, sep: Bytes, key: Bytes, h: Handle)
    requires Written(file, entries, p, index, []) && |index| + 1 == |p.handles| && h == p.handles[|index|]
               && entries != []
    requires var last := entries[|entries| - 1].key;
             |sep| <= |last| && !InternalLess(sep, last) && Separates(sep, last, key)
    ensures var index2 := index + [Pair(sep, EncodeHandle(h))];
            Written(file, entries, p, index2, []) && Awaits(entries, p, index2, key)
  {
    IndexAdded(file, entries, p, index, [], sep, h);
  }

  method PickSeparator(last: Bytes, next: Bytes) returns (sep: Bytes)
    requires |last| >= 8 && InternalLess(last, next)
    ensures |sep| <= |last| && !InternalLess(sep, last) && Separates(sep, last, next)
  {
    sep := FindInternalSeparator(last, next);
    InternalSeparatorBetween(last, next);
  }

  lemma NothingBefore(p: Placing)
    requires p.Cuts(0)
    ensures p.handles == []
  {
    if p.handles != [] {
      p.CutsOrdered(0, 0, |p.handles|);
    }
  }

  /** A block has been written if and only if it has come to the block size. */
  ghost predicate EndsAtSize(before: Placing, after: Placing, current: seq<Pair>, estimate: nat, blockSize: nat) {
    if current != [] then after == before && estimate < blockSize
    else |after.handles| == |before.handles| + 1 && after.handles[|before.handles|].size >= blockSize
  }

  // ----- The builder -----

  class Builder {
    const blockSize: nat
    const hash: Hash
    const data: BlockBuilder
    const index: BlockBuilder
    const filter: FilterBlockBuilder?
    var file: Bytes
    var lastKey: Bytes
    var pendingIndexEntry: bool
    var pendingHandle: Handle
    ghost var entries: seq<Pair>
    ghost var placing: Placing

    /** The parts are sound, and agree on what has been written. */
    ghost predicate Sound()
      reads this, data, index, filter
    {
      && data != index && data.Valid() && index.Valid() && (filter != null ==> filter.Valid() && filter.hash == hash)
      && Written(file, entries, placing, index.entries, data.entries)
      && (filter != null ==> Filtered(filter.filters, filter.pending, |file|, entries, placing))
      && (entries != [] ==> lastKey == entries[|entries| - 1].key)
    }

    ghost predicate Valid()
      reads this, data, index, filter
    {
      && Sound()
      && |index.entries| == |placing.handles| - (if pendingIndexEntry then 1 else 0)
      && (pendingIndexEntry ==>
            data.entries == [] && entries != [] && pendingHandle == placing.handles[|placing.handles| - 1])
      && (!pendingIndexEntry && data.entries == [] ==> entries == [])
    }

    constructor (blockSize: nat, interval: nat, hash: Hash, bitsPerKey: Option<nat>)
      requires interval >= 1
      ensures Valid() && entries == [] && this.hash == hash && (filter != null <==> bitsPerKey.Some?)
      ensures fresh(data) && fresh(index) && (filter != null ==> fresh(filter))
    {
      this.blockSize, this.hash := blockSize, hash;
      data := new BlockBuilder(interval);
      index := new BlockBuilder(1);
      file, lastKey, pendingIndexEntry, pendingHandle := [], [], false, Handle(0, 0);
      entries, placing := [], Placing([0], []);
      if bitsPerKey.Some? {
        var f := new FilterBlockBuilder(hash, bitsPerKey.value);
        f.StartBlock(0);
        filter := f;
      } else {
        filter := null;
      }
    }

    /** Appends a block as stored. */
    method WriteRawBlock(contents: Bytes) returns (h: Handle)
      modifies this`file
      ensures h == Handle(|old(file)|, |contents|)
      ensures Holds(file, 0, old(file)) && Holds(file, |old(file)|, RawBlock(contents))
    {
      h := Handle(|file|, |contents|);
      file := file + RawBlock(contents);
    }

    /** Adds an entry above all the ones before. */
    method Add(key: Bytes, value: Bytes)
      requires Valid() && 8 <= |key| && (entries != [] ==> 8 <= |lastKey| && InternalLess(lastKey, key))
      modifies this, data, index, filter
      ensures Valid() && entries == old(entries) + [Pair(key, value)] && lastKey == key
      ensures EndsAtSize(old(placing), placing, data.entries, data.CurrentSizeEstimate(), blockSize)
    {
      AddPending(key);
      AddAndFlush(key, value);
      assert entries[|entries| - 1] == Pair(key, value);
    }

    method AddAndFlush(key: Bytes, value: Bytes)
      requires Sound() && Awaits(entries, placing, index.entries, key)
      requires |index.entries| == |placing.handles| && !pendingIndexEntry
      modifies this, data, filter
      ensures Valid() && entries == old(entries) + [Pair(key, value)]
      ensures EndsAtSize(old(placing), placing, data.entries, data.CurrentSizeEstimate(), blockSize)
    {
      AddEntry(key, value);
      if data.CurrentSizeEstimate() >= blockSize {
        Flush();
      }
    }

    /** The missing index entry, now that the key after its block is known. */
    method AddPending(key: Bytes)
      requires Valid() && (entries != [] ==> 8 <= |lastKey| && InternalLess(lastKey, key))
      modifies this`pendingIndexEntry, index
      ensures Sound() && Awaits(entries, placing, index.entries, key)
      ensures |index.entries| == |placing.handles| && !pendingIndexEntry
    {
      if pendingIndexEntry {
        SeparateFrom(key);
      } else if entries == [] {
        NothingBefore(placing);
      }
    }

    method SeparateFrom(key: Bytes)
      requires index.Valid() && Written(file, entries, placing, index.entries, []) && entries != []
      requires |index.entries| + 1 == |placing.handles| && pendingHandle == placing.handles[|index.entries|]
      requires lastKey == entries[|entries| - 1].key && 8 <= |lastKey| && InternalLess(lastKey, key)
      modifies this`pendingIndexEntry, index
      ensures index.Valid() && Written(file, entries, placing, index.entries, []) && !pendingIndexEntry
      ensures Awaits(entries, placing, index.entries, key) && |index.entries| == |placing.handles|
    {
      var sep := PickSeparator(lastKey, key);
      SeparatorAdded(file, entries, placing, index.entries, sep, key, pendingHandle);
      AddIndexEntry(sep);
    }

    /** The index entry of the last block. */
    method AddIndexEntry(sep: Bytes)
      requires index.Valid()
      modifies this`pendingIndexEntry, index
      ensures index.Valid() && index.entries == old(index.entries) + [Pair(sep, EncodeHandle(pendingHandle))]
      ensures !pendingIndexEntry
    {
      index.Add(sep, EncodeHandle(pendingHandle));
      pendingIndexEntry := false;
    }

    method AddEntry(key: Bytes, value: Bytes)
      requires Sound() && Awaits(entries, placing, index.entries, key)
      modifies this`lastKey, this`entries, data, filter
      ensures Sound() && entries == old(entries) + [Pair(key, value)]
                && data.entries == old(data.entries) + [Pair(key, value)]
    {
      EntryAdded(file, entries, placing, index.entries, data.entries, Pair(key, value));
      if filter != null {
        FilterAdded(filter.filters, filter.pending, |file|, entries, placing, Pair(key, value));
      }
      AddToBlock(key, value);
      entries := entries + [Pair(key, value)];
    }

    method AddToBlock(key: Bytes, value: Bytes)
      requires data.Valid() && (filter != null ==> filter.Valid())
      modifies this`lastKey, data, filter
      ensures data.Valid() && data.entries == old(data.entries) + [Pair(key, value)] && lastKey == key
      ensures filter != null ==>
                filter.Valid() && filter.filters == old(filter.filters) && filter.pending == old(filter.pending) + [key]
    {
      if filter != null {
        filter.AddKey(key);
      }
      lastKey := key;
      data.Add(key, value);
    }

    /** Writes the entries since the last block out as a block. */
    method Flush()
      requires Sound() && (data.entries != [] ==> |index.entries| == |placing.handles| && !pendingIndexEntry)
      requires data.entries == [] ==> Valid()
      modifies this, data, filter
      ensures Valid() && entries == old(entries) && data.entries == []
      ensures if old(data.entries) == [] then placing == old(placing)
              else placing == Placed(old(placing), |entries|, pendingHandle)
                   && pendingHandle.size == old(data.CurrentSizeEstimate())
    {
      if !data.Empty() {
        FlushBlock();
      }
    }

    method FlushBlock()
      requires Sound() && data.entries != [] && |index.entries| == |placing.handles|
      modifies this, data, filter
      ensures Valid() && entries == old(entries) && data.entries == []
      ensures placing == Placed(old(placing), |entries|, pendingHandle)
      ensures pendingHandle.size == old(data.CurrentSizeEstimate())
    {
      ghost var before := |file|;
      pendingHandle := WriteBlock();
      FlushFilter(before);
      BlockFlushed();
    }

    /** The block just written waits for its index entry. */
    method BlockFlushed()
      requires data != index && data.Valid() && index.Valid() && data.entries == [] && entries != []
      requires |index.entries| == |placing.handles| && lastKey == entries[|entries| - 1].key
      requires Written(file, entries, Placed(placing, |entries|, pendingHandle), index.entries, [])
      requires filter != null ==>
                 && filter.Valid() && filter.hash == hash
                 && Filtered(filter.filters, filter.pending, |file|, entries, Placed(placing, |entries|, pendingHandle))
      modifies this`pendingIndexEntry, this`placing
      ensures Valid() && placing == Placed(old(placing), |entries|, pendingHandle)
    {
      pendingIndexEntry := true;
      placing := Placed(placing, |entries|, pendingHandle);
    }

    /** The filter's next range. */
    method FlushFilter(ghost before: nat)
      requires pendingHandle.offset == before <= |file|
      requires filter != null ==>
                 && filter.Valid() && Filtered(filter.filters, filter.pending, before, entries, placing)
                 && placing.cut[|placing.handles|] < |entries|
      modifies filter
      ensures filter != null ==>
                && filter.Valid()
                && Filtered(filter.filters, filter.pending, |file|, entries, Placed(placing, |entries|, pendingHandle))
    {
      if filter != null {
        ghost var filters, pending := filter.filters, filter.pending;
        RangeMonotone(before, |file|, BASE_LG);
        filter.StartBlock(|file|);
        FilterFlushed(filters, pending, before, filter.filters, filter.pending, |file|, entries, placing,
            pendingHandle);
      }
    }

    method WriteBlock() returns (h: Handle)
      requires data.Valid() && Written(file, entries, placing, index.entries, data.entries) && data.entries != []
      requires data != index
      modifies this`file, data
      ensures h.offset == |old(file)| <= |file| && data.Valid() && data.entries == []
      ensures h.size == old(data.CurrentSizeEstimate())
      ensures Written(file, entries, Placed(placing, |entries|, h), index.entries, [])
    {
      ghost var before, block := file, data.entries;
      var raw := data.Finish();
      h := WriteRawBlock(raw);
      AppendedBlock(before, file, raw, block);
      BlockAdded(before, file, entries, placing, index.entries, block, h);
      data.Reset();
    }

    /** Writes the last block, the filter, the metaindex, the index and the footer. */
    method Finish() returns (ghost t: Parts)
      requires Valid() && (entries != [] ==> 8 <= |lastKey|)
      modifies this, data, index, filter
      ensures IsTable(file, entries, hash, t) && entries == old(entries) && (t.filter.Some? <==> filter != null)
    {
      FlushLast();
      t := FinishFlushed();
    }

    /** The last block, however large it is. */
    method FlushLast()
      requires Valid() && (entries != [] ==> 8 <= |lastKey|)
      modifies this, data, filter
      ensures entries == old(entries) && LastEntryReady(file) && data.interval >= 1 && FilterReady()
    {
      Flush();
      Flushed();
    }

    lemma Flushed()
      requires Valid() && data.entries == [] && (entries != [] ==> 8 <= |lastKey|)
      ensures LastEntryReady(file) && data.interval >= 1 && FilterReady()
    {
    }

    ghost predicate FilterReady()
      reads this, filter
    {
      filter != null ==>
        && filter.Valid() && filter.hash == hash
        && Filtered(filter.filters, filter.pending, |file|, entries, placing)
    }

    method FinishFlushed() returns (ghost t: Parts)
      requires LastEntryReady(file) && data.interval >= 1 && FilterReady()
      modifies this`file, this`pendingIndexEntry, index, filter
      ensures IsTable(file, entries, hash, t) && (t.filter.Some? <==> filter != null)
    {
      ghost var written := file;
      var filterHandle, f := FinishFilter();
      t := FinishRest(filterHandle, f, written);
    }

    /** Everything after the filter. */
    method FinishRest(filterHandle: Option<Handle>, ghost f: Option<Filter>, ghost f0: Bytes) returns (ghost t: Parts)
      requires LastEntryReady(f0) && data.interval >= 1 && Holds(file, 0, f0)
      requires filterHandle == if f.None? then None else Some(f.value.handle)
      requires f.Some? ==> FilterIn(file, f.value, hash, entries, placing)
      modifies this`file, this`pendingIndexEntry, index
      ensures IsTable(file, entries, hash, t) && t.filter == f
    {
      ghost var f1 := file;
      t := FinishTail(filterHandle, f, f0);
      TableDone(f0, f1, file, entries, hash, t);
    }

    /** The metaindex, the index and the footer. */
    method FinishTail(filterHandle: Option<Handle>, ghost f: Option<Filter>, ghost written: Bytes)
          returns (ghost t: Parts)
      requires LastEntryReady(written) && data.interval >= 1
      requires filterHandle == if f.None? then None else Some(f.value.handle)
      modifies this`file, this`pendingIndexEntry, index
      ensures Written(written, entries, placing, t.index, []) && |t.index| == |placing.handles|
      ensures t.p == placing && t.filter == f && Holds(file, 0, old(file)) && Ended(file, t)
    {
      var metaHandle := FinishMeta(MetaIndex(filterHandle));
      ghost var f2 := file;
      AddLastEntry(written);
      var indexHandle := FinishIndex();
      ghost var f3 := file;
      t := Parts(placing, index.entries, indexHandle, metaHandle, f);
      file := file + EncodeFooter(metaHandle, indexHandle);
      TailDone(f2, f3, file, t);
    }

    /** The index entry of the very last block, which no key follows. */
    method AddLastEntry(ghost written: Bytes)
      requires LastEntryReady(written)
      modifies this`pendingIndexEntry, index
      ensures index.Valid() && Written(written, entries, placing, index.entries, [])
                && |index.entries| == |placing.handles|
    {
      if pendingIndexEntry {
        var sep := FindInternalSuccessor(lastKey);
        InternalSuccessorAbove(lastKey);
        IndexAdded(written, entries, placing, index.entries, [], sep, pendingHandle);
        AddIndexEntry(sep);
      }
    }

    ghost predicate LastEntryReady(written: Bytes)
      reads this, index
    {
      && index.Valid() && Written(written, entries, placing, index.entries, [])
      && (pendingIndexEntry ==>
            && entries != [] && 8 <= |lastKey| && lastKey == entries[|entries| - 1].key
            && |index.entries| + 1 == |placing.handles| && pendingHandle == placing.handles[|index.entries|])
      && (!pendingIndexEntry ==> |index.entries| == |placing.handles|)
    }

    /** The filter block, when there is a filter. */
    method FinishFilter() returns (h: Option<Handle>, ghost f: Option<Filter>)
      requires FilterReady()
      modifies this`file, filter
      ensures Holds(file, 0, old(file)) && (f.Some? <==> filter != null)
      ensures f.Some? ==> FilterIn(file, f.value, hash, entries, placing)
      ensures h == if f.None? then None else Some(f.value.handle)
    {
      if filter == null {
        return None, None;
      }
      ghost var recorded := KeysIn(filter.filters, filter.pending);
      var contents := filter.Finish();
      assert entries + [] == entries;
      StillRecorded(recorded, KeysIn(filter.filters, []), entries, [], placing);
      var handle := WriteRawBlock(contents);
      h := Some(handle);
      f := Some(Filter(handle, contents, filter.filters, filter.bitsPerKey));
    }

    /** The metaindex block: where the filter is. */
    method FinishMeta(metas: seq<Pair>) returns (h: Handle)
      requires data.interval >= 1
      modifies this`file
      ensures Holds(file, 0, old(file)) && BlockIn(file, h, metas)
    {
      var raw := Build(data.interval, metas);
      ghost var before := file;
      h := WriteRawBlock(raw);
      AppendedBlock(before, file, raw, metas);
    }

    method FinishIndex() returns (h: Handle)
      requires index.Valid()
      modifies this`file, index
      ensures Holds(file, 0, old(file)) && index.entries == old(index.entries) && BlockIn(file, h, index.entries)
    {
      ghost var before, block := file, index.entries;
      var raw := index.Finish();
      h := WriteRawBlock(raw);
      AppendedBlock(before, file, raw, block);
    }
  }

  /** The file ends with the metaindex, the index and the footer. */
  ghost predicate Ended(file: Bytes, t: Parts) {
    && BlockIn(file, t.metaHandle, MetaEntries(t.filter)) && BlockIn(file, t.indexHandle, t.index)
    && |file| >= 48 && file[|file| - 48..] == EncodeFooter(t.metaHandle, t.indexHandle)
  }

  lemma TailDone(f2: Bytes, f3: Bytes, file: Bytes, t: Parts)
    requires BlockIn(f2, t.metaHandle, MetaEntries(t.filter)) && Holds(f3, 0, f2) && BlockIn(f3, t.indexHandle, t.index)
    requires file == f3 + EncodeFooter(t.metaHandle, t.indexHandle)
    ensures Ended(file, t) && Holds(file, 0, f2) && Holds(file, 0, f3)
  {
    EndsWith(f2, f3, file, EncodeFooter(t.metaHandle, t.indexHandle));
    LongerBlock(f2, file, t.metaHandle, MetaEntries(t.filter));
    LongerBlock(f3, file, t.indexHandle, t.index);
  }

  lemma EndsWith(f2: Bytes, f3: Bytes, file: Bytes, footer: Bytes)
    requires Holds(f3, 0, f2) && file == f3 + footer && |footer| == 48
    ensures Holds(file, 0, f2) && Holds(file, 0, f3) && file[|file| - 48..] == footer
  {
  }

  /** The file after the data blocks, the filter, and the rest. */
  lemma TableDone(f0: Bytes, f1: Bytes, file: Bytes, entries: seq<Pair>, hash: Hash, t: Parts)
    requires Written(f0, entries, t.p, t.index, []) && |t.index| == |t.p.handles|
    requires Holds(f1, 0, f0) && (t.filter.Some? ==> FilterIn(f1, t.filter.value, hash, entries, t.p))
    requires Holds(file, 0, f1) && Ended(file, t)
    ensures IsTable(file, entries, hash, t)
  {
    LongerHolds(f1, file, 0, f0);
    LongerFile(f0, file, entries, t.p);
    if t.filter.Some? {
      LongerHolds(f1, file, t.filter.value.handle.offset, RawBlock(t.filter.value.contents));
    }
  }
}
