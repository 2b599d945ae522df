/** Opening a table file and looking keys up in it (table/table.cc). */
module TableReader {
  import opened Entries
  import opened Coding
  import opened Cursors
  import opened Blocks
  import opened BlockIterator
  import opened Separators
  import opened Bloom
  import opened FilterBlocks
  import opened TableFormat
  import opened Tables

  /** An open table: the file, its index block, and its filter when there is one and it is used. */
  datatype Table = Table(file: Bytes, verify: bool, indexBlock: Bytes, filter: Option<FilterReader>)

  ghost predicate Opened(table: Table, file: Bytes, t: Parts) {
    && table.file == file && IsBlock(table.indexBlock, t.index) && |table.indexBlock| < TWO_32
    && (table.filter.Some? ==> t.filter.Some? && table.filter.value == OpenFilter(t.filter.value.contents))
  }

  // ----- The pieces -----

  lemma BytesIsStrict()
    ensures StrictOrder(Less)
  {
    forall a, b, c ensures (Less(a, b) && Less(b, c) ==> Less(a, c)) && !Less(a, a) {
      LessOrder(a, b, c);
      LessOrder(a, a, a);
    }
  }

  /** A handle stored on its own reads back. */
  lemma HandleBack(h: Handle)
    requires HandleFits(h)
    ensures var value := EncodeHandle(h); DecodeHandle(value, 0) == Some((h, |value|)) && |value| <= 20
  {
    HandleRoundTrip(EncodeHandle(h), 0, h);
    HandleLength(h);
  }

  /** The stored block a handle points to. */
  method Fetch(file: Bytes, verify: bool, h: Handle, ghost entries: seq<Pair>) returns (contents: Option<Bytes>)
    requires BlockIn(file, h, entries) && BlockFits(h)
    ensures contents.Some? && IsBlock(contents.value, entries) && |contents.value| < TWO_32
  {
    ghost var stored :| Holds(file, h.offset, RawBlock(stored)) && |stored| == h.size && IsBlock(stored, entries);
    ReadBlockBack(file, verify, h, stored);
    contents := ReadBlock(file, verify, h);
  }

  // ----- Opening -----

  method Open(file: Bytes, paranoid: bool, useFilter: bool, verify: bool,
              ghost entries: seq<Pair>, ghost hash: Hash, ghost t: Parts) returns (table: Option<Table>)
    requires IsTable(file, entries, hash, t) && Fits(t)
    ensures table.Some? && Opened(table.value, file, t) && table.value.verify == verify
    ensures table.value.filter.Some? <==> useFilter && t.filter.Some?
  {
    if |file| < 48 {
      return None;
    }
    FooterRoundTrip(t.metaHandle, t.indexHandle);
    var footer := DecodeFooter(file[|file| - 48..]);
    if footer.None? {
      return None;
    }
    var index := Fetch(file, paranoid, footer.value.1, t.index);
    if index.None? {
      return None;
    }
    var filter := None;
    if useFilter {
      filter := ReadMeta(file, paranoid, footer.value.0, entries, hash, t);
    }
    table := Some(Table(file, verify, index.value, filter));
  }

  /** The search of a new iterator over a block. */
  method SeekBlock(contents: Bytes, less: (Bytes, Bytes) -> bool, ghost entries: seq<Pair>, target: Bytes)
      returns (r: Option<Pair>)
    requires IsBlock(contents, entries) && |contents| < TWO_32 && forall i :: 0 <= i < |entries| ==> Small(entries[i])
    requires StrictOrder(less) && Increasing(less, entries)
    ensures r == Shown(entries, FirstAtOrAbove(entries, AtOrAbove(less), target))
  {
    var it := new Iter(contents, less, entries);
    it.Seek(target);
    r := it.Current();
  }

  lemma MetaEntriesOk(metas: seq<Pair>, t: Parts)
    requires metas == MetaEntries(t.filter) && Fits(t)
    ensures StrictOrder(Less) && Increasing(Less, metas) && forall i :: 0 <= i < |metas| ==> Small(metas[i])
    ensures Shown(metas, FirstAtOrAbove(metas, AtOrAbove(Less), FILTER_KEY))
         == if t.filter.None? then None else Some(Pair(FILTER_KEY, EncodeHandle(t.filter.value.handle)))
  {
    BytesIsStrict();
    if t.filter.Some? {
      HandleBack(t.filter.value.handle);
      FirstAtOrAboveIs(metas, AtOrAbove(Less), FILTER_KEY, 0);
    }
  }

  /** The filter, found by its name in the metaindex block. */
  method ReadMeta(file: Bytes, paranoid: bool, meta: Handle, ghost entries: seq<Pair>, ghost hash: Hash, ghost t: Parts)
      returns (filter: Option<FilterReader>)
    requires IsTable(file, entries, hash, t) && Fits(t) && meta == t.metaHandle
    ensures filter == if t.filter.None? then None else Some(OpenFilter(t.filter.value.contents))
  {
    var contents := Fetch(file, paranoid, meta, MetaEntries(t.filter));
    if contents.None? {
      return None;
    }
    ghost var metas := MetaEntries(t.filter);
    MetaEntriesOk(metas, t);
    var found := SeekBlock(contents.value, Less, metas, FILTER_KEY);
    if found.Some? && found.value.key == FILTER_KEY {
      filter := ReadFilter(file, paranoid, found.value.value, entries, hash, t);
    } else {
      filter := None;
    }
  }

  method ReadFilter(file: Bytes, paranoid: bool, value: Bytes, ghost entries: seq<Pair>, ghost hash: Hash,
                    ghost t: Parts)
      returns (filter: Option<FilterReader>)
    requires IsTable(file, entries, hash, t) && Fits(t) && t.filter.Some?
               && value == EncodeHandle(t.filter.value.handle)
    ensures filter == Some(OpenFilter(t.filter.value.contents))
  {
    HandleBack(t.filter.value.handle);
    var h := DecodeHandle(value, 0);
    if h.None? {
      return None;
    }
    ReadBlockBack(file, paranoid, h.value.0, t.filter.value.contents);
    var contents := ReadBlock(file, paranoid, h.value.0);
    if contents.None? {
      return None;
    }
    filter := Some(OpenFilter(contents.value));
  }

  // ----- Looking a key up -----

  /** The first entry at or above the key is delivered if it has that user key, and no other entry ever is. */
  ghost predicate Delivered(entries: seq<Pair>, k: Bytes, r: Option<Pair>) {
    var i := FirstOf(entries, k);
    && (i < |entries| && UserKey(entries[i].key) == UserKey(k) ==> r.Some?)
    && (r.Some? ==> i < |entries| && r.value == entries[i])
  }

  lemma IndexSmall(index: seq<Pair>, entries: seq<Pair>, p: Placing)
    requires Indexed(index, entries, p) && TableEntries(entries)
    requires forall b :: 0 <= b < |p.handles| ==> BlockFits(p.handles[b])
    ensures forall b :: 0 <= b < |index| ==> Small(index[b])
  {
    forall b | 0 <= b < |index| ensures Small(index[b]) {
      assert IndexAt(index, entries, p, b) && p.CutAt(b);
      p.CutsOrdered(|entries|, b, b + 1);
      HandleLength(p.handles[b]);
    }
  }

  lemma SliceEntries(block: seq<Pair>, entries: seq<Pair>, lo: nat, hi: nat)
    requires IsSlice(block, entries, lo, hi) && TableEntries(entries)
    ensures TableEntries(block)
  {
  }

  lemma FilterRead(f: Filter, file: Bytes, hash: Hash, entries: seq<Pair>, p: Placing)
    requires FilterIn(file, f, hash, entries, p) && BlockFits(f.handle)
    ensures OpenFilter(f.contents).baseLg == BASE_LG
  {
    var answer := AnswersFromRange(f.contents, f.filters, hash, f.bitsPerKey, 0, []);
  }

  /** Where the filter says no, no key of the block has the user key. */
  lemma FilterSaysNo(f: Filter, file: Bytes, hash: Hash, entries: seq<Pair>, p: Placing, b: nat, user: Bytes)
    requires FilterIn(file, f, hash, entries, p) && BlockFits(f.handle) && b < |p.handles|
    requires !FilterAnswer(OpenFilter(f.contents), hash, Range(p.handles[b].offset, BASE_LG), user)
    ensures forall i :: p.cut[b] <= i < p.cut[b + 1] <= |entries| ==> UserKey(entries[i].key) != user
  {
    var range := Range(p.handles[b].offset, BASE_LG);
    assert RecordedAt(KeysIn(f.filters, []), entries, p, b);
    p.CutsOrdered(|entries|, b, b + 1);
    var answer := AnswersFromRange(f.contents, f.filters, hash, f.bitsPerKey, range, user);
    FilterNeverMisses(f.contents, f.filters, hash, f.bitsPerKey, range, user);
  }

  lemma NothingAbove(entries: seq<Pair>, t: Parts, k: Bytes)
    requires Indexed(t.index, entries, t.p) && |t.index| == |t.p.handles| && t.p.cut[|t.p.handles|] == |entries|
    requires Increasing(InternalLess, entries) && FirstOf(t.index, k) == |t.index|
    ensures Delivered(entries, k, None)
  {
    TableSeek(t.index, entries, t.p, k, entries);
  }

  /** Whatever the filter allows to be skipped, and wherever the block search ends, nothing is missed. */
  lemma NothingMissed(entries: seq<Pair>, t: Parts, k: Bytes, b: nat, block: seq<Pair>, skip: bool)
    requires Indexed(t.index, entries, t.p) && |t.index| == |t.p.handles| && t.p.cut[|t.p.handles|] == |entries|
    requires Increasing(InternalLess, entries) && b == FirstOf(t.index, k) < |t.index|
    requires IsSlice(block, entries, t.p.cut[b], t.p.cut[b + 1])
    requires skip ==> forall j :: t.p.cut[b] <= j < t.p.cut[b + 1] ==> UserKey(entries[j].key) != UserKey(k)
    ensures Delivered(entries, k, if skip then None else Shown(block, FirstOf(block, k)))
  {
    TableSeek(t.index, entries, t.p, k, block);
  }

  /** What the index says about block `b`: where it is, and its entries. */
  lemma IndexEntry(file: Bytes, entries: seq<Pair>, hash: Hash, t: Parts, b: nat) returns (block: seq<Pair>)
    requires IsTable(file, entries, hash, t) && Fits(t) && TableEntries(entries) && b < |t.index|
    ensures DecodeHandle(t.index[b].value, 0) == Some((t.p.handles[b], |t.index[b].value|)) && BlockFits(t.p.handles[b])
    ensures IsSlice(block, entries, t.p.cut[b], t.p.cut[b + 1]) && BlockIn(file, t.p.handles[b], block)
    ensures TableEntries(block)
  {
    assert IndexAt(t.index, entries, t.p, b) && DataBlockAt(file, entries, t.p, b);
    block :| IsSlice(block, entries, t.p.cut[b], t.p.cut[b + 1]) && BlockIn(file, t.p.handles[b], block);
    HandleBack(t.p.handles[b]);
    SliceEntries(block, entries, t.p.cut[b], t.p.cut[b + 1]);
  }

  /** The index entry a key's search ends at. */
  method SeekIndex(table: Table, hash: Hash, k: Bytes, ghost entries: seq<Pair>, ghost t: Parts)
        returns (r: Option<Pair>)
    requires IsTable(table.file, entries, hash, t) && Fits(t) && TableEntries(entries) && Opened(table, table.file, t)
    ensures r == Shown(t.index, FirstOf(t.index, k))
  {
    InternalIsStrict();
    IndexIncreasing(t.index, entries, t.p);
    IndexSmall(t.index, entries, t.p);
    r := SeekBlock(table.indexBlock, InternalLess, t.index, k);
  }

  /** Whether the filter lets the block be skipped. */
  method Skippable(table: Table, hash: Hash, k: Bytes, offset: nat, ghost entries: seq<Pair>, ghost t: Parts,
                   ghost b: nat)
      returns (skip: bool)
    requires IsTable(table.file, entries, hash, t) && Fits(t) && Opened(table, table.file, t) && b < |t.p.handles|
    requires offset == t.p.handles[b].offset
    ensures skip ==> forall j :: t.p.cut[b] <= j < t.p.cut[b + 1] <= |entries| ==> UserKey(entries[j].key) != UserKey(k)
  {
    if table.filter.None? {
      return false;
    }
    var may := FilterMayMatch(table.filter.value, hash, offset, k);
    skip := !may;
    FilterRead(t.filter.value, table.file, hash, entries, t.p);
    if skip {
      FilterSaysNo(t.filter.value, table.file, hash, entries, t.p, b, UserKey(k));
    }
  }

  /** The first entry at or above the key in the block a handle points to. */
  method SearchBlock(table: Table, h: Handle, k: Bytes, ghost block: seq<Pair>) returns (ok: bool, r: Option<Pair>)
    requires BlockIn(table.file, h, block) && BlockFits(h) && TableEntries(block)
    ensures ok && r == Shown(block, FirstOf(block, k))
  {
    var contents := Fetch(table.file, table.verify, h, block);
    if contents.None? {
      return false, None;
    }
    InternalIsStrict();
    r := SeekBlock(contents.value, InternalLess, block, k);
    ok := true;
  }

  method InternalGet(table: Table, hash: Hash, k: Bytes, ghost entries: seq<Pair>, ghost t: Parts)
      returns (ok: bool, r: Option<Pair>)
    requires IsTable(table.file, entries, hash, t) && Fits(t) && TableEntries(entries) && Opened(table, table.file, t)
    ensures ok && Delivered(entries, k, r)
  {
    var at := SeekIndex(table, hash, k, entries, t);
    ghost var b := FirstOf(t.index, k);
    if at.None? {
      NothingAbove(entries, t, k);
      return true, None;
    }
    ghost var block := IndexEntry(table.file, entries, hash, t, b);
    var handle := DecodeHandle(at.value.value, 0);
    if handle.None? {
      return false, None;
    }
    var skip := Skippable(table, hash, k, handle.value.0.offset, entries, t, b);
    NothingMissed(entries, t, k, b, block, skip);
    if skip {
      return true, None;
    }
    ok, r := SearchBlock(table, handle.value.0, k, block);
  }
}
