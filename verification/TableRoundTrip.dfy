/** Building a table, opening it and looking a key up (table/table_builder.cc, table/table.cc). */
module TableRoundTrip {
  import opened Entries
  import opened Coding
  import opened Blocks
  import opened BlockIterator
  import opened Separators
  import opened Bloom
  import opened Tables
  import opened TableBuilder
  import opened TableReader

  method AddAll(b: Builder, entries: seq<Pair>)
    requires b.Valid() && b.entries == [] && TableEntries(entries)
    modifies b, b.data, b.index, b.filter
    ensures b.Valid() && b.entries == entries && (entries != [] ==> 8 <= |b.lastKey|)
  {
    for i := 0 to |entries|
      invariant b.Valid() && b.entries == entries[..i] && (i > 0 ==> b.lastKey == entries[i - 1].key)
    {
      NextInOrder(entries, i);
      b.Add(entries[i].key, entries[i].value);
    }
    assert entries[..|entries|] == entries;
  }

  lemma NextInOrder(entries: seq<Pair>, i: nat)
    requires i < |entries| && TableEntries(entries)
    ensures 8 <= |entries[i].key| && entries[..i + 1] == entries[..i] + [Pair(entries[i].key, entries[i].value)]
    ensures i > 0 ==> 8 <= |entries[i - 1].key| && InternalLess(entries[i - 1].key, entries[i].key)
  {
  }

  method BuildTable(entries: seq<Pair>, blockSize: nat, interval: nat, hash: Hash, bitsPerKey: Option<nat>)
      returns (file: Bytes, ghost t: Parts)
    requires interval >= 1 && TableEntries(entries)
    ensures IsTable(file, entries, hash, t) && (t.filter.Some? <==> bitsPerKey.Some?)
  {
    var b := new Builder(blockSize, interval, hash, bitsPerKey);
    AddAll(b, entries);
    t := b.Finish();
    file := b.file;
  }

  /** For all increasing internal keys, block sizes, restart intervals and filters: a lookup in the table
      built from them delivers the first entry at or above the key if that has its user key, and never
      another entry, whether the filter is used or not, unless that table has 2^32 bytes or more. */
  method Lookup(entries: seq<Pair>, blockSize: nat, interval: nat, hash: Hash, bitsPerKey: Option<nat>,
                useFilter: bool, paranoid: bool, verify: bool, k: Bytes)
      returns (file: Bytes, ghost t: Parts, r: Option<Option<Pair>>)
    requires interval >= 1 && TableEntries(entries)
    ensures r.Some? ==> Delivered(entries, k, r.value)
    ensures IsTable(file, entries, hash, t) && (r.None? <==> |file| >= TWO_32)
  {
    file, t := BuildTable(entries, blockSize, interval, hash, bitsPerKey);
    if |file| >= TWO_32 {
      r := None;                   // offsets in blocks are 32-bit numbers
      return;
    }
    SmallFileFits(file, entries, hash, t);
    var table := Open(file, paranoid, useFilter, verify, entries, hash, t);
    var ok, found := InternalGet(table.value, hash, k, entries, t);
    r := Some(found);
  }
}
