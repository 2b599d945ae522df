/** Filter blocks (table/filter_block.cc): one Bloom filter over user keys for every 2 KB of a table's data. */
module FilterBlocks {
  import opened Entries
  import opened Coding
  import opened Separators
  import opened Bloom

  const BASE_LG := 11
  const BASE := 2048

  function UserKeys(keys: seq<Bytes>): (r: seq<Bytes>)
    ensures |r| == |keys|
  {
    if keys == [] then [] else UserKeys(keys[..|keys| - 1]) + [UserKey(keys[|keys| - 1])]
  }

  lemma {:induction false} UserKeysAt(keys: seq<Bytes>, i: nat)
    requires i < |keys|
    ensures UserKeys(keys)[i] == UserKey(keys[i])
  {
    if i < |keys| - 1 {
      UserKeysAt(keys[..|keys| - 1], i);
    }
  }

  /** The stored filter for a range of the data: nothing when no block starts in it. */
  ghost predicate FilterFor(f: Bytes, hash: Hash, keys: seq<Bytes>, bitsPerKey: nat) {
    if keys == [] then f == [] else Filters(f, hash, UserKeys(keys), bitsPerKey)
  }

  /** The keys, one after the other, each from its start to the next one's. */
  ghost predicate Flattened(all: Bytes, start: seq<nat>, keys: seq<Bytes>) {
    && |start| == |keys|
    && forall i {:trigger KeyAt(all, start, keys, i)} :: 0 <= i < |keys| ==> KeyAt(all, start, keys, i)
  }

  function EndOf(start: seq<nat>, end: nat, i: nat): nat {
    if i + 1 < |start| then start[i + 1] else end
  }

  ghost predicate KeyAt(all: Bytes, start: seq<nat>, keys: seq<Bytes>, i: nat)
    requires i < |keys| == |start|
  {
    start[i] <= EndOf(start, |all|, i) <= |all| && all[start[i]..EndOf(start, |all|, i)] == keys[i]
  }

  lemma FlattenedPush(all: Bytes, start: seq<nat>, keys: seq<Bytes>, key: Bytes)
    requires Flattened(all, start, keys)
    ensures Flattened(all + key, start + [|all|], keys + [key])
  {
    var all2, start2, keys2 := all + key, start + [|all|], keys + [key];
    forall i | 0 <= i < |keys2| ensures KeyAt(all2, start2, keys2, i) {
      if i < |keys| {
        assert KeyAt(all, start, keys, i);
        assert EndOf(start2, |all2|, i) == EndOf(start, |all|, i);
      }
    }
  }

  /** The filters, one after the other, each from its offset to the next one's. */
  ghost predicate Stored(result: Bytes, offsets: seq<nat>, filters: seq<seq<Bytes>>, hash: Hash, bitsPerKey: nat) {
    && |offsets| == |filters|
    && forall i {:trigger FilterAt(result, offsets, filters, hash, bitsPerKey, i)} :: 0 <= i < |filters| ==>
         FilterAt(result, offsets, filters, hash, bitsPerKey, i)
  }

  ghost predicate FilterAt(result: Bytes, offsets: seq<nat>, filters: seq<seq<Bytes>>, hash: Hash, bitsPerKey: nat,
                           i: nat)
    requires i < |filters| == |offsets|
  {
    && offsets[i] <= EndOf(offsets, |result|, i) <= |result|
    && FilterFor(result[offsets[i]..EndOf(offsets, |result|, i)], hash, filters[i], bitsPerKey)
  }

  lemma StoredPush(result: Bytes, offsets: seq<nat>, filters: seq<seq<Bytes>>, hash: Hash, bitsPerKey: nat,
                   f: Bytes, keys: seq<Bytes>)
    requires Stored(result, offsets, filters, hash, bitsPerKey) && FilterFor(f, hash, keys, bitsPerKey)
    ensures Stored(result + f, offsets + [|result|], filters + [keys], hash, bitsPerKey)
  {
    var result2, offsets2, filters2 := result + f, offsets + [|result|], filters + [keys];
    forall i | 0 <= i < |filters2| ensures FilterAt(result2, offsets2, filters2, hash, bitsPerKey, i) {
      if i < |filters| {
        assert FilterAt(result, offsets, filters, hash, bitsPerKey, i);
        assert EndOf(offsets2, |result2|, i) == EndOf(offsets, |result|, i);
        assert result2[offsets[i]..EndOf(offsets, |result|, i)] == result[offsets[i]..EndOf(offsets, |result|, i)];
      } else {
        assert result2[|result|..|result2|] == f;
      }
    }
  }

  /** A finished filter block: the filters, their offsets, where the offsets start, and the base. */
  function FilterBlock(result: Bytes, offsets: seq<nat>): Bytes {
    result + EncodeAll(Fixed32, offsets, 0) + Fixed32(|result|) + [BASE_LG]
  }

  ghost predicate IsFilterBlock(contents: Bytes, filters: seq<seq<Bytes>>, hash: Hash, bitsPerKey: nat) {
    exists result, offsets :: Stored(result, offsets, filters, hash, bitsPerKey)
        && contents == FilterBlock(result, offsets)
  }

  /** The keys of a range of the data, from the filters generated and the one that is pending. */
  ghost function KeysOf(filters: seq<seq<Bytes>>, pending: seq<Bytes>, index: nat): seq<Bytes> {
    if index < |filters| then filters[index] else if index == |filters| then pending else []
  }

  /** Filters may have been generated, but every range still has the same keys. */
  ghost predicate SameRanges(f: seq<seq<Bytes>>, p: seq<Bytes>, g: seq<seq<Bytes>>, q: seq<Bytes>) {
    forall i: nat {:trigger KeysOf(f, p, i)} {:trigger KeysOf(g, q, i)} :: KeysOf(g, q, i) == KeysOf(f, p, i)
  }

  lemma Generated(f: seq<seq<Bytes>>, p: seq<Bytes>, g: seq<seq<Bytes>>, q: seq<Bytes>)
    requires SameRanges(f, p, g, q)
    ensures SameRanges(f, p, g + [q], [])
  {
    forall i: nat ensures KeysOf(g + [q], [], i) == KeysOf(f, p, i) {
      assert KeysOf(g, q, i) == KeysOf(f, p, i);
    }
  }

  /** The range of the data an offset is in: the offset, shifted right. */
  function Range(offset: nat, lg: nat): nat
    decreases offset + lg
  {
    if lg == 0 then offset else Range(offset / 2, lg - 1)
  }

  lemma RangeIs(offset: nat)
    ensures Range(offset, BASE_LG) == offset / BASE
  {
    ThreeBits(offset, 8);
    ThreeBits(offset / 8, 5);
    ThreeBits(offset / 64, 2);
    assert Range(offset / 512, 2) == Range(offset / 512 / 2, 1) == Range(offset / 512 / 2 / 2, 0);
  }

  lemma ThreeBits(offset: nat, lg: nat)
    ensures Range(offset, lg + 3) == Range(offset / 8, lg)
  {
    assert Range(offset, lg + 3) == Range(offset / 2, lg + 2) == Range(offset / 2 / 2, lg + 1) ==
        Range(offset / 2 / 2 / 2, lg);
  }

  class FilterBlockBuilder {
    const hash: Hash
    const bitsPerKey: nat
    var keys: Bytes
    var start: seq<nat>
    var result: Bytes
    var offsets: seq<nat>
    ghost var pending: seq<Bytes>         // the keys of the filter not generated yet
    ghost var filters: seq<seq<Bytes>>    // the keys of each filter generated

    ghost predicate Valid()
      reads this
    {
      Flattened(keys, start, pending) && Stored(result, offsets, filters, hash, bitsPerKey)
    }

    constructor (hash: Hash, bitsPerKey: nat)
      ensures Valid() && filters == [] && pending == [] && this.hash == hash && this.bitsPerKey == bitsPerKey
    {
      this.hash, this.bitsPerKey := hash, bitsPerKey;
      keys, start, result, offsets := [], [], [], [];
      pending, filters := [], [];
    }

    /** Data at this offset comes next; the filters of the ranges before it are complete. */
    method StartBlock(offset: nat)
      requires Valid() && Range(offset, BASE_LG) >= |filters|
      modifies this
      ensures Valid() && |filters| == Range(offset, BASE_LG)
      ensures SameRanges(old(filters), old(pending), filters, pending)
    {
      var index := offset / BASE;
      RangeIs(offset);
      while index > |offsets|
        invariant Valid() && |filters| <= index && SameRanges(old(filters), old(pending), filters, pending)
        decreases index - |offsets|
      {
        Generated(old(filters), old(pending), filters, pending);
        GenerateFilter();
      }
    }

    method AddKey(key: Bytes)
      requires Valid()
      modifies this`keys, this`start, this`pending
      ensures Valid() && pending == old(pending) + [key]
    {
      FlattenedPush(keys, start, pending, key);
      start := start + [|keys|];
      keys := keys + key;
      pending := pending + [key];
    }

    /** Ends the current filter. */
    method GenerateFilter()
      requires Valid()
      modifies this
      ensures Valid() && filters == old(filters) + [old(pending)] && pending == []
    {
      ghost var was := pending;
      if |start| == 0 {
        StoredPush(result, offsets, filters, hash, bitsPerKey, [], pending);
        Unit(result);
        offsets := offsets + [|result|];
        filters := filters + [pending];
        return;
      }
      var users: seq<Bytes> := [];
      for i := 0 to |start|
        invariant users == UserKeys(pending[..i])
      {
        assert KeyAt(keys, start, pending, i);
        users := users + [UserKey(keys[start[i]..EndOf(start, |keys|, i)])];
        assert pending[..i + 1][..i] == pending[..i];
      }
      assert pending[..|start|] == pending;
      var f := CreateFilter(hash, users, bitsPerKey);
      StoredPush(result, offsets, filters, hash, bitsPerKey, f, pending);
      offsets := offsets + [|result|];
      result := result + f;
      filters := filters + [pending];
      keys, start, pending := [], [], [];
    }

    /** The finished block. */
    method Finish() returns (contents: Bytes)
      requires Valid()
      modifies this
      ensures IsFilterBlock(contents, filters, hash, bitsPerKey)
      ensures SameRanges(old(filters), old(pending), filters, pending) && pending == []
    {
      Generated(filters, pending, filters, pending);
      if |start| > 0 {
        GenerateFilter();
      }
      contents := AppendOffsets();
    }

    method AppendOffsets() returns (contents: Bytes)
      modifies this`result
      ensures contents == result == FilterBlock(old(result), offsets)
    {
      var arrayOffset := |result|;
      for i := 0 to |offsets|
        invariant result + EncodeAll(Fixed32, offsets, i) == old(result) + EncodeAll(Fixed32, offsets, 0)
      {
        Associates(result, Fixed32(offsets[i]), EncodeAll(Fixed32, offsets, i + 1));
        result := result + Fixed32(offsets[i]);
      }
      Unit(result);
      result := result + Fixed32(arrayOffset);
      result := result + [BASE_LG];
      contents := result;
    }
  }

  /** What the reader makes of a filter block; one it cannot read has no filters. */
  datatype FilterReader = FilterReader(contents: Bytes, arrayOffset: nat, num: nat, baseLg: nat) {
    predicate Valid() {
      num > 0 ==> arrayOffset + 4 * num + 4 <= |contents|
    }
  }

  function OpenFilter(contents: Bytes): (r: FilterReader)
    ensures r.Valid()
  {
    var n := |contents|;
    if n < 5 then FilterReader([], 0, 0, 0)
    else
      var last := DecodeFixed(contents, n - 5, 4);
      if last > n - 5 then FilterReader([], 0, 0, contents[n - 1])
      else FilterReader(contents, last, (n - 5 - last) / 4, contents[n - 1])
  }

  /** Whether the data at this offset may have the key. */
  method FilterMayMatch(r: FilterReader, hash: Hash, offset: nat, key: Bytes) returns (may: bool)
    requires r.Valid()
    ensures may == FilterAnswer(r, hash, Range(offset, r.baseLg), UserKey(key))
  {
    var index := Range(offset, r.baseLg);
    if index < r.num {
      var start, limit := Word(r.contents, r.arrayOffset, index), Word(r.contents, r.arrayOffset, index + 1);
      if start <= limit && limit <= r.arrayOffset {
        may := KeyMayMatch(hash, UserKey(key), r.contents[start..limit]);
        return;
      } else if start == limit {
        return false;
      }
    }
    may := true;
  }

  function FilterAnswer(r: FilterReader, hash: Hash, index: nat, user: Bytes): bool
    requires r.Valid()
  {
    if index < r.num then
      var start, limit := Word(r.contents, r.arrayOffset, index), Word(r.contents, r.arrayOffset, index + 1);
      if start <= limit && limit <= r.arrayOffset then MayMatch(hash, user, r.contents[start..limit])
      else start != limit
    else true
  }

  // ----- A finished block, read back -----

  /** The parts of a finished block, found from its end. */
  lemma FilterParts(result: Bytes, offsets: seq<nat>)
    requires var contents := FilterBlock(result, offsets); |contents| < TWO_32
    requires forall i :: 0 <= i < |offsets| ==> offsets[i] <= |result|
    ensures var contents := FilterBlock(result, offsets);
            && OpenFilter(contents) == FilterReader(contents, |result|, |offsets|, BASE_LG)
            && Holds(contents, 0, result)
            && (forall i :: 0 <= i < |offsets| ==> Word(contents, |result|, i) == offsets[i])
            && Word(contents, |result|, |offsets|) == |result|
  {
    var contents, words := FilterBlock(result, offsets), EncodeAll(Fixed32, offsets, 0);
    WordsLength(offsets, 0);
    FourPieces(result, words, Fixed32(|result|), [BASE_LG]);
    OffsetsBack(contents, |result|, offsets, |result|);
    WordBack(contents, |contents| - 5, |result|);
    FooterRead(contents, |result|, |offsets|);
  }

  lemma {:induction false} OffsetsBack(contents: Bytes, start: nat, offsets: seq<nat>, end: nat)
    requires Holds(contents, start, EncodeAll(Fixed32, offsets, 0) + Fixed32(end)) && end < TWO_32
    requires forall i :: 0 <= i < |offsets| ==> offsets[i] <= end
    ensures start + 4 * |offsets| + 4 <= |contents| && Word(contents, start, |offsets|) == end
    ensures forall i :: 0 <= i < |offsets| ==> Word(contents, start, i) == offsets[i]
  {
    WordsLength(offsets, 0);
    HoldsParts(contents, start, EncodeAll(Fixed32, offsets, 0), Fixed32(end));
    WordsBack(contents, start, offsets);
    WordBack(contents, start + 4 * |offsets|, end);
  }

  lemma FooterRead(contents: Bytes, end: nat, num: nat)
    requires |contents| == end + 4 * num + 5 && DecodeFixed(contents, |contents| - 5, 4) == end
    requires contents[|contents| - 1] == BASE_LG
    ensures OpenFilter(contents) == FilterReader(contents, end, num, BASE_LG)
  {
  }

  lemma FourPieces(a: Bytes, b: Bytes, c: Bytes, d: Bytes)
    ensures var data := a + b + c + d;
            && Holds(data, 0, a) && Holds(data, |a|, b + c) && Holds(data, |a| + |b|, c)
                 && Holds(data, |a| + |b| + |c|, d)
            && |data| == |a| + |b| + |c| + |d|
  {
  }

  /** The reader answers from the filter of the range, and yes past the last range. */
  lemma AnswersFromRange(contents: Bytes, filters: seq<seq<Bytes>>, hash: Hash, bitsPerKey: nat, index: nat,
                         user: Bytes)
      returns (f: Bytes)
    requires IsFilterBlock(contents, filters, hash, bitsPerKey) && |contents| < TWO_32
    ensures index < |filters| ==>
              && FilterFor(f, hash, filters[index], bitsPerKey)
              && FilterAnswer(OpenFilter(contents), hash, index, user) == MayMatch(hash, user, f)
    ensures index >= |filters| ==> FilterAnswer(OpenFilter(contents), hash, index, user)
    ensures OpenFilter(contents).baseLg == BASE_LG
  {
    var result, offsets :| Stored(result, offsets, filters, hash, bitsPerKey)
        && contents == FilterBlock(result, offsets);
    forall i | 0 <= i < |offsets| ensures offsets[i] <= |result| {
      assert FilterAt(result, offsets, filters, hash, bitsPerKey, i);
    }
    FilterParts(result, offsets);
    f := [];
    if index < |filters| {
      assert FilterAt(result, offsets, filters, hash, bitsPerKey, index);
      f := result[offsets[index]..EndOf(offsets, |result|, index)];
      SliceOfPrefix(contents, result, offsets[index], EndOf(offsets, |result|, index));
    }
  }

  lemma SliceOfPrefix(all: Bytes, a: Bytes, i: nat, j: nat)
    requires Holds(all, 0, a) && i <= j <= |a|
    ensures all[i..j] == a[i..j]
  {
  }

  /** A block never rules out a key whose user key was added in the range of the offset, and rules out
      every key where none was added. */
  lemma FilterNeverMisses(contents: Bytes, filters: seq<seq<Bytes>>, hash: Hash, bitsPerKey: nat, index: nat,
                          user: Bytes)
    requires IsFilterBlock(contents, filters, hash, bitsPerKey) && |contents| < TWO_32 && index < |filters|
    ensures (exists k :: k in filters[index] && UserKey(k) == user) ==>
              FilterAnswer(OpenFilter(contents), hash, index, user)
    ensures filters[index] == [] ==> !FilterAnswer(OpenFilter(contents), hash, index, user)
  {
    var f := AnswersFromRange(contents, filters, hash, bitsPerKey, index, user);
    var keys := filters[index];
    if k :| k in keys && UserKey(k) == user {
      var i :| 0 <= i < |keys| && keys[i] == k;
      UserKeysAt(keys, i);
      NoFalseNegatives(hash, UserKeys(keys), bitsPerKey, f, user);
    }
  }
}
