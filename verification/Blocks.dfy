/** Prefix-compressed blocks (table/block_builder.cc, and DecodeEntry of table/block.cc): the layout of
    a block, and the builder that produces it. */
module Blocks {
  import opened Entries
  import opened Coding

  datatype Pair = Pair(key: Bytes, value: Bytes)

  // ----- One entry -----

  /** A key without the bytes it shares with the one before. */
  function Suffix(key: Bytes, shared: nat): Bytes
    requires shared <= |key|
  {
    if shared == 0 then key else key[shared..]
  }

  function EncodeLengths(shared: nat, unshared: nat, length: nat): Bytes {
    EncodeVarint(shared) + (EncodeVarint(unshared) + EncodeVarint(length))
  }

  function EncodeEntry(shared: nat, e: Pair): Bytes
    requires shared <= |e.key|
  {
    EncodeLengths(shared, |e.key| - shared, |e.value|) + (Suffix(e.key, shared) + e.value)
  }

  /** The three lengths at the front of an entry, and where they end. */
  datatype Header = Header(shared: nat, unshared: nat, length: nat, next: nat)

  /** Reading an entry's lengths from an area of entries; None when they are not there, or when the bytes
      they announce are not (their sum is a 32-bit one). */
  function DecodeEntry(area: Bytes, p: nat): (r: Option<Header>)
    requires p <= |area|
    ensures r.Some? ==> p < r.value.next <= |area|
  {
    if |area| - p < 3 then None else
    var shared := GetVarint32(area, p);
    if shared.None? then None else
    var unshared := GetVarint32(area, shared.value.1);
    if unshared.None? then None else
    var length := GetVarint32(area, unshared.value.1);
    if length.None? then None
    else if |area| - length.value.1 < (unshared.value.0 + length.value.0) % TWO_32 then None
    else Some(Header(shared.value.0, unshared.value.0, length.value.0, length.value.1))
  }

  lemma OneByte(area: Bytes, p: nat)
    requires p < |area| && area[p] < 128
    ensures GetVarint32(area, p) == Some((area[p] as int, p + 1))
  {
    var b: int := area[p];
    assert b * 1 == b && b % TWO_32 == b;
  }

  /** The decoder's fast path, for three lengths of one byte each, and its general one. */
  method ReadEntry(area: Bytes, p: nat) returns (r: Option<Header>)
    requires p <= |area|
    ensures r == DecodeEntry(area, p)
  {
    if |area| - p < 3 {
      return None;
    }
    if area[p] < 128 && area[p + 1] < 128 && area[p + 2] < 128 {
      OneByte(area, p);
      OneByte(area, p + 1);
      OneByte(area, p + 2);
      var shared: nat, unshared: nat, length: nat := area[p], area[p + 1], area[p + 2];
      if |area| - (p + 3) < (unshared + length) % TWO_32 {
        return None;
      }
      return Some(Header(shared, unshared, length, p + 3));
    }
    r := DecodeEntry(area, p);
  }

  /** Where the announced bytes of an entry are. */
  lemma EntryRoundTrip(area: Bytes, p: nat, shared: nat, e: Pair)
    requires shared <= |e.key| < TWO_32 && |e.value| < TWO_32 && |e.key| - shared + |e.value| < TWO_32
    requires Holds(area, p, EncodeEntry(shared, e))
    ensures p <= |area|
    ensures var h := DecodeEntry(area, p);
            && h.Some? && h.value.shared == shared && h.value.unshared == |e.key| - shared
                 && h.value.length == |e.value|
            && h.value.next + h.value.unshared + h.value.length == p + |EncodeEntry(shared, e)|
            && Holds(area, h.value.next, Suffix(e.key, shared)) && Holds(area, h.value.next + h.value.unshared, e.value)
  {
    var lengths := EncodeLengths(shared, |e.key| - shared, |e.value|);
    HoldsParts(area, p, lengths, Suffix(e.key, shared) + e.value);
    HoldsParts(area, p + |lengths|, Suffix(e.key, shared), e.value);
    LengthsRoundTrip(area, p, shared, |e.key| - shared, |e.value|);
  }

  lemma LengthsRoundTrip(area: Bytes, p: nat, shared: nat, unshared: nat, length: nat)
    requires Holds(area, p, EncodeLengths(shared, unshared, length))
    requires shared < TWO_32 && unshared + length < TWO_32
    requires p + |EncodeLengths(shared, unshared, length)| + unshared + length <= |area|
    ensures DecodeEntry(area, p) ==
              Some(Header(shared, unshared, length, p + |EncodeLengths(shared, unshared, length)|))
  {
    Varint32Reads(area, shared);
    Varint32Reads(area, unshared);
    Varint32Reads(area, length);
    LengthsFrom(area, p, EncodeVarint(shared), EncodeVarint(unshared), EncodeVarint(length), shared, unshared, length);
  }

  lemma LengthsFrom(area: Bytes, p: nat, a: Bytes, b: Bytes, c: Bytes, shared: nat, unshared: nat, length: nat)
    requires Holds(area, p, a + (b + c)) && unshared + length < TWO_32
               && p + |a + (b + c)| + unshared + length <= |area|
    requires Reads32(area, a, shared) && Reads32(area, b, unshared) && Reads32(area, c, length)
    ensures DecodeEntry(area, p) == Some(Header(shared, unshared, length, p + |a + (b + c)|))
  {
    HoldsParts(area, p, a, b + c);
    HoldsParts(area, p + |a|, b, c);
    HeaderFrom(area, p, p + |a|, p + |a| + |b|, p + |a| + |b| + |c|, shared, unshared, length);
  }

  lemma HeaderFrom(area: Bytes, p: nat, p1: nat, p2: nat, p3: nat, shared: nat, unshared: nat, length: nat)
    requires p < p1 < p2 < p3 <= |area| && unshared + length < TWO_32 && p3 + unshared + length <= |area|
    requires GetVarint32(area, p) == Some((shared, p1)) && GetVarint32(area, p1) == Some((unshared, p2))
    requires GetVarint32(area, p2) == Some((length, p3))
    ensures DecodeEntry(area, p) == Some(Header(shared, unshared, length, p3))
  {
    assert (unshared + length) % TWO_32 == unshared + length;
  }

  // ----- A run of entries -----

  /** Where each entry starts (and where the last one ends), how much of the key before it each key uses,
      and which entries are restart points. */
  datatype Layout = Layout(offset: seq<nat>, shared: seq<nat>, first: seq<nat>)

  /** Entry `i` is where the layout says, and what it leaves out is a prefix of the key before. */
  ghost predicate EntryAt(area: Bytes, entries: seq<Pair>, l: Layout, i: nat)
    requires i < |entries| && |l.offset| == |entries| + 1 && |l.shared| == |entries|
  {
    var e, shared := entries[i], l.shared[i];
    && shared <= |e.key|
    && Holds(area, l.offset[i], EncodeEntry(shared, e)) && l.offset[i + 1] == l.offset[i] + |EncodeEntry(shared, e)|
    && (if i == 0 then shared == 0
        else shared <= |entries[i - 1].key| && entries[i - 1].key[..shared] == e.key[..shared])
  }

  ghost predicate Laid(area: Bytes, entries: seq<Pair>, l: Layout) {
    && |l.offset| == |entries| + 1 && |l.shared| == |entries|
    && l.offset[0] == 0 && l.offset[|entries|] == |area|
    && forall i {:trigger EntryAt(area, entries, l, i)} :: 0 <= i < |entries| ==> EntryAt(area, entries, l, i)
  }

  /** Restart `j` is the offset of an entry that stands on its own. */
  ghost predicate RestartAt(entries: seq<Pair>, l: Layout, restarts: seq<nat>, j: nat)
    requires |l.offset| == |entries| + 1 && |l.shared| == |entries| && j < |restarts| == |l.first|
  {
    && l.first[j] <= |entries| && restarts[j] == l.offset[l.first[j]]
    && (l.first[j] < |entries| ==> l.shared[l.first[j]] == 0)
    && (entries != [] ==> l.first[j] < |entries|)
  }

  ghost predicate Restarts(entries: seq<Pair>, l: Layout, restarts: seq<nat>) {
    && |l.offset| == |entries| + 1 && |l.shared| == |entries| && |restarts| == |l.first| && |restarts| > 0
    && l.first[0] == 0
    && (forall j {:trigger RestartAt(entries, l, restarts, j)} :: 0 <= j < |restarts| ==>
         RestartAt(entries, l, restarts, j))
    && (forall j, k :: 0 <= j < k < |l.first| ==> l.first[j] < l.first[k])
  }

  // ----- Building a block -----

  /** A finished block: the entries, the offsets of the restart points, and their number. */
  function Block(area: Bytes, restarts: seq<nat>): Bytes {
    area + EncodeAll(Fixed32, restarts, 0) + Fixed32(|restarts|)
  }

  /** The bytes are a finished block of these entries. */
  ghost predicate IsBlock(data: Bytes, entries: seq<Pair>) {
    exists area, layout, points :: Laid(area, entries, layout) && Restarts(entries, layout, points)
        && data == Block(area, points)
  }

  /** How many leading bytes two strings share. */
  method SharedPrefix(a: Bytes, b: Bytes) returns (n: nat)
    ensures n <= |a| && n <= |b| && a[..n] == b[..n]
    ensures n < |a| && n < |b| ==> a[n] != b[n]
  {
    n := 0;
    while n < |a| && n < |b| && a[n] == b[n]
      invariant n <= |a| && n <= |b| && forall i :: 0 <= i < n ==> a[i] == b[i]
    {
      n := n + 1;
    }
  }

  class BlockBuilder {
    const interval: nat
    var buffer: Bytes
    var restarts: seq<nat>
    var counter: nat
    var lastKey: Bytes
    ghost var entries: seq<Pair>
    ghost var layout: Layout

    ghost predicate Valid()
      reads this
    {
      && interval >= 1 && Laid(buffer, entries, layout) && Restarts(entries, layout, restarts)
      && lastKey == (if entries == [] then [] else entries[|entries| - 1].key)
      && counter <= interval && (entries == [] ==> counter == 0 && |restarts| == 1)
      && Spaced(layout.first, interval, |entries|, counter) && Compressed(entries, layout)
    }

    constructor (interval: nat)
      requires interval >= 1
      ensures Valid() && entries == [] && this.interval == interval
    {
      this.interval := interval;
      buffer, restarts, counter, lastKey := [], [0], 0, [];
      entries, layout := [], Layout([0], [], [0]);
    }

    /** Back to a block without entries. */
    method Reset()
      requires interval >= 1
      modifies this
      ensures Valid() && entries == []
    {
      buffer, restarts, counter, lastKey := [], [0], 0, [];
      entries, layout := [], Layout([0], [], [0]);
    }

    function Empty(): (r: bool)
      requires Valid()
      reads this
      ensures r <==> entries == []
    {
      assert entries != [] ==> EntryAt(buffer, entries, layout, |entries| - 1);
      buffer == []
    }

    /** How large the block would be if it were finished now. */
    function CurrentSizeEstimate(): nat
      reads this
    {
      |buffer| + |restarts| * 4 + 4
    }

    /** Adds an entry, leaving out what its key shares with the last one unless a restart is due. */
    method Add(key: Bytes, value: Bytes)
      requires Valid()
      modifies this
      ensures Valid() && entries == old(entries) + [Pair(key, value)]
    {
      var shared := 0;
      ghost var first := layout.first;
      if counter < interval {
        shared := SharedPrefix(lastKey, key);
      } else {
        restarts := restarts + [|buffer|];
        first := first + [|entries|];
        counter := 0;
      }
      ghost var e := Pair(key, value);
      AddLaid(buffer, entries, layout, shared, e, first);
      AppendEntry(shared, key, value);
      AddRestarts(entries, layout, old(restarts), |old(buffer)|, shared, e, first, restarts, |buffer|);
      AddCompressed(entries, layout, |buffer|, shared, e, first);
      AddSpaced(layout.first, interval, |entries|, old(counter), first, counter + 1);
      layout := Extended(layout, |buffer|, shared, first);
      entries := entries + [e];
      lastKey := key;
      counter := counter + 1;
    }

    method AppendEntry(shared: nat, key: Bytes, value: Bytes)
      requires shared <= |key|
      modifies this`buffer
      ensures buffer == old(buffer) + EncodeEntry(shared, Pair(key, value))
    {
      buffer := buffer + EncodeLengths(shared, |key| - shared, |value|);
      buffer := buffer + Suffix(key, shared);
      buffer := buffer + value;
      FourParts(old(buffer), EncodeLengths(shared, |key| - shared, |value|), Suffix(key, shared), value);
    }

    /** The finished block. */
    method Finish() returns (block: Bytes)
      requires Valid()
      modifies this`buffer
      ensures block == Block(old(buffer), restarts) == buffer && IsBlock(block, entries)
      ensures |block| == old(CurrentSizeEstimate())
    {
      ghost var area := buffer;
      for i := 0 to |restarts|
        invariant buffer + EncodeAll(Fixed32, restarts, i) == area + EncodeAll(Fixed32, restarts, 0)
      {
        Associates(buffer, Fixed32(restarts[i]), EncodeAll(Fixed32, restarts, i + 1));
        buffer := buffer + Fixed32(restarts[i]);
      }
      Unit(buffer);
      buffer := buffer + Fixed32(|restarts|);
      block := buffer;
      WordsLength(restarts, 0);
    }
  }

  /** Between restart points a key leaves out all it shares with the one before. */
  ghost predicate Compressed(entries: seq<Pair>, l: Layout)
    requires |l.shared| == |entries|
  {
    forall i {:trigger CompressedAt(entries, l, i)} :: 0 < i < |entries| ==> CompressedAt(entries, l, i)
  }

  ghost predicate CompressedAt(entries: seq<Pair>, l: Layout, i: nat)
    requires 0 < i < |entries| == |l.shared|
  {
    i in l.first || NoneLeft(entries[i - 1].key, entries[i].key, l.shared[i])
  }

  /** The strings share no more than their first `n` bytes. */
  ghost predicate NoneLeft(a: Bytes, b: Bytes, n: nat) {
    n < |a| && n < |b| ==> a[n] != b[n]
  }

  lemma AddCompressed(entries: seq<Pair>, l: Layout, end: nat, shared: nat, e: Pair, first: seq<nat>)
    requires |l.shared| == |entries| && Compressed(entries, l)
    requires if first == l.first then entries == [] || NoneLeft(entries[|entries| - 1].key, e.key, shared)
             else first == l.first + [|entries|]
    ensures Compressed(entries + [e], Extended(l, end, shared, first))
  {
    var all, m := entries + [e], Extended(l, end, shared, first);
    forall i | 0 < i < |all| ensures CompressedAt(all, m, i) {
      if i < |entries| {
        assert CompressedAt(entries, l, i);
      } else if first != l.first {
        assert m.first[|l.first|] == i;
      }
    }
  }

  /** Restart points are `interval` entries apart, the last followed by `counter` entries. */
  ghost predicate Spaced(first: seq<nat>, interval: nat, n: nat, counter: nat) {
    && first != [] && n == first[|first| - 1] + counter
    && forall j {:trigger SpacedAt(first, interval, j)} :: 0 < j < |first| ==> SpacedAt(first, interval, j)
  }

  ghost predicate SpacedAt(first: seq<nat>, interval: nat, j: nat)
    requires 0 < j < |first|
  {
    first[j] == first[j - 1] + interval
  }

  lemma AddSpaced(first: seq<nat>, interval: nat, n: nat, counter: nat, first2: seq<nat>, counter2: nat)
    requires Spaced(first, interval, n, counter)
    requires || (first2 == first && counter2 == counter + 1)
             || (first2 == first + [n] && counter == interval && counter2 == 1)
    ensures Spaced(first2, interval, n + 1, counter2)
  {
    forall j | 0 < j < |first2| ensures SpacedAt(first2, interval, j) {
      assert j < |first| ==> SpacedAt(first, interval, j);
    }
  }

  function Extended(l: Layout, end: nat, shared: nat, first: seq<nat>): Layout {
    Layout(l.offset + [end], l.shared + [shared], first)
  }

  lemma HoldsMore(area: Bytes, p: nat, e: Bytes, more: Bytes)
    requires Holds(area, p, e)
    ensures Holds(area + more, p, e)
  {
  }

  lemma HoldsLast(area: Bytes, e: Bytes)
    ensures Holds(area + e, |area|, e)
  {
  }

  lemma AddLaid(area: Bytes, entries: seq<Pair>, l: Layout, shared: nat, e: Pair, first: seq<nat>)
    requires Laid(area, entries, l) && shared <= |e.key|
    requires if entries == [] then shared == 0
             else shared <= |entries[|entries| - 1].key| && entries[|entries| - 1].key[..shared] == e.key[..shared]
    ensures var area2 := area + EncodeEntry(shared, e); Laid(area2, entries + [e], Extended(l, |area2|, shared, first))
  {
    var area2, all := area + EncodeEntry(shared, e), entries + [e];
    var m := Extended(l, |area2|, shared, first);
    forall i | 0 <= i < |all| ensures EntryAt(area2, all, m, i) {
      if i < |entries| {
        assert EntryAt(area, entries, l, i);
        HoldsMore(area, l.offset[i], EncodeEntry(l.shared[i], entries[i]), EncodeEntry(shared, e));
      } else {
        HoldsLast(area, EncodeEntry(shared, e));
      }
    }
  }

  lemma AddRestarts(entries: seq<Pair>, l: Layout, restarts: seq<nat>, start: nat, shared: nat, e: Pair,
                    first: seq<nat>, restarts2: seq<nat>, end: nat)
    requires Restarts(entries, l, restarts) && l.offset[|entries|] == start
    requires entries == [] ==> |restarts| == 1 && shared == 0
    requires || (first == l.first && restarts2 == restarts)
             || (shared == 0 && entries != [] && first == l.first + [|entries|] && restarts2 == restarts + [start])
    ensures Restarts(entries + [e], Extended(l, end, shared, first), restarts2)
  {
    var all, m := entries + [e], Extended(l, end, shared, first);
    forall j | 0 <= j < |restarts2| ensures RestartAt(all, m, restarts2, j) {
      if j < |restarts| {
        assert RestartAt(entries, l, restarts, j);
      }
    }
    assert forall j :: 0 <= j < |restarts| ==> RestartAt(entries, l, restarts, j) && l.first[j] <= |entries|;
  }
}
