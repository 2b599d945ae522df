/** The pieces of a table file around its blocks (table/format.cc): block handles, the trailer of a block,
    the footer. */
module TableFormat {
  import opened Entries
  import opened Coding
  import opened LogChecksum
  import Crc32c
  import LogFormat

  // ----- Handles -----

  /** Where a block is, without its trailer. */
  datatype Handle = Handle(offset: nat, size: nat)

  function EncodeHandle(h: Handle): Bytes {
    EncodeVarint(h.offset) + EncodeVarint(h.size)
  }

  function DecodeHandle(input: Bytes, p: nat): (r: Option<(Handle, nat)>)
    requires p <= |input|
    ensures r.Some? ==> r.value.1 <= |input|
  {
    var offset := GetVarint64(input, p);
    if offset.None? then None else
    var size := GetVarint64(input, offset.value.1);
    if size.None? then None else Some((Handle(offset.value.0, size.value.0), size.value.1))
  }

  ghost predicate HandleFits(h: Handle) {
    h.offset < TWO_64 && h.size < TWO_64
  }

  lemma HandleRoundTrip(input: Bytes, p: nat, h: Handle)
    requires HandleFits(h) && Holds(input, p, EncodeHandle(h))
    ensures DecodeHandle(input, p) == Some((h, p + |EncodeHandle(h)|))
  {
    HoldsParts(input, p, EncodeVarint(h.offset), EncodeVarint(h.size));
    Varint64RoundTrip(input, p, h.offset);
    Varint64RoundTrip(input, p + |EncodeVarint(h.offset)|, h.size);
  }

  lemma {:induction false} VarintLength(v: nat, k: nat)
    requires v < Groups(k)
    ensures |EncodeVarint(v)| <= if k == 0 then 1 else k
  {
    if v >= 128 {
      VarintLength(High(v), k - 1);
    }
  }

  lemma HandleLength(h: Handle)
    requires HandleFits(h)
    ensures |EncodeHandle(h)| <= 20
  {
    assert Groups(10) == 128 * (128 * (128 * (128 * (128 * (128 * (128 * (128 * (128 * 128))))))));
    VarintLength(h.offset, 10);
    VarintLength(h.size, 10);
  }

  // ----- Blocks in a file -----

  /** A block as stored, not compressed: the contents, the type byte and their masked checksum. */
  function RawBlock(contents: Bytes): (r: Bytes)
    ensures |r| == |contents| + 5
  {
    contents + ([0] + Store(contents + [0]))
  }

  /** The writer extends the checksum of the contents over the type byte. */
  lemma BlockCrcExtends(contents: Bytes)
    ensures Store(contents + [0]) ==
              Fixed32(NumberOf(Crc32c.Mask(Crc32c.Crc(Crc32c.Crc(0, ToBits(contents)), ToBits([0])))))
  {
    ToBitsAppend(contents, [0]);
    Crc32c.CrcAppend(0, ToBits(contents), ToBits([0]));
  }

  /** The contents of the block a handle points to; None when the file is too short, the checksum is wrong
      or the type is not the uncompressed one. */
  function ReadBlock(file: Bytes, verify: bool, h: Handle): Option<Bytes> {
    ReadChecked((s, d) => LogChecksum.Matches(s, d), file, verify, h)
  }

  function ReadChecked(matches: (Bytes, Bytes) -> bool, file: Bytes, verify: bool, h: Handle): Option<Bytes> {
    var end := h.offset + h.size;
    if end + 5 > |file| || (verify && !matches(file[end + 1..end + 5], file[h.offset..end + 1])) then None
    else if file[end] != 0 then None
    else Some(file[h.offset..end])
  }

  lemma ReadBlockBack(file: Bytes, verify: bool, h: Handle, contents: Bytes)
    requires Holds(file, h.offset, RawBlock(contents)) && |contents| == h.size
    ensures ReadBlock(file, verify, h) == Some(contents)
  {
    StoreMatches(contents + [0]);
    ReadStored((s, d) => LogChecksum.Matches(s, d), file, verify, h, contents, Store(contents + [0]), contents + [0]);
  }

  lemma ReadStored(matches: (Bytes, Bytes) -> bool, file: Bytes, verify: bool, h: Handle, contents: Bytes, sum: Bytes,
                   checked: Bytes)
    requires Holds(file, h.offset, contents + ([0] + sum)) && |sum| == 4 && |contents| == h.size
    requires checked == contents + [0] && matches(sum, checked)
    ensures ReadChecked(matches, file, verify, h) == Some(contents)
  {
    StoredPieces(file, h.offset, contents, sum);
  }

  lemma StoredPieces(file: Bytes, p: nat, contents: Bytes, stored: Bytes)
    requires Holds(file, p, contents + ([0] + stored)) && |stored| == 4
    ensures var end := p + |contents|;
            && end + 5 <= |file| && file[end] == 0 && file[p..end] == contents
            && file[p..end + 1] == contents + [0] && file[end + 1..end + 5] == stored
  {
    var end := p + |contents|;
    HoldsParts(file, p, contents, [0] + stored);
    HoldsParts(file, end, [0], stored);
    HoldsSlice(file, p, contents);
    HoldsSlice(file, end + 1, stored);
    assert file[end] == [0][0];
    assert file[p..end + 1] == file[p..end] + [0];
  }

  // ----- The footer -----

  const MAGIC_LO := 0x8b80_fb57
  const MAGIC_HI := 0xdb47_7524

  function EncodeFooter(meta: Handle, index: Handle): (r: Bytes)
    ensures |r| == 48
  {
    var handles := EncodeHandle(meta) + EncodeHandle(index);
    var padded := if |handles| <= 40 then handles + LogFormat.Zeros(40 - |handles|) else handles[..40];
    padded + (Fixed32(MAGIC_LO) + Fixed32(MAGIC_HI))
  }

  /** The two handles in a footer; None when it does not end in the magic number. */
  function DecodeFooter(footer: Bytes): Option<(Handle, Handle)>
    requires |footer| == 48
  {
    if DecodeFixed(footer, 40, 4) != MAGIC_LO || DecodeFixed(footer, 44, 4) != MAGIC_HI then None
    else
      var meta := DecodeHandle(footer, 0);
      if meta.None? then None else
      var index := DecodeHandle(footer, meta.value.1);
      if index.None? then None else Some((meta.value.0, index.value.0))
  }

  lemma FooterRoundTrip(meta: Handle, index: Handle)
    requires HandleFits(meta) && HandleFits(index)
    ensures |EncodeFooter(meta, index)| == 48
    ensures DecodeFooter(EncodeFooter(meta, index)) == Some((meta, index))
  {
    HandleLength(meta);
    HandleLength(index);
    var handles := EncodeHandle(meta) + EncodeHandle(index);
    FooterParts(EncodeHandle(meta), EncodeHandle(index), LogFormat.Zeros(40 - |handles|), Fixed32(MAGIC_LO),
        Fixed32(MAGIC_HI));
    var footer := EncodeFooter(meta, index);
    HandleRoundTrip(footer, 0, meta);
    HandleRoundTrip(footer, |EncodeHandle(meta)|, index);
    WordBack(footer, 40, MAGIC_LO);
    WordBack(footer, 44, MAGIC_HI);
  }

  lemma FooterParts(a: Bytes, b: Bytes, c: Bytes, d: Bytes, e: Bytes)
    ensures var all := a + b + c + (d + e);
            var n := |a| + |b| + |c|;
            && Holds(all, 0, a) && Holds(all, |a|, b) && Holds(all, n, d) && Holds(all, n + |d|, e)
            && |all| == n + |d| + |e|
  {
  }
}
