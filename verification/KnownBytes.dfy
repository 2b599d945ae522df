/** The bytes of each format, written out: round trips alone would hold of other bytes as well. */
module KnownBytes {
  import opened Entries
  import opened Coding
  import Separators
  import WriteBatches
  import VersionEdits
  import LogFormat
  import TableFormat
  import Blocks
  import FilterBlocks
  import Bloom
  import MemTable
  import Crc32c
  import CrcValues
  import LogChecksum

  // ----- Numbers -----

  /** Fixed-width numbers have the lowest byte first. */
  lemma FixedBytes(n: nat)
    ensures EncodeFixed(n, 4) == [n % 0x100, n / 0x100 % 0x100, n / 0x1_0000 % 0x100, n / 0x100_0000 % 0x100]
    ensures EncodeFixed(n, 8) == EncodeFixed(n, 4) + EncodeFixed(n / 0x1_0000_0000, 4)
  {
    var a, b, c, d := n / 0x100, n / 0x1_0000, n / 0x100_0000, n / 0x1_0000_0000;
    assert a / 0x100 == b && b / 0x100 == c && c / 0x100 == d;
    assert EncodeFixed(n, 8) == [n % 0x100] + EncodeFixed(a, 7);
    assert EncodeFixed(a, 7) == [a % 0x100] + EncodeFixed(b, 6);
    assert EncodeFixed(b, 6) == [b % 0x100] + EncodeFixed(c, 5);
    assert EncodeFixed(c, 5) == [c % 0x100] + EncodeFixed(d, 4);
    assert EncodeFixed(n, 4) == [n % 0x100] + EncodeFixed(a, 3);
    assert EncodeFixed(a, 3) == [a % 0x100] + EncodeFixed(b, 2);
    assert EncodeFixed(b, 2) == [b % 0x100] + EncodeFixed(c, 1);
    assert EncodeFixed(c, 1) == [c % 0x100] + EncodeFixed(d, 0);
  }

  lemma Digits(n: nat, a: Byte, b: Byte, c: Byte, d: Byte)
    requires n == a + 0x100 * b + 0x1_0000 * c + 0x100_0000 * d
    ensures n % 0x100 == a && n / 0x100 % 0x100 == b && n / 0x1_0000 % 0x100 == c && n / 0x100_0000 % 0x100 == d
    ensures n / 0x1_0000_0000 == 0
  {
    assert n / 0x100 == b + 0x100 * c + 0x1_0000 * d;
    assert n / 0x1_0000 == c + 0x100 * d;
    assert n / 0x100_0000 == d;
  }

  /** Four bytes in four, and in eight. */
  lemma FixedFrom(n: nat, k: nat, a: Byte, b: Byte, c: Byte, d: Byte)
    requires n == a + 0x100 * b + 0x1_0000 * c + 0x100_0000 * d && (k == 4 || k == 8)
    ensures EncodeFixed(n, k) == [a, b, c, d] + if k == 4 then [] else [0, 0, 0, 0]
  {
    Digits(n, a, b, c, d);
    FixedBytes(n);
    FixedBytes(0);
  }

  /** Varints have seven bits a byte, lowest first, and the high bit set in all but the last. */
  lemma VarintBytes(v: nat)
    ensures v < 0x80 ==> EncodeVarint(v) == [v]
    ensures v >= 0x80 ==> EncodeVarint(v) == [v % 0x80 + 0x80] + EncodeVarint(v / 0x80)
  {
    Shifted(v);
  }

  // ----- Batches, keys and memtable entries -----

  /** Number and count, then for each operation 1, key and value or 0 and key. */
  lemma BatchBytes()
    ensures WriteBatches.Encoded(5, [WriteBatches.PutOp([10], [11, 12]), WriteBatches.DeleteOp([13])]) ==
              [5, 0, 0, 0, 0, 0, 0, 0, 2, 0, 0, 0, 1, 1, 10, 2, 11, 12, 0, 1, 13]
  {
    var put, del := WriteBatches.PutOp([10], [11, 12]), WriteBatches.DeleteOp([13]);
    FixedFrom(5, 8, 5, 0, 0, 0);
    FixedFrom(2, 4, 2, 0, 0, 0);
    assert WriteBatches.EncodeOp(put) == [1, 1, 10, 2, 11, 12];
    assert WriteBatches.EncodeOp(del) == [0, 1, 13];
    TwoOf(WriteBatches.EncodeOp, put, del);
  }

  lemma TwoOf<T>(enc: T -> Bytes, a: T, b: T)
    ensures EncodeAll(enc, [a, b], 0) == enc(a) + enc(b)
  {
    assert EncodeAll(enc, [a, b], 2) == [];
    assert EncodeAll(enc, [a, b], 1) == enc(b) + [];
  }

  lemma OneOf<T>(enc: T -> Bytes, a: T)
    ensures EncodeAll(enc, [a], 0) == enc(a)
  {
    assert EncodeAll(enc, [a], 1) == [];
  }

  /** A user key and its tag: the kind in the lowest byte, 1 for a value, then the sequence number. */
  lemma KeyBytes()
    ensures MemTable.Added([10], 0x0302, Put, [11, 12]).Key() == [10, 1, 2, 3, 0, 0, 0, 0, 0]
    ensures MemTable.Added([10], 7, Deletion, []).Key() == [10, 0, 7, 0, 0, 0, 0, 0, 0]
  {
    FixedFrom(0x03_0201, 8, 1, 2, 3, 0);
    FixedFrom(0x0700, 8, 0, 7, 0, 0);
  }

  lemma StringBytes(s: Bytes)
    requires |s| < 0x80
    ensures EncodeString(s) == [|s|] + s
  {
  }

  lemma EntryBytes()
    ensures MemTable.Encode(MemTable.Added([10], 0x0302, Put, [11, 12])) ==
              [9, 10, 1, 2, 3, 0, 0, 0, 0, 0, 2, 11, 12]
  {
    KeyBytes();
    StringBytes([10, 1, 2, 3, 0, 0, 0, 0, 0]);
    StringBytes([11, 12]);
  }

  // ----- Version edits -----

  lemma EditBytes()
    ensures VersionEdits.EncodeItem(VersionEdits.Comparator([10])) == [1, 1, 10]
    ensures VersionEdits.EncodeItem(VersionEdits.LogNumber(20)) == [2, 20]
    ensures VersionEdits.EncodeItem(VersionEdits.NextFileNumber(21)) == [3, 21]
    ensures VersionEdits.EncodeItem(VersionEdits.LastSequence(22)) == [4, 22]
    ensures VersionEdits.EncodeItem(VersionEdits.PrevLogNumber(23)) == [9, 23]
  {
    OneField(VersionEdits.Str([10]));
    OneField(VersionEdits.Num(20));
    OneField(VersionEdits.Num(21));
    OneField(VersionEdits.Num(22));
    OneField(VersionEdits.Num(23));
  }

  lemma OneField(f: VersionEdits.Field)
    ensures EncodeAll(VersionEdits.EncodeField, [f], 0) == VersionEdits.EncodeField(f)
  {
    OneOf(VersionEdits.EncodeField, f);
  }

  lemma FileBytes()
    ensures VersionEdits.EncodeItem(VersionEdits.CompactPointer(1, [10])) == [5, 1, 1, 10]
    ensures VersionEdits.EncodeItem(VersionEdits.DeletedFile(2, 20)) == [6, 2, 20]
    ensures VersionEdits.EncodeItem(VersionEdits.AddedFile(3, VersionEdits.NewFile(21, 22, [11], [12]))) ==
              [7, 3, 21, 22, 1, 11, 1, 12]
  {
    TwoOf(VersionEdits.EncodeField, VersionEdits.Num(1), VersionEdits.Str([10]));
    TwoOf(VersionEdits.EncodeField, VersionEdits.Num(2), VersionEdits.Num(20));
    var added := VersionEdits.FieldsOf(VersionEdits.AddedFile(3, VersionEdits.NewFile(21, 22, [11], [12])));
    assert EncodeAll(VersionEdits.EncodeField, added, 5) == [];
    assert EncodeAll(VersionEdits.EncodeField, added, 4) == [1, 12];
    assert EncodeAll(VersionEdits.EncodeField, added, 3) == [1, 11, 1, 12];
    assert EncodeAll(VersionEdits.EncodeField, added, 2) == [22, 1, 11, 1, 12];
    assert EncodeAll(VersionEdits.EncodeField, added, 1) == [21, 22, 1, 11, 1, 12];
  }

  // ----- Logs -----

  /** A fragment has its checksum, its length and its kind in front, and is written into blocks of 32 KB. */
  lemma LogBytes(c: LogFormat.Checksum, payload: Bytes, offset: nat)
    requires LogFormat.Sound(c) && |payload| <= 0xffff && offset < 0x8000
    ensures var kind := LogFormat.KindOf(true, true);
            LogFormat.PhysicalRecord(c, kind, payload) ==
              c.store([1] + payload) + [|payload| % 0x100, |payload| / 0x100, 1] + payload
    ensures LogFormat.KindOf(true, false) == 2 && LogFormat.KindOf(false, false) == 3
            && LogFormat.KindOf(false, true) == 4
    ensures LogFormat.Trailer(offset) == if offset > 0x8000 - 7 then 0x8000 - offset else 0
    ensures LogFormat.FragmentLength(0, |payload|) == if |payload| < 0x8000 - 7 then |payload| else 0x8000 - 7
  {
    LogFormat.LengthBytes(|payload|);
  }

  /** The checksum of "TestCRCBuffer" as a log or a table stores it. */
  lemma ChecksumBytes()
    ensures LogChecksum.Store([0x54, 0x65, 0x73, 0x74, 0x43, 0x52, 0x43, 0x42, 0x75, 0x66, 0x66, 0x65, 0x72]) ==
              [0x50, 0xa4, 0x78, 0x56]
  {
    var text: Bytes := [0x54, 0x65, 0x73, 0x74, 0x43, 0x52, 0x43, 0x42, 0x75, 0x66, 0x66, 0x65, 0x72];
    var bits: seq<bv8> := [0x54, 0x65, 0x73, 0x74, 0x43, 0x52, 0x43, 0x42, 0x75, 0x66, 0x66, 0x65, 0x72];
    BitsAre(text, bits);
    CrcValues.TestBuffer();
    CrcValues.Masked();
    FixedFrom(0x5678_a450, 4, 0x50, 0xa4, 0x78, 0x56);
  }

  lemma {:induction false} BitsAre(data: Bytes, bits: seq<bv8>)
    requires |bits| == |data| && forall i :: 0 <= i < |data| ==> bits[i] as int == data[i]
    ensures LogChecksum.ToBits(data) == bits
  {
    if data != [] {
      BitsAre(data[1..], bits[1..]);
    }
  }

  // ----- Tables -----

  /** The footer: two handles, filled up to 40 bytes, and the magic number. */
  lemma FooterBytes()
    ensures TableFormat.EncodeFooter(TableFormat.Handle(1, 2), TableFormat.Handle(3, 4)) ==
              [1, 2, 3, 4] + seq(36, _ => 0) + [0x57, 0xfb, 0x80, 0x8b, 0x24, 0x75, 0x47, 0xdb]
  {
    FixedFrom(0x8b80_fb57, 4, 0x57, 0xfb, 0x80, 0x8b);
    FixedFrom(0xdb47_7524, 4, 0x24, 0x75, 0x47, 0xdb);
    assert TableFormat.EncodeHandle(TableFormat.Handle(1, 2)) == [1, 2];
    assert TableFormat.EncodeHandle(TableFormat.Handle(3, 4)) == [3, 4];
  }

  /** An entry of a block: what it shares with the key before, what it does not, the length of the value. */
  lemma BlockBytes()
    ensures Blocks.EncodeEntry(1, Blocks.Pair([10, 11, 12], [13])) == [1, 2, 1, 11, 12, 13]
    ensures Blocks.Block([1, 2, 3], [0]) == [1, 2, 3, 0, 0, 0, 0, 1, 0, 0, 0]
  {
    FixedFrom(0, 4, 0, 0, 0, 0);
    FixedFrom(1, 4, 1, 0, 0, 0);
    OneOf(Fixed32, 0);
  }

  /** A filter block ends with the offsets, where they start, and the base. */
  lemma FilterBlockBytes()
    ensures FilterBlocks.FilterBlock([1, 2, 3], [0]) == [1, 2, 3, 0, 0, 0, 0, 3, 0, 0, 0, 11]
  {
    FixedFrom(0, 4, 0, 0, 0, 0);
    FixedFrom(3, 4, 3, 0, 0, 0);
    OneOf(Fixed32, 0);
  }

  /** The probes of a hash: it, and steps of it rotated right by 17 bits. */
  lemma ProbeNumbers()
    ensures Bloom.Probe(0x8002_0001, 0) == 0x8002_0001 && Bloom.Delta(0x8002_0001) == 0x0000_c001
    ensures Bloom.Probe(0x8002_0001, 1) == 0x8002_c002 && Bloom.Probe(0x8002_0001, 2) == 0x8003_8003
    ensures Bloom.Probes(10) == 6 && Bloom.Probes(1) == 1 && Bloom.Probes(43) == 29 && Bloom.Probes(100) == 30
    ensures Bloom.FilterBytes(1, 10) == 8 && Bloom.FilterBytes(10, 10) == 13
  {
  }
}
