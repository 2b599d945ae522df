/** The checksum log records carry (db/log_writer.cc, db/log_reader.cc): a masked CRC-32C of the kind
    byte and the payload, stored little-endian. */
module LogChecksum {
  import opened Entries
  import opened Coding
  import Crc32c
  import LogFormat

  function ToBits(data: Bytes): (r: seq<bv8>)
    ensures |r| == |data|
  {
    if data == [] then [] else
      var b: int := data[0];
      [b as bv8] + ToBits(data[1..])
  }

  /** The number a CRC is, and back. */
  function NumberOf(v: bv32): (n: nat)
    ensures n <= 0xffff_ffff
  {
    v as int
  }

  function WordOf(n: nat): bv32
    requires n <= 0xffff_ffff
  {
    n as bv32
  }

  lemma NumberRoundTrip(v: bv32)
    ensures WordOf(NumberOf(v)) == v
  {
  }

  /** The CRC of some bytes, masked and stored. */
  function Store(data: Bytes): Bytes {
    Fixed32(NumberOf(Crc32c.Mask(Crc32c.Crc(0, ToBits(data)))))
  }

  /** The reader's test: the stored word, unmasked, is the CRC of what it has read. */
  predicate Matches(stored: Bytes, data: Bytes) {
    BoundFour();
    |stored| == 4 && Crc32c.Unmask(WordOf(DecodeFixed(stored, 0, 4))) == Crc32c.Crc(0, ToBits(data))
  }

  lemma StoreMatches(data: Bytes)
    ensures Matches(Store(data), data)
  {
    var masked := Crc32c.Mask(Crc32c.Crc(0, ToBits(data)));
    WordBack(Fixed32(NumberOf(masked)), 0, NumberOf(masked));
    NumberRoundTrip(masked);
    Crc32c.UnmaskMask(Crc32c.Crc(0, ToBits(data)));
  }

  const MASKED_CRC := LogFormat.Checksum(d => Store(d), (s, d) => Matches(s, d))

  /** What the writer stores, the reader accepts. */
  lemma MaskedCrcIsSound()
    ensures LogFormat.Sound(MASKED_CRC)
  {
    forall d: Bytes ensures |MASKED_CRC.store(d)| == 4 && MASKED_CRC.matches(MASKED_CRC.store(d), d) {
      StoreMatches(d);
    }
  }

  lemma {:induction false} ToBitsAppend(a: Bytes, b: Bytes)
    ensures ToBits(a + b) == ToBits(a) + ToBits(b)
  {
    if a == [] {
      assert a + b == b;
    } else {
      assert (a + b)[1..] == a[1..] + b;
      ToBitsAppend(a[1..], b);
    }
  }

  /** The writer extends the CRC of the kind byte, worked out in advance, over the payload. */
  lemma TypeCrcExtends(kind: Byte, payload: Bytes)
    ensures Store([kind] + payload) ==
            Fixed32(NumberOf(Crc32c.Mask(Crc32c.Crc(Crc32c.Crc(0, ToBits([kind])), ToBits(payload)))))
  {
    ToBitsAppend([kind], payload);
    Crc32c.CrcAppend(0, ToBits([kind]), ToBits(payload));
  }

  /** With this checksum, a log cut at any byte reads back exactly the records wholly before the cut. */
  lemma CutLog(records: seq<Bytes>, cut: nat) returns (k: nat)
    requires LogFormat.Sound(MASKED_CRC) ==> cut <= |LogFormat.Written(MASKED_CRC, records, |records|)|
    ensures LogFormat.Sound(MASKED_CRC) && k <= |records|
    ensures cut <= |LogFormat.Written(MASKED_CRC, records, |records|)|
    ensures LogFormat.ReadFrom(MASKED_CRC, LogFormat.Written(MASKED_CRC, records, |records|)[..cut], 0) ==
              (records[..k], [])
    ensures LogFormat.StartOf(MASKED_CRC, records, k) <= cut
            && (k < |records| ==> cut < LogFormat.StartOf(MASKED_CRC, records, k + 1))
  {
    MaskedCrcIsSound();
    k := LogFormat.CutLogReadsBack(MASKED_CRC, records, cut);
  }
}
