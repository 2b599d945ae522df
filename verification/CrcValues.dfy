/** The numbers CRC-32C comes to: the tables of util/crc32c.cc at the bytes with one bit, which fix the rest, and the
    checksum it tries the processor with. */
module CrcValues {
  import opened Crc32c

  // ----- The byte extension table -----

  lemma TwoSteps(l: bv32)
    ensures Iter(Bit, l, 2) == Bit(Bit(l))
  {
    assert Iter(Bit, l, 0) == l;
    assert Iter(Bit, l, 1) == Bit(l);
  }

  function Eight(l: bv32): bv32 {
    Bit(Bit(Bit(Bit(Bit(Bit(Bit(Bit(l))))))))
  }

  lemma EightIs(l: bv32)
    ensures Iter(Bit, l, 8) == Eight(l) == ByteTable(l)
  {
    TwoSteps(l);
    IterAdd(Bit, l, 2, 2);
    TwoSteps(Bit(Bit(l)));
    IterAdd(Bit, l, 4, 2);
    TwoSteps(Bit(Bit(Bit(Bit(l)))));
    IterAdd(Bit, l, 6, 2);
    TwoSteps(Bit(Bit(Bit(Bit(Bit(Bit(l)))))));
  }

  /** The table at the bytes with one bit. */
  lemma ByteTableBits()
    ensures ByteTable(0x01) == 0xf26b_8303 && ByteTable(0x02) == 0xe13b_70f7
    ensures ByteTable(0x04) == 0xc79a_971f && ByteTable(0x08) == 0x8ad9_58cf
    ensures ByteTable(0x10) == 0x105e_c76f && ByteTable(0x20) == 0x20bd_8ede
    ensures ByteTable(0x40) == 0x417b_1dbc && ByteTable(0x80) == 0x82f6_3b78
  {
    forall c: bv32 ensures ByteTable(c) == Eight(c) {
      EightIs(c);
    }
  }

  /** Two tables that are additive and agree at the bytes with one bit. */
  ghost predicate AgreeAtBits(t: Table, u: Table) {
    && Additive(Xor, t) && Additive(Xor, u)
    && t(0x01) == u(0x01) && t(0x02) == u(0x02) && t(0x04) == u(0x04) && t(0x08) == u(0x08)
    && t(0x10) == u(0x10) && t(0x20) == u(0x20) && t(0x40) == u(0x40) && t(0x80) == u(0x80)
  }

  lemma AtZero(t: Table)
    requires Additive(Xor, t)
    ensures t(0) == 0
  {
    assert AdditiveAt(Xor, t, 0, 0);
    XorSelf(t(0));
  }

  lemma AgreeWithBit(t: Table, u: Table, c: bv32, bit: bv32)
    requires AgreeAtBits(t, u) && t(c) == u(c) && t(bit) == u(bit)
    ensures t(Xor(c, bit)) == u(Xor(c, bit))
  {
    assert AdditiveAt(Xor, t, c, bit) && AdditiveAt(Xor, u, c, bit);
  }

  lemma OneBit(t: Table, u: Table, c: bv32, bit: bv32)
    requires t(0) == u(0) && t(bit) == u(bit) && (c & bit == 0 || c & bit == bit)
    ensures t(c & bit) == u(c & bit)
  {
  }

  lemma BitsOf(c: bv32)
    requires c <= 0xff
    ensures c == Xor(Xor(Xor(c & 0x01, c & 0x02), Xor(c & 0x04, c & 0x08)),
              Xor(Xor(c & 0x10, c & 0x20), Xor(c & 0x40, c & 0x80)))
    ensures (c & 0x01 == 0 || c & 0x01 == 0x01) && (c & 0x02 == 0 || c & 0x02 == 0x02)
    ensures (c & 0x04 == 0 || c & 0x04 == 0x04) && (c & 0x08 == 0 || c & 0x08 == 0x08)
    ensures (c & 0x10 == 0 || c & 0x10 == 0x10) && (c & 0x20 == 0 || c & 0x20 == 0x20)
    ensures (c & 0x40 == 0 || c & 0x40 == 0x40) && (c & 0x80 == 0 || c & 0x80 == 0x80)
  {
  }

  /** They agree at every byte. */
  lemma BitsFixTable(t: Table, u: Table, c: bv32)
    requires AgreeAtBits(t, u) && c <= 0xff
    ensures t(c) == u(c)
  {
    AtZero(t);
    AtZero(u);
    BitsOf(c);
    OneBit(t, u, c, 0x01);
    OneBit(t, u, c, 0x02);
    OneBit(t, u, c, 0x04);
    OneBit(t, u, c, 0x08);
    OneBit(t, u, c, 0x10);
    OneBit(t, u, c, 0x20);
    OneBit(t, u, c, 0x40);
    OneBit(t, u, c, 0x80);
    EightAgree(t, u, c & 0x01, c & 0x02, c & 0x04, c & 0x08, c & 0x10, c & 0x20, c & 0x40, c & 0x80);
  }

  lemma EightAgree(t: Table, u: Table, a: bv32, b: bv32, c: bv32, d: bv32, e: bv32, f: bv32, g: bv32, h: bv32)
    requires AgreeAtBits(t, u) && t(a) == u(a) && t(b) == u(b) && t(c) == u(c) && t(d) == u(d)
    requires t(e) == u(e) && t(f) == u(f) && t(g) == u(g) && t(h) == u(h)
    ensures var all := Xor(Xor(Xor(a, b), Xor(c, d)), Xor(Xor(e, f), Xor(g, h)));
            t(all) == u(all)
  {
    AgreeWithBit(t, u, a, b);
    AgreeWithBit(t, u, c, d);
    AgreeWithBit(t, u, Xor(a, b), Xor(c, d));
    AgreeWithBit(t, u, e, f);
    AgreeWithBit(t, u, g, h);
    AgreeWithBit(t, u, Xor(e, f), Xor(g, h));
    AgreeWithBit(t, u, Xor(Xor(a, b), Xor(c, d)), Xor(Xor(e, f), Xor(g, h)));
  }

  /** The byte extension table of the source: additive, and with these entries, it is this one. */
  lemma TableIsByteTable(t: Table, c: bv32)
    requires Additive(Xor, t) && c <= 0xff
    requires t(0x01) == 0xf26b_8303 && t(0x02) == 0xe13b_70f7
    requires t(0x04) == 0xc79a_971f && t(0x08) == 0x8ad9_58cf
    requires t(0x10) == 0x105e_c76f && t(0x20) == 0x20bd_8ede
    requires t(0x40) == 0x417b_1dbc && t(0x80) == 0x82f6_3b78
    ensures t(c) == ByteTable(c)
  {
    ByteTableBits();
    ByteTableAdditive();
    BitsFixTable(t, ByteTable, c);
  }

  // ----- The stride extension tables -----

  /** Steps in groups. */
  lemma {:induction false} Grouped<W(!new)>(f: W -> W, g: W -> W, l: W, size: nat, n: nat)
    requires forall x :: g(x) == Iter(f, x, size)
    ensures Iter(g, l, n) == Iter(f, l, size * n)
  {
    if n > 0 {
      Grouped(f, g, l, size, n - 1);
      IterAdd(f, l, size * (n - 1), size);
      assert size * (n - 1) + size == size * n;
    }
  }

  lemma ZeroIsEight(l: bv32)
    ensures Zero(ByteTable)(l) == Iter(Bit, l, 8)
  {
    TableIsRegister(l, 0);
    Step1IsZero(ByteTable, l, 0);
    assert Xor(l, 0) == l;
  }

  /** Zero bytes are eight steps of the register each. */
  lemma ZerosAreSteps(l: bv32, n: nat)
    ensures Iter(Zero(ByteTable), l, n) == Iter(Bit, l, 8 * n)
  {
    forall x: bv32 ensures Zero(ByteTable)(x) == Iter(Bit, x, 8) {
      ZeroIsEight(x);
    }
    Grouped(Bit, Zero(ByteTable), l, 8, n);
  }

  /** More bytes, one after another. */
  lemma TwoEights(l: bv32, n: nat, r: bv32)
    requires Iter(Bit, l, n) == r
    ensures Iter(Bit, l, n + 8) == Eight(r) && Iter(Bit, l, n + 16) == Eight(Eight(r))
  {
    EightIs(r);
    IterAdd(Bit, l, n, 8);
    EightIs(Eight(r));
    IterAdd(Bit, l, n + 8, 8);
  }

  lemma TopBit(n: nat)
    requires n == 8 * 16
    ensures Iter(Bit, 0x8000_0000, n) == 0x18b8_ea18
  {
    TwoEights(0x8000_0000, n - 128, 0x8000_0000);
    TwoEights(0x8000_0000, n - 112, 0x0000_8000);
    TwoEights(0x8000_0000, n - 96, 0x82f6_3b78);
    TwoEights(0x8000_0000, n - 80, 0x8b27_7743);
    TwoEights(0x8000_0000, n - 64, 0x6ea2_d55c);
    TwoEights(0x8000_0000, n - 48, 0xf56e_0ef4);
    TwoEights(0x8000_0000, n - 32, 0xa668_05eb);
    TwoEights(0x8000_0000, n - 16, 0xe75d_06aa);
  }

  /** The bit below needs one step more. */
  lemma BitBelow(v: bv32, w: bv32, n: nat, r: bv32)
    requires v <= 0x7fff_ffff && w == v << 1 && Iter(Bit, w, n) == r
    ensures Iter(Bit, v, n) == Bit(r)
  {
    BitShifts(v, w);
    IterAdd(Bit, w, 1, n);
    IterAdd(Bit, w, n, 1);
  }

  /** Stride extension table 0: sixteen zero bytes after each bit of byte 3 of a word. */
  lemma StrideBits0(n: nat)
    requires n == 8 * 16
    ensures Iter(Bit, 0x0100_0000, n) == 0x30d2_3865 && Iter(Bit, 0x0200_0000, n) == 0x61a4_70ca
    ensures Iter(Bit, 0x0400_0000, n) == 0xc348_e194 && Iter(Bit, 0x0800_0000, n) == 0x837d_b5d9
    ensures Iter(Bit, 0x1000_0000, n) == 0x0317_1d43 && Iter(Bit, 0x2000_0000, n) == 0x062e_3a86
    ensures Iter(Bit, 0x4000_0000, n) == 0x0c5c_750c && Iter(Bit, 0x8000_0000, n) == 0x18b8_ea18
  {
    TopBit(n);
    BitBelow(0x4000_0000, 0x8000_0000, n, 0x18b8_ea18);
    BitBelow(0x2000_0000, 0x4000_0000, n, 0x0c5c_750c);
    BitBelow(0x1000_0000, 0x2000_0000, n, 0x062e_3a86);
    BitBelow(0x0800_0000, 0x1000_0000, n, 0x0317_1d43);
    BitBelow(0x0400_0000, 0x0800_0000, n, 0x837d_b5d9);
    BitBelow(0x0200_0000, 0x0400_0000, n, 0xc348_e194);
    BitBelow(0x0100_0000, 0x0200_0000, n, 0x61a4_70ca);
  }

  /** Stride extension table 1: sixteen zero bytes after each bit of byte 2 of a word. */
  lemma StrideBits1(n: nat)
    requires n == 8 * 16
    ensures Iter(Bit, 0x0001_0000, n) == 0x5407_5546 && Iter(Bit, 0x0002_0000, n) == 0xa80e_aa8c
    ensures Iter(Bit, 0x0004_0000, n) == 0x55f1_23e9 && Iter(Bit, 0x0008_0000, n) == 0xabe2_47d2
    ensures Iter(Bit, 0x0010_0000, n) == 0x5228_f955 && Iter(Bit, 0x0020_0000, n) == 0xa451_f2aa
    ensures Iter(Bit, 0x0040_0000, n) == 0x4d4f_93a5 && Iter(Bit, 0x0080_0000, n) == 0x9a9f_274a
  {
    StrideBits0(n);
    BitBelow(0x0080_0000, 0x0100_0000, n, 0x30d2_3865);
    BitBelow(0x0040_0000, 0x0080_0000, n, 0x9a9f_274a);
    BitBelow(0x0020_0000, 0x0040_0000, n, 0x4d4f_93a5);
    BitBelow(0x0010_0000, 0x0020_0000, n, 0xa451_f2aa);
    BitBelow(0x0008_0000, 0x0010_0000, n, 0x5228_f955);
    BitBelow(0x0004_0000, 0x0008_0000, n, 0xabe2_47d2);
    BitBelow(0x0002_0000, 0x0004_0000, n, 0x55f1_23e9);
    BitBelow(0x0001_0000, 0x0002_0000, n, 0xa80e_aa8c);
  }

  /** Stride extension table 2: sixteen zero bytes after each bit of byte 1 of a word. */
  lemma StrideBits2(n: nat)
    requires n == 8 * 16
    ensures Iter(Bit, 0x0000_0100, n) == 0x678e_fd01 && Iter(Bit, 0x0000_0200, n) == 0xcf1d_fa02
    ensures Iter(Bit, 0x0000_0400, n) == 0x9bd7_82f5 && Iter(Bit, 0x0000_0800, n) == 0x3243_731b
    ensures Iter(Bit, 0x0000_1000, n) == 0x6486_e636 && Iter(Bit, 0x0000_2000, n) == 0xc90d_cc6c
    ensures Iter(Bit, 0x0000_4000, n) == 0x97f7_ee29 && Iter(Bit, 0x0000_8000, n) == 0x2a03_aaa3
  {
    StrideBits1(n);
    BitBelow(0x0000_8000, 0x0001_0000, n, 0x5407_5546);
    BitBelow(0x0000_4000, 0x0000_8000, n, 0x2a03_aaa3);
    BitBelow(0x0000_2000, 0x0000_4000, n, 0x97f7_ee29);
    BitBelow(0x0000_1000, 0x0000_2000, n, 0xc90d_cc6c);
    BitBelow(0x0000_0800, 0x0000_1000, n, 0x6486_e636);
    BitBelow(0x0000_0400, 0x0000_0800, n, 0x3243_731b);
    BitBelow(0x0000_0200, 0x0000_0400, n, 0x9bd7_82f5);
    BitBelow(0x0000_0100, 0x0000_0200, n, 0xcf1d_fa02);
  }

  /** Stride extension table 3: sixteen zero bytes after each bit of byte 0 of a word. */
  lemma StrideBits3(n: nat)
    requires n == 8 * 16
    ensures Iter(Bit, 0x0000_0001, n) == 0xf20c_0dfe && Iter(Bit, 0x0000_0002, n) == 0xe1f4_6d0d
    ensures Iter(Bit, 0x0000_0004, n) == 0xc604_aceb && Iter(Bit, 0x0000_0008, n) == 0x89e5_2f27
    ensures Iter(Bit, 0x0000_0010, n) == 0x1626_28bf && Iter(Bit, 0x0000_0020, n) == 0x2c4c_517e
    ensures Iter(Bit, 0x0000_0040, n) == 0x5898_a2fc && Iter(Bit, 0x0000_0080, n) == 0xb131_45f8
  {
    StrideBits2(n);
    BitBelow(0x0000_0080, 0x0000_0100, n, 0x678e_fd01);
    BitBelow(0x0000_0040, 0x0000_0080, n, 0xb131_45f8);
    BitBelow(0x0000_0020, 0x0000_0040, n, 0x5898_a2fc);
    BitBelow(0x0000_0010, 0x0000_0020, n, 0x2c4c_517e);
    BitBelow(0x0000_0008, 0x0000_0010, n, 0x1626_28bf);
    BitBelow(0x0000_0004, 0x0000_0008, n, 0x89e5_2f27);
    BitBelow(0x0000_0002, 0x0000_0004, n, 0xc604_aceb);
    BitBelow(0x0000_0001, 0x0000_0002, n, 0xe1f4_6d0d);
  }

  // ----- A checksum -----

  /** One byte of a buffer. */
  lemma OneByte(l: bv32, data: seq<bv8>, b: bv8, r: bv32)
    requires Bytewise(ByteTable, l, data) == r
    ensures Bytewise(ByteTable, l, data + [b]) == Eight(Xor(r, b as bv32))
  {
    assert (data + [b])[..|data|] == data;
    TableIsRegister(r, b);
    EightIs(Xor(r, b as bv32));
  }

  /** The checksum of "TestCRCBuffer". */
  lemma TestBuffer()
    ensures Crc(0, [0x54, 0x65, 0x73, 0x74, 0x43, 0x52, 0x43,
                    0x42, 0x75, 0x66, 0x66, 0x65, 0x72]) == 0xdcbc_59fa
  {
    var d: seq<bv8> := [];
    OneByte(0xffff_ffff, d, 0x54, 0xffff_ffff);
    d := d + [0x54];
    OneByte(0xffff_ffff, d, 0x65, 0x3b3d_e162);
    d := d + [0x65];
    OneByte(0xffff_ffff, d, 0x73, 0xd4f1_590a);
    d := d + [0x73];
    OneByte(0xffff_ffff, d, 0x74, 0x09fe_7e98);
    d := d + [0x74];
    OneByte(0xffff_ffff, d, 0x43, 0xae7a_99b4);
    d := d + [0x43];
    OneByte(0xffff_ffff, d, 0x52, 0x270a_7107);
    d := d + [0x52];
    OneByte(0xffff_ffff, d, 0x43, 0x64f3_c4be);
    d := d + [0x43];
    OneByte(0xffff_ffff, d, 0x42, 0x4c22_d062);
    d := d + [0x42];
    OneByte(0xffff_ffff, d, 0x75, 0x20f1_ac0e);
    d := d + [0x75];
    OneByte(0xffff_ffff, d, 0x66, 0xe831_0e9a);
    d := d + [0x66];
    OneByte(0xffff_ffff, d, 0x66, 0xbec5_91ab);
    d := d + [0x66];
    OneByte(0xffff_ffff, d, 0x65, 0x7c1b_af86);
    d := d + [0x65];
    OneByte(0xffff_ffff, d, 0x72, 0xf01c_4041);
    d := d + [0x72];
    assert d == [0x54, 0x65, 0x73, 0x74, 0x43, 0x52, 0x43,
                 0x42, 0x75, 0x66, 0x66, 0x65, 0x72];
  }

  // ----- The stored form -----

  /** Rotated right by 15 bits, and a constant added. */
  lemma Masked()
    ensures Mask(0) == 0xa282_ead8 && Mask(1) == 0xa284_ead8 && Mask(0x8000) == 0xa282_ead9
              && Mask(0xffff_ffff) == 0xa282_ead7
    ensures Mask(0xdcbc_59fa) == 0x5678_a450
  {
  }
}
