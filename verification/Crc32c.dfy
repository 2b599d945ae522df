/** CRC-32C (util/crc32c.cc): the four-stride loop against the byte-at-a-time definition.
    The polynomial is the one of section 12.1 and Appendix B.4 of RFC 3720, bit-reflected. */
module Crc32c {

  // ----- Additive maps on any commutative group-like type -----

  ghost predicate AbelianAt<W>(x: (W, W) -> W, a: W, b: W, c: W) {
    x(x(a, b), c) == x(a, x(b, c)) && x(a, b) == x(b, a)
  }

  ghost predicate Abelian<W(!new)>(x: (W, W) -> W) {
    forall a, b, c :: AbelianAt(x, a, b, c)
  }

  ghost predicate AdditiveAt<W>(x: (W, W) -> W, f: W -> W, a: W, b: W) {
    f(x(a, b)) == x(f(a), f(b))
  }

  ghost predicate Additive<W(!new)>(x: (W, W) -> W, f: W -> W) {
    forall a, b :: AdditiveAt(x, f, a, b)
  }

  function Iter<W>(f: W -> W, l: W, n: nat): W {
    if n == 0 then l else f(Iter(f, l, n - 1))
  }

  lemma Swap<W(!new)>(x: (W, W) -> W, a: W, b: W, c: W, d: W)
    requires Abelian(x)
    ensures x(x(a, b), x(c, d)) == x(x(a, c), x(b, d))
  {
    assert AbelianAt(x, a, b, x(c, d));
    assert AbelianAt(x, b, c, d);
    assert AbelianAt(x, c, b, d);
    assert AbelianAt(x, a, c, x(b, d));
  }

  lemma {:induction false} IterAdditive<W(!new)>(x: (W, W) -> W, f: W -> W, a: W, b: W, n: nat)
    requires Additive(x, f)
    ensures Iter(f, x(a, b), n) == x(Iter(f, a, n), Iter(f, b, n))
  {
    if n > 0 {
      IterAdditive(x, f, a, b, n - 1);
      assert AdditiveAt(x, f, Iter(f, a, n - 1), Iter(f, b, n - 1));
    }
  }

  lemma {:induction false} IterAdd<W(!new)>(f: W -> W, l: W, m: nat, n: nat)
    ensures Iter(f, Iter(f, l, m), n) == Iter(f, l, m + n)
  {
    if n > 0 { IterAdd(f, l, m, n - 1); }
  }

  // ----- Four strides -----

  /** Folds four partial stride results into one register, oldest first. */
  function Combined<W>(x: (W, W) -> W, f: W -> W, c0: W, c1: W, c2: W, c3: W): W {
    Iter(f, x(Iter(f, x(Iter(f, x(Iter(f, c0, 4), c1), 4), c2), 4), c3), 4)
  }

  lemma CombinedFlat<W(!new)>(x: (W, W) -> W, f: W -> W, c0: W, c1: W, c2: W, c3: W)
    requires Additive(x, f)
    ensures Combined(x, f, c0, c1, c2, c3)
         == x(x(x(Iter(f, c0, 16), Iter(f, c1, 12)), Iter(f, c2, 8)), Iter(f, c3, 4))
  {
    var l0 := Iter(f, c0, 4);
    IterAdditive(x, f, l0, c1, 4);
    IterAdd(f, c0, 4, 4);
    var l1 := x(Iter(f, c0, 8), Iter(f, c1, 4));
    IterAdditive(x, f, l1, c2, 4);
    IterAdditive(x, f, Iter(f, c0, 8), Iter(f, c1, 4), 4);
    IterAdd(f, c0, 8, 4);
    IterAdd(f, c1, 4, 4);
    var l2 := x(x(Iter(f, c0, 12), Iter(f, c1, 8)), Iter(f, c2, 4));
    IterAdditive(x, f, l2, c3, 4);
    IterAdditive(x, f, x(Iter(f, c0, 12), Iter(f, c1, 8)), Iter(f, c2, 4), 4);
    IterAdditive(x, f, Iter(f, c0, 12), Iter(f, c1, 8), 4);
    IterAdd(f, c0, 12, 4);
    IterAdd(f, c1, 8, 4);
    IterAdd(f, c2, 4, 4);
  }

  /** Feeding a word to the oldest stride, sixteen bytes on, and rotating is feeding it to the register. */
  lemma StrideWord<W(!new)>(x: (W, W) -> W, f: W -> W, c0: W, c1: W, c2: W, c3: W, w: W)
    requires Abelian(x) && Additive(x, f)
    ensures Combined(x, f, c1, c2, c3, x(w, Iter(f, c0, 16)))
         == Iter(f, x(Combined(x, f, c0, c1, c2, c3), w), 4)
  {
    var c := Iter(f, c0, 16);
    var p1, p2, p3 := Iter(f, c1, 12), Iter(f, c2, 8), Iter(f, c3, 4);
    CombinedFlat(x, f, c0, c1, c2, c3);
    var all := x(x(x(c, p1), p2), p3);
    IterAdditive(x, f, all, w, 4);
    IterAdditive(x, f, x(x(c, p1), p2), p3, 4);
    IterAdditive(x, f, x(c, p1), p2, 4);
    IterAdditive(x, f, c, p1, 4);
    IterAdd(f, c1, 12, 4); IterAdd(f, c2, 8, 4); IterAdd(f, c3, 4, 4);
    CombinedFlat(x, f, c1, c2, c3, x(w, c));
    IterAdditive(x, f, w, c, 4);
    LastFirst(x, Iter(f, c, 4), Iter(f, c1, 16), Iter(f, c2, 12), Iter(f, c3, 8), Iter(f, w, 4));
  }

  lemma LastFirst<W(!new)>(x: (W, W) -> W, a: W, b: W, c: W, d: W, w: W)
    requires Abelian(x)
    ensures x(x(x(b, c), d), x(w, a)) == x(x(x(x(a, b), c), d), w)
  {
    var bcd := x(x(b, c), d);
    assert AbelianAt(x, bcd, x(w, a), a);
    assert AbelianAt(x, w, a, bcd);
    assert AbelianAt(x, w, x(a, bcd), a);
    assert AbelianAt(x, a, x(b, c), d);
    assert AbelianAt(x, a, b, c);
  }

  /** Shifting a word in byte by byte is adding it to the register and shifting four zero bytes in. */
  lemma ShiftIn<W(!new)>(x: (W, W) -> W, f: W -> W, l: W, b0: W, b1: W, b2: W, b3: W, s1: W, s2: W, s3: W, v2: W, v1: W)
    requires Abelian(x) && Additive(x, f)
    requires f(s3) == b3 && v2 == x(b2, s3) && f(s2) == v2 && v1 == x(b1, s2) && f(s1) == v1
    ensures f(x(f(x(f(x(f(x(l, b0)), b1)), b2)), b3)) == Iter(f, x(l, x(b0, s1)), 4)
  {
    var l1 := f(x(l, b0));
    var l2 := f(x(l1, b1));
    var l3 := f(x(l2, b2));
    assert AbelianAt(x, l, b0, s1) && AdditiveAt(x, f, x(l, b0), s1);
    assert f(x(l, x(b0, s1))) == x(l1, v1);
    assert AbelianAt(x, l1, b1, s2) && AdditiveAt(x, f, x(l1, b1), s2);
    assert f(x(l1, v1)) == x(l2, v2);
    assert AbelianAt(x, l2, b2, s3) && AdditiveAt(x, f, x(l2, b2), s3);
    assert f(x(l2, v2)) == x(l3, b3);
    var w := x(l, x(b0, s1));
    assert Iter(f, w, 1) == f(Iter(f, w, 0));
    assert Iter(f, w, 2) == f(Iter(f, w, 1));
    assert Iter(f, w, 3) == f(Iter(f, w, 2));
    assert Iter(f, w, 4) == f(Iter(f, w, 3));
  }

  /** A map that splits its argument additively, looks one half up and adds the other is additive. */
  lemma SplitAdditive<W(!new)>(x: (W, W) -> W, t: W -> W, low: W -> W, high: W -> W, z: W -> W, a: W, b: W)
    requires Abelian(x) && Additive(x, t) && Additive(x, low) && Additive(x, high)
    requires z(a) == x(t(low(a)), high(a)) && z(b) == x(t(low(b)), high(b))
    requires z(x(a, b)) == x(t(low(x(a, b))), high(x(a, b)))
    ensures AdditiveAt(x, z, a, b)
  {
    assert AdditiveAt(x, low, a, b) && AdditiveAt(x, high, a, b) && AdditiveAt(x, t, low(a), low(b));
    Swap(x, t(low(a)), t(low(b)), high(a), high(b));
  }

  // ----- 32-bit registers -----

  /** A lookup table indexed by a byte. */
  type Table = bv32 -> bv32

  // The operators of the C code, named so that the algebra above applies to them.
  function Xor(a: bv32, b: bv32): bv32 { a ^ b }
  function Low(l: bv32): bv32 { l & 0xff }
  function High(l: bv32): bv32 { l >> 8 }

  /** The table-driven shift of one zero byte into the register. */
  function ZeroByte(t: Table, l: bv32): bv32 {
    Xor(t(Low(l)), High(l))
  }

  function Zero(t: Table): Table {
    (l: bv32) => ZeroByte(t, l)
  }

  /** One byte through the table, as STEP1 does it. */
  function Step1(t: Table, l: bv32, b: bv8): bv32 {
    Xor(t(Xor(Low(l), b as bv32)), High(l))
  }

  /** The register after a whole buffer, one byte at a time. */
  function Bytewise(t: Table, l: bv32, data: seq<bv8>): bv32 {
    if data == [] then l else Step1(t, Bytewise(t, l, data[..|data| - 1]), data[|data| - 1])
  }

  lemma XorChain(a: bv32, b: bv32, c: bv32, y: bv32, z: bv32)
    requires y == a ^ b && z == b ^ c
    ensures y ^ c == a ^ z
  {
  }

  lemma XorAssoc(a: bv32, b: bv32, c: bv32)
    ensures Xor(Xor(a, b), c) == Xor(a, Xor(b, c))
  {
    XorChain(a, b, c, Xor(a, b), Xor(b, c));
  }

  lemma XorComm(a: bv32, b: bv32)
    ensures Xor(a, b) == Xor(b, a)
  {
  }

  lemma XorAbelian()
    ensures Abelian(Xor)
  {
    forall a, b, c ensures AbelianAt(Xor, a, b, c) { XorAssoc(a, b, c); XorComm(a, b); }
  }

  lemma LowAdditive()
    ensures Additive(Xor, Low)
  {
    forall a, b ensures AdditiveAt(Xor, Low, a, b) { LowXor(a, b); }
  }

  lemma LowXor(a: bv32, b: bv32)
    ensures Low(Xor(a, b)) == Xor(Low(a), Low(b))
  {
  }

  lemma HighAdditive()
    ensures Additive(Xor, High)
  {
    forall a, b ensures AdditiveAt(Xor, High, a, b) { HighXor(a, b); }
  }

  lemma HighXor(a: bv32, b: bv32)
    ensures High(Xor(a, b)) == Xor(High(a), High(b))
  {
  }

  lemma ZeroAdditive(t: Table)
    requires Additive(Xor, t)
    ensures Additive(Xor, Zero(t))
  {
    XorAbelian(); LowAdditive(); HighAdditive();
    forall a, b ensures AdditiveAt(Xor, Zero(t), a, b) {
      SplitAdditive(Xor, t, Low, High, Zero(t), a, b);
    }
  }

  lemma ByteIn(l: bv32, b: bv8)
    ensures Low(Xor(l, b as bv32)) == Xor(Low(l), b as bv32)
    ensures High(Xor(l, b as bv32)) == High(l)
  {
  }

  lemma Step1IsZero(t: Table, l: bv32, b: bv8)
    ensures Step1(t, l, b) == Zero(t)(Xor(l, b as bv32))
  {
    ByteIn(l, b);
  }

  lemma XorSelf(v: bv32)
    requires v == Xor(v, v)
    ensures v == 0
  {
  }

  lemma ShiftBack(v: bv32)
    requires v <= 0xff_ffff
    ensures Low(v << 8) == 0 && High(v << 8) == v
  {
  }

  lemma ZeroShifts(t: Table, v: bv32)
    requires Additive(Xor, t) && v <= 0xff_ffff
    ensures Zero(t)(v << 8) == v
  {
    assert AdditiveAt(Xor, t, 0, 0);
    XorSelf(t(0));
    ShiftBack(v);
  }

  // ----- Words -----

  /** A little-endian word, as DecodeFixed32 reads it. */
  function Word(b: seq<bv8>): bv32
    requires |b| == 4
  {
    (b[0] as bv32) | ((b[1] as bv32) << 8) | ((b[2] as bv32) << 16) | ((b[3] as bv32) << 24)
  }

  /** A byte put below a value. */
  function Below(b: bv8, v: bv32): bv32 {
    (b as bv32) | (v << 8)
  }

  lemma BelowIsXor(b: bv8, v: bv32)
    ensures Below(b, v) == Xor(b as bv32, v << 8)
  {
  }

  lemma BelowShifts(t: Table, b: bv8, v: bv32) returns (s: bv32)
    requires Additive(Xor, t) && v <= 0xff_ffff
    ensures Below(b, v) == Xor(b as bv32, s) && Zero(t)(s) == v
  {
    s := v << 8;
    BelowIsXor(b, v);
    ZeroShifts(t, v);
  }

  lemma BelowBounds(b: bv8, v: bv32)
    ensures v <= 0xff ==> Below(b, v) <= 0xffff
    ensures v <= 0xffff ==> Below(b, v) <= 0xff_ffff
  {
  }

  lemma WordNested(b: seq<bv8>)
    requires |b| == 4
    ensures Word(b) == Below(b[0], Below(b[1], Below(b[2], b[3] as bv32)))
  {
  }

  /** A word as nested bytes, each remainder shifted up by one byte. */
  lemma WordUnfolds(t: Table, b: seq<bv8>) returns (s1: bv32, s2: bv32, s3: bv32)
    requires Additive(Xor, t) && |b| == 4
    ensures Word(b) == Xor(b[0] as bv32, s1)
    ensures Zero(t)(s1) == Xor(b[1] as bv32, s2)
    ensures Zero(t)(s2) == Xor(b[2] as bv32, s3)
    ensures Zero(t)(s3) == b[3] as bv32
  {
    var v3 := b[3] as bv32;
    var v2 := Below(b[2], v3);
    var v1 := Below(b[1], v2);
    BelowBounds(b[2], v3); BelowBounds(b[1], v2);
    WordNested(b);
    s1 := BelowShifts(t, b[0], v1);
    s2 := BelowShifts(t, b[1], v2);
    s3 := BelowShifts(t, b[2], v3);
  }

  /** Four bytes through the table are one word added to the register and four zero bytes. */
  lemma WordSteps(t: Table, l: bv32, b: seq<bv8>)
    requires Additive(Xor, t) && |b| == 4
    ensures Step1(t, Step1(t, Step1(t, Step1(t, l, b[0]), b[1]), b[2]), b[3]) == Iter(Zero(t), Xor(l, Word(b)), 4)
  {
    XorAbelian(); ZeroAdditive(t);
    var l1 := Step1(t, l, b[0]);
    var l2 := Step1(t, l1, b[1]);
    var l3 := Step1(t, l2, b[2]);
    Step1IsZero(t, l, b[0]); Step1IsZero(t, l1, b[1]); Step1IsZero(t, l2, b[2]); Step1IsZero(t, l3, b[3]);
    var s1, s2, s3 := WordUnfolds(t, b);
    ShiftIn(Xor, Zero(t), l, b[0] as bv32, b[1] as bv32, b[2] as bv32, b[3] as bv32, s1, s2, s3,
            Zero(t)(s2), Zero(t)(s1));
  }

  lemma BytewiseWord(t: Table, l: bv32, data: seq<bv8>, p: nat)
    requires Additive(Xor, t) && p + 4 <= |data|
    ensures Bytewise(t, l, data[..p + 4]) == Iter(Zero(t), Xor(Bytewise(t, l, data[..p]), Word(data[p..p + 4])), 4)
  {
    BytewiseStep(t, l, data, p);
    BytewiseStep(t, l, data, p + 1);
    BytewiseStep(t, l, data, p + 2);
    BytewiseStep(t, l, data, p + 3);
    WordSteps(t, Bytewise(t, l, data[..p]), data[p..p + 4]);
  }

  lemma BytewiseStep(t: Table, l: bv32, data: seq<bv8>, p: nat)
    requires p < |data|
    ensures Bytewise(t, l, data[..p + 1]) == Step1(t, Bytewise(t, l, data[..p]), data[p])
  {
    assert data[..p + 1][..p] == data[..p];
  }

  // ----- Strides -----

  /** The four stride extension tables: sixteen zero bytes after a byte at each place of the word. */
  function StrideTable3(t: Table, c: bv32): bv32 { Iter(Zero(t), c, 16) }
  function StrideTable2(t: Table, c: bv32): bv32 { Iter(Zero(t), c << 8, 16) }
  function StrideTable1(t: Table, c: bv32): bv32 { Iter(Zero(t), c << 16, 16) }
  function StrideTable0(t: Table, c: bv32): bv32 { Iter(Zero(t), c << 24, 16) }

  /** One stride of four bytes, as STEP4 does it. */
  function Step4(t: Table, c: bv32, w: bv32): bv32 {
    Xor(Xor(Xor(Xor(w, StrideTable3(t, c & 0xff)), StrideTable2(t, (c >> 8) & 0xff)),
            StrideTable1(t, (c >> 16) & 0xff)), StrideTable0(t, c >> 24))
  }

  /** Four zero bytes after a word that is added to the register, as STEP4W does it. */
  function Step4W(t: Table, l: bv32, w: bv32): bv32 {
    Iter(Zero(t), Xor(l, w), 4)
  }

  lemma Quarters(c: bv32)
    ensures c == Xor(Xor(Xor(c & 0xff, ((c >> 8) & 0xff) << 8), ((c >> 16) & 0xff) << 16), (c >> 24) << 24)
  {
  }

  lemma Regroup<W(!new)>(x: (W, W) -> W, w: W, a: W, b: W, c: W, d: W)
    requires Abelian(x)
    ensures x(x(x(x(w, a), b), c), d) == x(w, x(x(x(a, b), c), d))
  {
    assert AbelianAt(x, w, a, b);
    assert AbelianAt(x, w, x(a, b), c);
    assert AbelianAt(x, w, x(x(a, b), c), d);
  }

  lemma QuartersApart<W(!new)>(x: (W, W) -> W, f: W -> W, a: W, b: W, c: W, d: W, n: nat)
    requires Additive(x, f)
    ensures Iter(f, x(x(x(a, b), c), d), n) == x(x(x(Iter(f, a, n), Iter(f, b, n)), Iter(f, c, n)), Iter(f, d, n))
  {
    IterAdditive(x, f, x(x(a, b), c), d, n);
    IterAdditive(x, f, x(a, b), c, n);
    IterAdditive(x, f, a, b, n);
  }

  /** The four table lookups add up to sixteen zero bytes. */
  lemma Step4Is(t: Table, c: bv32, w: bv32)
    requires Additive(Xor, t)
    ensures Step4(t, c, w) == Xor(w, Iter(Zero(t), c, 16))
  {
    XorAbelian(); ZeroAdditive(t);
    var p0, p1, p2, p3 := c & 0xff, ((c >> 8) & 0xff) << 8, ((c >> 16) & 0xff) << 16, (c >> 24) << 24;
    Quarters(c);
    QuartersApart(Xor, Zero(t), p0, p1, p2, p3, 16);
    Regroup(Xor, w, Iter(Zero(t), p0, 16), Iter(Zero(t), p1, 16), Iter(Zero(t), p2, 16), Iter(Zero(t), p3, 16));
  }

  /** The strides and the plain register agree on what they have consumed. */
  ghost predicate StridesHold(t: Table, l: bv32, data: seq<bv8>, p: nat, c0: bv32, c1: bv32, c2: bv32, c3: bv32) {
    p <= |data| && Combined(Xor, Zero(t), c0, c1, c2, c3) == Bytewise(t, l, data[..p])
  }

  lemma FeedWord(t: Table, l: bv32, data: seq<bv8>, p: nat, c0: bv32, c1: bv32, c2: bv32, c3: bv32)
    requires Additive(Xor, t) && p + 4 <= |data| && StridesHold(t, l, data, p, c0, c1, c2, c3)
    ensures StridesHold(t, l, data, p + 4, c1, c2, c3, Step4(t, c0, Word(data[p..p + 4])))
  {
    var w := Word(data[p..p + 4]);
    XorAbelian(); ZeroAdditive(t);
    Step4Is(t, c0, w);
    StrideWord(Xor, Zero(t), c0, c1, c2, c3, w);
    BytewiseWord(t, l, data, p);
  }

  lemma LoadStrides(t: Table, l0: bv32, data: seq<bv8>, p: nat, l: bv32)
    requires Additive(Xor, t) && p + 16 <= |data| && l == Bytewise(t, l0, data[..p])
    ensures StridesHold(t, l0, data, p + 16, Xor(Word(data[p..p + 4]), l), Word(data[p + 4..p + 8]),
                        Word(data[p + 8..p + 12]), Word(data[p + 12..p + 16]))
  {
    BytewiseWord(t, l0, data, p);
    BytewiseWord(t, l0, data, p + 4);
    BytewiseWord(t, l0, data, p + 8);
    BytewiseWord(t, l0, data, p + 12);
    XorComm(Word(data[p..p + 4]), l);
  }

  lemma Unload(t: Table, l: bv32, data: seq<bv8>, p: nat, c0: bv32, c1: bv32, c2: bv32, c3: bv32)
    requires StridesHold(t, l, data, p, c0, c1, c2, c3)
    ensures Step4W(t, Step4W(t, Step4W(t, Step4W(t, 0, c0), c1), c2), c3) == Bytewise(t, l, data[..p])
  {
    assert Xor(0, c0) == c0;
  }

  /** Bytes p up to q, one at a time. */
  method ByteLoop(t: Table, ghost l0: bv32, data: seq<bv8>, p: nat, q: nat, start: bv32) returns (l: bv32)
    requires p <= q <= |data| && start == Bytewise(t, l0, data[..p])
    ensures l == Bytewise(t, l0, data[..q])
  {
    l := start;
    var i := p;
    while i != q
      invariant p <= i <= q && l == Bytewise(t, l0, data[..i])
    {
      BytewiseStep(t, l0, data, i);
      l := Step1(t, l, data[i]);
      i := i + 1;
    }
  }

  /** One 16-byte swath of four strides. */
  method Swath(t: Table, ghost l0: bv32, data: seq<bv8>, p: nat, c0: bv32, c1: bv32, c2: bv32, c3: bv32)
      returns (crc0: bv32, crc1: bv32, crc2: bv32, crc3: bv32)
    requires Additive(Xor, t) && p + 16 <= |data| && StridesHold(t, l0, data, p, c0, c1, c2, c3)
    ensures StridesHold(t, l0, data, p + 16, crc0, crc1, crc2, crc3)
  {
    FeedWord(t, l0, data, p, c0, c1, c2, c3);
    crc0 := Step4(t, c0, Word(data[p..p + 4]));
    FeedWord(t, l0, data, p + 4, c1, c2, c3, crc0);
    crc1 := Step4(t, c1, Word(data[p + 4..p + 8]));
    FeedWord(t, l0, data, p + 8, c2, c3, crc0, crc1);
    crc2 := Step4(t, c2, Word(data[p + 8..p + 12]));
    FeedWord(t, l0, data, p + 12, c3, crc0, crc1, crc2);
    crc3 := Step4(t, c3, Word(data[p + 12..p + 16]));
  }

  /** Single words while a whole one is left, then the combination of the strides. */
  method WordLoop(t: Table, ghost l0: bv32, data: seq<bv8>, start: nat, c0: bv32, c1: bv32, c2: bv32, c3: bv32)
      returns (l: bv32, p: nat)
    requires Additive(Xor, t) && StridesHold(t, l0, data, start, c0, c1, c2, c3)
    ensures start <= p <= |data| < p + 4 && l == Bytewise(t, l0, data[..p])
  {
    p := start;
    var crc0, crc1, crc2, crc3 := c0, c1, c2, c3;
    while |data| - p >= 4
      invariant start <= p <= |data| && StridesHold(t, l0, data, p, crc0, crc1, crc2, crc3)
    {
      FeedWord(t, l0, data, p, crc0, crc1, crc2, crc3);
      var tmp := Step4(t, crc0, Word(data[p..p + 4]));
      crc0, crc1, crc2, crc3 := crc1, crc2, crc3, tmp;
      p := p + 4;
    }
    Unload(t, l0, data, p, crc0, crc1, crc2, crc3);
    l := Step4W(t, Step4W(t, Step4W(t, Step4W(t, 0, crc0), crc1), crc2), crc3);
  }

  /** Swaths of sixteen bytes and then single words, from a position with sixteen bytes ahead. */
  method StrideLoops(t: Table, ghost l0: bv32, data: seq<bv8>, start: nat, l1: bv32) returns (l: bv32, p: nat)
    requires Additive(Xor, t) && start + 16 <= |data| && l1 == Bytewise(t, l0, data[..start])
    ensures start < p <= |data| < p + 4 && l == Bytewise(t, l0, data[..p])
  {
    LoadStrides(t, l0, data, start, l1);
    var crc0 := Xor(Word(data[start..start + 4]), l1);
    var crc1 := Word(data[start + 4..start + 8]);
    var crc2 := Word(data[start + 8..start + 12]);
    var crc3 := Word(data[start + 12..start + 16]);
    p := start + 16;
    while |data| - p >= 16
      invariant start < p <= |data| && StridesHold(t, l0, data, p, crc0, crc1, crc2, crc3)
    {
      crc0, crc1, crc2, crc3 := Swath(t, l0, data, p, crc0, crc1, crc2, crc3);
      p := p + 16;
    }
    l, p := WordLoop(t, l0, data, p, crc0, crc1, crc2, crc3);
  }

  /** The body of Extend over a buffer that starts at `address` in memory. */
  method ExtendRegister(t: Table, l0: bv32, data: seq<bv8>, address: nat) returns (l: bv32)
    requires Additive(Xor, t)
    ensures l == Bytewise(t, l0, data)
  {
    var p, e := 0, |data|;
    l := l0;
    // The first 4-byte aligned byte; this may be past the end of the buffer.
    var x := (4 - address % 4) % 4;
    if x <= e {
      l := ByteLoop(t, l0, data, p, x, l);
      p := x;
    }
    if e - p >= 16 {
      l, p := StrideLoops(t, l0, data, p, l);
    }
    l := ByteLoop(t, l0, data, p, e, l);
    assert data[..e] == data;
  }

  // ----- The CRC-32C polynomial -----

  /** One step of the bitwise shift register. */
  function Bit(l: bv32): bv32 {
    if l & 1 == 1 then (l >> 1) ^ 0x82f6_3b78 else l >> 1
  }

  /** Entry `c` of the byte extension table: eight register steps. */
  function ByteTable(c: bv32): bv32 {
    Iter(Bit, c, 8)
  }

  /** CRC of a buffer that continues a string whose CRC is `crc`. */
  function Crc(crc: bv32, data: seq<bv8>): bv32 {
    Xor(Bytewise(ByteTable, Xor(crc, 0xffff_ffff), data), 0xffff_ffff)
  }

  method Extend(crc: bv32, data: seq<bv8>, address: nat) returns (r: bv32)
    ensures r == Crc(crc, data)
  {
    ByteTableAdditive();
    r := ExtendRegister(ByteTable, Xor(crc, 0xffff_ffff), data, address);
    r := Xor(r, 0xffff_ffff);
  }

  lemma BitParts(a: bv32, b: bv32)
    ensures (a ^ b) & 1 == (a & 1) ^ (b & 1) && (a ^ b) >> 1 == (a >> 1) ^ (b >> 1)
    ensures a & 1 == 0 || a & 1 == 1
    ensures b & 1 == 0 || b & 1 == 1
  {
  }

  lemma TapsCancel(p: bv32, q: bv32, k: bv32)
    ensures (p ^ k) ^ (q ^ k) == p ^ q && (p ^ q) ^ k == p ^ (q ^ k) == (p ^ k) ^ q
  {
  }

  lemma BitLinear(a: bv32, b: bv32)
    ensures Bit(a ^ b) == Bit(a) ^ Bit(b)
  {
    BitParts(a, b);
    TapsCancel(a >> 1, b >> 1, 0x82f6_3b78);
    if a & 1 == 1 {
      if b & 1 == 1 {} else {}
    } else {
      if b & 1 == 1 {} else {}
    }
  }

  lemma XorIs(a: bv32, b: bv32)
    ensures Xor(a, b) == a ^ b
  {
  }

  lemma BitXor(a: bv32, b: bv32)
    ensures Bit(Xor(a, b)) == Xor(Bit(a), Bit(b))
  {
    BitLinear(a, b);
    XorIs(a, b);
    XorIs(Bit(a), Bit(b));
  }

  lemma ByteTableAdditive()
    ensures Additive(Xor, ByteTable)
  {
    forall a, b ensures AdditiveAt(Xor, Bit, a, b) { BitXor(a, b); }
    forall a, b ensures AdditiveAt(Xor, ByteTable, a, b) { IterAdditive(Xor, Bit, a, b, 8); }
  }

  lemma {:induction false} BytewiseAppend(t: Table, l: bv32, a: seq<bv8>, b: seq<bv8>)
    ensures Bytewise(t, l, a + b) == Bytewise(t, Bytewise(t, l, a), b)
  {
    if b == [] {
      assert a + b == a;
    } else {
      var n := |b| - 1;
      assert (a + b)[..|a + b| - 1] == a + b[..n];
      BytewiseAppend(t, l, a, b[..n]);
    }
  }

  /** Extending over A and then over B is the CRC of A followed by B. */
  lemma CrcAppend(crc: bv32, a: seq<bv8>, b: seq<bv8>)
    ensures Crc(Crc(crc, a), b) == Crc(crc, a + b)
  {
    var l := Bytewise(ByteTable, Xor(crc, 0xffff_ffff), a);
    XorTwice(l, 0xffff_ffff);
    BytewiseAppend(ByteTable, Xor(crc, 0xffff_ffff), a, b);
  }

  lemma XorTwice(l: bv32, k: bv32)
    ensures Xor(Xor(l, k), k) == l
  {
    XorAssoc(l, k, k);
  }

  // ----- The table against the bitwise register -----

  lemma BitShifts(v: bv32, w: bv32)
    requires v <= 0x7fff_ffff && w == v << 1
    ensures Bit(w) == v
  {
  }

  lemma TwoBitShifts(v: bv32, w: bv32)
    requires v <= 0x3fff_ffff && w == v << 2
    ensures Iter(Bit, w, 2) == v
  {
    var u := v << 1;
    assert u <= 0x7fff_ffff && w == u << 1;
    BitShifts(u, w);
    BitShifts(v, u);
    IterAdd(Bit, w, 1, 1);
  }

  lemma FourBitShifts(v: bv32, w: bv32)
    requires v <= 0xfff_ffff && w == v << 4
    ensures Iter(Bit, w, 4) == v
  {
    var u := v << 2;
    assert u <= 0x3fff_ffff && w == u << 2;
    TwoBitShifts(u, w);
    TwoBitShifts(v, u);
    IterAdd(Bit, w, 2, 2);
  }

  lemma EightBitShifts(v: bv32)
    requires v <= 0xff_ffff
    ensures Iter(Bit, v << 8, 8) == v
  {
    var u, w := v << 4, v << 8;
    assert u <= 0xfff_ffff && w == u << 4;
    FourBitShifts(u, w);
    FourBitShifts(v, u);
    IterAdd(Bit, w, 4, 4);
  }

  lemma Halves(l: bv32)
    ensures l == Xor(Low(l), High(l) << 8) && High(l) <= 0xff_ffff
  {
  }

  /** One byte through the table is eight steps of the bitwise register. */
  lemma TableIsRegister(l: bv32, b: bv8)
    ensures Step1(ByteTable, l, b) == Iter(Bit, Xor(l, b as bv32), 8)
  {
    var v := Xor(l, b as bv32);
    Step1IsZero(ByteTable, l, b);
    Halves(v);
    EightBitShifts(High(v));
    forall p, q ensures AdditiveAt(Xor, Bit, p, q) { BitXor(p, q); }
    IterAdditive(Xor, Bit, Low(v), High(v) << 8, 8);
  }

  // ----- Stored form -----

  function Mask(crc: bv32): bv32 {
    ((crc >> 15) | (crc << 17)) + 0xa282_ead8
  }

  function Unmask(masked: bv32): bv32 {
    var rot := masked - 0xa282_ead8;
    (rot >> 17) | (rot << 15)
  }

  lemma UnmaskMask(crc: bv32)
    ensures Unmask(Mask(crc)) == crc
  {
  }
}
