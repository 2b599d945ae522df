/** Bloom filters (util/bloom.cc). */
module Bloom {
  import opened Entries
  import opened Coding

  // ----- Bits of bytes -----

  /** Bit `n` of a byte, and the byte with it set. */
  predicate Bit(b: nat, n: nat) {
    if n == 0 then b % 2 == 1 else Bit(b / 2, n - 1)
  }

  function WithBit(b: nat, n: nat): nat {
    if n == 0 then b / 2 * 2 + 1 else WithBit(b / 2, n - 1) * 2 + b % 2
  }

  /** 2 to the power `n`. */
  function Power(n: nat): (p: nat)
    ensures p >= 1
  {
    if n == 0 then 1 else 2 * Power(n - 1)
  }

  lemma {:induction false} WithBitSets(b: nat, n: nat, m: nat)
    ensures Bit(WithBit(b, n), m) <==> m == n || Bit(b, m)
  {
    if n > 0 && m > 0 {
      WithBitSets(b / 2, n - 1, m - 1);
    }
  }

  lemma {:induction false} WithBitFits(b: nat, n: nat, w: nat)
    requires b < Power(w) && n < w
    ensures WithBit(b, n) < Power(w)
  {
    HalfFits(b, Power(w - 1));
    if n > 0 {
      WithBitFits(b / 2, n - 1, w - 1);
    }
  }

  lemma HalfFits(b: nat, p: nat)
    requires b < 2 * p
    ensures b / 2 < p && 0 <= b % 2 <= 1 && b / 2 * 2 + 1 < 2 * p
  {
  }

  function SetBit(b: Byte, n: nat): Byte
    requires n < 8
  {
    assert Power(8) == 2 * (2 * (2 * (2 * (2 * (2 * (2 * (2 * Power(0))))))));
    WithBitFits(b, n, 8);
    WithBit(b, n)
  }

  lemma {:induction false} ZeroBits(n: nat)
    ensures !Bit(0, n)
  {
    if n > 0 {
      ZeroBits(n - 1);
    }
  }

  predicate BitOf(f: seq<Byte>, p: nat)
    requires p < 8 * |f|
  {
    Bit(f[p / 8], p % 8)
  }

  // ----- Probes -----

  /** Rotated right by 17 bits. */
  function Delta(h: nat): nat
    requires h < TWO_32
  {
    h / 0x2_0000 + h % 0x2_0000 * 0x8000
  }

  /** The `j`-th number a key's hash probes (32-bit wrap-around). */
  function Probe(h: nat, j: nat): (p: nat)
    requires h < TWO_32
    ensures p < TWO_32
  {
    if j == 0 then h else (Probe(h, j - 1) + Delta(h)) % TWO_32
  }

  /** The hash of keys: any function into 32 bits, so the code's as well. */
  type Hash = h: Bytes -> nat | forall k :: h(k) < TWO_32 witness (k: Bytes) => 0

  /** `bitsPerKey * 0.69` rounded down.  Below 100 bits the product is a whole number or at least 0.01 away from one,
      and from 44 bits on the number is 30, so whole-number division gives what the floating point does. */
  function Probes(bitsPerKey: nat): (k: nat)
    ensures 1 <= k <= 30
  {
    var k := bitsPerKey * 69 / 100;
    if k < 1 then 1 else if k > 30 then 30 else k
  }

  function FilterBytes(n: nat, bitsPerKey: nat): (bytes: nat)
    ensures bytes >= 8
  {
    var bits := if n * bitsPerKey < 64 then 64 else n * bitsPerKey;
    (bits + 7) / 8
  }

  /** Where probe `j` of a key lands in a filter of so many bytes. */
  function Lands(hash: Hash, key: Bytes, j: nat, bytes: nat): (p: nat)
    requires bytes > 0
    ensures p < 8 * bytes
  {
    Probe(hash(key), j) % (8 * bytes)
  }

  /** One of the first `k` probes of the key lands on bit `p`. */
  ghost predicate Hits(hash: Hash, key: Bytes, k: nat, bytes: nat, p: nat)
    requires bytes > 0
  {
    exists j {:trigger Lands(hash, key, j, bytes)} :: 0 <= j < k && Lands(hash, key, j, bytes) == p
  }

  ghost predicate Probed(hash: Hash, keys: seq<Bytes>, n: nat, k: nat, bytes: nat, p: nat)
    requires n <= |keys| && bytes > 0
  {
    exists i :: 0 <= i < n && Hits(hash, keys[i], k, bytes, p)
  }

  // ----- Building a filter -----

  function SetIn(f: Bytes, p: nat): Bytes
    requires p < 8 * |f|
  {
    f[p / 8 := SetBit(f[p / 8], p % 8)]
  }

  lemma SetInBit(f: Bytes, p: nat, q: nat)
    requires p < 8 * |f| && q < 8 * |f|
    ensures BitOf(SetIn(f, p), q) <==> q == p || BitOf(f, q)
  {
    WithBitSets(f[p / 8], p % 8, q % 8);
  }

  /** `g` is `f` with the first `k` probes of a key set. */
  ghost predicate Gains(f: Bytes, g: Bytes, hash: Hash, key: Bytes, k: nat) {
    && |f| == |g| > 0
    && forall p {:trigger BitOf(g, p)} :: 0 <= p < 8 * |f| ==>
         (BitOf(g, p) <==> BitOf(f, p) || Hits(hash, key, k, |f|, p))
  }

  lemma GainsStep(f: Bytes, g: Bytes, hash: Hash, key: Bytes, k: nat)
    requires Gains(f, g, hash, key, k)
    ensures Gains(f, SetIn(g, Lands(hash, key, k, |g|)), hash, key, k + 1)
  {
    var h := SetIn(g, Lands(hash, key, k, |g|));
    forall p | 0 <= p < 8 * |f| ensures BitOf(h, p) <==> BitOf(f, p) || Hits(hash, key, k + 1, |f|, p) {
      SetInBit(g, Lands(hash, key, k, |g|), p);
      assert BitOf(g, p) <==> BitOf(f, p) || Hits(hash, key, k, |f|, p);
    }
  }

  method SetInPlace(a: array<Byte>, p: nat)
    requires p < 8 * a.Length
    modifies a
    ensures a[..] == SetIn(old(a[..]), p)
  {
    a[p / 8] := SetBit(a[p / 8], p % 8);
  }

  method AddKey(a: array<Byte>, hash: Hash, key: Bytes, k: nat)
    requires a.Length > 0
    modifies a
    ensures Gains(old(a[..]), a[..], hash, key, k)
  {
    var bits := a.Length * 8;
    var h := hash(key);
    var delta := Delta(h);
    for j := 0 to k
      invariant h == Probe(hash(key), j) && Gains(old(a[..]), a[..], hash, key, j)
    {
      var pos := h % bits;
      assert pos == Lands(hash, key, j, a.Length);
      GainsStep(old(a[..]), a[..], hash, key, j);
      SetInPlace(a, pos);
      h := (h + delta) % TWO_32;
    }
  }

  /** The bits of `f` are exactly the probes of the first `n` keys. */
  ghost predicate FilledTo(f: Bytes, hash: Hash, keys: seq<Bytes>, n: nat, k: nat)
    requires n <= |keys|
  {
    |f| > 0 && forall p {:trigger BitOf(f, p)} :: 0 <= p < 8 * |f| ==>
        (BitOf(f, p) <==> Probed(hash, keys, n, k, |f|, p))
  }

  lemma FilledStep(f: Bytes, g: Bytes, hash: Hash, keys: seq<Bytes>, n: nat, k: nat)
    requires n < |keys| && FilledTo(f, hash, keys, n, k) && Gains(f, g, hash, keys[n], k)
    ensures FilledTo(g, hash, keys, n + 1, k)
  {
    forall p | 0 <= p < 8 * |g| ensures BitOf(g, p) <==> Probed(hash, keys, n + 1, k, |g|, p) {
      assert BitOf(f, p) <==> Probed(hash, keys, n, k, |f|, p);
    }
  }

  /** A filter: the bits, exactly the probed ones, and the number of probes behind them. */
  ghost predicate Filters(f: Bytes, hash: Hash, keys: seq<Bytes>, bitsPerKey: nat) {
    var bytes, k := FilterBytes(|keys|, bitsPerKey), Probes(bitsPerKey);
    |f| == bytes + 1 && f[bytes] == k && FilledTo(f[..bytes], hash, keys, |keys|, k)
  }

  method CreateFilter(hash: Hash, keys: seq<Bytes>, bitsPerKey: nat) returns (f: Bytes)
    ensures Filters(f, hash, keys, bitsPerKey)
  {
    var bytes, k := FilterBytes(|keys|, bitsPerKey), Probes(bitsPerKey);
    var a := new Byte[bytes](_ => 0);
    forall p | 0 <= p < 8 * bytes ensures !BitOf(a[..], p) {
      ZeroBits(p % 8);
    }
    for i := 0 to |keys|
      invariant FilledTo(a[..], hash, keys, i, k)
    {
      ghost var before := a[..];
      AddKey(a, hash, keys[i], k);
      FilledStep(before, a[..], hash, keys, i, k);
    }
    f := a[..] + [k];
    assert f[..bytes] == a[..];
  }

  // ----- Asking a filter -----

  /** The first `k` probes of a key are all set. */
  predicate AllSet(bits: Bytes, hash: Hash, key: Bytes, k: nat)
    requires |bits| > 0
  {
    forall j {:trigger Lands(hash, key, j, |bits|)} :: 0 <= j < k ==> BitOf(bits, Lands(hash, key, j, |bits|))
  }

  predicate MayMatch(hash: Hash, key: Bytes, f: Bytes) {
    if |f| < 2 then false else f[|f| - 1] > 30 || AllSet(f[..|f| - 1], hash, key, f[|f| - 1])
  }

  /** Whether every bit the key probes is set; a filter too short has no keys, and one with more probes than
      the builder uses is not understood and always matches. */
  method KeyMayMatch(hash: Hash, key: Bytes, f: Bytes) returns (may: bool)
    ensures may == MayMatch(hash, key, f)
  {
    if |f| < 2 {
      return false;
    }
    if f[|f| - 1] > 30 {
      return true;
    }
    may := AllProbesSet(hash, key, f[..|f| - 1], f[|f| - 1]);
  }

  method AllProbesSet(hash: Hash, key: Bytes, bits: Bytes, k: nat) returns (all: bool)
    requires |bits| > 0
    ensures all == AllSet(bits, hash, key, k)
  {
    var h := hash(key);
    var delta := Delta(h);
    for j := 0 to k
      invariant h == Probe(hash(key), j) && AllSet(bits, hash, key, j)
    {
      var pos := h % (8 * |bits|);
      assert pos == Lands(hash, key, j, |bits|);
      if !BitOf(bits, pos) {
        return false;
      }
      h := (h + delta) % TWO_32;
    }
    all := true;
  }

  /** A filter matches exactly the keys whose every probe is also a probe of some key it was built from. */
  lemma MatchesExactly(hash: Hash, keys: seq<Bytes>, bitsPerKey: nat, f: Bytes, key: Bytes)
    requires Filters(f, hash, keys, bitsPerKey)
    ensures var bytes, k := FilterBytes(|keys|, bitsPerKey), Probes(bitsPerKey);
            MayMatch(hash, key, f) <==>
                forall p :: Hits(hash, key, k, bytes, p) ==> Probed(hash, keys, |keys|, k, bytes, p)
  {
    var bytes, k := FilterBytes(|keys|, bitsPerKey), Probes(bitsPerKey);
    var bits := f[..bytes];
    forall j | 0 <= j < k
      ensures BitOf(bits, Lands(hash, key, j, bytes)) <==>
                Probed(hash, keys, |keys|, k, bytes, Lands(hash, key, j, bytes))
      ensures Hits(hash, key, k, bytes, Lands(hash, key, j, bytes))
    {
    }
  }

  /** A key that was added always matches. */
  lemma NoFalseNegatives(hash: Hash, keys: seq<Bytes>, bitsPerKey: nat, f: Bytes, key: Bytes)
    requires Filters(f, hash, keys, bitsPerKey) && key in keys
    ensures MayMatch(hash, key, f)
  {
    MatchesExactly(hash, keys, bitsPerKey, f, key);
  }
}
