/** Integers and strings as bytes (util/coding.cc): fixed-width integers, varints in groups of seven bits
    (the "Base 128 Varints" section of the Protocol Buffers encoding guide), length-prefixed strings.
    A decoder reads at a position of its input and says where it stopped. */
module Coding {
  import opened Entries

  const TWO_32 := 0x1_0000_0000
  const TWO_64 := 0x1_0000_0000_0000_0000

  /** The input has `e` at position `p`, whatever comes after it. */
  ghost predicate Holds(input: Bytes, p: nat, e: Bytes) {
    p + |e| <= |input| && forall i :: 0 <= i < |e| ==> input[p + i] == e[i]
  }

  lemma HoldsParts(input: Bytes, p: nat, a: Bytes, b: Bytes)
    requires Holds(input, p, a + b)
    ensures Holds(input, p, a) && Holds(input, p + |a|, b)
  {
    forall i | 0 <= i < |a| ensures input[p + i] == a[i] {
      assert (a + b)[i] == a[i];
    }
    forall i | 0 <= i < |b| ensures input[p + |a| + i] == b[i] {
      assert (a + b)[|a| + i] == b[i];
    }
  }

  lemma HoldsSlice(input: Bytes, p: nat, e: Bytes)
    requires Holds(input, p, e)
    ensures input[p..p + |e|] == e
  {
  }

  // ----- Fixed width -----

  /** 256 to the power `k`. */
  function Bound(k: nat): nat {
    if k == 0 then 1 else 256 * Bound(k - 1)
  }

  /** The lowest `k` bytes of a number, lowest first. */
  function EncodeFixed(n: nat, k: nat): (r: Bytes)
    ensures |r| == k
  {
    if k == 0 then [] else [n % 256] + EncodeFixed(n / 256, k - 1)
  }

  function DecodeFixed(input: Bytes, p: nat, k: nat): (n: nat)
    requires p + k <= |input|
    ensures n < Bound(k)
    decreases |input| - p
  {
    if k == 0 then 0 else
      var b: int := input[p];
      b + 256 * DecodeFixed(input, p + 1, k - 1)
  }

  lemma {:induction false} FixedRoundTrip(input: Bytes, p: nat, n: nat, k: nat)
    requires Holds(input, p, EncodeFixed(n, k)) && n < Bound(k)
    ensures DecodeFixed(input, p, k) == n
    decreases k
  {
    if k > 0 {
      var rest := EncodeFixed(n / 256, k - 1);
      HoldsParts(input, p, [n % 256], rest);
      assert [n % 256][0] == n % 256;
      FixedRoundTrip(input, p + 1, n / 256, k - 1);
    }
  }

  // ----- Varints -----

  /** What is left of a number without its lowest seven bits (recursion keeps division out of the proofs). */
  function High(v: nat): (h: nat)
    ensures 0 <= v - 128 * h < 128
  {
    if v < 128 then 0 else 1 + High(v - 128)
  }

  function Low(v: nat): (l: nat)
    ensures l < 128
  {
    v - 128 * High(v)
  }

  lemma {:induction false} Shifted(v: nat)
    ensures High(v) == v / 128 && Low(v) == v % 128
  {
    if v >= 128 {
      Shifted(v - 128);
    }
  }

  function EncodeVarint(v: nat): (r: Bytes)
    ensures 0 < |r|
  {
    if v < 128 then [v] else [Low(v) + 128] + EncodeVarint(High(v))
  }

  /** Reading groups from position `p`, at most `left` of them, the first worth `scale`; `acc` is what
      has been read so far, and bits that do not fit under `modulus` are lost. */
  function GetVarint(input: Bytes, p: nat, left: nat, scale: nat, modulus: nat, acc: nat): (r: Option<(nat, nat)>)
    requires p <= |input| && modulus > 0
    ensures r.Some? ==> p < r.value.1 <= |input|
    decreases |input| - p
  {
    if left == 0 || p == |input| then None
    else
      var b: int := input[p];
      if b < 128 then Some((acc + b * scale % modulus, p + 1))
      else GetVarint(input, p + 1, left - 1, scale * 128, modulus, acc + (b - 128) * scale % modulus)
  }

  function GetVarint32(input: Bytes, p: nat): (r: Option<(nat, nat)>)
    requires p <= |input|
    ensures r.Some? ==> p < r.value.1 <= |input|
  {
    GetVarint(input, p, 5, 1, TWO_32, 0)
  }

  function GetVarint64(input: Bytes, p: nat): (r: Option<(nat, nat)>)
    requires p <= |input|
    ensures r.Some? ==> p < r.value.1 <= |input|
  {
    GetVarint(input, p, 10, 1, TWO_64, 0)
  }

  /** 128 to the power `k`. */
  function Groups(k: nat): nat {
    if k == 0 then 1 else 128 * Groups(k - 1)
  }

  lemma SplitGroup(v: nat, scale: nat)
    ensures Low(v) * scale + High(v) * (scale * 128) == v * scale
  {
    Distributes(Low(v), High(v), scale);
  }

  lemma Distributes(l: nat, h: nat, scale: nat)
    ensures l * scale + h * (scale * 128) == (128 * h + l) * scale
  {
  }

  lemma NothingLost(x: nat, y: nat, modulus: nat)
    requires x + y < modulus
    ensures x % modulus == x && y < modulus
  {
  }

  lemma MulNat(a: nat, b: nat)
    ensures 0 <= a * b
  {
  }

  /** The lowest group of a number that fits, and the rest of it, both fit. */
  lemma GroupFits(v: nat, scale: nat, modulus: nat)
    requires v * scale < modulus
    ensures (Low(v) * scale) % modulus == Low(v) * scale
    ensures High(v) * (scale * 128) < modulus
    ensures v * scale == Low(v) * scale + High(v) * (scale * 128)
  {
    SplitGroup(v, scale);
    MulNat(Low(v), scale);
    MulNat(High(v), scale * 128);
    NothingLost(Low(v) * scale, High(v) * (scale * 128), modulus);
  }

  lemma VarintStep(input: Bytes, p: nat, v: nat)
    requires Holds(input, p, EncodeVarint(v))
    ensures p < |input|
    ensures v < 128 ==> input[p] == v && |EncodeVarint(v)| == 1
    ensures v >= 128 ==> input[p] == Low(v) + 128 && Holds(input, p + 1, EncodeVarint(High(v)))
                         && |EncodeVarint(v)| == 1 + |EncodeVarint(High(v))|
  {
    assert input[p] == EncodeVarint(v)[0];
    if v >= 128 {
      HoldsParts(input, p, [Low(v) + 128], EncodeVarint(High(v)));
    }
  }

  lemma {:induction false} VarintRoundTrip(input: Bytes, p: nat, v: nat, left: nat, scale: nat, modulus: nat, acc: nat)
    requires Holds(input, p, EncodeVarint(v)) && 0 < left && v < Groups(left) && 0 < scale && v * scale < modulus
    ensures GetVarint(input, p, left, scale, modulus, acc) == Some((acc + v * scale, p + |EncodeVarint(v)|))
    decreases left
  {
    VarintStep(input, p, v);
    if v < 128 {
      NothingLost(v * scale, 0, modulus);
    } else {
      GroupFits(v, scale, modulus);
      VarintRoundTrip(input, p + 1, High(v), left - 1, scale * 128, modulus, acc + Low(v) * scale);
    }
  }

  /** A varint reads back, whatever follows it. */
  lemma Varint32RoundTrip(input: Bytes, p: nat, v: nat)
    requires Holds(input, p, EncodeVarint(v)) && v < TWO_32
    ensures GetVarint32(input, p) == Some((v, p + |EncodeVarint(v)|))
  {
    assert Groups(5) == 128 * (128 * (128 * (128 * 128)));
    VarintRoundTrip(input, p, v, 5, 1, TWO_32, 0);
  }

  lemma Varint64RoundTrip(input: Bytes, p: nat, v: nat)
    requires Holds(input, p, EncodeVarint(v)) && v < TWO_64
    ensures GetVarint64(input, p) == Some((v, p + |EncodeVarint(v)|))
  {
    assert Groups(10) == 128 * (128 * (128 * (128 * (128 * (128 * (128 * (128 * (128 * 128))))))));
    VarintRoundTrip(input, p, v, 10, 1, TWO_64, 0);
  }

  /** What an encoding reads back as, wherever it is in the input. */
  ghost predicate Reads32(input: Bytes, e: Bytes, v: nat) {
    |e| > 0 && forall q: nat {:trigger GetVarint32(input, q)} :: Holds(input, q, e) ==>
        GetVarint32(input, q) == Some((v, q + |e|))
  }

  lemma Varint32Reads(input: Bytes, v: nat)
    requires v < TWO_32
    ensures Reads32(input, EncodeVarint(v), v)
  {
    forall q: nat | Holds(input, q, EncodeVarint(v)) ensures GetVarint32(input, q) == Some((v, q + |EncodeVarint(v)|)) {
      Varint32RoundTrip(input, q, v);
    }
  }

  // ----- The loops -----

  /** The encoder's cases, by how many groups the number needs. */
  method EncodeVarint32(v: nat) returns (r: Bytes)
    requires v < TWO_32
    ensures r == EncodeVarint(v) && |r| <= 5
  {
    var a, b, c, d := v / 128, v / 128 / 128, v / 128 / 128 / 128, v / 128 / 128 / 128 / 128;
    VarintGroups(v, a, b, c, d);
    if v < 0x80 {
      r := [v];
    } else if v < 0x4000 {
      r := [v % 128 + 128, a];
    } else if v < 0x20_0000 {
      r := [v % 128 + 128, a % 128 + 128, b];
    } else if v < 0x1000_0000 {
      r := [v % 128 + 128, a % 128 + 128, b % 128 + 128, c];
    } else {
      r := [v % 128 + 128, a % 128 + 128, b % 128 + 128, c % 128 + 128, d];
    }
  }

  lemma {:induction false} VarintGroups(v: nat, a: nat, b: nat, c: nat, d: nat)
    requires v < TWO_32 && a == v / 128 && b == a / 128 && c == b / 128 && d == c / 128
    ensures EncodeVarint(v) == if v < 0x80 then [v]
                               else if v < 0x4000 then [v % 128 + 128, a]
                               else if v < 0x20_0000 then [v % 128 + 128, a % 128 + 128, b]
                               else if v < 0x1000_0000 then [v % 128 + 128, a % 128 + 128, b % 128 + 128, c]
                               else [v % 128 + 128, a % 128 + 128, b % 128 + 128, c % 128 + 128, d]
  {
    Shifted(v);
    Shifted(a);
    Shifted(b);
    Shifted(c);
    assert EncodeVarint(d) == [d];
    assert EncodeVarint(c) == if c < 128 then [c] else [c % 128 + 128] + EncodeVarint(d);
    assert EncodeVarint(b) == if b < 128 then [b] else [b % 128 + 128] + EncodeVarint(c);
    assert EncodeVarint(a) == if a < 128 then [a] else [a % 128 + 128] + EncodeVarint(b);
  }

  method EncodeVarint64(v: nat) returns (r: Bytes)
    ensures r == EncodeVarint(v)
  {
    r := [];
    var w := v;
    while w >= 128
      invariant r + EncodeVarint(w) == EncodeVarint(v)
    {
      Shifted(w);
      Associates(r, [w % 128 + 128], EncodeVarint(w / 128));
      r := r + [w % 128 + 128];
      w := w / 128;
    }
    r := r + [w];
  }

  /** The decoder's loop, for either width. */
  method GetVarintPtr(input: Bytes, start: nat, groups: nat, modulus: nat) returns (r: Option<(nat, nat)>)
    requires start <= |input| && modulus > 0
    ensures r == GetVarint(input, start, groups, 1, modulus, 0)
  {
    var p: nat, left: nat, scale: nat, result: nat := start, groups, 1, 0;
    while left > 0 && p < |input|
      invariant p <= |input|
                  && GetVarint(input, p, left, scale, modulus, result) == GetVarint(input, start, groups, 1, modulus, 0)
      decreases left
    {
      var b: int := input[p];
      MulNat(b, scale);
      p := p + 1;
      if b >= 128 {
        MulNat(b - 128, scale);
        result := result + (b - 128) * scale % modulus;
      } else {
        return Some((result + b * scale % modulus, p));
      }
      left, scale := left - 1, scale * 128;
    }
    r := None;
  }

  // ----- Length-prefixed strings -----

  function EncodeString(s: Bytes): (r: Bytes)
    ensures |s| < |r|
  {
    EncodeVarint(|s|) + s
  }

  function GetString(input: Bytes, p: nat): (r: Option<(Bytes, nat)>)
    requires p <= |input|
    ensures r.Some? ==> p < r.value.1 <= |input|
  {
    var length := GetVarint32(input, p);
    if length.Some? && length.value.1 + length.value.0 <= |input| then
      Some((input[length.value.1..length.value.1 + length.value.0], length.value.1 + length.value.0))
    else None
  }

  lemma StringRoundTrip(input: Bytes, p: nat, s: Bytes)
    requires Holds(input, p, EncodeString(s)) && |s| < TWO_32
    ensures GetString(input, p) == Some((s, p + |EncodeString(s)|))
  {
    HoldsParts(input, p, EncodeVarint(|s|), s);
    Varint32RoundTrip(input, p, |s|);
    HoldsSlice(input, p + |EncodeVarint(|s|)|, s);
  }

  // ----- One thing after another -----

  /** The encodings of the items from `i` on, one after the other. */
  function EncodeAll<T>(enc: T -> Bytes, items: seq<T>, i: nat): Bytes
    requires i <= |items|
    decreases |items| - i
  {
    if i == |items| then [] else enc(items[i]) + EncodeAll(enc, items, i + 1)
  }

  lemma {:induction false} EncodeAllShift<T>(enc: T -> Bytes, a: seq<T>, b: seq<T>, i: nat)
    requires i <= |b|
    ensures EncodeAll(enc, a + b, |a| + i) == EncodeAll(enc, b, i)
    decreases |b| - i
  {
    if i < |b| {
      assert (a + b)[|a| + i] == b[i];
      EncodeAllShift(enc, a, b, i + 1);
    }
  }

  lemma {:induction false} EncodeAllConcat<T>(enc: T -> Bytes, a: seq<T>, b: seq<T>, i: nat)
    requires i <= |a|
    ensures EncodeAll(enc, a + b, i) == EncodeAll(enc, a, i) + EncodeAll(enc, b, 0)
    decreases |a| - i
  {
    if i == |a| {
      EncodeAllShift(enc, a, b, 0);
    } else {
      assert (a + b)[i] == a[i];
      EncodeAllConcat(enc, a, b, i + 1);
      Associates(enc(a[i]), EncodeAll(enc, a, i + 1), EncodeAll(enc, b, 0));
    }
  }

  lemma EncodeAllPush<T>(enc: T -> Bytes, items: seq<T>, more: T)
    ensures EncodeAll(enc, items + [more], 0) == EncodeAll(enc, items, 0) + enc(more)
  {
    EncodeAllConcat(enc, items, [more], 0);
    assert EncodeAll(enc, [more], 1) == [];
    Unit(enc(more));
  }

  lemma Associates<T>(a: seq<T>, b: seq<T>, c: seq<T>)
    ensures a + (b + c) == a + b + c
  {
  }

  lemma Unit<T>(a: seq<T>)
    ensures a + [] == a
  {
  }

  lemma FourParts<T>(a: seq<T>, b: seq<T>, c: seq<T>, d: seq<T>)
    ensures a + b + c + d == a + (b + (c + d))
  {
  }

  // ----- Arrays of 32-bit words -----

  function Fixed32(n: nat): (r: Bytes)
    ensures |r| == 4
  {
    EncodeFixed(n, 4)
  }

  lemma BoundFour()
    ensures Bound(4) == TWO_32
  {
    assert Bound(4) == 256 * (256 * (256 * (256 * Bound(0))));
  }

  lemma WordBack(input: Bytes, p: nat, n: nat)
    requires Holds(input, p, Fixed32(n)) && n < TWO_32
    ensures DecodeFixed(input, p, 4) == n
  {
    BoundFour();
    FixedRoundTrip(input, p, n, 4);
  }

  /** Word `j` of the array at `start`. */
  function Word(input: Bytes, start: nat, j: nat): nat
    requires start + 4 * j + 4 <= |input|
  {
    DecodeFixed(input, start + 4 * j, 4)
  }

  lemma {:induction false} WordsLength(ns: seq<nat>, i: nat)
    requires i <= |ns|
    ensures |EncodeAll(Fixed32, ns, i)| == 4 * (|ns| - i)
    decreases |ns| - i
  {
    if i < |ns| {
      WordsLength(ns, i + 1);
    }
  }

  lemma {:induction false} WordAt(input: Bytes, p: nat, ns: seq<nat>, i: nat, j: nat)
    requires i <= j < |ns| && Holds(input, p, EncodeAll(Fixed32, ns, i)) && forall k :: 0 <= k < |ns| ==> ns[k] < TWO_32
    ensures p + 4 * (j - i) + 4 <= |input| && DecodeFixed(input, p + 4 * (j - i), 4) == ns[j]
    decreases j - i
  {
    HoldsParts(input, p, Fixed32(ns[i]), EncodeAll(Fixed32, ns, i + 1));
    if i == j {
      WordBack(input, p, ns[j]);
    } else {
      WordAt(input, p + 4, ns, i + 1, j);
    }
  }

  /** Every word of an array reads back. */
  lemma {:induction false} WordsBack(input: Bytes, start: nat, ns: seq<nat>)
    requires Holds(input, start, EncodeAll(Fixed32, ns, 0)) && forall k :: 0 <= k < |ns| ==> ns[k] < TWO_32
    ensures start + 4 * |ns| <= |input|
    ensures forall j :: 0 <= j < |ns| ==> Word(input, start, j) == ns[j]
  {
    WordsLength(ns, 0);
    forall j | 0 <= j < |ns| ensures Word(input, start, j) == ns[j] {
      WordAt(input, start, ns, 0, j);
    }
  }

  // ----- Items up to the end of the input -----

  /** What a decoder finds at a position: an item and where it ends, or an error. */
  datatype Found<T, E> = Item(value: T, next: nat) | Bad(error: E)

  /** The items from position `p` to the end of the input, up to the first error. */
  function DecodeAll<T, E>(dec: (Bytes, nat) -> Found<T, E>, input: Bytes, p: nat): (seq<T>, Option<E>)
    decreases |input| - p
  {
    if p >= |input| then ([], None)
    else
      match dec(input, p)
      case Bad(e) => ([], Some(e))
      case Item(v, next) =>
        if next <= p then ([v], None)
        else
          var rest := DecodeAll(dec, input, next);
          ([v] + rest.0, rest.1)
  }

  /** An item's encoding, wherever it is in the input, decodes to the item. */
  ghost predicate Decodes<T(!new), E(!new)>(enc: T -> Bytes, dec: (Bytes, nat) -> Found<T, E>, input: Bytes, x: T) {
    |enc(x)| > 0 && forall p: nat {:trigger dec(input, p)} :: Holds(input, p, enc(x)) ==>
        dec(input, p) == Item(x, p + |enc(x)|)
  }

  ghost predicate IsTail<T>(read: seq<T>, items: seq<T>, i: nat) {
    |read| + i == |items| && forall k :: 0 <= k < |read| ==> read[k] == items[i + k]
  }

  lemma {:induction false} AllRoundTrip<T(!new), E(!new)>(
      enc: T -> Bytes, dec: (Bytes, nat) -> Found<T, E>, input: Bytes, p: nat, items: seq<T>, i: nat)
    requires i <= |items| && Holds(input, p, EncodeAll(enc, items, i)) && |input| == p + |EncodeAll(enc, items, i)|
    requires forall k {:trigger items[k]} :: i <= k < |items| ==> Decodes(enc, dec, input, items[k])
    ensures DecodeAll(dec, input, p).1 == None && IsTail(DecodeAll(dec, input, p).0, items, i)
    decreases |items| - i
  {
    if i < |items| {
      var x := items[i];
      HoldsParts(input, p, enc(x), EncodeAll(enc, items, i + 1));
      assert Decodes(enc, dec, input, x);
      AllRoundTrip(enc, dec, input, p + |enc(x)|, items, i + 1);
    }
  }
}
