/** The order of keys as byte strings, and the short keys put between two blocks of a table
    (util/comparator.cc and db/dbformat.cc). */
module Separators {
  import opened Entries
  import opened Coding

  // ----- Byte strings -----

  /** Comparing byte by byte from position `i`; a proper prefix comes first. */
  predicate LessFrom(a: Bytes, b: Bytes, i: nat)
    requires i <= |a| && i <= |b|
    decreases |a| - i
  {
    i < |b| && (i == |a| || a[i] < b[i] || (a[i] == b[i] && LessFrom(a, b, i + 1)))
  }

  predicate Less(a: Bytes, b: Bytes) {
    LessFrom(a, b, 0)
  }

  lemma {:induction false} LessTransitive(a: Bytes, b: Bytes, c: Bytes, i: nat)
    requires i <= |a| && i <= |b| && i <= |c| && LessFrom(a, b, i) && LessFrom(b, c, i)
    ensures LessFrom(a, c, i)
    decreases |a| - i
  {
    if i < |a| && a[i] == b[i] == c[i] {
      LessTransitive(a, b, c, i + 1);
    }
  }

  lemma {:induction false} LessAsymmetric(a: Bytes, b: Bytes, i: nat)
    requires i <= |a| && i <= |b|
    ensures !(LessFrom(a, b, i) && LessFrom(b, a, i))
    decreases |a| - i
  {
    if i < |a| && i < |b| && a[i] == b[i] {
      LessAsymmetric(a, b, i + 1);
    }
  }

  lemma {:induction false} LessTotal(a: Bytes, b: Bytes, i: nat)
    requires i <= |a| && i <= |b| && !LessFrom(a, b, i) && !LessFrom(b, a, i)
    ensures |a| == |b| && forall j :: i <= j < |a| ==> a[j] == b[j]
    decreases |a| - i
  {
    if i < |a| && i < |b| {
      LessTotal(a, b, i + 1);
    }
  }

  /** A strict total order. */
  lemma LessOrder(a: Bytes, b: Bytes, c: Bytes)
    ensures Less(a, b) && Less(b, c) ==> Less(a, c)
    ensures !(Less(a, b) && Less(b, a))
    ensures Less(a, b) || Less(b, a) || a == b
  {
    if Less(a, b) && Less(b, c) {
      LessTransitive(a, b, c, 0);
    }
    LessAsymmetric(a, b, 0);
    if !Less(a, b) && !Less(b, a) {
      LessTotal(a, b, 0);
    }
  }

  lemma {:induction false} LessSkip(a: Bytes, b: Bytes, i: nat, n: nat)
    requires i <= n <= |a| && n <= |b| && forall j :: i <= j < n ==> a[j] == b[j]
    ensures LessFrom(a, b, i) == LessFrom(a, b, n)
    decreases n - i
  {
    if i < n {
      LessSkip(a, b, i + 1, n);
    }
  }

  /** `b` goes on where `a` ends, or has the larger byte where they first differ. */
  ghost predicate DifferAt(a: Bytes, b: Bytes, n: nat) {
    n <= |a| && n < |b| && a[..n] == b[..n] && (n == |a| || a[n] < b[n])
  }

  lemma SameBefore(a: Bytes, b: Bytes, n: nat, i: nat)
    requires DifferAt(a, b, n) && i <= n
    ensures i < n ==> i < |a| && a[i] == b[i]
  {
    if i < n {
      assert a[i] == a[..n][i] && b[i] == b[..n][i];
    }
  }

  lemma {:induction false} LessFromMeans(a: Bytes, b: Bytes, i: nat)
    requires i <= |a| && i <= |b| && a[..i] == b[..i]
    ensures LessFrom(a, b, i) <==> exists n :: i <= n && DifferAt(a, b, n)
    decreases |a| - i
  {
    if i < |a| && i < |b| && a[i] == b[i] {
      assert a[..i + 1] == a[..i] + [a[i]] && b[..i + 1] == b[..i] + [b[i]];
      LessFromMeans(a, b, i + 1);
    } else if i < |b| && (i == |a| || a[i] < b[i]) {
      assert DifferAt(a, b, i);
    } else {
      forall n | i <= n ensures !DifferAt(a, b, n) {
        if DifferAt(a, b, n) {
          SameBefore(a, b, n, i);
        }
      }
    }
  }

  lemma LessMeans(a: Bytes, b: Bytes)
    ensures Less(a, b) <==> exists n: nat :: DifferAt(a, b, n)
  {
    LessFromMeans(a, b, 0);
  }

  // ----- Short keys -----

  /** How long a prefix two strings share, from position `i`. */
  function CommonFrom(a: Bytes, b: Bytes, i: nat): (n: nat)
    requires i <= |a| && i <= |b|
    ensures i <= n <= |a| && n <= |b| && (forall j :: i <= j < n ==> a[j] == b[j])
    ensures n < |a| && n < |b| ==> a[n] != b[n]
    decreases |a| - i
  {
    if i < |a| && i < |b| && a[i] == b[i] then CommonFrom(a, b, i + 1) else i
  }

  /** The start with its first differing byte incremented and the rest cut off, where that stays below the
      limit; otherwise the start itself. */
  function ShortestSeparator(start: Bytes, limit: Bytes): Bytes {
    var n := CommonFrom(start, limit, 0);
    if n < |start| && n < |limit| && start[n] < 255 && start[n] + 1 < limit[n] then start[..n] + [start[n] + 1]
    else start
  }

  /** A separator is at or above the start, and below the limit when the start is. */
  lemma SeparatorBetween(start: Bytes, limit: Bytes)
    ensures var s := ShortestSeparator(start, limit);
            && !Less(s, start) && (Less(start, limit) ==> Less(s, limit)) && |s| <= |start|
            && (|s| < |start| ==> Less(start, s))
  {
    var n, s := CommonFrom(start, limit, 0), ShortestSeparator(start, limit);
    LessOrder(s, start, start);
    if s != start {
      LessSkip(s, limit, 0, n);
      LessSkip(start, s, 0, n);
    }
  }

  /** Strings between two that agree up to a position agree with them, and are as long. */
  lemma {:induction false} Squeezed(start: Bytes, t: Bytes, limit: Bytes, i: nat, n: nat)
    requires i <= n <= |start| && n <= |limit| && i <= |t| && forall j :: i <= j < n ==> start[j] == limit[j]
    requires !LessFrom(t, start, i) && LessFrom(t, limit, i)
    ensures n <= |t| && (forall j :: i <= j < n ==> t[j] == start[j])
    ensures !LessFrom(t, start, n) && LessFrom(t, limit, n)
    decreases n - i
  {
    if i < n {
      Squeezed(start, t, limit, i + 1, n);
    }
  }

  /** Where the start is shortened there is no shorter string from it on below the limit. */
  lemma ShortenedIsShortest(start: Bytes, limit: Bytes, t: Bytes)
    requires ShortestSeparator(start, limit) != start && !Less(t, start) && Less(t, limit)
    ensures |ShortestSeparator(start, limit)| <= |t|
  {
    Squeezed(start, t, limit, 0, CommonFrom(start, limit, 0));
  }

  lemma FirstDifference(a: Bytes, b: Bytes, n: nat)
    requires n < |a| && n < |b| && a[n] != b[n] && forall j :: 0 <= j < n ==> a[j] == b[j]
    ensures CommonFrom(a, b, 0) == n
  {
  }

  /** It is changed exactly when the first bytes that differ have another byte between them. */
  lemma ChangedExactly(start: Bytes, limit: Bytes, n: nat)
    requires n < |start| && n < |limit| && start[..n] == limit[..n] && start[n] != limit[n]
    ensures ShortestSeparator(start, limit) != start <==> start[n] < limit[n] && start[n] + 1 != limit[n]
    ensures ShortestSeparator(start, limit) != start ==> |ShortestSeparator(start, limit)| == n + 1
  {
    forall j | 0 <= j < n ensures start[j] == limit[j] {
      assert start[j] == start[..n][j] && limit[j] == limit[..n][j];
    }
    FirstDifference(start, limit, n);
    assert start[n] < limit[n] && start[n] + 1 != limit[n] ==> ShortestSeparator(start, limit)[n] == start[n] + 1;
  }

  method FindShortestSeparator(start: Bytes, limit: Bytes) returns (s: Bytes)
    ensures s == ShortestSeparator(start, limit)
  {
    s := start;
    var n := if |start| < |limit| then |start| else |limit|;
    var i := 0;
    while i < n && start[i] == limit[i]
      invariant i <= n && CommonFrom(start, limit, 0) == CommonFrom(start, limit, i)
    {
      i := i + 1;
    }
    if i < n && start[i] < 255 && start[i] + 1 < limit[i] {
      s := s[..i] + [s[i] + 1];
    }
  }

  /** The key with its first byte that can be incremented incremented, and the rest cut off. */
  function ShortSuccessor(key: Bytes, i: nat): (s: Bytes)
    requires i <= |key|
    decreases |key| - i
  {
    if i == |key| then key
    else if key[i] != 255 then key[..i] + [key[i] + 1]
    else ShortSuccessor(key, i + 1)
  }

  lemma {:induction false} SuccessorAbove(key: Bytes, i: nat)
    requires i <= |key| && forall j :: 0 <= j < i ==> key[j] == 255
    ensures var s := ShortSuccessor(key, i);
            && !Less(s, key) && |s| <= |key| && (Less(key, s) <==> exists j :: 0 <= j < |key| && key[j] != 255)
    decreases |key| - i
  {
    if i == |key| {
      LessOrder(key, key, key);
    } else if key[i] != 255 {
      var s := key[..i] + [key[i] + 1];
      LessSkip(key, s, 0, i);
      LessOrder(key, s, key);
    } else {
      SuccessorAbove(key, i + 1);
    }
  }

  /** It ends at the first byte that can be incremented. */
  lemma {:induction false} SuccessorShort(key: Bytes, i: nat, n: nat)
    requires i <= n < |key| && key[n] != 255
    ensures |ShortSuccessor(key, i)| <= n + 1
    decreases n - i
  {
    if i < n {
      SuccessorShort(key, i + 1, n);
    }
  }

  method FindShortSuccessor(key: Bytes) returns (s: Bytes)
    ensures s == ShortSuccessor(key, 0)
  {
    s := key;
    for i := 0 to |key|
      invariant s == key && ShortSuccessor(key, 0) == ShortSuccessor(key, i)
    {
      if key[i] != 255 {
        return s[..i] + [key[i] + 1];
      }
    }
  }

  // ----- Internal keys as bytes -----

  function InternalKey(user: Bytes, tag: nat): Bytes {
    user + EncodeFixed(tag, 8)
  }

  /** A string too short for a tag does not occur as a key; it reads as a user key of tag zero. */
  function UserKey(k: Bytes): Bytes {
    if |k| < 8 then k else k[..|k| - 8]
  }

  function TagOf(k: Bytes): nat {
    if |k| < 8 then 0 else DecodeFixed(k, |k| - 8, 8)
  }

  /** Increasing user key, then decreasing tag. */
  predicate InternalLess(a: Bytes, b: Bytes) {
    Less(UserKey(a), UserKey(b)) || (UserKey(a) == UserKey(b) && TagOf(a) > TagOf(b))
  }

  lemma InternalOrder(a: Bytes, b: Bytes, c: Bytes)
    ensures InternalLess(a, b) && InternalLess(b, c) ==> InternalLess(a, c)
    ensures !InternalLess(a, a)
    ensures !InternalLess(a, b) && !InternalLess(b, c) ==> !InternalLess(a, c)
  {
    LessOrder(UserKey(a), UserKey(b), UserKey(c));
    LessOrder(UserKey(b), UserKey(a), UserKey(c));
    LessOrder(UserKey(c), UserKey(b), UserKey(a));
    LessOrder(UserKey(a), UserKey(c), UserKey(b));
    LessOrder(UserKey(a), UserKey(a), UserKey(a));
  }

  lemma InternalKeyParts(user: Bytes, tag: nat)
    requires tag < TWO_64
    ensures UserKey(InternalKey(user, tag)) == user && TagOf(InternalKey(user, tag)) == tag
  {
    assert Bound(8) == 256 * (256 * (256 * (256 * (256 * (256 * (256 * 256))))));
    var k := InternalKey(user, tag);
    assert k[..|k| - 8] == user;
    FixedRoundTrip(k, |user|, tag, 8);
  }

  /** The shortened user key, if shorter and larger, with the first tag there is; otherwise the start. */
  function InternalSeparator(start: Bytes, limit: Bytes): Bytes {
    var s := ShortestSeparator(UserKey(start), UserKey(limit));
    if |s| < |UserKey(start)| && Less(UserKey(start), s) then InternalKey(s, MAX_TAG) else start
  }

  /** Between the two keys; and when it is not the start itself, its user key is below the limit's. */
  lemma InternalSeparatorBetween(start: Bytes, limit: Bytes)
    requires InternalLess(start, limit)
    ensures var s := InternalSeparator(start, limit);
            && !InternalLess(s, start) && InternalLess(s, limit) && (|start| >= 8 ==> 8 <= |s| <= |start|)
            && (s == start || Less(UserKey(s), UserKey(limit)))
  {
    var s := ShortestSeparator(UserKey(start), UserKey(limit));
    SeparatorBetween(UserKey(start), UserKey(limit));
    InternalOrder(start, start, start);
    if InternalSeparator(start, limit) != start {
      InternalKeyParts(s, MAX_TAG);
      LessOrder(UserKey(start), s, UserKey(start));
      LessOrder(UserKey(start), UserKey(limit), UserKey(start));
      assert UserKey(start) != UserKey(limit);
    }
  }

  method FindInternalSeparator(start: Bytes, limit: Bytes) returns (s: Bytes)
    ensures s == InternalSeparator(start, limit)
  {
    var tmp := FindShortestSeparator(UserKey(start), UserKey(limit));
    if |tmp| < |UserKey(start)| && Less(UserKey(start), tmp) {
      s := tmp + EncodeFixed(MAX_TAG, 8);
    } else {
      s := start;
    }
  }

  function InternalSuccessor(key: Bytes): Bytes {
    var s := ShortSuccessor(UserKey(key), 0);
    if |s| < |UserKey(key)| && Less(UserKey(key), s) then InternalKey(s, MAX_TAG) else key
  }

  lemma InternalSuccessorAbove(key: Bytes)
    ensures var s := InternalSuccessor(key); !InternalLess(s, key) && (|key| >= 8 ==> 8 <= |s| <= |key|)
  {
    var s := ShortSuccessor(UserKey(key), 0);
    SuccessorAbove(UserKey(key), 0);
    InternalOrder(key, key, key);
    if InternalSuccessor(key) != key {
      InternalKeyParts(s, MAX_TAG);
      LessOrder(UserKey(key), s, UserKey(key));
    }
  }

  method FindInternalSuccessor(key: Bytes) returns (s: Bytes)
    ensures s == InternalSuccessor(key)
  {
    var tmp := FindShortSuccessor(UserKey(key));
    if |tmp| < |UserKey(key)| && Less(UserKey(key), tmp) {
      s := tmp + EncodeFixed(MAX_TAG, 8);
    } else {
      s := key;
    }
  }
}
