/** Circular doubly linked lists threaded through one arena (util/cache.cc, LRU_Remove and LRU_Append):
    each list hangs off a head that is a node itself. */
module Rings {

  datatype Links = Links(next: seq<nat>, prev: seq<nat>)

  ghost predicate Distinct(list: seq<nat>) {
    forall i, j :: 0 <= i < j < |list| ==> list[i] != list[j]
  }

  /** The node at place `i` of the ring, the head being place 0. */
  function At(head: nat, list: seq<nat>, i: nat): nat
    requires i <= |list|
  {
    if i == 0 then head else list[i - 1]
  }

  /** The node after place `i`. */
  function After(head: nat, list: seq<nat>, i: nat): nat
    requires i <= |list|
  {
    if i < |list| then list[i] else head
  }

  ghost predicate Linked(l: Links, head: nat, list: seq<nat>, i: nat)
    requires i <= |list|
  {
    && At(head, list, i) < |l.next| && After(head, list, i) < |l.prev|
    && l.next[At(head, list, i)] == After(head, list, i) && l.prev[After(head, list, i)] == At(head, list, i)
  }

  /** Going around from the head meets exactly the nodes of `list`, in order, and back again. */
  ghost predicate Ring(l: Links, head: nat, list: seq<nat>) {
    && |l.next| == |l.prev| && Distinct(list) && head !in list
    && forall i {:trigger Linked(l, head, list, i)} :: 0 <= i <= |list| ==> Linked(l, head, list, i)
  }

  function Removed(l: Links, e: nat): Links
    requires e < |l.next| == |l.prev| && l.next[e] < |l.prev| && l.prev[e] < |l.next|
  {
    Links(l.next[l.prev[e] := l.next[e]], l.prev[l.next[e] := l.prev[e]])
  }

  function Appended(l: Links, head: nat, e: nat): Links
    requires head < |l.next| == |l.prev| && e < |l.next| && l.prev[head] < |l.next|
  {
    var last := l.prev[head];
    Links(l.next[e := head][last := e], l.prev[e := last][head := e])
  }

  function Cut(list: seq<nat>, i: nat): seq<nat>
    requires i < |list|
  {
    list[..i] + list[i + 1..]
  }

  lemma RemovedRing(l: Links, head: nat, list: seq<nat>, i: nat)
    requires Ring(l, head, list) && i < |list|
    ensures var e := list[i];
            && e < |l.next| && l.next[e] == After(head, list, i + 1) && l.prev[e] == At(head, list, i)
            && l.next[e] < |l.prev| && l.prev[e] < |l.next|
            && Ring(Removed(l, e), head, Cut(list, i))
  {
    var e := list[i];
    assert Linked(l, head, list, i) && Linked(l, head, list, i + 1);
    var m, cut := Removed(l, e), Cut(list, i);
    assert forall k :: 0 <= k < |cut| ==> cut[k] == list[if k < i then k else k + 1];
    forall k | 0 <= k <= |cut| ensures Linked(m, head, cut, k) {
      var o := if k < i then k else k + 1;
      assert Linked(l, head, list, o);
      assert k < i ==> At(head, cut, k) == At(head, list, k) && After(head, cut, k) == After(head, list, k);
      assert k == i ==> At(head, cut, k) == At(head, list, i) && After(head, cut, k) == After(head, list, i + 1);
      assert k > i ==> At(head, cut, k) == At(head, list, k + 1) && After(head, cut, k) == After(head, list, k + 1);
    }
  }

  lemma AppendedRing(l: Links, head: nat, list: seq<nat>, e: nat)
    requires Ring(l, head, list) && e != head && e !in list && e < |l.next|
    ensures head < |l.next| && l.prev[head] < |l.next| && l.prev[head] == At(head, list, |list|)
    ensures Ring(Appended(l, head, e), head, list + [e])
  {
    assert Linked(l, head, list, |list|);
    var m, more := Appended(l, head, e), list + [e];
    forall k | 0 <= k <= |more| ensures Linked(m, head, more, k) {
      if k < |list| {
        assert Linked(l, head, list, k);
        assert At(head, more, k) == At(head, list, k) && After(head, more, k) == list[k];
        assert At(head, list, k) != At(head, list, |list|);
      } else {
        assert At(head, more, |list|) == At(head, list, |list|) && At(head, more, |more|) == e;
      }
    }
  }

  /** A ring does not notice changes to nodes that are not on it. */
  lemma RingFrame(l: Links, m: Links, head: nat, list: seq<nat>)
    requires Ring(l, head, list) && |m.next| == |m.prev| && |l.next| <= |m.next|
    requires head < |l.next| && m.next[head] == l.next[head] && m.prev[head] == l.prev[head]
    requires forall x :: x in list && x < |l.next| ==> m.next[x] == l.next[x] && m.prev[x] == l.prev[x]
    ensures Ring(m, head, list)
  {
    forall k | 0 <= k <= |list| ensures Linked(m, head, list, k) {
      assert Linked(l, head, list, k);
      assert k > 0 ==> list[k - 1] in list;
      assert k < |list| ==> list[k] in list;
    }
  }

  lemma OnRing(l: Links, head: nat, list: seq<nat>, x: nat)
    requires Ring(l, head, list) && (x == head || x in list)
    ensures x < |l.next| && (l.next[x] == head || l.next[x] in list) && (l.prev[x] == head || l.prev[x] in list)
  {
    var k: nat := 0;
    if x != head {
      var j :| 0 <= j < |list| && list[j] == x;
      k := j + 1;
      assert Linked(l, head, list, j);
    } else {
      assert Linked(l, head, list, |list|);
    }
    assert Linked(l, head, list, k);
  }

  /** Two rings through the same arena. */
  ghost predicate TwoRings(l: Links, a: seq<nat>, b: seq<nat>) {
    && Ring(l, 0, a) && Ring(l, 1, b)
    && 0 !in b && 1 !in a && forall x :: x in a ==> x !in b
  }
}
