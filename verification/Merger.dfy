/** The merging iterator (table/merger.cc): several sorted children presented as one sorted list,
    with a change of direction allowed at every position. */
module Merger {
  import opened Entries
  import opened Cursors

  // ----- The list the children merge into -----

  /** Every child is sorted and no internal key occurs in two children. */
  ghost predicate Mergeable(children: seq<seq<Entry>>) {
    && (forall i :: 0 <= i < |children| ==> Sorted(children[i]))
    && (forall i, j, a, b ::
          0 <= i < |children| && 0 <= j < |children| && i != j && 0 <= a < |children[i]| && 0 <= b < |children[j]|
          ==> Before(children[i][a], children[j][b]) || Before(children[j][b], children[i][a]))
  }

  ghost predicate InSome(children: seq<seq<Entry>>, e: Entry) {
    exists i :: 0 <= i < |children| && e in children[i]
  }

  ghost predicate IsMerge(merged: seq<Entry>, children: seq<seq<Entry>>) {
    && Sorted(merged)
    && (forall k :: 0 <= k < |merged| ==> InSome(children, merged[k]))
    && (forall i, a :: 0 <= i < |children| && 0 <= a < |children[i]| ==> children[i][a] in merged)
  }

  /** Inserts one entry into a sorted list. */
  function Insert(es: seq<Entry>, e: Entry): (r: seq<Entry>)
    requires Sorted(es)
    requires forall a :: 0 <= a < |es| ==> Before(es[a], e) || Before(e, es[a])
    ensures Sorted(r)
    ensures forall x :: x in r <==> x == e || x in es
  {
    if es == [] then [e]
    else if Before(e, es[0]) then [e] + es
    else
      assert es == [es[0]] + es[1..];
      var r := Insert(es[1..], e);
      assert forall k :: 0 <= k < |r| ==> r[k] in r;
      [es[0]] + r
  }

  lemma {:induction false} MergeChild(base: seq<Entry>, child: seq<Entry>) returns (merged: seq<Entry>)
    requires Sorted(base) && Sorted(child)
    requires forall a, b :: 0 <= a < |base| && 0 <= b < |child| ==>
               Before(base[a], child[b]) || Before(child[b], base[a])
    ensures Sorted(merged)
    ensures forall x :: x in merged <==> x in base || x in child
  {
    if child == [] {
      merged := base;
    } else {
      var n := |child| - 1;
      var rest := MergeChild(base, child[..n]);
      forall a | 0 <= a < |rest| ensures Before(rest[a], child[n]) || Before(child[n], rest[a]) {
        assert rest[a] in rest;
      }
      merged := Insert(rest, child[n]);
      assert child == child[..n] + [child[n]];
    }
  }

  /** Mergeable children do have a merge. */
  lemma {:induction false} MergeExists(children: seq<seq<Entry>>) returns (merged: seq<Entry>)
    requires Mergeable(children)
    ensures IsMerge(merged, children)
  {
    if children == [] {
      merged := [];
    } else {
      var n := |children| - 1;
      var rest := MergeExists(children[..n]);
      forall a, b | 0 <= a < |rest| && 0 <= b < |children[n]|
        ensures Before(rest[a], children[n][b]) || Before(children[n][b], rest[a])
      {
        assert InSome(children[..n], rest[a]);
        var i :| 0 <= i < n && rest[a] in children[..n][i];
      }
      merged := MergeChild(rest, children[n]);
      forall k | 0 <= k < |merged| ensures InSome(children, merged[k]) {
        if merged[k] in rest {
          var r :| 0 <= r < |rest| && rest[r] == merged[k];
          assert InSome(children[..n], rest[r]);
          var i :| 0 <= i < n && rest[r] in children[..n][i];
          assert merged[k] in children[i];
        } else {
          assert merged[k] in children[n];
        }
      }
      forall i, a | 0 <= i < |children| && 0 <= a < |children[i]| ensures children[i][a] in merged {
        if i < n { assert children[..n][i] == children[i]; }
      }
    }
  }

  lemma TailMembers(p: seq<Entry>, x: Entry)
    requires Sorted(p) && p != []
    ensures x in p[1..] <==> x in p && x != p[0]
  {
    if x in p[1..] {
      var k :| 1 <= k < |p| && p[k] == x;
      assert Before(p[0], p[k]);
    }
  }

  /** The merge is unique, so the iterator's list is fixed by its children. */
  lemma {:induction false} MergeUnique(p: seq<Entry>, q: seq<Entry>)
    requires Sorted(p) && Sorted(q)
    requires forall x :: x in p <==> x in q
    ensures p == q
  {
    assert p != [] ==> p[0] in p;
    assert q != [] ==> q[0] in q;
    if p != [] && q != [] {
      assert p[0] in q && q[0] in p;
      assert p[0] == q[0];
      forall x ensures x in p[1..] <==> x in q[1..] {
        TailMembers(p, x);
        TailMembers(q, x);
      }
      MergeUnique(p[1..], q[1..]);
      assert p == [p[0]] + p[1..] && q == [q[0]] + q[1..];
    }
  }

  // ----- Ranks: where each child entry stands in the merge, and back -----

  /** `ranks[i][a]` is the index in the merge of entry `a` of child `i`; `owner` and `place` lead back. */
  datatype Ranking = Ranking(ranks: seq<seq<nat>>, owner: seq<nat>, place: seq<nat>)

  /** Rank k belongs to an entry of some child. */
  ghost predicate LeadsBack(r: Ranking, k: nat) {
    && k < |r.owner| && k < |r.place| && r.owner[k] < |r.ranks| && r.place[k] < |r.ranks[r.owner[k]]|
    && r.ranks[r.owner[k]][r.place[k]] == k
  }

  ghost predicate Ranked(merged: seq<Entry>, children: seq<seq<Entry>>, r: Ranking) {
    && |r.ranks| == |children| && |r.owner| == |r.place| == |merged|
    && (forall i :: 0 <= i < |children| ==> |r.ranks[i]| == |children[i]|)
    && (forall i, a :: 0 <= i < |r.ranks| && 0 <= a < |r.ranks[i]| ==>
          && r.ranks[i][a] < |merged| && merged[r.ranks[i][a]] == children[i][a]
          && r.owner[r.ranks[i][a]] == i && r.place[r.ranks[i][a]] == a)
    && (forall k :: 0 <= k < |merged| ==> LeadsBack(r, k))
    && (forall i, a, b :: 0 <= i < |r.ranks| && 0 <= a < b < |r.ranks[i]| ==> r.ranks[i][a] < r.ranks[i][b])
  }

  ghost function RankOf(merged: seq<Entry>, e: Entry): (k: nat)
    requires e in merged
    ensures k < |merged| && merged[k] == e
  {
    var k :| 0 <= k < |merged| && merged[k] == e; k
  }

  lemma RankOfOrder(merged: seq<Entry>, x: Entry, y: Entry)
    requires Sorted(merged) && x in merged && y in merged
    ensures Before(x, y) <==> RankOf(merged, x) < RankOf(merged, y)
  {
    var k, m := RankOf(merged, x), RankOf(merged, y);
    if k < m { assert Before(merged[k], merged[m]); }
    if m < k { assert Before(merged[m], merged[k]); }
  }

  ghost function OwnerOf(children: seq<seq<Entry>>, e: Entry): (i: nat)
    requires InSome(children, e)
    ensures i < |children| && e in children[i]
  {
    var i :| 0 <= i < |children| && e in children[i]; i
  }

  lemma RanksExist(merged: seq<Entry>, children: seq<seq<Entry>>) returns (r: Ranking)
    requires Mergeable(children) && IsMerge(merged, children)
    ensures Ranked(merged, children, r)
  {
    var ranks := seq(|children|, i requires 0 <= i < |children| =>
      seq(|children[i]|, a requires 0 <= a < |children[i]| => RankOf(merged, children[i][a])));
    var owner := seq(|merged|, k requires 0 <= k < |merged| => OwnerOf(children, merged[k]));
    var place := seq(|merged|, k requires 0 <= k < |merged| => RankOf(children[owner[k]], merged[k]));
    r := Ranking(ranks, owner, place);
    forall i, a, b | 0 <= i < |ranks| && 0 <= a < b < |ranks[i]| ensures ranks[i][a] < ranks[i][b] {
      RankOfOrder(merged, children[i][a], children[i][b]);
    }
    forall i, a | 0 <= i < |ranks| && 0 <= a < |ranks[i]|
      ensures owner[ranks[i][a]] == i && place[ranks[i][a]] == a
    {
      OwnerUnique(children, i, a);
      RankInverse(children[i], a);
    }
    forall k | 0 <= k < |merged| ensures LeadsBack(r, k) {
      RankInverse(merged, k);
    }
  }

  lemma OwnerUnique(children: seq<seq<Entry>>, i: nat, a: nat)
    requires Mergeable(children) && i < |children| && a < |children[i]|
    ensures OwnerOf(children, children[i][a]) == i
  {
    var j := OwnerOf(children, children[i][a]);
    var b :| 0 <= b < |children[j]| && children[j][b] == children[i][a];
  }

  lemma RankInverse(merged: seq<Entry>, k: nat)
    requires Sorted(merged) && k < |merged|
    ensures RankOf(merged, merged[k]) == k
  {
  }

  datatype Direction = Forward | Reverse

  class MergingIterator {
    const children: seq<seq<Entry>>
    var pos: seq<nat>             // position of each child; its length when the child is not valid
    var current: Option<nat>
    var direction: Direction
    ghost const merged: seq<Entry>
    ghost const r: Ranking
    ghost var cursor: nat

    ghost predicate Shape() reads this {
      && Ranked(merged, children, r) && Sorted(merged)
      && |pos| == |children|
      && (forall i :: 0 <= i < |pos| ==> pos[i] <= |children[i]|)
    }

    /** Position `p` is a child's first entry of rank `c` or more. */
    static ghost predicate From(ranks: seq<nat>, p: nat, c: nat) {
      && p <= |ranks|
      && (forall a :: 0 <= a < p ==> ranks[a] < c)
      && (forall a :: p <= a < |ranks| ==> c <= ranks[a])
    }

    /** Position `p` is a child's last entry of rank below `c`, and is past the end when there is none. */
    static ghost predicate UpTo(ranks: seq<nat>, p: nat, c: nat) {
      if p < |ranks| then
        && (forall a :: 0 <= a <= p ==> ranks[a] < c)
        && (forall a :: p < a < |ranks| ==> c <= ranks[a])
      else
        forall a :: 0 <= a < |ranks| ==> c <= ranks[a]
    }

    ghost predicate OnCursor() reads this {
      && |r.ranks| == |pos|
      && (current.None? <==> cursor == |merged|)
      && (current.Some? ==>
            && current.value < |pos| && pos[current.value] < |r.ranks[current.value]|
            && r.ranks[current.value][pos[current.value]] == cursor)
    }

    ghost predicate Invariant() reads this {
      && Shape() && OnCursor() && cursor <= |merged|
      && (current.Some? && direction.Forward? ==>
            forall i :: 0 <= i < |pos| ==> From(r.ranks[i], pos[i], cursor))
      && (current.Some? && direction.Reverse? ==>
            forall i :: 0 <= i < |pos| && i != current.value ==> UpTo(r.ranks[i], pos[i], cursor))
    }

    /** The ranked list is the merge of the children, and each child is sorted. */
    lemma IsTheMerge()
      requires Shape()
      ensures IsMerge(merged, children)
      ensures forall i :: 0 <= i < |children| ==> Sorted(children[i])
    {
      forall k | 0 <= k < |merged| ensures InSome(children, merged[k]) {
        assert LeadsBack(r, k);
        assert merged[k] == children[r.owner[k]][r.place[k]];
        assert merged[k] in children[r.owner[k]];
      }
    }

    constructor (cs: seq<seq<Entry>>)
      requires Mergeable(cs)
      ensures Invariant() && children == cs && IsMerge(merged, cs)
      ensures cursor == |merged|
    {
      children := cs;
      pos := seq(|cs|, i requires 0 <= i < |cs| => |cs[i]|);
      current, direction := None, Forward;
      ghost var m := MergeExists(cs);
      ghost var ranking := RanksExist(m, cs);
      merged, r, cursor := m, ranking, |m|;
    }

    method Current() returns (e: Option<Entry>)
      requires Invariant()
      ensures e == Shown(merged, cursor)
    {
      if current.Some? {
        e := Some(children[current.value][pos[current.value]]);
      } else {
        e := None;
      }
    }

    /** Child entries compare the way their ranks do. */
    lemma RankOrder(i: nat, a: nat, j: nat, b: nat)
      requires Shape() && i < |children| && j < |children| && a < |children[i]| && b < |children[j]|
      ensures Before(children[i][a], children[j][b]) <==> r.ranks[i][a] < r.ranks[j][b]
    {
      var x, y := r.ranks[i][a], r.ranks[j][b];
      if x < y { assert Before(merged[x], merged[y]); }
      if y < x { assert Before(merged[y], merged[x]); }
    }

    /** With every child at its first entry of rank c or more, the smallest child entry has rank c. */
    method FindSmallest(ghost c: nat)
      requires Shape() && c <= |merged|
      requires forall i :: 0 <= i < |pos| ==> From(r.ranks[i], pos[i], c)
      modifies this`current, this`cursor
      ensures Shape() && OnCursor() && cursor == c
    {
      current := None;
      for i := 0 to |children|
        invariant current.None? ==> forall j :: 0 <= j < i ==> pos[j] == |children[j]|
        invariant current.Some? ==>
                    && current.value < i && pos[current.value] < |children[current.value]|
                    && forall j :: 0 <= j < i && pos[j] < |children[j]| ==>
                         r.ranks[current.value][pos[current.value]] <= r.ranks[j][pos[j]]
      {
        if pos[i] < |children[i]| {
          if current.None? {
            current := Some(i);
          } else {
            RankOrder(i, pos[i], current.value, pos[current.value]);
            if Before(children[i][pos[i]], children[current.value][pos[current.value]]) {
              current := Some(i);
            }
          }
        }
      }
      cursor := c;
      if c < |merged| {
        assert LeadsBack(r, c);
        ghost var i, a := r.owner[c], r.place[c];
        assert pos[i] == a by { assert From(r.ranks[i], pos[i], c); }
        assert From(r.ranks[current.value], pos[current.value], c);
      }
    }

    /** With every child at its last entry of rank below c, the largest child entry has rank c - 1. */
    method FindLargest(ghost c: nat)
      requires Shape() && c <= |merged|
      requires forall i :: 0 <= i < |pos| ==> UpTo(r.ranks[i], pos[i], c)
      modifies this`current, this`cursor
      ensures Shape() && OnCursor() && cursor == if c == 0 then |merged| else c - 1
    {
      current := None;
      for i := |children| downto 0
        invariant current.None? ==> forall j :: i <= j < |children| ==> pos[j] == |children[j]|
        invariant current.Some? ==>
                    && i <= current.value < |children| && pos[current.value] < |children[current.value]|
                    && forall j :: i <= j < |children| && pos[j] < |children[j]| ==>
                         r.ranks[j][pos[j]] <= r.ranks[current.value][pos[current.value]]
      {
        if pos[i] < |children[i]| {
          if current.None? {
            current := Some(i);
          } else {
            RankOrder(current.value, pos[current.value], i, pos[i]);
            if Before(children[current.value][pos[current.value]], children[i][pos[i]]) {
              current := Some(i);
            }
          }
        }
      }
      if 0 < c {
        cursor := c - 1;
        assert LeadsBack(r, c - 1);
        ghost var i, a := r.owner[c - 1], r.place[c - 1];
        assert pos[i] == a by { assert UpTo(r.ranks[i], pos[i], c); }
        assert UpTo(r.ranks[current.value], pos[current.value], c);
      } else {
        cursor := |merged|;
      }
    }

    /** A child's own Seek: its first entry that is not before `e`. */
    method ChildSeek(i: nat, t: Target) returns (p: nat)
      requires Shape() && i < |children|
      ensures IsLowerBound(children[i], t, p)
    {
      IsTheMerge();
      p := 0;
      var es := children[i];
      while p < |es| && BeforeTarget(es[p], t)
        invariant p <= |es|
        invariant forall j :: 0 <= j < p ==> BeforeTarget(es[j], t)
      {
        p := p + 1;
      }
      forall j | p <= j < |es| ensures !BeforeTarget(es[j], t) {
        assert j == p || Before(es[p], es[j]);
      }
    }

    method SeekToFirst()
      requires Invariant()
      modifies this
      ensures Invariant()
      ensures cursor == Move(merged, AtOrAfter, old(cursor), Op.SeekToFirst)
    {
      for i := 0 to |children|
        invariant Shape()
        invariant forall j :: 0 <= j < i ==> pos[j] == 0
      {
        pos := pos[i := 0];
      }
      FindSmallest(0);
      direction := Forward;
    }

    method SeekToLast()
      requires Invariant()
      modifies this
      ensures Invariant()
      ensures cursor == Move(merged, AtOrAfter, old(cursor), Op.SeekToLast)
    {
      for i := 0 to |children|
        invariant Shape()
        invariant forall j :: 0 <= j < i ==> pos[j] == if children[j] == [] then 0 else |children[j]| - 1
      {
        pos := pos[i := if children[i] == [] then 0 else |children[i]| - 1];
      }
      FindLargest(|merged|);
      direction := Reverse;
      assert current.Some? ==> forall i :: 0 <= i < |pos| && i != current.value ==> UpTo(r.ranks[i], pos[i], cursor);
    }

    method Seek(t: Target)
      requires Invariant()
      modifies this
      ensures Invariant()
      ensures cursor == Move(merged, AtOrAfter, old(cursor), Op.Seek(t))
    {
      ghost var c := FirstAtOrAbove(merged, AtOrAfter, t);
      SplitAt(t);
      for i := 0 to |children|
        invariant Shape()
        invariant forall j :: 0 <= j < i ==> From(r.ranks[j], pos[j], c)
      {
        var p := ChildSeek(i, t);
        pos := pos[i := p];
        assert From(r.ranks[i], pos[i], c) by {
          forall a | 0 <= a < |r.ranks[i]| ensures r.ranks[i][a] < c <==> BeforeTarget(children[i][a], t) {
            assert merged[r.ranks[i][a]] == children[i][a];
          }
        }
      }
      FindSmallest(c);
      direction := Forward;
    }

    /** The seek target splits the merge at the cursor's destination. */
    lemma SplitAt(t: Target)
      requires Shape()
      ensures forall k :: 0 <= k < |merged| ==>
                (k < FirstAtOrAbove(merged, AtOrAfter, t) <==> BeforeTarget(merged[k], t))
    {
      var k := 0;
      while k < |merged| && BeforeTarget(merged[k], t)
        invariant k <= |merged| && forall j :: 0 <= j < k ==> BeforeTarget(merged[j], t)
      {
        k := k + 1;
      }
      FirstAtOrAboveIs(merged, AtOrAfter, t, k);
      forall j | k <= j < |merged| ensures !BeforeTarget(merged[j], t) {
        assert j == k || Before(merged[k], merged[j]);
      }
    }

    /** The target that compares like an entry itself. */
    static function TargetOf(e: Entry): Target {
      Target(e.key, e.Tag())
    }

    /** A child's first entry after the given one, which it may or may not hold itself. */
    static method PlaceAfter(child: seq<Entry>, t: Target, ghost ranks: seq<nat>, ghost c: nat) returns (p: nat)
      requires Sorted(child) && |ranks| == |child|
      requires forall a, b :: 0 <= a < b < |ranks| ==> ranks[a] < ranks[b]
      requires forall a :: 0 <= a < |child| ==> (BeforeTarget(child[a], t) <==> ranks[a] < c)
      requires forall a :: 0 <= a < |child| ==> (child[a].key == t.key && child[a].Tag() == t.tag <==> ranks[a] == c)
      ensures From(ranks, p, c + 1)
    {
      p := 0;
      while p < |child| && BeforeTarget(child[p], t)
        invariant p <= |child| && forall j :: 0 <= j < p ==> BeforeTarget(child[j], t)
      {
        p := p + 1;
      }
      if p < |child| && child[p].key == t.key && child[p].Tag() == t.tag {
        p := p + 1;
      }
    }

    /** The child's last entry before the current one. */
    method PlaceBefore(i: nat, cur: nat) returns (p: nat)
      requires Shape() && OnCursor() && current == Some(cur) && i < |children| && i != cur
      ensures p <= |children[i]| && UpTo(r.ranks[i], p, cursor)
    {
      var key := children[cur][pos[cur]];
      p := ChildSeek(i, TargetOf(key));
      forall a | 0 <= a < |children[i]|
        ensures BeforeTarget(children[i][a], TargetOf(key)) <==> r.ranks[i][a] < cursor
      {
        RankOrder(i, a, cur, pos[cur]);
      }
      if p < |children[i]| {
        p := if p == 0 then |children[i]| else p - 1;
      } else {
        p := if children[i] == [] then 0 else |children[i]| - 1;
      }
    }

    /** Puts every other child just after the current entry. */
    method TurnForward()
      requires Invariant() && current.Some? && direction.Reverse?
      modifies this`pos, this`direction
      ensures Shape() && OnCursor() && direction.Forward?
      ensures forall i :: 0 <= i < |pos| && i != current.value ==> From(r.ranks[i], pos[i], cursor + 1)
    {
      for i := 0 to |children|
        invariant Shape() && OnCursor()
        invariant forall j :: 0 <= j < i && j != current.value ==> From(r.ranks[j], pos[j], cursor + 1)
      {
        if i != current.value {
          var t := TargetOf(children[current.value][pos[current.value]]);
          IsTheMerge();
          forall a | 0 <= a < |children[i]|
            ensures BeforeTarget(children[i][a], t) <==> r.ranks[i][a] < cursor
            ensures children[i][a].key == t.key && children[i][a].Tag() == t.tag <==> r.ranks[i][a] == cursor
          {
            RankOrder(i, a, current.value, pos[current.value]);
            RankOrder(current.value, pos[current.value], i, a);
          }
          var p := PlaceAfter(children[i], t, r.ranks[i], cursor);
          pos := pos[i := p];
        }
      }
      direction := Forward;
    }

    /** Puts every other child just before the current entry. */
    method TurnBackward()
      requires Invariant() && current.Some? && direction.Forward?
      modifies this`pos, this`direction
      ensures Shape() && OnCursor() && direction.Reverse?
      ensures forall i :: 0 <= i < |pos| && i != current.value ==> UpTo(r.ranks[i], pos[i], cursor)
    {
      for i := 0 to |children|
        invariant Shape() && OnCursor()
        invariant forall j :: 0 <= j < i && j != current.value ==> UpTo(r.ranks[j], pos[j], cursor)
      {
        if i != current.value {
          var p := PlaceBefore(i, current.value);
          pos := pos[i := p];
        }
      }
      direction := Reverse;
    }

    method Next()
      requires Invariant() && current.Some?
      modifies this
      ensures Invariant()
      ensures cursor == Move(merged, AtOrAfter, old(cursor), Op.Next)
    {
      ghost var c := cursor + 1;
      if direction.Reverse? {
        TurnForward();
      }
      assert forall i :: 0 <= i < |pos| && i != current.value ==> From(r.ranks[i], pos[i], c);
      pos := pos[current.value := pos[current.value] + 1];
      FindSmallest(c);
    }

    method Prev()
      requires Invariant() && current.Some?
      modifies this
      ensures Invariant()
      ensures cursor == Move(merged, AtOrAfter, old(cursor), Op.Prev)
    {
      ghost var c := cursor;
      var cur := current.value;
      if direction.Forward? {
        TurnBackward();
      }
      assert forall i :: 0 <= i < |pos| && i != cur ==> UpTo(r.ranks[i], pos[i], c);
      pos := pos[cur := if pos[cur] == 0 then |children[cur]| else pos[cur] - 1];
      FindLargest(c);
      if current.Some? {
        forall i | 0 <= i < |pos| && i != current.value ensures UpTo(r.ranks[i], pos[i], cursor) {
          assert UpTo(r.ranks[i], pos[i], c);
        }
      }
    }

    /** One move of a client, who may call Next and Prev only on a valid iterator. */
    method Apply(op: Op<Target>)
      requires Invariant()
      modifies this
      ensures Invariant()
      ensures cursor == Move(merged, AtOrAfter, old(cursor), op)
    {
      match op {
        case SeekToFirst => SeekToFirst();
        case SeekToLast => SeekToLast();
        case Seek(t) => Seek(t);
        case Next => if current.Some? { Next(); }
        case Prev => if current.Some? { Prev(); }
      }
    }
  }

  /** Any interleaving of moves shows exactly what an index into the merged list would show. */
  method Drive(it: MergingIterator, ops: seq<Op<Target>>) returns (seen: seq<Option<Entry>>)
    requires it.Invariant()
    modifies it
    ensures it.Invariant()
    ensures seen == Transcript(it.merged, AtOrAfter, old(it.cursor), ops)
  {
    seen := [];
    ghost var c := it.cursor;
    for n := 0 to |ops|
      invariant it.Invariant()
      invariant seen == Transcript(it.merged, AtOrAfter, c, ops[..n])
      invariant it.cursor == Final(it.merged, AtOrAfter, c, ops[..n])
    {
      assert ops[..n + 1] == ops[..n] + [ops[n]];
      TranscriptStep(it.merged, AtOrAfter, c, ops[..n], ops[n]);
      it.Apply(ops[n]);
      var shown := it.Current();
      seen := seen + [shown];
    }
    assert ops[..|ops|] == ops;
  }
}
