/** Applying edits to a version (VersionSet::Builder in db/version_set.cc).  One builder may take
    many edits before it saves, as recovery does, or one at a time, as LogAndApply does. */
module VersionBuilder {
  import opened Entries
  import opened Versions

  /** Deleted file numbers and added files, each with its level. */
  datatype Edit = Edit(deleted: seq<(nat, nat)>, added: seq<(nat, File)>) {
    predicate Valid() {
      && (forall d :: d in deleted ==> d.0 < NUM_LEVELS)
      && (forall a :: a in added ==> a.0 < NUM_LEVELS)
    }
  }

  /** Helper order: smallest key, ties broken by file number. */
  predicate BySmallest(f: File, g: File) {
    || Before(f.smallest, g.smallest)
    || (f.smallest.key == g.smallest.key && f.smallest.Tag() == g.smallest.Tag() && f.number < g.number)
  }

  ghost predicate KeySorted(files: seq<File>) {
    forall i, j :: 0 <= i < j < |files| ==> BySmallest(files[i], files[j])
  }

  // ----- What saving must produce, level by level -----

  /** The part of an edit that concerns one level. */
  datatype Change = Change(deleted: set<nat>, added: set<File>)

  ghost function ChangeAt(e: Edit, level: nat): Change {
    Change(set d | d in e.deleted && d.0 == level :: d.1, set a | a in e.added && a.0 == level :: a.1)
  }

  ghost function Numbers(files: set<File>): set<nat> {
    set f | f in files :: f.number
  }

  /** One change on top of an accumulated one: deletions first, then additions cancel deletions. */
  ghost function Accumulate(acc: Change, c: Change): Change {
    Change(acc.deleted + c.deleted - Numbers(c.added), acc.added + c.added)
  }

  ghost function AccumulateAll(cs: seq<Change>): Change {
    if cs == [] then Change({}, {}) else Accumulate(AccumulateAll(cs[..|cs| - 1]), cs[|cs| - 1])
  }

  /** `v` is the sorted list of the base and added files that are not deleted. */
  ghost predicate IsSave(base: seq<File>, c: Change, v: seq<File>) {
    && KeySorted(v)
    && forall f :: f in v <==> (f in base || f in c.added) && f.number !in c.deleted
  }

  /** No change adds a file number the level has had before. */
  ghost predicate NeverReadded(base: seq<File>, cs: seq<Change>) {
    forall i :: 0 <= i < |cs| ==> AddsNewNumbers(base, AccumulateAll(cs[..i]), cs[i])
  }

  ghost predicate AddsNewNumbers(base: seq<File>, acc: Change, c: Change) {
    forall f, g :: f in c.added && (g in base || g in acc.added) ==> f.number != g.number
  }

  lemma {:induction false} SortedUnique(p: seq<File>, q: seq<File>)
    requires KeySorted(p) && KeySorted(q)
    requires forall f :: f in p <==> f in q
    ensures p == q
  {
    assert p != [] ==> p[0] in p;
    assert q != [] ==> q[0] in q;
    if p != [] && q != [] {
      assert p[0] in q && q[0] in p;
      assert p[0] == q[0];
      forall f ensures f in p[1..] <==> f in q[1..] {
        InTail(p, f);
        InTail(q, f);
      }
      SortedUnique(p[1..], q[1..]);
      assert p == [p[0]] + p[1..] && q == [q[0]] + q[1..];
    }
  }

  lemma InTail(p: seq<File>, f: File)
    requires KeySorted(p) && p != []
    ensures f in p[1..] <==> f in p && f != p[0]
  {
    if f in p[1..] {
      var k :| 1 <= k < |p| && p[k] == f;
      assert BySmallest(p[0], p[k]);
    }
  }

  lemma StepMembers(base: seq<File>, acc: Change, c: Change, v: seq<File>, w: seq<File>, f: File)
    requires f in v <==> (f in base || f in acc.added) && f.number !in acc.deleted
    requires IsSave(v, Accumulate(Change({}, {}), c), w) && AddsNewNumbers(base, acc, c)
    ensures f in w <==> (f in base || f in Accumulate(acc, c).added) && f.number !in Accumulate(acc, c).deleted
  {
    if f in c.added {
      assert f.number in Numbers(c.added);
    } else if f in base || f in acc.added {
      assert f.number !in Numbers(c.added);
    }
  }

  /** The version that results from saving after each change has the files one builder would save. */
  lemma {:induction false} StepwiseMembers(base: seq<File>, cs: seq<Change>, versions: seq<seq<File>>, f: File)
    requires |versions| == |cs| + 1 && versions[0] == base
    requires forall i :: 0 <= i < |cs| ==> IsSave(versions[i], Accumulate(Change({}, {}), cs[i]), versions[i + 1])
    requires NeverReadded(base, cs)
    ensures f in versions[|cs|] <==>
              (f in base || f in AccumulateAll(cs).added) && f.number !in AccumulateAll(cs).deleted
  {
    if cs != [] {
      var n := |cs| - 1;
      var shorter := cs[..n];
      forall i | 0 <= i < n ensures AddsNewNumbers(base, AccumulateAll(shorter[..i]), shorter[i]) {
        assert shorter[..i] == cs[..i];
      }
      StepwiseMembers(base, shorter, versions[..n + 1], f);
      StepMembers(base, AccumulateAll(shorter), cs[n], versions[n], versions[n + 1], f);
    }
  }

  /** Replaying many edits through one builder gives the version that saving after each gives. */
  lemma ReplayIsStepwise(base: seq<File>, cs: seq<Change>, versions: seq<seq<File>>, once: seq<File>)
    requires |versions| == |cs| + 1 && versions[0] == base && KeySorted(base)
    requires forall i :: 0 <= i < |cs| ==> IsSave(versions[i], Accumulate(Change({}, {}), cs[i]), versions[i + 1])
    requires NeverReadded(base, cs)
    requires IsSave(base, AccumulateAll(cs), once)
    ensures once == versions[|cs|]
  {
    forall f ensures f in once <==> f in versions[|cs|] {
      StepwiseMembers(base, cs, versions, f);
    }
    if |cs| > 0 {
      assert IsSave(versions[|cs| - 1], Accumulate(Change({}, {}), cs[|cs| - 1]), versions[|cs|]);
    }
    SortedUnique(once, versions[|cs|]);
  }

  // ----- The builder -----

  /** Insertion into the ordered set of added files; an equivalent element stays. */
  function SetInsert(files: seq<File>, f: File): seq<File> {
    if files == [] || BySmallest(f, files[0]) then [f] + files
    else if BySmallest(files[0], f) then [files[0]] + SetInsert(files[1..], f)
    else files
  }

  lemma {:induction false} SetInsertSorts(files: seq<File>, f: File)
    requires KeySorted(files)
    requires forall g :: g in files && g.number == f.number ==> g == f
    ensures KeySorted(SetInsert(files, f))
    ensures forall g :: g in SetInsert(files, f) <==> g == f || g in files
  {
    if files != [] {
      assert files == [files[0]] + files[1..];
      if !BySmallest(f, files[0]) && BySmallest(files[0], f) {
        SetInsertSorts(files[1..], f);
        var r := SetInsert(files[1..], f);
        forall j | 0 <= j < |r| ensures BySmallest(files[0], r[j]) {
          assert r[j] in r;
        }
      }
    }
  }

  lemma DeletionStep(dels: seq<(nat, nat)>, i: nat, l: nat)
    requires i < |dels|
    ensures ChangeAt(Edit(dels[..i + 1], []), l).deleted
         == ChangeAt(Edit(dels[..i], []), l).deleted + (if dels[i].0 == l then {dels[i].1} else {})
  {
    assert dels[..i + 1] == dels[..i] + [dels[i]];
  }

  lemma AdditionStep(adds: seq<(nat, File)>, i: nat, l: nat)
    requires i < |adds|
    ensures var c, d := ChangeAt(Edit([], adds[..i]), l), ChangeAt(Edit([], adds[..i + 1]), l);
            && d.added == c.added + (if adds[i].0 == l then {adds[i].1} else {})
            && Numbers(d.added) == Numbers(c.added) + (if adds[i].0 == l then {adds[i].1.number} else {})
            && d.deleted == c.deleted == {}
  {
    assert adds[..i + 1] == adds[..i] + [adds[i]];
  }

  /** `v` merges ps[..p] and qs[..q] without the deleted files, and sorts before what is left of both. */
  ghost predicate Merged(ps: seq<File>, p: nat, qs: seq<File>, q: nat, gone: set<nat>, v: seq<File>) {
    && p <= |ps| && q <= |qs| && KeySorted(v)
    && (forall f :: f in v <==> (f in ps[..p] || f in qs[..q]) && f.number !in gone)
    && (forall i, j :: 0 <= i < |v| && p <= j < |ps| ==> BySmallest(v[i], ps[j]))
    && (forall i, j :: 0 <= i < |v| && q <= j < |qs| ==> BySmallest(v[i], qs[j]))
  }

  /** Taking the next file of one list, when it sorts before the rest of the other. */
  lemma MergeOne(ps: seq<File>, p: nat, qs: seq<File>, q: nat, gone: set<nat>, v: seq<File>)
    requires Merged(ps, p, qs, q, gone, v) || Merged(qs, q, ps, p, gone, v)
    requires KeySorted(ps) && KeySorted(qs) && p < |ps|
    requires q < |qs| ==> BySmallest(ps[p], qs[q])
    ensures var w := if ps[p].number in gone then v else v + [ps[p]];
            Merged(ps, p + 1, qs, q, gone, w) && Merged(qs, q, ps, p + 1, gone, w)
  {
    assert ps[..p + 1] == ps[..p] + [ps[p]];
    forall j | q <= j < |qs| ensures BySmallest(ps[p], qs[j]) {
      assert j == q || BySmallest(qs[q], qs[j]);
    }
  }

  class Builder {
    const base: seq<seq<File>>
    var deleted: seq<set<nat>>
    var added: seq<seq<File>>

    ghost predicate Invariant() reads this {
      && |base| == |deleted| == |added| == NUM_LEVELS
      && (forall l :: 0 <= l < NUM_LEVELS ==> KeySorted(base[l]) && KeySorted(added[l]))
    }

    /** What the builder has taken in so far at a level. */
    ghost function Taken(level: nat): Change
      requires |deleted| == |added| == NUM_LEVELS && level < NUM_LEVELS
      reads this
    {
      Change(deleted[level], set f | f in added[level])
    }

    constructor (v: seq<seq<File>>)
      requires |v| == NUM_LEVELS && forall l :: 0 <= l < NUM_LEVELS ==> KeySorted(v[l])
      ensures Invariant() && base == v
      ensures forall l :: 0 <= l < NUM_LEVELS ==> Taken(l) == Change({}, {})
    {
      base := v;
      deleted := seq(NUM_LEVELS, i => {});
      added := seq(NUM_LEVELS, i => []);
    }

    method ApplyDeletions(dels: seq<(nat, nat)>)
      requires Invariant() && forall d :: d in dels ==> d.0 < NUM_LEVELS
      modifies this`deleted
      ensures Invariant()
      ensures forall l :: 0 <= l < NUM_LEVELS ==> deleted[l] == old(deleted)[l] + ChangeAt(Edit(dels, []), l).deleted
    {
      for i := 0 to |dels|
        invariant Invariant()
        invariant forall l :: 0 <= l < NUM_LEVELS ==>
                    deleted[l] == old(deleted)[l] + ChangeAt(Edit(dels[..i], []), l).deleted
      {
        assert dels[i] in dels;
        ghost var before := deleted;
        deleted := deleted[dels[i].0 := deleted[dels[i].0] + {dels[i].1}];
        forall l | 0 <= l < NUM_LEVELS
          ensures deleted[l] == old(deleted)[l] + ChangeAt(Edit(dels[..i + 1], []), l).deleted
        {
          DeletionStep(dels, i, l);
        }
      }
      assert dels[..|dels|] == dels;
    }

    method AddFile(level: nat, f: File)
      requires Invariant() && level < NUM_LEVELS
      requires forall g :: g in Taken(level).added && g.number == f.number ==> g == f
      modifies this
      ensures Invariant()
      ensures Taken(level) == Change(old(Taken(level)).deleted - {f.number}, old(Taken(level)).added + {f})
      ensures forall l :: 0 <= l < NUM_LEVELS && l != level ==> Taken(l) == old(Taken(l))
    {
      assert forall g :: g in added[level] ==> g in Taken(level).added;
      deleted := deleted[level := deleted[level] - {f.number}];
      SetInsertSorts(added[level], f);
      added := added[level := SetInsert(added[level], f)];
    }

    method ApplyAdditions(adds: seq<(nat, File)>)
      requires Invariant() && forall a :: a in adds ==> a.0 < NUM_LEVELS
      requires forall a, b :: a in adds && b in adds && a.0 == b.0 && a.1.number == b.1.number ==> a == b
      requires forall a, g :: a in adds && g in Taken(a.0).added && a.1.number == g.number ==> a.1 == g
      modifies this
      ensures Invariant()
      ensures forall l :: 0 <= l < NUM_LEVELS ==> Taken(l) == Accumulate(old(Taken(l)), ChangeAt(Edit([], adds), l))
    {
      for i := 0 to |adds|
        invariant Invariant()
        invariant forall l :: 0 <= l < NUM_LEVELS ==>
                    Taken(l) == Accumulate(old(Taken(l)), ChangeAt(Edit([], adds[..i]), l))
      {
        assert adds[i] in adds;
        var level, f := adds[i].0, adds[i].1;
        forall g | g in Taken(level).added && g.number == f.number ensures g == f {
          if g !in old(Taken(level)).added {
            assert (level, g) in adds[..i];
          }
        }
        AddFile(level, f);
        forall l | 0 <= l < NUM_LEVELS
          ensures Taken(l) == Accumulate(old(Taken(l)), ChangeAt(Edit([], adds[..i + 1]), l))
        {
          AdditionStep(adds, i, l);
        }
      }
      assert adds[..|adds|] == adds;
    }

    method Apply(edit: Edit)
      requires Invariant() && edit.Valid()
      requires forall a, b :: a in edit.added && b in edit.added && a.0 == b.0 && a.1.number == b.1.number ==> a == b
      requires forall a, g :: a in edit.added && g in Taken(a.0).added && a.1.number == g.number ==> a.1 == g
      modifies this
      ensures Invariant()
      ensures forall l :: 0 <= l < NUM_LEVELS ==> Taken(l) == Accumulate(old(Taken(l)), ChangeAt(edit, l))
    {
      ApplyDeletions(edit.deleted);
      ApplyAdditions(edit.added);
    }

    /** The merge of one level: base files up to each added file, then that file, then the rest. */
    method SaveLevel(level: nat) returns (v: seq<File>)
      requires Invariant() && level < NUM_LEVELS
      requires forall f, g :: f in base[level] && g in added[level] ==> f.number != g.number
      ensures IsSave(base[level], Taken(level), v)
    {
      var bs, adds, gone := base[level], added[level], deleted[level];
      v := [];
      var b := 0;
      for a := 0 to |adds|
        invariant Merged(bs, b, adds, a, gone, v)
      {
        while b < |bs| && !BySmallest(adds[a], bs[b])
          invariant Merged(bs, b, adds, a, gone, v)
        {
          assert adds[a] in adds && bs[b] in bs;
          MergeOne(bs, b, adds, a, gone, v);
          if bs[b].number !in gone { v := v + [bs[b]]; }
          b := b + 1;
        }
        MergeOne(adds, a, bs, b, gone, v);
        if adds[a].number !in gone { v := v + [adds[a]]; }
      }
      while b < |bs|
        invariant Merged(bs, b, adds, |adds|, gone, v)
      {
        MergeOne(bs, b, adds, |adds|, gone, v);
        if bs[b].number !in gone { v := v + [bs[b]]; }
        b := b + 1;
      }
    }

    method SaveTo() returns (v: seq<seq<File>>)
      requires Invariant()
      requires forall l, f, g :: 0 <= l < NUM_LEVELS && f in base[l] && g in added[l] ==> f.number != g.number
      ensures |v| == NUM_LEVELS
      ensures forall l :: 0 <= l < NUM_LEVELS ==> IsSave(base[l], Taken(l), v[l])
    {
      v := [];
      for level := 0 to NUM_LEVELS
        invariant |v| == level
        invariant forall l :: 0 <= l < level ==> IsSave(base[l], Taken(l), v[l])
      {
        var files := SaveLevel(level);
        v := v + [files];
      }
    }
  }
}
