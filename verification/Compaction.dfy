/** The merge-and-drop loop of a compaction (DBImpl::DoCompactionWork in db/db_impl.cc) and what
    it does to reads. */
module Compaction {
  import opened Entries
  import opened Versions

  // ----- The drop rule -----

  /** Entry `i` of the sorted input is dropped: a newer entry of its key is already visible to every
      live snapshot, or it is a deletion every live snapshot sees and nothing deeper can hold its key. */
  predicate Dropped(es: seq<Entry>, smallest: nat, base: int -> bool, i: nat)
    requires i < |es|
  {
    || (i > 0 && es[i - 1].key == es[i].key && es[i - 1].seqno <= smallest)
    || (es[i].kind.Deletion? && es[i].seqno <= smallest && base(es[i].key))
  }

  /** What survives of the first `n` input entries. */
  function Kept(es: seq<Entry>, smallest: nat, base: int -> bool, n: nat): (r: seq<Entry>)
    requires n <= |es|
  {
    if n == 0 then []
    else Kept(es, smallest, base, n - 1) + if Dropped(es, smallest, base, n - 1) then [] else [es[n - 1]]
  }

  function KeptAll(es: seq<Entry>, smallest: nat, base: int -> bool): seq<Entry> {
    Kept(es, smallest, base, |es|)
  }

  lemma {:induction false} KeptMember(es: seq<Entry>, smallest: nat, base: int -> bool, n: nat, e: Entry)
    requires n <= |es|
    ensures e in Kept(es, smallest, base, n) <==>
              exists i :: 0 <= i < n && es[i] == e && !Dropped(es, smallest, base, i)
  {
    if n > 0 {
      KeptMember(es, smallest, base, n - 1, e);
    }
  }

  lemma {:induction false} KeptSorted(es: seq<Entry>, smallest: nat, base: int -> bool, n: nat)
    requires Sorted(es) && n <= |es|
    ensures Sorted(Kept(es, smallest, base, n))
  {
    if n > 0 {
      KeptSorted(es, smallest, base, n - 1);
      var r := Kept(es, smallest, base, n - 1);
      forall i | 0 <= i < |r| ensures Before(r[i], es[n - 1]) {
        KeptMember(es, smallest, base, n - 1, r[i]);
      }
    }
  }

  // ----- What dropping does to reads -----

  /** The one way a compaction can change a read: the newest entry of the key at the smallest live
      snapshot is a deletion marker among the inputs that is dropped as obsolete, and the entries left
      out of the compaction still hold an older value of that key. */
  ghost predicate Resurrects(input: set<Entry>, rest: set<Entry>, smallest: nat, base: int -> bool, key: int) {
    exists e, o ::
      && e in input && e.kind.Deletion? && base(key)
      && IsNewest(input + rest, key, smallest, Some(e))
      && IsNewest(rest, key, smallest, Some(o)) && o.kind.Put?
  }

  ghost predicate NothingResurrects(input: set<Entry>, rest: set<Entry>, smallest: nat, base: int -> bool) {
    forall key :: !Resurrects(input, rest, smallest, base, key)
  }

  /** Every read at a snapshot no older than the smallest live one returns the same. */
  ghost predicate SameReads(before: set<Entry>, after: set<Entry>, smallest: nat) {
    forall key, snapshot, p, q ::
      snapshot >= smallest && IsNewest(before, key, snapshot, p) && IsNewest(after, key, snapshot, q)
      ==> ValueOf(p) == ValueOf(q)
  }

  /** A read of the key at the snapshot returns something else. */
  ghost predicate ReadsDiffer(before: set<Entry>, after: set<Entry>, key: int, snapshot: nat) {
    exists p, q :: IsNewest(before, key, snapshot, p) && IsNewest(after, key, snapshot, q) && ValueOf(p) != ValueOf(q)
  }

  ghost predicate ReadsChange(before: set<Entry>, after: set<Entry>, snapshot: nat) {
    exists key :: ReadsDiffer(before, after, key, snapshot)
  }

  /** From a dropped entry that every live snapshot sees on, all entries of its key are dropped. */
  lemma DroppedBelow(es: seq<Entry>, smallest: nat, base: int -> bool, i: nat, j: nat)
    requires Sorted(es) && Unique(EntriesOf(es)) && i < |es| && j < |es|
    requires es[i].seqno <= smallest && Dropped(es, smallest, base, i)
    requires es[j].key == es[i].key && es[j].seqno <= es[i].seqno
    ensures Dropped(es, smallest, base, j)
  {
    assert es[i] in EntriesOf(es) && es[j] in EntriesOf(es);
    if i < j {
      assert i == j - 1 || Before(es[i], es[j - 1]);
      assert Before(es[j - 1], es[j]);
    }
  }

  lemma NothingKeptBelow(es: seq<Entry>, smallest: nat, base: int -> bool, i: nat, x: Entry)
    requires Sorted(es) && Unique(EntriesOf(es)) && i < |es|
    requires es[i].seqno <= smallest && Dropped(es, smallest, base, i)
    requires x.key == es[i].key && x.seqno <= es[i].seqno
    ensures x !in KeptAll(es, smallest, base)
  {
    KeptMember(es, smallest, base, |es|, x);
    forall j | 0 <= j < |es| && es[j] == x ensures Dropped(es, smallest, base, j) {
      DroppedBelow(es, smallest, base, i, j);
    }
  }

  /** A dropped newest entry is an obsolete deletion marker. */
  lemma DroppedNewest(es: seq<Entry>, smallest: nat, base: int -> bool, key: int, snapshot: nat, e: Entry)
    requires Sorted(es) && snapshot >= smallest
    requires e in es && IsNewest(EntriesOf(es), key, snapshot, Some(e)) && e !in KeptAll(es, smallest, base)
    requires Unique(EntriesOf(es))
    ensures e.kind.Deletion? && e.seqno <= smallest && base(key)
    ensures exists i :: 0 <= i < |es| && es[i] == e && Dropped(es, smallest, base, i)
  {
    KeptMember(es, smallest, base, |es|, e);
    var i :| 0 <= i < |es| && es[i] == e;
    if i > 0 && es[i - 1].key == key {
      assert Before(es[i - 1], es[i]);
      assert es[i - 1] in EntriesOf(es) && es[i] in EntriesOf(es);
    }
  }

  /** At snapshots where the newest entry survives, nothing changes. */
  lemma SurvivorStaysNewest(before: set<Entry>, after: set<Entry>, key: int, snapshot: nat, e: Entry)
    requires after <= before && e in after && IsNewest(before, key, snapshot, Some(e))
    ensures IsNewest(after, key, snapshot, Some(e))
  {
  }

  lemma ReadsKept(es: seq<Entry>, rest: set<Entry>, smallest: nat, base: int -> bool,
                  key: int, snapshot: nat, p: Option<Entry>, q: Option<Entry>)
    requires Sorted(es) && Unique(EntriesOf(es) + rest) && snapshot >= smallest
    requires !Resurrects(EntriesOf(es), rest, smallest, base, key)
    requires IsNewest(EntriesOf(es) + rest, key, snapshot, p)
    requires IsNewest(EntriesOf(KeptAll(es, smallest, base)) + rest, key, snapshot, q)
    ensures ValueOf(p) == ValueOf(q)
  {
    var input, kept := EntriesOf(es), EntriesOf(KeptAll(es, smallest, base));
    KeptSubset(es, smallest, base);
    if p.Some? {
      var e := p.value;
      if e in kept + rest {
        SurvivorStaysNewest(input + rest, kept + rest, key, snapshot, e);
        NewestUnique(kept + rest, key, snapshot, p, q);
      } else {
        assert IsNewest(input, key, snapshot, p);
        DroppedNewest(es, smallest, base, key, snapshot, e);
        var i :| 0 <= i < |es| && es[i] == e && Dropped(es, smallest, base, i);
        if q.Some? {
          NothingKeptBelow(es, smallest, base, i, q.value);
          assert IsNewest(rest, key, smallest, q);
          assert IsNewest(input + rest, key, smallest, Some(e));
        }
      }
    }
  }

  lemma KeptSubset(es: seq<Entry>, smallest: nat, base: int -> bool)
    ensures EntriesOf(KeptAll(es, smallest, base)) <= EntriesOf(es)
  {
    forall e | e in EntriesOf(KeptAll(es, smallest, base)) ensures e in EntriesOf(es) {
      KeptMember(es, smallest, base, |es|, e);
    }
  }

  lemma ResurrectionShows(es: seq<Entry>, rest: set<Entry>, smallest: nat, base: int -> bool, key: int)
    requires Sorted(es) && Unique(EntriesOf(es) + rest)
    requires Resurrects(EntriesOf(es), rest, smallest, base, key)
    ensures ReadsDiffer(EntriesOf(es) + rest, EntriesOf(KeptAll(es, smallest, base)) + rest, key, smallest)
    ensures !SameReads(EntriesOf(es) + rest, EntriesOf(KeptAll(es, smallest, base)) + rest, smallest)
  {
    var input, kept := EntriesOf(es), EntriesOf(KeptAll(es, smallest, base));
    var e, o :| && e in input && e.kind.Deletion? && base(key)
                && IsNewest(input + rest, key, smallest, Some(e))
                && IsNewest(rest, key, smallest, Some(o)) && o.kind.Put?;
    var i :| 0 <= i < |es| && es[i] == e;
    forall x | x in kept + rest && Matches(x, key, smallest) ensures x.seqno <= o.seqno {
      if x in kept {
        KeptSubset(es, smallest, base);
        NothingKeptBelow(es, smallest, base, i, x);
      }
    }
    assert IsNewest(kept + rest, key, smallest, Some(o));
    assert IsNewest(input + rest, key, smallest, Some(e));
    assert ValueOf(Some(e)) != ValueOf(Some(o));
  }

  /** A compaction leaves every read at a live snapshot alone exactly when it resurrects no key. */
  lemma SameReadsIffNothingResurrects(es: seq<Entry>, rest: set<Entry>, smallest: nat, base: int -> bool)
    requires Sorted(es) && Unique(EntriesOf(es) + rest)
    ensures SameReads(EntriesOf(es) + rest, EntriesOf(KeptAll(es, smallest, base)) + rest, smallest)
       <==> NothingResurrects(EntriesOf(es), rest, smallest, base)
    ensures !SameReads(EntriesOf(es) + rest, EntriesOf(KeptAll(es, smallest, base)) + rest, smallest) ==>
              ReadsChange(EntriesOf(es) + rest, EntriesOf(KeptAll(es, smallest, base)) + rest, smallest)
  {
    var before, after := EntriesOf(es) + rest, EntriesOf(KeptAll(es, smallest, base)) + rest;
    if NothingResurrects(EntriesOf(es), rest, smallest, base) {
      forall key, snapshot, p, q | snapshot >= smallest && IsNewest(before, key, snapshot, p)
          && IsNewest(after, key, snapshot, q)
        ensures ValueOf(p) == ValueOf(q)
      {
        ReadsKept(es, rest, smallest, base, key, snapshot, p, q);
      }
    } else {
      var key :| Resurrects(EntriesOf(es), rest, smallest, base, key);
      ResurrectionShows(es, rest, smallest, base, key);
    }
  }

  // ----- What is left -----

  /** Whether an entry has to stay: no live snapshot needs one older than the newest that the smallest one sees, and
      that one may go as well if it is a deletion that nothing deeper needs. */
  ghost predicate Stays(es: seq<Entry>, smallest: nat, base: int -> bool, e: Entry) {
    || e.seqno > smallest
    || (IsNewest(EntriesOf(es), e.key, smallest, Some(e)) && !(e.kind.Deletion? && base(e.key)))
  }

  /** An entry that the smallest snapshot sees is its key's newest exactly when the entry before it is not
      of its key and seen as well. */
  lemma NewestHasNoneBefore(es: seq<Entry>, smallest: nat, i: nat)
    requires Sorted(es) && Unique(EntriesOf(es)) && i < |es| && es[i].seqno <= smallest
    ensures IsNewest(EntriesOf(es), es[i].key, smallest, Some(es[i])) <==>
              !(i > 0 && es[i - 1].key == es[i].key && es[i - 1].seqno <= smallest)
  {
    var e := es[i];
    if i > 0 && es[i - 1].key == e.key && es[i - 1].seqno <= smallest {
      OlderBelow(es, i - 1, i);
      assert es[i - 1] in EntriesOf(es) && Matches(es[i - 1], e.key, smallest);
    } else {
      forall x | x in EntriesOf(es) && Matches(x, e.key, smallest) ensures x.seqno <= e.seqno {
        var j :| 0 <= j < |es| && es[j] == x;
        if j < i {
          KeysBetween(es, j, i);
        } else if i < j {
          OlderBelow(es, i, j);
        }
      }
    }
  }

  lemma OlderBelow(es: seq<Entry>, i: nat, j: nat)
    requires Sorted(es) && Unique(EntriesOf(es)) && i < j < |es| && es[i].key == es[j].key
    ensures es[j].seqno < es[i].seqno
  {
    assert Before(es[i], es[j]) && es[i] in EntriesOf(es) && es[j] in EntriesOf(es);
  }

  /** Between two entries of a key there are only entries of that key, newer than the second. */
  lemma KeysBetween(es: seq<Entry>, j: nat, i: nat)
    requires Sorted(es) && Unique(EntriesOf(es)) && j < i < |es| && es[j].key == es[i].key
    ensures es[i - 1].key == es[i].key && es[i - 1].seqno <= es[j].seqno
  {
    if j < i - 1 {
      assert Before(es[j], es[i - 1]) && Before(es[i - 1], es[i]);
      OlderBelow(es, j, i - 1);
    }
  }

  lemma StaysExactly(es: seq<Entry>, smallest: nat, base: int -> bool, i: nat)
    requires Sorted(es) && Unique(EntriesOf(es)) && i < |es|
    ensures Stays(es, smallest, base, es[i]) <==> !Dropped(es, smallest, base, i)
  {
    if es[i].seqno <= smallest {
      NewestHasNoneBefore(es, smallest, i);
    } else if i > 0 && es[i - 1].key == es[i].key {
      OlderBelow(es, i - 1, i);
    }
  }

  /** What is kept is what has to stay: nothing needed is lost, and nothing else is left. */
  lemma KeptExactly(es: seq<Entry>, smallest: nat, base: int -> bool, e: Entry)
    requires Sorted(es) && Unique(EntriesOf(es))
    ensures e in KeptAll(es, smallest, base) <==> e in es && Stays(es, smallest, base, e)
  {
    KeptMember(es, smallest, base, |es|, e);
    forall i | 0 <= i < |es| && es[i] == e ensures Stays(es, smallest, base, e) <==> !Dropped(es, smallest, base, i) {
      StaysExactly(es, smallest, base, i);
    }
  }

  /** The output of a compaction: the entries some live snapshot or a deeper level needs, per key at most one that
      the smallest snapshot sees, in order. */
  ghost predicate IsReclaimed(input: seq<Entry>, smallest: nat, levels: seq<seq<File>>, level: nat, out: seq<Entry>) {
    && Sorted(out)
    && (forall e :: e in out <==>
          && e in input
          && (e.seqno > smallest
              || (&& (forall x :: x in input && x.key == e.key && x.seqno <= smallest ==> x.seqno <= e.seqno)
                  && (e.kind.Deletion? ==>
                        exists l, f :: level + 2 <= l < |levels| && f in levels[l] && f.Overlaps(e.key, e.key)))))
    && forall x, y :: x in out && y in out && x.key == y.key && x.seqno <= smallest && y.seqno <= smallest ==> x == y
  }

  lemma KeptIsReclaimed(input: seq<Entry>, smallest: nat, levels: seq<seq<File>>, level: nat)
    requires Sorted(input)
    ensures Unique(EntriesOf(input)) ==>
              IsReclaimed(input, smallest, levels, level, KeptAll(input, smallest, Base(levels, level)))
  {
    if Unique(EntriesOf(input)) {
      UniqueIsReclaimed(input, smallest, levels, level);
    }
  }

  lemma UniqueIsReclaimed(input: seq<Entry>, smallest: nat, levels: seq<seq<File>>, level: nat)
    requires Sorted(input) && Unique(EntriesOf(input))
    ensures IsReclaimed(input, smallest, levels, level, KeptAll(input, smallest, Base(levels, level)))
  {
    var base := Base(levels, level);
    KeptSorted(input, smallest, base, |input|);
    forall e ensures e in KeptAll(input, smallest, base) <==> e in input && Stays(input, smallest, base, e) {
      KeptExactly(input, smallest, base, e);
    }
    forall e | e in input
      ensures IsNewest(EntriesOf(input), e.key, smallest, Some(e)) <==>
                e.seqno <= smallest
                && forall x :: x in input && x.key == e.key && x.seqno <= smallest ==> x.seqno <= e.seqno
    {
      assert forall x :: x in input <==> x in EntriesOf(input);
    }
  }

  // ----- The loop -----

  /** No file two or more levels down covers the key. */
  predicate BaseLevel(levels: seq<seq<File>>, level: nat, key: int) {
    forall l, f :: level + 2 <= l < |levels| && f in levels[l] ==> !f.Overlaps(key, key)
  }

  function Base(levels: seq<seq<File>>, level: nat): int -> bool {
    key => BaseLevel(levels, level, key)
  }

  function Concat(parts: seq<seq<Entry>>): seq<Entry> {
    if parts == [] then [] else Concat(parts[..|parts| - 1]) + parts[|parts| - 1]
  }

  lemma ConcatAppend(parts: seq<seq<Entry>>, p: seq<Entry>)
    ensures Concat(parts + [p]) == Concat(parts) + p
  {
    assert (parts + [p])[..|parts|] == parts;
  }

  class CompactionState {
    const levels: seq<seq<File>>      // the input version
    const level: nat
    const smallestSnapshot: nat
    var levelPtrs: seq<nat>           // per level: files before it end before every key asked about so far
    var outputs: seq<seq<Entry>>      // finished output tables
    var builder: Option<seq<Entry>>   // the output table being built

    ghost predicate Invariant() reads this {
      && |levels| == |levelPtrs| == NUM_LEVELS && level + 1 < NUM_LEVELS
      && (forall l :: 0 <= l < NUM_LEVELS ==> levelPtrs[l] <= |levels[l]|)
    }

    /** The levels that are searched for older data are sorted. */
    ghost predicate DeepSorted() {
      forall l :: level + 2 <= l < |levels| ==> FilesValid(levels[l]) && LevelSorted(levels[l])
    }

    /** The files the pointers have passed end before `key`. */
    ghost predicate PassedBefore(key: int)
      requires Invariant()
      reads this
    {
      forall l, i :: level + 2 <= l < NUM_LEVELS && 0 <= i < levelPtrs[l] ==> levels[l][i].largest.key < key
    }

    constructor (levels: seq<seq<File>>, level: nat, smallestSnapshot: nat)
      requires |levels| == NUM_LEVELS && level + 1 < NUM_LEVELS
      ensures Invariant() && this.levels == levels && this.level == level && this.smallestSnapshot == smallestSnapshot
      ensures outputs == [] && builder == None
      ensures forall key :: PassedBefore(key)
    {
      this.levels, this.level, this.smallestSnapshot := levels, level, smallestSnapshot;
      levelPtrs := seq(NUM_LEVELS, _ => 0);
      outputs, builder := [], None;
    }

    /** Remembers where the last question left off, so keys must not decrease. */
    method IsBaseLevelForKey(key: int) returns (r: bool)
      requires Invariant() && PassedBefore(key) && DeepSorted()
      modifies this`levelPtrs
      ensures Invariant() && PassedBefore(key)
      ensures r == BaseLevel(levels, level, key)
    {
      for lvl := level + 2 to NUM_LEVELS
        invariant Invariant() && PassedBefore(key)
        invariant forall l, f :: level + 2 <= l < lvl && f in levels[l] ==> !f.Overlaps(key, key)
      {
        var files := levels[lvl];
        while levelPtrs[lvl] < |files|
          invariant Invariant() && PassedBefore(key)
          decreases |files| - levelPtrs[lvl]
        {
          var f := files[levelPtrs[lvl]];
          if key <= f.largest.key {
            if key >= f.smallest.key {
              assert f in levels[lvl] && f.Overlaps(key, key);
              return false;
            }
            break;
          }
          levelPtrs := levelPtrs[lvl := levelPtrs[lvl] + 1];
        }
        NoneCovers(files, levelPtrs[lvl], key);
      }
      r := true;
    }

    static lemma NoneCovers(files: seq<File>, ptr: nat, key: int)
      requires FilesValid(files) && LevelSorted(files) && ptr <= |files|
      requires forall i :: 0 <= i < ptr ==> files[i].largest.key < key
      requires ptr < |files| ==> key < files[ptr].smallest.key
      ensures forall f :: f in files ==> !f.Overlaps(key, key)
    {
      forall f | f in files ensures !f.Overlaps(key, key) {
        var i :| 0 <= i < |files| && files[i] == f;
        if ptr < i { FileOrder(files, ptr, i); }
      }
    }

    /** Everything put into outputs so far, in order. */
    ghost function Written(): seq<Entry> reads this {
      Concat(outputs) + if builder.Some? then builder.value else []
    }

    ghost predicate OutputsFilled() reads this {
      && (forall i :: 0 <= i < |outputs| ==> outputs[i] != [])
      && (builder.Some? ==> builder.value != [])
    }

    method FinishCompactionOutputFile()
      requires OutputsFilled() && builder.Some?
      modifies this`outputs, this`builder
      ensures OutputsFilled() && builder == None && Written() == old(Written())
    {
      ConcatAppend(outputs, builder.value);
      assert Concat(outputs + [builder.value]) + [] == Concat(outputs + [builder.value]);
      outputs, builder := outputs + [builder.value], None;
    }

    /** Opens an output file if there is none and adds the entry to it. */
    method AddToOutput(e: Entry)
      requires OutputsFilled()
      modifies this`builder
      ensures OutputsFilled() && builder.Some? && Written() == old(Written()) + [e]
    {
      ghost var was := if builder.Some? then builder.value else [];
      assert Concat(outputs) + (was + [e]) == Concat(outputs) + was + [e];
      builder := Some(if builder.Some? then builder.value + [e] else [e]);
      assert builder.value == was + [e];
    }

    /** Whether the loop drops the entry, given the last sequence number seen for its key. */
    method ShouldDrop(e: Entry, lastSequenceForKey: nat) returns (drop: bool)
      requires Invariant() && PassedBefore(e.key) && DeepSorted()
      modifies this`levelPtrs
      ensures Invariant() && PassedBefore(e.key)
      ensures drop <==> || lastSequenceForKey <= smallestSnapshot
                        || (e.kind.Deletion? && e.seqno <= smallestSnapshot && BaseLevel(levels, level, e.key))
    {
      drop := false;
      if lastSequenceForKey <= smallestSnapshot {
        drop := true;
      } else if e.kind.Deletion? && e.seqno <= smallestSnapshot {
        drop := IsBaseLevelForKey(e.key);
      }
    }

    /** The loop over the merged input.  `stopBefore` and `full` say where an output ends early
        because of grandparent overlap or size; they do not change what is kept. */
    method DoCompactionWork(input: seq<Entry>, stopBefore: nat -> bool, full: nat -> bool)
      requires Invariant() && DeepSorted() && outputs == [] && builder == None
      requires Sorted(input) && smallestSnapshot < MAX_SEQUENCE
      requires forall key :: PassedBefore(key)
      modifies this
      ensures Invariant() && builder == None && OutputsFilled()
      ensures Concat(outputs) == KeptAll(input, smallestSnapshot, Base(levels, level))
      ensures Unique(EntriesOf(input)) ==> IsReclaimed(input, smallestSnapshot, levels, level, Concat(outputs))
    {
      ghost var base := Base(levels, level);
      var currentUserKey: Option<int> := None;
      var lastSequenceForKey := MAX_SEQUENCE;
      var i := 0;
      while i < |input|
        invariant i <= |input| && Invariant() && OutputsFilled()
        invariant Written() == Kept(input, smallestSnapshot, base, i)
        invariant i == 0 ==> currentUserKey == None && forall key :: PassedBefore(key)
        invariant i > 0 ==> currentUserKey == Some(input[i - 1].key) && lastSequenceForKey == input[i - 1].seqno
                            && PassedBefore(input[i - 1].key)
      {
        var e := input[i];
        if i > 0 { assert Before(input[i - 1], e); }
        if stopBefore(i) && builder.Some? {
          FinishCompactionOutputFile();
        }
        if currentUserKey != Some(e.key) {
          currentUserKey := Some(e.key);
          lastSequenceForKey := MAX_SEQUENCE;
        }
        var drop := ShouldDrop(e, lastSequenceForKey);
        lastSequenceForKey := e.seqno;
        assert drop == Dropped(input, smallestSnapshot, base, i);
        if !drop {
          AddToOutput(e);
          if full(i) {
            FinishCompactionOutputFile();
          }
        }
        i := i + 1;
      }
      if builder.Some? {
        FinishCompactionOutputFile();
      }
      KeptIsReclaimed(input, smallestSnapshot, levels, level);
    }
  }
}
