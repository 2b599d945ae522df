/** Installing the outputs of a compaction: the level order is kept, and no key that the inputs
    hold completely can be resurrected (db/db_impl.cc and db/version_set.cc). */
module CompactionStep {
  import opened Entries
  import opened Versions
  import opened VersionBuilder
  import opened Compaction

  /** What every version built by the builder satisfies. */
  ghost predicate WellFormed(levels: seq<seq<File>>, next: nat) {
    && Ordered(levels) && Unique(All(levels))
    && (forall l {:trigger Tidy(levels[l], next)} :: 0 <= l < NUM_LEVELS ==> Tidy(levels[l], next))
  }

  ghost predicate Tidy(files: seq<File>, next: nat) {
    KeySorted(files) && NumbersIdentify(files, next)
  }

  ghost predicate NumbersIdentify(files: seq<File>, next: nat) {
    && (forall f :: f in files ==> f.number < next)
    && (forall f, g :: f in files && g in files && f.number == g.number ==> f == g)
  }

  /** [lo, hi] is the least user-key range that covers the files. */
  ghost predicate IsRange(files: seq<File>, lo: int, hi: int) {
    && (exists f :: f in files && f.smallest.key == lo)
    && (exists f :: f in files && f.largest.key == hi)
    && (forall f :: f in files ==> lo <= f.smallest.key && f.largest.key <= hi)
  }

  /** The files are exactly files[a..b], and the next file does not start at the key they end on. */
  ghost predicate CleanRun(files: seq<File>, ins: seq<File>, a: nat, b: nat) {
    && a < b <= |files|
    && (forall f :: f in ins <==> f in files[a..b])
    && (b < |files| ==> files[b].smallest.key != files[b - 1].largest.key)
  }

  /** What is picked at `level`: everything that overlaps at level 0, a clean run of files above it. */
  ghost predicate ValidInputs0(files: seq<File>, level: nat, in0: seq<File>) {
    && (forall f :: f in in0 ==> f in files)
    && (level == 0 ==> forall f, g :: f in files && f !in in0 && g in in0 ==>
         !f.Overlaps(g.smallest.key, g.largest.key))
    && (level > 0 ==> exists a, b :: CleanRun(files, in0, a, b))
  }

  /** What is picked at the next level: exactly the files that overlap the range of the others. */
  ghost predicate ValidInputs1(files: seq<File>, in0: seq<File>, in1: seq<File>) {
    exists lo, hi :: IsRange(in0, lo, hi) && AreOverlapping(files, lo, hi, in1)
  }

  ghost predicate AreOverlapping(files: seq<File>, lo: int, hi: int, ins: seq<File>) {
    forall f :: f in ins <==> f in files && f.Overlaps(lo, hi)
  }

  /** The inputs of a compaction. */
  ghost predicate ValidInputs(levels: seq<seq<File>>, level: nat, in0: seq<File>, in1: seq<File>) {
    && |levels| == NUM_LEVELS && level + 1 < NUM_LEVELS
    && ValidInputs0(levels[level], level, in0)
    && ValidInputs1(levels[level + 1], in0, in1)
  }

  /** The edit of a compaction, saved: inputs gone, outputs added one level down. */
  ghost predicate Installed(levels: seq<seq<File>>, level: nat, in0: seq<File>, in1: seq<File>, outs: seq<File>,
                            after: seq<seq<File>>)
    requires |levels| == NUM_LEVELS && level + 1 < NUM_LEVELS
  {
    && |after| == NUM_LEVELS
    && (forall l :: 0 <= l < NUM_LEVELS && l != level && l != level + 1 ==> after[l] == levels[l])
    && IsSave(levels[level], Change(Numbers(FileSet(in0)), {}), after[level])
    && IsSave(levels[level + 1], Change(Numbers(FileSet(in1)), FileSet(outs)), after[level + 1])
  }

  /** No output has the number of a file the level holds. */
  ghost predicate NewNumbers(files: seq<File>, outs: seq<File>) {
    forall o, g :: o in outs && g in files ==> o.number != g.number
  }

  ghost function FileSet(files: seq<File>): set<File> {
    set f | f in files
  }

  lemma NumberGone(files: seq<File>, next: nat, ins: seq<File>, f: File)
    requires NumbersIdentify(files, next) && f in files
    requires forall g :: g in ins ==> g in files
    ensures f.number in Numbers(FileSet(ins)) <==> f in ins
  {
    if f in ins {
      assert f in FileSet(ins);
    }
  }

  /** Every level holds the files that took no part, and the next level the outputs as well. */
  ghost predicate FilesAfter(levels: seq<seq<File>>, level: nat, in0: seq<File>, in1: seq<File>, outs: seq<File>,
                             after: seq<seq<File>>)
    requires |levels| == |after|
  {
    forall l, f :: 0 <= l < |levels| ==>
      (f in after[l] <==> (f in levels[l] && TakesNoPart(l, f, level, in0, in1)) || (l == level + 1 && f in outs))
  }

  ghost predicate TakesNoPart(l: nat, f: File, level: nat, in0: seq<File>, in1: seq<File>) {
    !(l == level && f in in0) && !(l == level + 1 && f in in1)
  }

  lemma FilesAreAfter(levels: seq<seq<File>>, next: nat, level: nat, in0: seq<File>, in1: seq<File>, outs: seq<File>,
                      after: seq<seq<File>>)
    requires WellFormed(levels, next) && ValidInputs(levels, level, in0, in1)
    requires Installed(levels, level, in0, in1, outs, after)
    requires NewNumbers(levels[level + 1], outs)
    ensures FilesAfter(levels, level, in0, in1, outs, after)
  {
    assert Tidy(levels[level], next) && Tidy(levels[level + 1], next);
    forall f ensures f in after[level] <==> f in levels[level] && f !in in0 {
      if f in levels[level] { NumberGone(levels[level], next, in0, f); }
    }
    NextLevelAfter(levels[level + 1], next, in1, outs, after[level + 1]);
  }

  lemma NextLevelAfter(files: seq<File>, next: nat, ins: seq<File>, outs: seq<File>, after: seq<File>)
    requires Tidy(files, next) && forall g :: g in ins ==> g in files
    requires IsSave(files, Change(Numbers(FileSet(ins)), FileSet(outs)), after)
    requires NewNumbers(files, outs)
    ensures forall f :: f in after <==> f in outs || (f in files && f !in ins)
  {
    forall o | o in outs ensures o.number !in Numbers(FileSet(ins)) {}
    forall f ensures f in after <==> f in outs || (f in files && f !in ins) {
      if f in files { NumberGone(files, next, ins, f); }
    }
  }

  /** In a sorted level, what stays behind sorts before what moves down, key by key. */
  lemma RunStaysNewer(files: seq<File>, ins: seq<File>, a: nat, b: nat, f: File, g: File, x: Entry, y: Entry)
    requires FilesValid(files) && LevelSorted(files) && CleanRun(files, ins, a, b)
    requires f in files && f !in ins && g in ins && x in f.entries && y in g.entries && x.key == y.key
    ensures Before(x, y)
  {
    var i :| 0 <= i < |files| && files[i] == f;
    var j :| 0 <= j < |files[a..b]| && files[a..b][j] == g;
    assert g == files[a + j] && f.Valid() && g.Valid();
    Inside(f, x);
    Inside(g, y);
    if b <= i {
      BetweenFiles(files, a + j, b, i);
    } else if i < a {
      assert Before(files[i].largest, files[a + j].smallest);
    }
  }

  /** What stays behind at the level is newer than what moves down. */
  lemma StaysNewer(levels: seq<seq<File>>, level: nat, in0: seq<File>, f: File, g: File, x: Entry, y: Entry)
    requires Ordered(levels) && Unique(All(levels)) && level < NUM_LEVELS && ValidInputs0(levels[level], level, in0)
    requires f in levels[level] && f !in in0 && g in in0 && x in f.entries && y in g.entries && x.key == y.key
    ensures x.seqno > y.seqno
  {
    if level > 0 {
      assert LevelOk(levels, level);
      var a, b :| CleanRun(levels[level], in0, a, b);
      RunStaysNewer(levels[level], in0, a, b, f, g, x, y);
      InAll(levels, level, f, x);
      InAll(levels, level, g, y);
    } else {
      assert LevelOk(levels, level) && f.Valid() && g.Valid();
      Inside(f, x);
      Inside(g, y);
    }
  }

  lemma BetweenFiles(files: seq<File>, j: nat, b: nat, i: nat)
    requires FilesValid(files) && LevelSorted(files) && j < b <= i < |files|
    requires files[b].smallest.key != files[b - 1].largest.key
    ensures files[j].largest.key < files[i].smallest.key
  {
    if j < b - 1 { FileOrder(files, j, b - 1); }
    if b < i { FileOrder(files, b, i); }
    FileOrder(files, b - 1, b);
  }

  lemma InAll(levels: seq<seq<File>>, level: nat, f: File, x: Entry)
    requires |levels| == NUM_LEVELS && level < NUM_LEVELS && f in levels[level] && x in f.entries
    ensures x in Contents(levels[level]) && x in All(levels)
  {
    AboveMember(levels, 0, x);
  }

  // ----- The next level -----

  ghost predicate Apart(f: File, g: File) {
    Before(f.largest, g.smallest) || Before(g.largest, f.smallest)
  }

  /** Files in key order, no two touching, form a sorted level. */
  lemma ApartSorted(files: seq<File>)
    requires FilesValid(files) && KeySorted(files)
    requires forall f, g {:trigger Apart(f, g)} :: f in files && g in files && f != g ==> Apart(f, g)
    ensures LevelSorted(files)
  {
    forall i, j | 0 <= i < j < |files| ensures Before(files[i].largest, files[j].smallest) {
      var f, g := files[i], files[j];
      assert BySmallest(f, g);
      assert f.Valid() && g.Valid();
      Inside(g, g.entries[0]);
      assert Apart(f, g);
    }
  }

  /** A left-out file of the next level lies wholly before or wholly after every input entry. */
  lemma LeftOutApart(files: seq<File>, in0: seq<File>, in1: seq<File>, lo: int, hi: int, f: File, e: Entry)
    requires FilesValid(files) && LevelSorted(files) && FilesValid(in0) && IsRange(in0, lo, hi)
    requires AreOverlapping(files, lo, hi, in1)
    requires f in files && f !in in1 && e in Contents(in0) + Contents(in1)
    ensures if f.largest.key < lo then Before(f.largest, e) else Before(e, f.smallest)
  {
    assert f.Valid();
    if e in Contents(in0) {
      var g :| g in in0 && e in g.entries;
      assert g.Valid();
      Inside(g, e);
    } else {
      var g :| g in in1 && e in g.entries;
      assert g in files && g.Valid();
      Inside(g, e);
      var i :| 0 <= i < |files| && files[i] == f;
      var j :| 0 <= j < |files| && files[j] == g;
      assert if i < j then Before(files[i].largest, files[j].smallest) else Before(files[j].largest, files[i].smallest);
    }
  }

  lemma OutputApart(files: seq<File>, in0: seq<File>, in1: seq<File>, lo: int, hi: int, f: File, o: File)
    requires FilesValid(files) && LevelSorted(files) && FilesValid(in0) && IsRange(in0, lo, hi)
    requires AreOverlapping(files, lo, hi, in1)
    requires f in files && f !in in1 && o.Valid() && EntriesOf(o.entries) <= Contents(in0) + Contents(in1)
    ensures Apart(f, o)
  {
    assert o.smallest in EntriesOf(o.entries) && o.largest in EntriesOf(o.entries);
    LeftOutApart(files, in0, in1, lo, hi, f, o.smallest);
    LeftOutApart(files, in0, in1, lo, hi, f, o.largest);
  }

  // ----- What the tables hold before and after -----

  /** Entries of the files that take no part in the compaction. */
  ghost function RestOf(levels: seq<seq<File>>, level: nat, in0: seq<File>, in1: seq<File>): set<Entry> {
    set l, f, e | 0 <= l < |levels| && f in levels[l] && TakesNoPart(l, f, level, in0, in1) && e in f.entries :: e
  }

  lemma AllOf(levels: seq<seq<File>>, e: Entry)
    ensures e in All(levels) <==> exists l, f :: 0 <= l < |levels| && f in levels[l] && e in f.entries
  {
    AboveMember(levels, 0, e);
    if e in All(levels) {
      var l :| 0 <= l < |levels| && e in Contents(levels[l]);
    }
    if l, f :| 0 <= l < |levels| && f in levels[l] && e in f.entries {
      assert e in Contents(levels[l]);
    }
  }

  lemma ContentsBefore(levels: seq<seq<File>>, level: nat, in0: seq<File>, in1: seq<File>)
    requires ValidInputs(levels, level, in0, in1)
    ensures All(levels) == Contents(in0) + Contents(in1) + RestOf(levels, level, in0, in1)
  {
    forall e ensures e in All(levels) <==> e in Contents(in0) + Contents(in1) + RestOf(levels, level, in0, in1) {
      AllOf(levels, e);
      if e in All(levels) {
        var l, f :| 0 <= l < |levels| && f in levels[l] && e in f.entries;
        assert TakesNoPart(l, f, level, in0, in1) || f in in0 || f in in1;
      }
    }
  }

  lemma ContentsAfter(levels: seq<seq<File>>, level: nat, in0: seq<File>, in1: seq<File>, outs: seq<File>,
                      after: seq<seq<File>>)
    requires |levels| == |after| && level + 1 < |levels| && FilesAfter(levels, level, in0, in1, outs, after)
    ensures All(after) == Contents(outs) + RestOf(levels, level, in0, in1)
  {
    forall e ensures e in All(after) <==> e in Contents(outs) + RestOf(levels, level, in0, in1) {
      AllOf(after, e);
      if e in All(after) {
        var l, f :| 0 <= l < |after| && f in after[l] && e in f.entries;
      }
      if e in Contents(outs) {
        var o :| o in outs && e in o.entries;
        assert o in after[level + 1];
      }
      if e in RestOf(levels, level, in0, in1) {
        var l, f :| 0 <= l < |levels| && f in levels[l] && TakesNoPart(l, f, level, in0, in1) && e in f.entries;
        assert f in after[l];
      }
    }
  }

  // ----- Reads -----

  ghost predicate ShareKey(f: File, g: File) {
    exists x, y :: x in f.entries && y in g.entries && x.key == y.key
  }

  /** No user key is held both by an input file of the next level and by a file left out there. */
  ghost predicate NoSplitKey(files: seq<File>, in1: seq<File>) {
    forall f, g {:trigger ShareKey(f, g)} :: f in in1 && g in files && g !in in1 ==> !ShareKey(f, g)
  }

  lemma LowerIsNewer(levels: seq<seq<File>>, l: nat, m: nat, x: Entry, y: Entry)
    requires Ordered(levels) && l < m < NUM_LEVELS
    requires x in Contents(levels[l]) && y in Contents(levels[m]) && x.key == y.key
    ensures x.seqno > y.seqno
  {
    assert LevelsAge(levels, l, m);
  }

  lemma FileIsValid(levels: seq<seq<File>>, l: nat, f: File)
    requires Ordered(levels) && l < NUM_LEVELS && f in levels[l]
    ensures f.Valid()
  {
    assert LevelOk(levels, l);
  }

  /** A left-out table entry of the key of an input from `level` is newer, unless it lives deeper. */
  lemma OlderThanInput0(levels: seq<seq<File>>, level: nat, in0: seq<File>, in1: seq<File>, l: nat, g: File,
                        e: Entry, f: File, o: Entry)
    requires Ordered(levels) && Unique(All(levels)) && ValidInputs(levels, level, in0, in1)
    requires l <= level + 1 && g in levels[l] && TakesNoPart(l, g, level, in0, in1) && o in g.entries
    requires f in in0 && e in f.entries && e.key == o.key
    ensures o.seqno > e.seqno
  {
    FileIsValid(levels, l, g);
    FileIsValid(levels, level, f);
    Inside(f, e);
    Inside(g, o);
    if l == level {
      StaysNewer(levels, level, in0, g, f, o, e);
    } else if l < level {
      LowerIsNewer(levels, l, level, o, e);
    }
  }

  lemma OlderThanInput1(levels: seq<seq<File>>, level: nat, in1: seq<File>, l: nat, g: File, e: Entry, f: File,
                        o: Entry)
    requires Ordered(levels) && l <= level + 1 < NUM_LEVELS && NoSplitKey(levels[level + 1], in1)
    requires g in levels[l] && !(l == level + 1 && g in in1) && o in g.entries
    requires f in in1 && f in levels[level + 1] && e in f.entries && e.key == o.key
    ensures o.seqno > e.seqno
  {
    assert ShareKey(f, g);
    LowerIsNewer(levels, l, level + 1, o, e);
  }

  /** A left-out table entry of the key of an input is newer, when the key is not split at the next
      level and lives in no deeper one. */
  lemma OlderLeftOut(levels: seq<seq<File>>, level: nat, in0: seq<File>, in1: seq<File>, e: Entry, o: Entry)
    requires Ordered(levels) && Unique(All(levels)) && ValidInputs(levels, level, in0, in1)
    requires NoSplitKey(levels[level + 1], in1) && BaseLevel(levels, level, e.key)
    requires e in Contents(in0) + Contents(in1) && o in RestOf(levels, level, in0, in1) && e.key == o.key
    ensures o.seqno > e.seqno
  {
    var l, g :| 0 <= l < |levels| && g in levels[l] && TakesNoPart(l, g, level, in0, in1) && o in g.entries;
    FileIsValid(levels, l, g);
    Inside(g, o);
    assert g.Overlaps(e.key, e.key);
    if e in Contents(in0) {
      var f :| f in in0 && e in f.entries;
      OlderThanInput0(levels, level, in0, in1, l, g, e, f, o);
    } else {
      var f :| f in in1 && e in f.entries;
      OlderThanInput1(levels, level, in1, l, g, e, f, o);
    }
  }

  /** With no key split at the next level, the code's inputs can resurrect nothing. */
  lemma NoSplitNoResurrection(newer: set<Entry>, levels: seq<seq<File>>, level: nat, in0: seq<File>, in1: seq<File>,
                              smallest: nat, key: int)
    requires Ordered(levels) && Unique(All(levels)) && ValidInputs(levels, level, in0, in1)
    requires NewerThan(newer, All(levels)) && NoSplitKey(levels[level + 1], in1)
    ensures !Resurrects(Contents(in0) + Contents(in1), newer + RestOf(levels, level, in0, in1), smallest,
                        Base(levels, level), key)
  {
    var input, rest := Contents(in0) + Contents(in1), RestOf(levels, level, in0, in1);
    ContentsBefore(levels, level, in0, in1);
    forall e, o | e in input && o in rest && BaseLevel(levels, level, key) && e.key == o.key == key
      ensures o.seqno > e.seqno
    {
      OlderLeftOut(levels, level, in0, in1, e, o);
    }
    NewerCannotBeHidden(newer, input, rest, smallest, Base(levels, level), key);
  }

  lemma NewerCannotBeHidden(newer: set<Entry>, input: set<Entry>, rest: set<Entry>, smallest: nat, base: int -> bool,
                            key: int)
    requires NewerThan(newer, input)
    requires forall e, o :: e in input && o in rest && base(key) && e.key == o.key == key ==> o.seqno > e.seqno
    ensures !Resurrects(input, newer + rest, smallest, base, key)
  {
  }

  /** Installing a compaction keeps every read at a live snapshot, exactly when nothing resurrects. */
  lemma InstallKeepsReads(newer: set<Entry>, levels: seq<seq<File>>, level: nat, in0: seq<File>, in1: seq<File>,
                          input: seq<Entry>, outs: seq<File>, smallest: nat, after: seq<seq<File>>)
    requires ValidInputs(levels, level, in0, in1)
    requires |after| == NUM_LEVELS && FilesAfter(levels, level, in0, in1, outs, after)
    requires Unique(newer + All(levels)) && Sorted(input) && EntriesOf(input) == Contents(in0) + Contents(in1)
    requires Contents(outs) == EntriesOf(KeptAll(input, smallest, Base(levels, level)))
    ensures SameReads(newer + All(levels), newer + All(after), smallest)
       <==> NothingResurrects(EntriesOf(input), newer + RestOf(levels, level, in0, in1), smallest, Base(levels, level))
    ensures !SameReads(newer + All(levels), newer + All(after), smallest) ==>
              ReadsChange(newer + All(levels), newer + All(after), smallest)
  {
    var rest := RestOf(levels, level, in0, in1);
    ContentsBefore(levels, level, in0, in1);
    ContentsAfter(levels, level, in0, in1, outs, after);
    assert newer + All(levels) == EntriesOf(input) + (newer + rest);
    assert newer + All(after) == Contents(outs) + (newer + rest);
    SameReadsIffNothingResurrects(input, newer + rest, smallest, Base(levels, level));
  }

  // ----- The new version is well formed -----

  /** The output tables as files, under the numbers they were given. */
  function OutputFiles(parts: seq<seq<Entry>>, numbers: seq<nat>, sizes: nat -> nat): (files: seq<File>)
    requires |numbers| == |parts| && forall i :: 0 <= i < |parts| ==> parts[i] != []
    ensures |files| == |parts|
    ensures forall i :: 0 <= i < |files| ==> files[i].entries == parts[i] && files[i].number == numbers[i]
  {
    seq(|parts|, i requires 0 <= i < |parts| =>
      File(numbers[i], sizes(i), parts[i][0], parts[i][|parts[i]| - 1], parts[i]))
  }

  lemma {:induction false} ConcatMember(parts: seq<seq<Entry>>, e: Entry)
    ensures e in Concat(parts) <==> exists i :: 0 <= i < |parts| && e in parts[i]
  {
    if parts != [] {
      var n := |parts| - 1;
      ConcatMember(parts[..n], e);
      if i :| 0 <= i < |parts| && e in parts[i] {
        assert i < n ==> parts[..n][i] == parts[i];
      }
      if i :| 0 <= i < n && e in parts[..n][i] {
        assert parts[..n][i] == parts[i];
      }
    }
  }

  /** The parts of a sorted concatenation are sorted, and each ends before the next begins. */
  lemma {:induction false} PartsSorted(parts: seq<seq<Entry>>)
    requires Sorted(Concat(parts))
    ensures forall i :: 0 <= i < |parts| ==> Sorted(parts[i])
    ensures forall i, j, x, y :: 0 <= i < j < |parts| && x in parts[i] && y in parts[j] ==> Before(x, y)
  {
    if parts != [] {
      var n := |parts| - 1;
      var front := Concat(parts[..n]);
      var all := Concat(parts);
      assert all == front + parts[n];
      assert Sorted(front) by { assert forall i :: 0 <= i < |front| ==> all[i] == front[i]; }
      assert Sorted(parts[n]) by { assert forall i :: 0 <= i < |parts[n]| ==> all[|front| + i] == parts[n][i]; }
      PartsSorted(parts[..n]);
      forall i, x, y | 0 <= i < n && x in parts[i] && y in parts[n] ensures Before(x, y) {
        assert parts[..n][i] == parts[i];
        ConcatMember(parts[..n], x);
        var a :| 0 <= a < |front| && front[a] == x;
        var b :| 0 <= b < |parts[n]| && parts[n][b] == y;
        assert Before(all[a], all[|front| + b]);
      }
      forall i, j, x, y | 0 <= i < j < |parts| && x in parts[i] && y in parts[j] ensures Before(x, y) {
        if j < n { assert parts[..n][i] == parts[i] && parts[..n][j] == parts[j]; }
      }
    }
  }

  lemma OutputsValid(parts: seq<seq<Entry>>, numbers: seq<nat>, sizes: nat -> nat)
    requires |numbers| == |parts| && Sorted(Concat(parts)) && forall i :: 0 <= i < |parts| ==> parts[i] != []
    ensures FilesValid(OutputFiles(parts, numbers, sizes))
  {
    PartsSorted(parts);
    var outs := OutputFiles(parts, numbers, sizes);
    forall f | f in outs ensures f.Valid() {
      var i :| 0 <= i < |outs| && outs[i] == f;
    }
  }

  lemma OutputsHold(parts: seq<seq<Entry>>, numbers: seq<nat>, sizes: nat -> nat)
    requires |numbers| == |parts| && forall i :: 0 <= i < |parts| ==> parts[i] != []
    ensures Contents(OutputFiles(parts, numbers, sizes)) == EntriesOf(Concat(parts))
  {
    var outs := OutputFiles(parts, numbers, sizes);
    forall e ensures e in Contents(outs) <==> e in Concat(parts) {
      ConcatMember(parts, e);
      if i :| 0 <= i < |parts| && e in parts[i] {
        assert outs[i] in outs && e in outs[i].entries;
      }
    }
  }

  lemma OutputsApart(parts: seq<seq<Entry>>, numbers: seq<nat>, sizes: nat -> nat, i: nat, j: nat)
    requires |numbers| == |parts| && Sorted(Concat(parts)) && (forall i :: 0 <= i < |parts| ==> parts[i] != [])
               && i < j < |parts|
    ensures Before(OutputFiles(parts, numbers, sizes)[i].largest, OutputFiles(parts, numbers, sizes)[j].smallest)
  {
    PartsSorted(parts);
    assert parts[i][|parts[i]| - 1] in parts[i] && parts[j][0] in parts[j];
  }

  /** Output files of a sorted run are valid, hold exactly the run, and do not touch. */
  lemma OutputsOk(parts: seq<seq<Entry>>, numbers: seq<nat>, sizes: nat -> nat)
    requires |numbers| == |parts| && Sorted(Concat(parts)) && forall i :: 0 <= i < |parts| ==> parts[i] != []
    ensures FilesValid(OutputFiles(parts, numbers, sizes)) && LevelSorted(OutputFiles(parts, numbers, sizes))
    ensures Contents(OutputFiles(parts, numbers, sizes)) == EntriesOf(Concat(parts))
  {
    OutputsValid(parts, numbers, sizes);
    OutputsHold(parts, numbers, sizes);
    forall i, j | 0 <= i < j < |parts|
      ensures Before(OutputFiles(parts, numbers, sizes)[i].largest, OutputFiles(parts, numbers, sizes)[j].smallest)
    {
      OutputsApart(parts, numbers, sizes, i, j);
    }
  }

  lemma LevelStaysOk(files: seq<File>, next: nat, level: nat, v: seq<File>)
    requires FilesValid(files) && Tidy(files, next)
    requires if level == 0 then NumbersAge(files) else LevelSorted(files)
    requires KeySorted(v) && forall f :: f in v ==> f in files
    ensures FilesValid(v)
    ensures if level == 0 then NumbersAge(v) else LevelSorted(v)
  {
    if level == 0 {
      forall i, j | 0 <= i < j < |v| ensures v[i].number != v[j].number {
        assert v[i] in v && v[j] in v && BySmallest(v[i], v[j]);
      }
    } else {
      forall f, g | f in v && g in v && f != g ensures Apart(f, g) { SortedApart(files, f, g); }
      ApartSorted(v);
    }
  }

  lemma SortedApart(files: seq<File>, f: File, g: File)
    requires LevelSorted(files) && f in files && g in files && f != g
    ensures Apart(f, g)
  {
    var i :| 0 <= i < |files| && files[i] == f;
    var j :| 0 <= j < |files| && files[j] == g;
    assert if i < j then Before(files[i].largest, files[j].smallest) else Before(files[j].largest, files[i].smallest);
  }

  /** The outputs fit between the left-out files of the next level. */
  lemma NextLevelOk(files: seq<File>, in0: seq<File>, in1: seq<File>, outs: seq<File>, v: seq<File>)
    requires FilesValid(files) && LevelSorted(files) && FilesValid(in0) && ValidInputs1(files, in0, in1)
    requires FilesValid(outs) && Contents(outs) <= Contents(in0) + Contents(in1)
    requires LevelSorted(outs)
    requires KeySorted(v) && forall f :: f in v ==> f in outs || (f in files && f !in in1)
    ensures FilesValid(v) && LevelSorted(v)
  {
    var lo, hi :| IsRange(in0, lo, hi) && AreOverlapping(files, lo, hi, in1);
    forall f, g | f in v && g in v && f != g ensures Apart(f, g) {
      if f in files && f !in in1 && g in outs {
        OutputIn(outs, g);
        OutputApart(files, in0, in1, lo, hi, f, g);
      } else if g in files && g !in in1 && f in outs {
        OutputIn(outs, f);
        OutputApart(files, in0, in1, lo, hi, g, f);
      } else if f in outs && g in outs {
        SortedApart(outs, f, g);
      } else {
        SortedApart(files, f, g);
      }
    }
    ApartSorted(v);
  }

  lemma OutputIn(outs: seq<File>, o: File)
    requires o in outs && FilesValid(outs)
    ensures o.Valid() && EntriesOf(o.entries) <= Contents(outs)
  {
  }

  /** Levels still hold newer writes above older ones after the inputs have moved down. */
  lemma AgesAfter(levels: seq<seq<File>>, level: nat, in0: seq<File>, in1: seq<File>, outs: seq<File>,
                  after: seq<seq<File>>, l: nat, m: nat, x: Entry, y: Entry)
    requires Ordered(levels) && Unique(All(levels)) && level + 1 < NUM_LEVELS && l < m < NUM_LEVELS
    requires ValidInputs0(levels[level], level, in0) && (forall g :: g in in1 ==> g in levels[level + 1])
    requires |after| == NUM_LEVELS && FilesAfter(levels, level, in0, in1, outs, after)
    requires Contents(outs) <= Contents(in0) + Contents(in1)
    requires x in Contents(after[l]) && y in Contents(after[m]) && x.key == y.key
    ensures x.seqno > y.seqno
  {
    var f :| f in after[l] && x in f.entries;
    var g :| g in after[m] && y in g.entries;
    assert (f in levels[l] && TakesNoPart(l, f, level, in0, in1)) || (l == level + 1 && f in outs);
    assert (g in levels[m] && TakesNoPart(m, g, level, in0, in1)) || (m == level + 1 && g in outs);
    assert forall h :: h in in0 ==> h in levels[level];
    var lx, fx := Origin(levels, level, in0, in1, outs, l, f, x);
    var ly, gy := Origin(levels, level, in0, in1, outs, m, g, y);
    if lx < ly {
      LowerIsNewer(levels, lx, ly, x, y);
    } else {
      assert l == lx == ly == level && m == level + 1;
      assert f in levels[level] && f !in in0 && x in f.entries;
      StaysNewer(levels, level, in0, f, gy, x, y);
    }
  }

  /** Where an entry of the new version comes from: its own level, or one of the two that are merged. */
  lemma Origin(levels: seq<seq<File>>, level: nat, in0: seq<File>, in1: seq<File>, outs: seq<File>,
               l: nat, f: File, x: Entry) returns (from: nat, g: File)
    requires |levels| == NUM_LEVELS && level + 1 < NUM_LEVELS && l < NUM_LEVELS
    requires (forall g :: g in in0 ==> g in levels[level]) && (forall g :: g in in1 ==> g in levels[level + 1])
    requires (f in levels[l] && TakesNoPart(l, f, level, in0, in1)) || (l == level + 1 && f in outs)
    requires Contents(outs) <= Contents(in0) + Contents(in1) && x in f.entries
    ensures from < NUM_LEVELS && g in levels[from] && x in g.entries && x in Contents(levels[from])
    ensures from == l || (from == level && l == level + 1 && g in in0)
    ensures from == l && l == level ==> g == f
  {
    if f in levels[l] && TakesNoPart(l, f, level, in0, in1) {
      from, g := l, f;
    } else {
      assert x in Contents(outs);
      if x in Contents(in0) {
        g :| g in in0 && x in g.entries;
        from := level;
      } else {
        g :| g in in1 && x in g.entries;
        from := level + 1;
      }
    }
  }

  lemma NextLevelAfterOk(levels: seq<seq<File>>, level: nat, in0: seq<File>, in1: seq<File>, outs: seq<File>,
                         v: seq<File>)
    requires Ordered(levels) && level + 1 < NUM_LEVELS && (forall f :: f in in0 ==> f in levels[level])
    requires ValidInputs1(levels[level + 1], in0, in1)
    requires FilesValid(outs) && Contents(outs) <= Contents(in0) + Contents(in1) && LevelSorted(outs)
    requires KeySorted(v) && forall f :: f in v ==> f in outs || (f in levels[level + 1] && f !in in1)
    ensures FilesValid(v) && LevelSorted(v)
  {
    assert LevelOk(levels, level + 1);
    forall f | f in in0 ensures f.Valid() { FileIsValid(levels, level, f); }
    NextLevelOk(levels[level + 1], in0, in1, outs, v);
  }

  lemma LevelAfterOk(levels: seq<seq<File>>, next: nat, level: nat, in0: seq<File>, in1: seq<File>, outs: seq<File>,
                     after: seq<seq<File>>, l: nat)
    requires WellFormed(levels, next) && ValidInputs(levels, level, in0, in1) && l < NUM_LEVELS
    requires Installed(levels, level, in0, in1, outs, after) && FilesAfter(levels, level, in0, in1, outs, after)
    requires FilesValid(outs) && Contents(outs) <= Contents(in0) + Contents(in1) && LevelSorted(outs)
    ensures LevelOk(after, l)
  {
    if l == level {
      assert LevelOk(levels, l) && Tidy(levels[l], next);
      LevelStaysOk(levels[l], next, l, after[l]);
    } else if l == level + 1 {
      NextLevelAfterOk(levels, level, in0, in1, outs, after[l]);
    } else {
      assert LevelOk(levels, l) && after[l] == levels[l];
    }
  }

  lemma LevelAfterTidy(levels: seq<seq<File>>, next: nat, level: nat, in0: seq<File>, in1: seq<File>, outs: seq<File>,
                       after: seq<seq<File>>, nextAfter: nat, l: nat)
    requires WellFormed(levels, next) && level + 1 < NUM_LEVELS && l < NUM_LEVELS && next <= nextAfter
    requires Installed(levels, level, in0, in1, outs, after) && FilesAfter(levels, level, in0, in1, outs, after)
    requires NewNumbers(levels[level + 1], outs) && NumbersIdentify(outs, nextAfter)
    ensures Tidy(after[l], nextAfter)
  {
    assert Tidy(levels[l], next);
    forall f | f in after[l] ensures f in levels[l] || (l == level + 1 && f in outs) {}
    if l != level && l != level + 1 {
      assert after[l] == levels[l];
    }
  }

  /** Installing a compaction keeps the version well formed. */
  lemma InstallKeepsForm(levels: seq<seq<File>>, next: nat, level: nat, in0: seq<File>, in1: seq<File>, outs: seq<File>,
                         after: seq<seq<File>>, nextAfter: nat)
    requires WellFormed(levels, next) && ValidInputs(levels, level, in0, in1) && next <= nextAfter
    requires Installed(levels, level, in0, in1, outs, after)
    requires FilesValid(outs) && Contents(outs) <= Contents(in0) + Contents(in1)
    requires LevelSorted(outs)
    requires NewNumbers(levels[level + 1], outs) && NumbersIdentify(outs, nextAfter)
    ensures WellFormed(after, nextAfter)
  {
    FilesAreAfter(levels, next, level, in0, in1, outs, after);
    forall l | 0 <= l < NUM_LEVELS ensures LevelOk(after, l) {
      LevelAfterOk(levels, next, level, in0, in1, outs, after, l);
    }
    forall l, m | 0 <= l < m < NUM_LEVELS ensures LevelsAge(after, l, m) {
      forall x, y | x in Contents(after[l]) && y in Contents(after[m]) && x.key == y.key ensures x.seqno > y.seqno {
        AgesAfter(levels, level, in0, in1, outs, after, l, m, x, y);
      }
    }
    forall l | 0 <= l < NUM_LEVELS ensures Tidy(after[l], nextAfter) {
      LevelAfterTidy(levels, next, level, in0, in1, outs, after, nextAfter, l);
    }
    ContentsBefore(levels, level, in0, in1);
    ContentsAfter(levels, level, in0, in1, outs, after);
  }

  /** When a key resurrects, some read at a live snapshot changes, however the outputs are installed. */
  lemma ResurrectionChangesReads(levels: seq<seq<File>>, level: nat, in0: seq<File>, in1: seq<File>, input: seq<Entry>,
                                 outs: seq<File>, smallest: nat, after: seq<seq<File>>, key: int)
    requires ValidInputs(levels, level, in0, in1)
    requires |after| == NUM_LEVELS && FilesAfter(levels, level, in0, in1, outs, after)
    requires Unique(All(levels)) && Sorted(input) && EntriesOf(input) == Contents(in0) + Contents(in1)
    requires Contents(outs) == EntriesOf(KeptAll(input, smallest, Base(levels, level)))
    requires Resurrects(EntriesOf(input), RestOf(levels, level, in0, in1), smallest, Base(levels, level), key)
    ensures !SameReads(All(levels), All(after), smallest)
  {
    var rest := RestOf(levels, level, in0, in1);
    assert {} + All(levels) == All(levels) && {} + All(after) == All(after) && {} + rest == rest;
    InstallKeepsReads({}, levels, level, in0, in1, input, outs, smallest, after);
  }
}
