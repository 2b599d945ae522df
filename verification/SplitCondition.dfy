/** Exactly when a compaction with the code's inputs brings an old value back: a file-by-file condition at the
    next level, where nothing closes the inputs under boundary files (db/version_set.cc SetupOtherInputs). */
module SplitCondition {
  import opened Entries
  import opened Versions
  import opened VersionBuilder
  import opened Compaction
  import opened CompactionStep

  /** Input file `i` of the next level ends with the key, and the left-out file after it starts with a value
      of the same key. */
  ghost predicate SplitAt(files: seq<File>, in1: seq<File>, key: int, i: nat) {
    && i + 1 < |files| && files[i] in in1 && files[i + 1] !in in1
    && files[i].largest.key == key && files[i + 1].smallest.key == key && files[i + 1].smallest.kind.Put?
  }

  /** What the smallest live snapshot sees of the key is a deletion among the inputs, no deeper file covers the
      key, and the key is split at the next level before a value. */
  ghost predicate SplitDeletion(files: seq<File>, in1: seq<File>, input: set<Entry>, rest: set<Entry>, smallest: nat,
                                base: int -> bool, key: int) {
    && base(key)
    && (exists e :: e in input && e.kind.Deletion? && IsNewest(input + rest, key, smallest, Some(e)))
    && IsSplit(files, in1, key)
  }

  ghost predicate IsSplit(files: seq<File>, in1: seq<File>, key: int) {
    exists i: nat :: SplitAt(files, in1, key, i)
  }

  ghost predicate NoSplitDeletion(files: seq<File>, in1: seq<File>, input: set<Entry>, rest: set<Entry>, smallest: nat,
                                  base: int -> bool) {
    forall key :: !SplitDeletion(files, in1, input, rest, smallest, base, key)
  }

  /** The setting: the tables, and the newer entries in memory. */
  ghost predicate Setting(newer: set<Entry>, levels: seq<seq<File>>, level: nat, in0: seq<File>, in1: seq<File>) {
    && ValidInputs(levels, level, in0, in1) && Ordered(levels)
    && Unique(newer + All(levels)) && NewerThan(newer, All(levels))
  }

  /** The inputs of the next level lie side by side. */
  lemma InputsAdjacent(files: seq<File>, in0: seq<File>, in1: seq<File>, i: nat, m: nat, j: nat)
    requires FilesValid(files) && LevelSorted(files) && ValidInputs1(files, in0, in1) && i <= m <= j < |files|
    requires files[i] in in1 && files[j] in in1
    ensures files[m] in in1
  {
    var lo, hi :| IsRange(in0, lo, hi) && AreOverlapping(files, lo, hi, in1);
    if i < m {
      FileOrder(files, i, m);
    }
    if m < j {
      FileOrder(files, m, j);
    }
    assert files[m].Valid();
    Inside(files[m], files[m].largest);
  }

  /** In a sorted level, an earlier file's entry of a key is the newer one. */
  lemma EarlierIsNewer(levels: seq<seq<File>>, l: nat, i: nat, x: Entry, j: nat, y: Entry)
    requires Ordered(levels) && Unique(All(levels)) && 0 < l < NUM_LEVELS && i < j < |levels[l]|
    requires x in levels[l][i].entries && y in levels[l][j].entries && x.key == y.key
    ensures x.seqno > y.seqno
  {
    var files := levels[l];
    assert LevelOk(levels, l) && files[i].Valid() && files[j].Valid();
    Inside(files[i], x);
    Inside(files[j], y);
    assert Before(files[i].largest, files[j].smallest);
    InAll(levels, l, files[i], x);
    InAll(levels, l, files[j], y);
  }

  /** A left-out entry no newer than an input of its key is in a table, and no deeper than the next level. */
  lemma LeftOutFile(newer: set<Entry>, levels: seq<seq<File>>, level: nat, in0: seq<File>, in1: seq<File>,
                    e: Entry, o: Entry) returns (l: nat, g: File)
    requires Setting(newer, levels, level, in0, in1) && BaseLevel(levels, level, e.key)
    requires e in All(levels) && o in newer + RestOf(levels, level, in0, in1)
    requires o.key == e.key && o.seqno <= e.seqno
    ensures l <= level + 1 && g in levels[l] && TakesNoPart(l, g, level, in0, in1) && o in g.entries
  {
    assert o !in newer;
    l, g :| 0 <= l < |levels| && g in levels[l] && TakesNoPart(l, g, level, in0, in1) && o in g.entries;
    FileIsValid(levels, l, g);
    Inside(g, o);
    assert g.Overlaps(e.key, e.key);
  }

  /** The input is then one of the next level too. */
  lemma FromNextLevel(levels: seq<seq<File>>, level: nat, in0: seq<File>, in1: seq<File>, e: Entry, o: Entry,
                      l: nat, g: File) returns (f: File)
    requires ValidInputs(levels, level, in0, in1) && Ordered(levels) && Unique(All(levels))
    requires e in Contents(in0) + Contents(in1) && o.key == e.key && o.seqno <= e.seqno
    requires l <= level + 1 && g in levels[l] && TakesNoPart(l, g, level, in0, in1) && o in g.entries
    ensures f in in1 && f in levels[level + 1] && e in f.entries && l == level + 1
  {
    if f0 :| f0 in in0 && e in f0.entries {
      OlderThanInput0(levels, level, in0, in1, l, g, e, f0, o);
    }
    f :| f in in1 && e in f.entries;
    assert f in levels[level + 1];
    if l <= level {
      assert o in Contents(levels[l]) && e in Contents(levels[level + 1]);
      LowerIsNewer(levels, l, level + 1, o, e);
    }
  }

  /** A left-out entry no newer than an input of its key is in a left-out file of the next level, after the
      input's own file there. */
  lemma OlderIsBehind(newer: set<Entry>, levels: seq<seq<File>>, level: nat, in0: seq<File>, in1: seq<File>,
                      e: Entry, o: Entry) returns (j: nat, m: nat)
    requires Setting(newer, levels, level, in0, in1) && BaseLevel(levels, level, e.key)
    requires e in Contents(in0) + Contents(in1) && o in newer + RestOf(levels, level, in0, in1)
    requires o.key == e.key && o.seqno <= e.seqno
    ensures j < m < |levels[level + 1]| && e in levels[level + 1][j].entries && o in levels[level + 1][m].entries
    ensures levels[level + 1][j] in in1 && levels[level + 1][m] !in in1
  {
    ContentsBefore(levels, level, in0, in1);
    var l, g := LeftOutFile(newer, levels, level, in0, in1, e, o);
    assert Unique(All(levels));
    var f := FromNextLevel(levels, level, in0, in1, e, o, l, g);
    j, m := Places(levels, level + 1, f, g, e, o);
  }

  lemma Places(levels: seq<seq<File>>, l: nat, f: File, g: File, e: Entry, o: Entry) returns (j: nat, m: nat)
    requires Ordered(levels) && Unique(All(levels)) && 0 < l < NUM_LEVELS && f in levels[l] && g in levels[l] && f != g
    requires e in f.entries && o in g.entries && e.key == o.key && o.seqno <= e.seqno
    ensures j < m < |levels[l]| && levels[l][j] == f && levels[l][m] == g
  {
    j :| 0 <= j < |levels[l]| && levels[l][j] == f;
    m :| 0 <= m < |levels[l]| && levels[l][m] == g;
    if m < j {
      EarlierIsNewer(levels, l, m, o, j, e);
    }
  }

  /** Between an input file and a left-out one after it there is a last input file. */
  lemma LastInput(files: seq<File>, in1: seq<File>, j: nat, m: nat) returns (i: nat)
    requires j < m < |files| && files[j] in in1 && files[m] !in in1
    ensures j <= i < m && files[i] in in1 && files[i + 1] !in in1
  {
    i := j;
    while files[i + 1] in in1
      invariant j <= i < m && files[i] in in1
      decreases m - i
    {
      i := i + 1;
    }
  }

  /** Files from one that holds a key to a later one that does meet in that key. */
  lemma MeetInKey(files: seq<File>, j: nat, i: nat, m: nat, e: Entry, o: Entry)
    requires FilesValid(files) && LevelSorted(files) && j <= i < m < |files|
    requires e in files[j].entries && o in files[m].entries && e.key == o.key
    ensures files[i].largest.key == e.key && files[i + 1].smallest.key == e.key
  {
    assert files[j].Valid() && files[m].Valid() && files[i].Valid() && files[i + 1].Valid();
    Inside(files[j], e);
    Inside(files[m], o);
    Inside(files[i], files[i].largest);
    Inside(files[i + 1], files[i + 1].largest);
    if j < i {
      FileOrder(files, j, i);
    }
    if i + 1 < m {
      FileOrder(files, i + 1, m);
    }
    FileOrder(files, i, i + 1);
  }

  /** A resurrection needs a split before a value. */
  lemma ResurrectionSplits(newer: set<Entry>, levels: seq<seq<File>>, level: nat, in0: seq<File>, in1: seq<File>,
                           smallest: nat, key: int)
    requires Setting(newer, levels, level, in0, in1)
    requires Resurrects(Contents(in0) + Contents(in1), newer + RestOf(levels, level, in0, in1), smallest,
                        Base(levels, level), key)
    ensures IsSplit(levels[level + 1], in1, key)
  {
    var input, rest, files := Contents(in0) + Contents(in1), newer + RestOf(levels, level, in0, in1), levels[level + 1];
    var e, o :| && e in input && e.kind.Deletion? && Base(levels, level)(key)
                && IsNewest(input + rest, key, smallest, Some(e))
                && IsNewest(rest, key, smallest, Some(o)) && o.kind.Put?;
    var j, m := OlderIsBehind(newer, levels, level, in0, in1, e, o);
    var i := LastInput(files, in1, j, m);
    assert LevelOk(levels, level + 1);
    MeetInKey(files, j, i, m, e, o);
    FirstBehind(newer, levels, level, in0, in1, smallest, e, o, j, i, m);
    assert SplitAt(files, in1, key, i);
  }

  /** The first left-out entry behind the inputs is the newest one left. */
  lemma FirstBehind(newer: set<Entry>, levels: seq<seq<File>>, level: nat, in0: seq<File>, in1: seq<File>,
                    smallest: nat, e: Entry, o: Entry, j: nat, i: nat, m: nat)
    requires Setting(newer, levels, level, in0, in1)
    requires j <= i < m < |levels[level + 1]| && levels[level + 1][i + 1] !in in1
    requires e in levels[level + 1][j].entries && o in levels[level + 1][m].entries && o.key == e.key
    requires levels[level + 1][i + 1].smallest.key == e.key && e.seqno <= smallest
    requires IsNewest(newer + RestOf(levels, level, in0, in1), e.key, smallest, Some(o))
    ensures levels[level + 1][i + 1].smallest == o
  {
    var x := levels[level + 1][i + 1].smallest;
    LeftOutStart(levels, level, in0, in1, i + 1);
    UniqueTables(newer, levels);
    EarlierIsNewer(levels, level + 1, j, e, i + 1, x);
    FirstIsNewest(levels, level + 1, i + 1, m, o);
    assert Matches(x, e.key, smallest);
    InAll(levels, level + 1, levels[level + 1][m], o);
    InAll(levels, level + 1, levels[level + 1][i + 1], x);
  }

  lemma UniqueTables(newer: set<Entry>, levels: seq<seq<File>>)
    requires Unique(newer + All(levels))
    ensures Unique(All(levels))
  {
  }

  lemma LeftOutStart(levels: seq<seq<File>>, level: nat, in0: seq<File>, in1: seq<File>, i: nat)
    requires Ordered(levels) && level + 1 < NUM_LEVELS && i < |levels[level + 1]| && levels[level + 1][i] !in in1
    ensures levels[level + 1][i].smallest in levels[level + 1][i].entries
    ensures levels[level + 1][i].smallest in RestOf(levels, level, in0, in1)
  {
    var g := levels[level + 1][i];
    FileIsValid(levels, level + 1, g);
    assert TakesNoPart(level + 1, g, level, in0, in1);
  }

  /** The start of a file is newer than every entry of its key there or behind. */
  lemma FirstIsNewest(levels: seq<seq<File>>, l: nat, i: nat, m: nat, x: Entry)
    requires Ordered(levels) && Unique(All(levels)) && 0 < l < NUM_LEVELS && i <= m < |levels[l]|
    requires x in levels[l][m].entries && levels[l][i].smallest.key == x.key
    ensures x.seqno <= levels[l][i].smallest.seqno
  {
    var g := levels[l][i];
    FileIsValid(levels, l, g);
    if i < m {
      EarlierIsNewer(levels, l, i, g.smallest, m, x);
    } else {
      Inside(g, x);
    }
  }

  /** A split before a value brings it back when the deletion in front of it is what is read. */
  lemma SplitResurrects(newer: set<Entry>, levels: seq<seq<File>>, level: nat, in0: seq<File>, in1: seq<File>,
                        smallest: nat, key: int, e: Entry, i: nat)
    requires Setting(newer, levels, level, in0, in1) && BaseLevel(levels, level, key)
    requires e in Contents(in0) + Contents(in1)
    requires IsNewest(Contents(in0) + Contents(in1) + (newer + RestOf(levels, level, in0, in1)), key, smallest, Some(e))
    requires SplitAt(levels[level + 1], in1, key, i)
    ensures IsNewest(newer + RestOf(levels, level, in0, in1), key, smallest, Some(levels[level + 1][i + 1].smallest))
  {
    var o := levels[level + 1][i + 1].smallest;
    LeftOutStart(levels, level, in0, in1, i + 1);
    UniqueTables(newer, levels);
    OlderAtSplit(levels, level, in0, in1, key, e, i);
    forall x | x in newer + RestOf(levels, level, in0, in1) && Matches(x, key, smallest) ensures x.seqno <= o.seqno {
      assert x.seqno <= e.seqno;
      NoneNewer(newer, levels, level, in0, in1, key, e, i, x);
    }
  }

  lemma NoneNewer(newer: set<Entry>, levels: seq<seq<File>>, level: nat, in0: seq<File>, in1: seq<File>, key: int,
                  e: Entry, i: nat, x: Entry)
    requires Setting(newer, levels, level, in0, in1) && BaseLevel(levels, level, key)
    requires e in Contents(in0) + Contents(in1) && SplitAt(levels[level + 1], in1, key, i)
    requires x in newer + RestOf(levels, level, in0, in1) && x.key == key == e.key && x.seqno <= e.seqno
    ensures x.seqno <= levels[level + 1][i + 1].smallest.seqno
  {
    var j, m := OlderIsBehind(newer, levels, level, in0, in1, e, x);
    UniqueTables(newer, levels);
    if m <= i {
      assert LevelOk(levels, level + 1);
      InputsAdjacent(levels[level + 1], in0, in1, j, m, i);
    } else {
      FirstIsNewest(levels, level + 1, i + 1, m, x);
    }
  }

  /** What is behind the split is older than the deletion read. */
  lemma OlderAtSplit(levels: seq<seq<File>>, level: nat, in0: seq<File>, in1: seq<File>, key: int, e: Entry, i: nat)
    requires ValidInputs(levels, level, in0, in1) && Ordered(levels) && Unique(All(levels))
    requires e in Contents(in0) + Contents(in1) && e.key == key && SplitAt(levels[level + 1], in1, key, i)
    ensures levels[level + 1][i + 1].smallest.seqno < e.seqno
  {
    var o := levels[level + 1][i + 1].smallest;
    LeftOutStart(levels, level, in0, in1, i + 1);
    if f :| f in in0 && e in f.entries {
      assert e in Contents(levels[level]) && o in Contents(levels[level + 1]);
      LowerIsNewer(levels, level, level + 1, e, o);
    } else {
      var f :| f in in1 && e in f.entries;
      InputBeforeSplit(levels, level, in0, in1, key, e, i, f);
    }
  }

  lemma InputBeforeSplit(levels: seq<seq<File>>, level: nat, in0: seq<File>, in1: seq<File>, key: int, e: Entry, i: nat,
                         f: File)
    requires ValidInputs(levels, level, in0, in1) && Ordered(levels) && Unique(All(levels))
    requires f in in1 && e in f.entries && e.key == key && SplitAt(levels[level + 1], in1, key, i)
    ensures levels[level + 1][i + 1].smallest.seqno < e.seqno
  {
    var files := levels[level + 1];
    LeftOutStart(levels, level, in0, in1, i + 1);
    assert f in files && LevelOk(levels, level + 1);
    var j :| 0 <= j < |files| && files[j] == f;
    if i + 1 <= j {
      InputsAdjacent(files, in0, in1, i, i + 1, j);
    }
    EarlierIsNewer(levels, level + 1, j, e, i + 1, files[i + 1].smallest);
  }

  /** With the inputs the code chooses, a key is brought back exactly when it is split before a value at the
      next level behind the deletion that is read. */
  lemma ResurrectsIffSplit(newer: set<Entry>, levels: seq<seq<File>>, level: nat, in0: seq<File>, in1: seq<File>,
                           smallest: nat, key: int)
    requires Setting(newer, levels, level, in0, in1)
    ensures var input, rest := Contents(in0) + Contents(in1), newer + RestOf(levels, level, in0, in1);
            Resurrects(input, rest, smallest, Base(levels, level), key)
            <==> SplitDeletion(levels[level + 1], in1, input, rest, smallest, Base(levels, level), key)
  {
    var input, rest := Contents(in0) + Contents(in1), newer + RestOf(levels, level, in0, in1);
    if Resurrects(input, rest, smallest, Base(levels, level), key) {
      ResurrectionSplits(newer, levels, level, in0, in1, smallest, key);
    }
    if SplitDeletion(levels[level + 1], in1, input, rest, smallest, Base(levels, level), key) {
      var e :| e in input && e.kind.Deletion? && IsNewest(input + rest, key, smallest, Some(e));
      var i: nat :| SplitAt(levels[level + 1], in1, key, i);
      SplitResurrects(newer, levels, level, in0, in1, smallest, key, e, i);
    }
  }

  ghost predicate SameOf(files: seq<File>, in1: seq<File>, input: set<Entry>, rest: set<Entry>, smallest: nat,
                         base: int -> bool, key: int) {
    Resurrects(input, rest, smallest, base, key) <==> SplitDeletion(files, in1, input, rest, smallest, base, key)
  }

  lemma EveryKey(files: seq<File>, in1: seq<File>, input: set<Entry>, rest: set<Entry>, smallest: nat,
                 base: int -> bool)
    requires forall key {:trigger SameOf(files, in1, input, rest, smallest, base, key)} ::
               SameOf(files, in1, input, rest, smallest, base, key)
    ensures NothingResurrects(input, rest, smallest, base)
       <==> NoSplitDeletion(files, in1, input, rest, smallest, base)
  {
    if NothingResurrects(input, rest, smallest, base) {
      forall key ensures !SplitDeletion(files, in1, input, rest, smallest, base, key) {
        assert SameOf(files, in1, input, rest, smallest, base, key);
      }
    } else {
      var key :| Resurrects(input, rest, smallest, base, key);
      assert SameOf(files, in1, input, rest, smallest, base, key);
    }
  }

  /** Installing the compaction keeps every read at a live snapshot exactly when no key is split like that. */
  lemma KeepsReadsIffNoSplit(newer: set<Entry>, levels: seq<seq<File>>, level: nat, in0: seq<File>, in1: seq<File>,
                             input: seq<Entry>, outs: seq<File>, smallest: nat, after: seq<seq<File>>)
    requires Setting(newer, levels, level, in0, in1)
    requires |after| == NUM_LEVELS && FilesAfter(levels, level, in0, in1, outs, after)
    requires Sorted(input) && EntriesOf(input) == Contents(in0) + Contents(in1)
    requires Contents(outs) == EntriesOf(KeptAll(input, smallest, Base(levels, level)))
    ensures SameReads(newer + All(levels), newer + All(after), smallest)
       <==> NoSplitDeletion(levels[level + 1], in1, EntriesOf(input), newer + RestOf(levels, level, in0, in1), smallest,
                            Base(levels, level))
    ensures !SameReads(newer + All(levels), newer + All(after), smallest) ==>
              ReadsChange(newer + All(levels), newer + All(after), smallest)
  {
    InstallKeepsReads(newer, levels, level, in0, in1, input, outs, smallest, after);
    var files := levels[level + 1];
    var all, rest, base := EntriesOf(input), newer + RestOf(levels, level, in0, in1), Base(levels, level);
    forall key ensures SameOf(files, in1, all, rest, smallest, base, key) {
      ResurrectsIffSplit(newer, levels, level, in0, in1, smallest, key);
    }
    EveryKey(files, in1, all, rest, smallest, base);
  }
}
