/** Turning a memtable into a table and choosing the level it is put at
    (SomeFileOverlapsRange and PickLevelForMemTableOutput in db/version_set.cc). */
module Flush {
  import opened Entries
  import opened Versions
  import opened VersionBuilder
  import opened CompactionStep
  import InputChoice

  /** Some file of the level meets the user-key range [lo, hi]. */
  ghost predicate SomeOverlap(files: seq<File>, lo: int, hi: int) {
    exists f :: f in files && f.Overlaps(lo, hi)
  }

  /** All files at level 0; above it, binary search for the first file that could reach `lo`. */
  method SomeFileOverlapsRange(disjoint: bool, files: seq<File>, lo: int, hi: int) returns (r: bool)
    requires FilesValid(files) && lo <= hi && (disjoint ==> LevelSorted(files))
    requires forall f :: f in files ==> f.largest.Tag() <= MAX_TAG
    ensures r <==> SomeOverlap(files, lo, hi)
  {
    if !disjoint {
      for i := 0 to |files|
        invariant forall j :: 0 <= j < i ==> !files[j].Overlaps(lo, hi)
      {
        if files[i].Overlaps(lo, hi) {
          assert files[i] in files;
          return true;
        }
      }
      return false;
    }
    var index := FindFile(files, Target(lo, MAX_TAG));
    r := index < |files| && files[index].smallest.key <= hi;
    if r {
      assert files[index] in files && files[index].Overlaps(lo, hi);
    } else {
      forall f | f in files ensures !f.Overlaps(lo, hi) {
        var i :| 0 <= i < |files| && files[i] == f;
        if index < i { FileOrder(files, index, i); }
      }
    }
  }

  ghost predicate TagsFit(levels: seq<seq<File>>) {
    forall l, f :: 0 <= l < |levels| && f in levels[l] ==> f.largest.Tag() <= MAX_TAG
  }

  /** The table may go from level `l` to the one below: nothing overlaps it there, and not too much overlaps it
      two levels down. */
  ghost predicate MayGoDown(levels: seq<seq<File>>, l: nat, lo: int, hi: int, maxGrandparentBytes: nat)
    requires l + 2 < |levels|
  {
    && !SomeOverlap(levels[l + 1], lo, hi)
    && InputChoice.TotalFileSize(InputChoice.Overlapping(levels[l + 2], Some(lo), Some(hi))) <= maxGrandparentBytes
  }

  /** As far down as the table may go, level by level; not at all when something overlaps it at level 0. */
  method PickLevelForMemTableOutput(levels: seq<seq<File>>, lo: int, hi: int, maxGrandparentBytes: nat)
      returns (level: nat)
    requires Ordered(levels) && TagsFit(levels) && lo <= hi
    ensures level <= MAX_MEM_COMPACT_LEVEL
    ensures level > 0 ==> forall l :: 0 <= l <= level ==> !SomeOverlap(levels[l], lo, hi)
    ensures SomeOverlap(levels[0], lo, hi) ==> level == 0
    ensures forall l :: 0 <= l < level ==> MayGoDown(levels, l, lo, hi, maxGrandparentBytes)
    ensures level == MAX_MEM_COMPACT_LEVEL || SomeOverlap(levels[0], lo, hi)
            || !MayGoDown(levels, level, lo, hi, maxGrandparentBytes)
  {
    level := 0;
    assert LevelOk(levels, 0);
    var overlap := SomeFileOverlapsRange(false, levels[0], lo, hi);
    if !overlap {
      while level < MAX_MEM_COMPACT_LEVEL
        invariant level <= MAX_MEM_COMPACT_LEVEL
        invariant forall l :: 0 <= l <= level ==> !SomeOverlap(levels[l], lo, hi)
        invariant forall l :: 0 <= l < level ==> MayGoDown(levels, l, lo, hi, maxGrandparentBytes)
      {
        assert LevelOk(levels, level + 1);
        overlap := SomeFileOverlapsRange(true, levels[level + 1], lo, hi);
        if overlap {
          return;
        }
        if level + 2 < NUM_LEVELS {
          var overlaps, _, _ := InputChoice.GetOverlappingInputs(levels[level + 2], level + 2, Some(lo), Some(hi));
          if InputChoice.TotalFileSize(overlaps) > maxGrandparentBytes {
            return;
          }
        }
        level := level + 1;
      }
    }
  }

  // ----- Installing the table -----

  /** The table of a memtable's entries, none when it is empty. */
  function TableOf(es: seq<Entry>, number: nat, size: nat): File
    requires es != []
  {
    File(number, size, es[0], es[|es| - 1], es)
  }

  ghost predicate TableInstalled(levels: seq<seq<File>>, level: nat, f: File, after: seq<seq<File>>)
    requires |levels| == NUM_LEVELS && level < NUM_LEVELS
  {
    && |after| == NUM_LEVELS
    && (forall l :: 0 <= l < NUM_LEVELS && l != level ==> after[l] == levels[l])
    && IsSave(levels[level], Change({}, {f}), after[level])
  }

  lemma TableFits(files: seq<File>, level: nat, f: File, next: nat, v: seq<File>)
    requires FilesValid(files) && Tidy(files, next) && f.Valid() && f.number == next
    requires if level == 0 then NumbersAge(files) else LevelSorted(files)
    requires level > 0 ==> !SomeOverlap(files, f.smallest.key, f.largest.key)
    requires level == 0 ==> NewerThan(EntriesOf(f.entries), Contents(files))
    requires IsSave(files, Change({}, {f}), v)
    ensures FilesValid(v) && Tidy(v, next + 1)
    ensures if level == 0 then NumbersAge(v) else LevelSorted(v)
  {
    forall g | g in v ensures g.Valid() {}
    if level == 0 {
      forall i, j | 0 <= i < j < |v| ensures v[i].number != v[j].number {
        assert v[i] in v && v[j] in v && BySmallest(v[i], v[j]);
      }
      forall g, h | g in v && h in v ensures AgeAt(g, h) {
        if g == f && h in files {
          assert EntriesOf(h.entries) <= Contents(files);
        } else if g in files && h in files {
          assert AgeAt(g, h);
        }
      }
    } else {
      forall g, h | g in v && h in v && g != h ensures Apart(g, h) {
        if g in files && h in files {
          SortedApart(files, g, h);
        } else if h in files {
          NoOverlapApart(f, h);
        } else {
          NoOverlapApart(f, g);
        }
      }
      ApartSorted(v);
    }
  }

  lemma NoOverlapApart(f: File, g: File)
    requires f.Valid() && g.Valid() && !g.Overlaps(f.smallest.key, f.largest.key)
    ensures Apart(f, g) && Apart(g, f)
  {
    Inside(f, f.largest);
    Inside(g, g.largest);
  }

  /** A file that no level at or above the chosen one overlaps shares no key with them. */
  lemma NoSharedKey(files: seq<File>, f: File, x: Entry, y: Entry)
    requires FilesValid(files) && f.Valid() && !SomeOverlap(files, f.smallest.key, f.largest.key)
    requires x in Contents(files) && y in f.entries
    ensures x.key != y.key
  {
    var g :| g in files && x in g.entries;
    assert g.Valid();
    Inside(g, x);
    Inside(f, y);
  }

  /** Installing a table that is newer than every table keeps the order, at whatever level is picked. */
  lemma InstallTableKeepsForm(levels: seq<seq<File>>, next: nat, level: nat, f: File, after: seq<seq<File>>)
    requires WellFormed(levels, next) && level < NUM_LEVELS && f.Valid() && f.number == next
    requires TableInstalled(levels, level, f, after)
    requires NewerThan(EntriesOf(f.entries), All(levels)) && Unique(EntriesOf(f.entries) + All(levels))
    requires level > 0 ==> forall l :: 0 <= l <= level ==> !SomeOverlap(levels[l], f.smallest.key, f.largest.key)
    ensures WellFormed(after, next + 1)
    ensures All(after) == EntriesOf(f.entries) + All(levels)
  {
    AllAfterInstall(levels, level, f, after);
    forall l | 0 <= l < NUM_LEVELS ensures LevelOk(after, l) && Tidy(after[l], next + 1) {
      assert LevelOk(levels, l) && Tidy(levels[l], next);
      if l == level {
        forall x | x in Contents(levels[l]) ensures x in All(levels) { AboveMember(levels, 0, x); }
        TableFits(levels[l], l, f, next, after[l]);
      } else {
        assert after[l] == levels[l];
      }
    }
    forall l, m | 0 <= l < m < NUM_LEVELS ensures LevelsAge(after, l, m) {
      InstallKeepsAge(levels, next, level, f, after, l, m);
    }
  }

  lemma LevelContents(levels: seq<seq<File>>, level: nat, f: File, after: seq<seq<File>>, l: nat)
    requires |levels| == NUM_LEVELS && level < NUM_LEVELS && l < NUM_LEVELS && TableInstalled(levels, level, f, after)
    ensures Contents(after[l]) == Contents(levels[l]) + if l == level then EntriesOf(f.entries) else {}
  {
    if l == level {
      assert f in after[l];
    }
  }

  lemma AllAfterInstall(levels: seq<seq<File>>, level: nat, f: File, after: seq<seq<File>>)
    requires |levels| == NUM_LEVELS && level < NUM_LEVELS && TableInstalled(levels, level, f, after)
    ensures All(after) == EntriesOf(f.entries) + All(levels)
  {
    forall x ensures x in All(after) <==> x in EntriesOf(f.entries) + All(levels) {
      AboveMember(after, 0, x);
      AboveMember(levels, 0, x);
      forall l | 0 <= l < NUM_LEVELS
        ensures Contents(after[l]) == Contents(levels[l]) + if l == level then EntriesOf(f.entries) else {}
      {
        LevelContents(levels, level, f, after, l);
      }
      if x in EntriesOf(f.entries) { assert x in Contents(after[level]); }
    }
  }

  lemma InstallKeepsAge(levels: seq<seq<File>>, next: nat, level: nat, f: File, after: seq<seq<File>>, l: nat, m: nat)
    requires WellFormed(levels, next) && level < NUM_LEVELS && f.Valid() && TableInstalled(levels, level, f, after)
    requires NewerThan(EntriesOf(f.entries), All(levels)) && l < m < NUM_LEVELS
    requires level > 0 ==> forall l :: 0 <= l <= level ==> !SomeOverlap(levels[l], f.smallest.key, f.largest.key)
    ensures LevelsAge(after, l, m)
  {
    LevelContents(levels, level, f, after, l);
    LevelContents(levels, level, f, after, m);
    assert LevelsAge(levels, l, m) && LevelOk(levels, l);
    forall x, y | x in Contents(after[l]) && y in Contents(after[m]) && x.key == y.key ensures x.seqno > y.seqno {
      AboveMember(levels, 0, y);
      if m == level && x in Contents(levels[l]) && y in EntriesOf(f.entries) {
        NoSharedKey(levels[l], f, x, y);
      }
    }
  }

  // ----- Installing the tables of a recovery -----

  /** All at level 0. */
  ghost predicate TablesInstalled(levels: seq<seq<File>>, files: seq<File>, after: seq<seq<File>>)
    requires |levels| == NUM_LEVELS
  {
    && |after| == NUM_LEVELS && (forall l :: 1 <= l < NUM_LEVELS ==> after[l] == levels[l])
    && IsSave(levels[0], Change({}, FileSet(files)), after[0])
  }

  lemma TablesMembers(levels: seq<seq<File>>, files: seq<File>, after: seq<seq<File>>)
    requires |levels| == NUM_LEVELS && TablesInstalled(levels, files, after)
    ensures forall f :: f in after[0] <==> f in levels[0] || f in files
    ensures Contents(after[0]) == Contents(levels[0]) + Contents(files)
    ensures All(after) == Contents(files) + All(levels)
  {
    forall f ensures f in after[0] <==> f in levels[0] || f in files {
    }
    forall x ensures x in All(after) <==> x in Contents(files) + All(levels) {
      AboveMember(after, 0, x);
      AboveMember(levels, 0, x);
      if x in Contents(files) {
        assert x in Contents(after[0]);
      }
    }
  }

  lemma TablesFit(files: seq<File>, next: nat, news: seq<File>, v: seq<File>, after: nat)
    requires FilesValid(files) && Tidy(files, next) && NumbersAge(files) && FilesValid(news) && NumbersAge(news)
    requires NewerThan(Contents(news), Contents(files)) && next <= after
    requires forall f :: f in news ==> next <= f.number < after
    requires KeySorted(v) && forall f :: f in v <==> f in files || f in news
    ensures FilesValid(v) && Tidy(v, after) && NumbersAge(v)
  {
    forall i, j | 0 <= i < j < |v| ensures v[i].number != v[j].number {
      assert v[i] in v && v[j] in v && BySmallest(v[i], v[j]);
      SameNumberSame(news, v[i], v[j]);
    }
    forall g, h | g in v && h in v ensures AgeAt(g, h) {
      if (g in files && h in files) || (g in news && h in news) {
        assert AgeAt(g, h);
      } else if g in news {
        assert EntriesOf(g.entries) <= Contents(news) && EntriesOf(h.entries) <= Contents(files);
      }
    }
    forall f, g | f in v && g in v && f.number == g.number ensures f == g {
      SameNumberSame(news, f, g);
    }
  }

  lemma SameNumberSame(news: seq<File>, f: File, g: File)
    requires NumbersAge(news)
    ensures f in news && g in news && f.number == g.number ==> f == g
  {
  }

  /** Tables newer than every table, a higher number meaning newer, keep the order at level 0. */
  lemma InstallTablesKeepsForm(levels: seq<seq<File>>, next: nat, files: seq<File>, after: seq<seq<File>>,
                               nextAfter: nat)
    requires WellFormed(levels, next) && FilesValid(files) && NumbersAge(files) && next <= nextAfter
    requires forall f :: f in files ==> next <= f.number < nextAfter
    requires TablesInstalled(levels, files, after)
    requires NewerThan(Contents(files), All(levels)) && Unique(Contents(files) + All(levels))
    ensures WellFormed(after, nextAfter) && All(after) == Contents(files) + All(levels)
    ensures forall f :: f in after[0] <==> f in levels[0] || f in files
  {
    TablesMembers(levels, files, after);
    forall l | 0 <= l < NUM_LEVELS ensures LevelOk(after, l) && Tidy(after[l], nextAfter) {
      assert LevelOk(levels, l) && Tidy(levels[l], next);
      if l == 0 {
        forall x | x in Contents(levels[0]) ensures x in All(levels) { AboveMember(levels, 0, x); }
        TablesFit(levels[0], next, files, after[0], nextAfter);
      }
    }
    forall l, m | 0 <= l < m < NUM_LEVELS ensures LevelsAge(after, l, m) {
      assert LevelsAge(levels, l, m);
      forall x, y | x in Contents(after[l]) && y in Contents(after[m]) && x.key == y.key ensures x.seqno > y.seqno {
        AboveMember(levels, 0, y);
      }
    }
  }
}
