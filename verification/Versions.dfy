/** A version of the tree: seven levels of sorted tables, and the level-by-level search through
    them (db/version_set.cc). */
module Versions {
  import opened Entries
  import opened Cursors

  const NUM_LEVELS := 7
  const MAX_MEM_COMPACT_LEVEL := 2

  /** A table file with the key range its metadata records. */
  datatype File = File(number: nat, size: nat, smallest: Entry, largest: Entry, entries: seq<Entry>) {
    ghost predicate Valid() {
      && entries != [] && Sorted(entries)
      && smallest == entries[0] && largest == entries[|entries| - 1]
    }

    predicate Overlaps(lo: int, hi: int) {
      smallest.key <= hi && lo <= largest.key
    }
  }

  ghost function Contents(files: seq<File>): set<Entry> {
    set f, e | f in files && e in f.entries :: e
  }

  /** A level above 0: files in key order, no two overlapping. */
  ghost predicate LevelSorted(files: seq<File>) {
    forall i, j :: 0 <= i < j < |files| ==> Before(files[i].largest, files[j].smallest)
  }

  ghost predicate AgeAt(f: File, g: File) {
    f.number > g.number ==> NewerThan(EntriesOf(f.entries), EntriesOf(g.entries))
  }

  /** Level 0: files may overlap, but a higher number means newer writes. */
  ghost predicate NumbersAge(files: seq<File>) {
    && (forall i, j :: 0 <= i < j < |files| ==> files[i].number != files[j].number)
    && (forall f, g {:trigger AgeAt(f, g)} :: f in files && g in files ==> AgeAt(f, g))
  }

  ghost predicate FilesValid(files: seq<File>) {
    forall f {:trigger f.Valid()} :: f in files ==> f.Valid()
  }

  ghost predicate LevelOk(levels: seq<seq<File>>, l: nat)
    requires l < |levels|
  {
    FilesValid(levels[l]) && if l == 0 then NumbersAge(levels[l]) else LevelSorted(levels[l])
  }

  ghost predicate LevelsAge(levels: seq<seq<File>>, l: nat, m: nat)
    requires l < m < |levels|
  {
    NewerThan(Contents(levels[l]), Contents(levels[m]))
  }

  /** Lower levels hold newer writes of each key; levels above 0 are sorted and disjoint. */
  ghost predicate Ordered(levels: seq<seq<File>>) {
    && |levels| == NUM_LEVELS
    && (forall l {:trigger LevelOk(levels, l)} :: 0 <= l < NUM_LEVELS ==> LevelOk(levels, l))
    && (forall l, m {:trigger LevelsAge(levels, l, m)} :: 0 <= l < m < NUM_LEVELS ==> LevelsAge(levels, l, m))
  }

  /** All entries of levels `from` and up. */
  ghost function Above(levels: seq<seq<File>>, from: nat): (es: set<Entry>)
    decreases |levels| - from
  {
    if from >= |levels| then {} else Contents(levels[from]) + Above(levels, from + 1)
  }

  ghost function All(levels: seq<seq<File>>): set<Entry> {
    Above(levels, 0)
  }

  lemma {:induction false} AboveMember(levels: seq<seq<File>>, from: nat, e: Entry)
    ensures e in Above(levels, from) <==> exists l :: from <= l < |levels| && e in Contents(levels[l])
    decreases |levels| - from
  {
    if from < |levels| {
      AboveMember(levels, from + 1, e);
    }
  }

  // ----- One table -----

  /** The first entry at or after the lookup key, if it belongs to the user key asked for:
      a table hands it to the caller, who compares user keys. */
  function SeekEntry(es: seq<Entry>, key: int, snapshot: nat): Option<Entry> {
    var i := FirstAtOrAbove(es, AtOrAfter, LookupTarget(key, snapshot));
    if i < |es| && es[i].key == key then Some(es[i]) else None
  }

  lemma SeekSplits(es: seq<Entry>, t: Target)
    requires Sorted(es)
    ensures IsLowerBound(es, t, FirstAtOrAbove(es, AtOrAfter, t))
  {
    var k := 0;
    while k < |es| && BeforeTarget(es[k], t)
      invariant k <= |es| && forall j :: 0 <= j < k ==> BeforeTarget(es[j], t)
    {
      k := k + 1;
    }
    FirstAtOrAboveIs(es, AtOrAfter, t, k);
    forall j | k <= j < |es| ensures !BeforeTarget(es[j], t) {
      assert j == k || Before(es[k], es[j]);
    }
  }

  lemma SeekIsNewest(es: seq<Entry>, key: int, snapshot: nat)
    requires Sorted(es)
    ensures IsNewest(EntriesOf(es), key, snapshot, SeekEntry(es, key, snapshot))
  {
    var t := LookupTarget(key, snapshot);
    var i := FirstAtOrAbove(es, AtOrAfter, t);
    SeekSplits(es, t);
    forall e | e in es && Matches(e, key, snapshot)
      ensures SeekEntry(es, key, snapshot).Some? && e.seqno <= es[i].seqno
    {
      var j :| 0 <= j < |es| && es[j] == e;
      assert i <= j;
      assert i == j || Before(es[i], es[j]);
    }
  }

  // ----- Searching a level -----

  /** The first file whose largest key is at or after the target; |files| when there is none. */
  method FindFile(files: seq<File>, t: Target) returns (r: nat)
    requires FilesValid(files) && LevelSorted(files)
    ensures r <= |files|
    ensures forall i :: 0 <= i < r ==> BeforeTarget(files[i].largest, t)
    ensures forall i :: r <= i < |files| ==> !BeforeTarget(files[i].largest, t)
  {
    var left, right := 0, |files|;
    while left < right
      invariant left <= right <= |files|
      invariant forall i :: 0 <= i < left ==> BeforeTarget(files[i].largest, t)
      invariant forall i :: right <= i < |files| ==> !BeforeTarget(files[i].largest, t)
    {
      var mid := (left + right) / 2;
      forall i, j | 0 <= i < j < |files| ensures Before(files[i].largest, files[j].largest) { FileOrder(files, i, j); }
      if BeforeTarget(files[mid].largest, t) {
        left := mid + 1;
      } else {
        right := mid;
      }
    }
    r := right;
  }

  lemma FileOrder(files: seq<File>, i: nat, j: nat)
    requires FilesValid(files) && LevelSorted(files) && i < j < |files|
    ensures Before(files[i].largest, files[j].largest) && Before(files[i].smallest, files[j].smallest)
    ensures files[i].largest.key <= files[j].smallest.key
  {
    assert files[i].Valid() && files[j].Valid();
    Inside(files[i], files[i].entries[0]);
    Inside(files[j], files[j].entries[|files[j].entries| - 1]);
    Inside(files[j], files[j].entries[0]);
  }

  /** Every entry of a file lies between its recorded bounds. */
  lemma Inside(f: File, e: Entry)
    requires f.Valid() && e in f.entries
    ensures e == f.smallest || Before(f.smallest, e)
    ensures e == f.largest || Before(e, f.largest)
    ensures f.smallest.key <= e.key <= f.largest.key
  {
    var i :| 0 <= i < |f.entries| && f.entries[i] == e;
    assert i == 0 || Before(f.entries[0], f.entries[i]);
    assert i == |f.entries| - 1 || Before(f.entries[i], f.entries[|f.entries| - 1]);
  }

  /** An entry of the key in file i >= r is no newer than what the first candidate file answers. */
  lemma CandidateAnswers(files: seq<File>, key: int, snapshot: nat, r: nat, i: nat, e: Entry)
    requires FilesValid(files) && LevelSorted(files) && r <= i < |files|
    requires !BeforeTarget(files[r].largest, LookupTarget(key, snapshot))
    requires e in files[i].entries && Matches(e, key, snapshot)
    ensures files[r].smallest.key <= key
    ensures SeekEntry(files[r].entries, key, snapshot).Some?
    ensures e.seqno <= SeekEntry(files[r].entries, key, snapshot).value.seqno
  {
    var g := files[r];
    assert g in files && files[i] in files && g.Valid();
    Inside(files[i], e);
    SeekIsNewest(g.entries, key, snapshot);
    if r < i {
      // The last entry of g is at or after the target and before e, so it has e's key.
      FileOrder(files, r, i);
      Inside(g, g.largest);
      assert Before(g.largest, files[i].smallest);
      assert Matches(g.largest, key, snapshot) && g.largest in EntriesOf(g.entries);
    } else {
      assert e in EntriesOf(g.entries);
    }
  }

  /** In a sorted level the only file worth reading is the one binary search finds. */
  lemma LevelSearch(files: seq<File>, key: int, snapshot: nat, r: nat)
    requires FilesValid(files) && LevelSorted(files) && r <= |files|
    requires forall i :: 0 <= i < r ==> BeforeTarget(files[i].largest, LookupTarget(key, snapshot))
    requires forall i :: r <= i < |files| ==> !BeforeTarget(files[i].largest, LookupTarget(key, snapshot))
    ensures r == |files| || key < files[r].smallest.key ==> IsNewest(Contents(files), key, snapshot, None)
    ensures r < |files| && files[r].smallest.key <= key ==>
              IsNewest(Contents(files), key, snapshot, SeekEntry(files[r].entries, key, snapshot))
  {
    forall e | e in Contents(files) && Matches(e, key, snapshot)
      ensures r < |files| && files[r].smallest.key <= key
      ensures SeekEntry(files[r].entries, key, snapshot).Some?
      ensures e.seqno <= SeekEntry(files[r].entries, key, snapshot).value.seqno
    {
      var f :| f in files && e in f.entries;
      var i :| 0 <= i < |files| && files[i] == f;
      Inside(f, e);
      CandidateAnswers(files, key, snapshot, r, i, e);
    }
    if r < |files| {
      assert files[r].Valid();
      SeekIsNewest(files[r].entries, key, snapshot);
      assert files[r] in files;
    }
  }

  // ----- Searching level 0 -----

  ghost predicate NewestFirst(files: seq<File>) {
    forall i, j :: 0 <= i < j < |files| ==> files[i].number >= files[j].number
  }

  function InsertByAge(files: seq<File>, f: File): seq<File> {
    if files == [] || f.number > files[0].number then [f] + files
    else [files[0]] + InsertByAge(files[1..], f)
  }

  /** std::sort with NewestFirst. */
  function SortByAge(files: seq<File>): seq<File> {
    if files == [] then [] else InsertByAge(SortByAge(files[1..]), files[0])
  }

  lemma {:induction false} InsertByAgeSorts(files: seq<File>, f: File)
    requires NewestFirst(files)
    ensures NewestFirst(InsertByAge(files, f))
    ensures forall x :: x in InsertByAge(files, f) <==> x == f || x in files
  {
    if files != [] && f.number <= files[0].number {
      InsertByAgeSorts(files[1..], f);
      var r := InsertByAge(files[1..], f);
      assert files == [files[0]] + files[1..];
      forall j | 0 <= j < |r| ensures files[0].number >= r[j].number {
        assert r[j] in r;
      }
    }
  }

  lemma {:induction false} SortByAgeSorts(files: seq<File>)
    ensures NewestFirst(SortByAge(files))
    ensures forall x :: x in SortByAge(files) <==> x in files
  {
    if files != [] {
      SortByAgeSorts(files[1..]);
      InsertByAgeSorts(SortByAge(files[1..]), files[0]);
      assert files == [files[0]] + files[1..];
    }
  }

  method FilesCovering(files: seq<File>, key: int) returns (tmp: seq<File>)
    ensures forall f :: f in tmp <==> f in files && f.Overlaps(key, key)
  {
    tmp := [];
    for i := 0 to |files|
      invariant forall f :: f in tmp <==> f in files[..i] && f.Overlaps(key, key)
    {
      if files[i].Overlaps(key, key) {
        tmp := tmp + [files[i]];
      }
    }
    assert files[..|files|] == files;
  }

  /** The first file in age order with an answer has the newest one of the whole level. */
  lemma NewestFileAnswers(files: seq<File>, order: seq<File>, i: nat, key: int, snapshot: nat, r: Option<Entry>)
    requires FilesValid(files) && NumbersAge(files) && NewestFirst(order) && i < |order|
    requires forall f :: f in order <==> f in files && f.Overlaps(key, key)
    requires forall j :: 0 <= j < i ==> IsNewest(EntriesOf(order[j].entries), key, snapshot, None)
    requires r.Some? && IsNewest(EntriesOf(order[i].entries), key, snapshot, r)
    ensures IsNewest(Contents(files), key, snapshot, r)
  {
    var f := order[i];
    assert f in order;
    forall e | e in Contents(files) && Matches(e, key, snapshot) ensures e.seqno <= r.value.seqno {
      var g :| g in files && e in g.entries;
      Covered(g, e);
      assert g in order;
      var j :| 0 <= j < |order| && order[j] == g;
      assert e in EntriesOf(g.entries);
      SameNumber(files, f, g);
      assert AgeAt(f, g);
    }
  }

  /** Level 0: every file whose range covers the key, newest file first, until one has an answer. */
  method SearchLevel0(files: seq<File>, key: int, snapshot: nat) returns (r: Option<Entry>)
    requires FilesValid(files) && NumbersAge(files)
    ensures IsNewest(Contents(files), key, snapshot, r)
  {
    var tmp := FilesCovering(files, key);
    SortByAgeSorts(tmp);
    var order := SortByAge(tmp);
    for i := 0 to |order|
      invariant forall j :: 0 <= j < i ==> IsNewest(EntriesOf(order[j].entries), key, snapshot, None)
    {
      var f := order[i];
      assert f in order && f.Valid();
      SeekIsNewest(f.entries, key, snapshot);
      r := SeekEntry(f.entries, key, snapshot);
      if r.Some? {
        NewestFileAnswers(files, order, i, key, snapshot, r);
        return;
      }
    }
    r := None;
    forall e | e in Contents(files) ensures !Matches(e, key, snapshot) {
      var g :| g in files && e in g.entries;
      Covered(g, e);
      if e.key == key {
        var j :| 0 <= j < |order| && order[j] == g;
        assert e in EntriesOf(order[j].entries);
      }
    }
  }

  lemma SameNumber(files: seq<File>, f: File, g: File)
    requires NumbersAge(files) && f in files && g in files
    ensures f.number == g.number ==> f == g
  {
    var i :| 0 <= i < |files| && files[i] == f;
    var j :| 0 <= j < |files| && files[j] == g;
  }

  lemma Covered(f: File, e: Entry)
    requires f.Valid() && e in f.entries
    ensures f.Overlaps(e.key, e.key)
  {
    Inside(f, e);
  }

  // ----- Version::Get and DBImpl::Get -----

  lemma FoundAt(levels: seq<seq<File>>, level: nat, key: int, snapshot: nat, r: Option<Entry>)
    requires level < |levels| && r.Some?
    requires forall m {:trigger LevelsAge(levels, level, m)} :: level < m < |levels| ==> LevelsAge(levels, level, m)
    requires forall l :: 0 <= l < level ==> IsNewest(Contents(levels[l]), key, snapshot, None)
    requires IsNewest(Contents(levels[level]), key, snapshot, r)
    ensures IsNewest(All(levels), key, snapshot, r)
  {
    AboveMember(levels, 0, r.value);
    forall e | e in All(levels) && Matches(e, key, snapshot) ensures e.seqno <= r.value.seqno {
      AboveMember(levels, 0, e);
      var m :| 0 <= m < |levels| && e in Contents(levels[m]);
      if level < m { assert LevelsAge(levels, level, m); }
    }
  }

  lemma FoundNowhere(levels: seq<seq<File>>, key: int, snapshot: nat)
    requires forall l :: 0 <= l < |levels| ==> IsNewest(Contents(levels[l]), key, snapshot, None)
    ensures IsNewest(All(levels), key, snapshot, None)
  {
    forall e | e in All(levels) ensures !Matches(e, key, snapshot) {
      AboveMember(levels, 0, e);
    }
  }

  /** Searches level by level and stops at the first file that has an entry for the key. */
  method SearchVersion(levels: seq<seq<File>>, key: int, snapshot: nat) returns (r: Option<Entry>)
    requires Ordered(levels)
    ensures IsNewest(All(levels), key, snapshot, r)
  {
    assert LevelOk(levels, 0);
    r := SearchLevel0(levels[0], key, snapshot);
    if r.Some? {
      FoundAt(levels, 0, key, snapshot, r);
      return;
    }
    for level := 1 to NUM_LEVELS
      invariant forall l :: 0 <= l < level ==> IsNewest(Contents(levels[l]), key, snapshot, None)
    {
      var files := levels[level];
      assert LevelOk(levels, level);
      var index := FindFile(files, LookupTarget(key, snapshot));
      LevelSearch(files, key, snapshot, index);
      if index < |files| && files[index].smallest.key <= key {
        r := SeekEntry(files[index].entries, key, snapshot);
        if r.Some? {
          FoundAt(levels, level, key, snapshot, r);
          return;
        }
      }
    }
    r := None;
    FoundNowhere(levels, key, snapshot);
  }

  /** Everything a reader can find: the memtable, the one being flushed, and the tables. */
  ghost function Everything(mem: seq<Entry>, imm: Option<seq<Entry>>, levels: seq<seq<File>>): set<Entry> {
    EntriesOf(mem) + (if imm.Some? then EntriesOf(imm.value) else {}) + All(levels)
  }

  /** Memory is newer than disk, and the current memtable newer than the one being flushed. */
  ghost predicate Stacked(mem: seq<Entry>, imm: Option<seq<Entry>>, levels: seq<seq<File>>) {
    && Sorted(mem) && Ordered(levels)
    && NewerThan(EntriesOf(mem), All(levels))
    && (imm.Some? ==> Sorted(imm.value) && NewerThan(EntriesOf(mem), EntriesOf(imm.value))
                      && NewerThan(EntriesOf(imm.value), All(levels)))
  }

  /** DBImpl::Get: the memtable, then the immutable memtable, then the current version. */
  method Get(mem: seq<Entry>, imm: Option<seq<Entry>>, levels: seq<seq<File>>, key: int, snapshot: nat)
      returns (r: Option<Bytes>)
    requires Stacked(mem, imm, levels)
    ensures exists n :: IsNewest(Everything(mem, imm, levels), key, snapshot, n) && r == ValueOf(n)
  {
    var e := SeekEntry(mem, key, snapshot);
    SeekIsNewest(mem, key, snapshot);
    if e.None? && imm.Some? {
      SeekIsNewest(imm.value, key, snapshot);
      e := SeekEntry(imm.value, key, snapshot);
    }
    if e.None? {
      e := SearchVersion(levels, key, snapshot);
    }
    assert IsNewest(Everything(mem, imm, levels), key, snapshot, e);
    r := ValueOf(e);
  }
}
