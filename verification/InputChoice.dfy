/** Choosing the inputs of a compaction (db/version_set.cc): overlapping files with the level-0
    restart loop, boundary files, and the attempt to grow the inputs. */
module InputChoice {
  import opened Entries
  import opened Versions
  import opened CompactionStep

  /** Whether a file meets the user-key range; a missing bound is unbounded. */
  predicate Meets(f: File, begin: Option<int>, end: Option<int>) {
    !(begin.Some? && f.largest.key < begin.value) && !(end.Some? && f.smallest.key > end.value)
  }

  /** No file that meets the range sticks out of it. */
  ghost predicate ClosedRange(files: seq<File>, begin: Option<int>, end: Option<int>) {
    forall f :: f in files && Meets(f, begin, end) ==>
      (begin.Some? ==> begin.value <= f.smallest.key) && (end.Some? ==> f.largest.key <= end.value)
  }

  /** `wide` reaches at least as far as `narrow` on both sides, and is unbounded where it is. */
  predicate Covers(wideBegin: Option<int>, wideEnd: Option<int>, begin: Option<int>, end: Option<int>) {
    && wideBegin.Some? == begin.Some? && (begin.Some? ==> wideBegin.value <= begin.value)
    && wideEnd.Some? == end.Some? && (end.Some? ==> end.value <= wideEnd.value)
  }

  /** The files that stick out of a range to the left, and to the right: the restart loop's measure. */
  function Outside(files: seq<File>, begin: Option<int>, end: Option<int>): nat {
    if files == [] then 0
    else
      (if begin.Some? && files[0].smallest.key < begin.value then 1 else 0)
      + (if end.Some? && files[0].largest.key > end.value then 1 else 0)
      + Outside(files[1..], begin, end)
  }

  lemma {:induction false} OutsideShrinks(files: seq<File>, begin: Option<int>, end: Option<int>,
                                          begin': Option<int>, end': Option<int>)
    requires Covers(begin', end', begin, end)
    ensures Outside(files, begin', end') <= Outside(files, begin, end)
    ensures (exists f :: f in files && begin.Some? && begin'.value <= f.smallest.key < begin.value)
              ==> Outside(files, begin', end') < Outside(files, begin, end)
    ensures (exists f :: f in files && end.Some? && end.value < f.largest.key <= end'.value)
              ==> Outside(files, begin', end') < Outside(files, begin, end)
  {
    if files != [] {
      OutsideShrinks(files[1..], begin, end, begin', end');
    }
  }

  /** Any closed range that covers [begin, end] covers [ub, ue] as well. */
  ghost predicate LeastSoFar(files: seq<File>, begin: Option<int>, end: Option<int>, ub: Option<int>, ue: Option<int>) {
    forall p, q {:trigger ClosedRange(files, p, q)} ::
      Covers(p, q, begin, end) && ClosedRange(files, p, q) ==> Covers(p, q, ub, ue)
  }

  /** Growing the range to a file it meets does not pass any closed range. */
  lemma GrowStaysLeast(files: seq<File>, begin: Option<int>, end: Option<int>, ub: Option<int>, ue: Option<int>,
                       f: File)
    requires LeastSoFar(files, begin, end, ub, ue) && f in files && Meets(f, ub, ue)
    ensures ub.Some? && f.smallest.key < ub.value ==> LeastSoFar(files, begin, end, Some(f.smallest.key), ue)
    ensures ue.Some? && f.largest.key > ue.value ==> LeastSoFar(files, begin, end, ub, Some(f.largest.key))
  {
    forall p, q | Covers(p, q, begin, end) && ClosedRange(files, p, q)
      ensures Covers(p, q, ub, ue)
      ensures ub.Some? ==> p.value <= f.smallest.key
      ensures ue.Some? ==> f.largest.key <= q.value
    {
      assert Covers(p, q, ub, ue) && Meets(f, p, q);
    }
  }

  function Overlapping(files: seq<File>, begin: Option<int>, end: Option<int>): seq<File> {
    if files == [] then []
    else Overlapping(files[..|files| - 1], begin, end)
         + if Meets(files[|files| - 1], begin, end) then [files[|files| - 1]] else []
  }

  lemma OverlappingStep(files: seq<File>, i: nat, begin: Option<int>, end: Option<int>)
    requires i < |files|
    ensures Overlapping(files[..i + 1], begin, end)
         == Overlapping(files[..i], begin, end) + if Meets(files[i], begin, end) then [files[i]] else []
  {
    assert files[..i + 1][..i] == files[..i];
  }

  lemma {:induction false} OverlappingMember(files: seq<File>, begin: Option<int>, end: Option<int>, f: File)
    ensures f in Overlapping(files, begin, end) <==> f in files && Meets(f, begin, end)
  {
    if files != [] {
      OverlappingMember(files[..|files| - 1], begin, end, f);
      assert files == files[..|files| - 1] + [files[|files| - 1]];
    }
  }

  lemma ClosedStep(files: seq<File>, i: nat, ub: Option<int>, ue: Option<int>)
    requires i < |files| && ClosedRange(files[..i], ub, ue)
    requires Meets(files[i], ub, ue) ==>
               (ub.Some? ==> ub.value <= files[i].smallest.key) && (ue.Some? ==> files[i].largest.key <= ue.value)
    ensures ClosedRange(files[..i + 1], ub, ue)
  {
    assert files[..i + 1] == files[..i] + [files[i]];
  }

  /** The range whose files are taken: the one asked for, or at level 0 the least closed one that covers it. */
  ghost predicate MeetingRange(files: seq<File>, level: nat, begin: Option<int>, end: Option<int>, ub: Option<int>,
                               ue: Option<int>) {
    && Covers(ub, ue, begin, end)
    && (level > 0 ==> ub == begin && ue == end)
    && (level == 0 ==> ClosedRange(files, ub, ue) && LeastSoFar(files, begin, end, ub, ue))
  }

  /** All files of a level that meet the range.  At level 0 the range grows to cover whatever it
      meets and the search restarts, until it is closed. */
  method GetOverlappingInputs(files: seq<File>, level: nat, begin: Option<int>, end: Option<int>)
      returns (inputs: seq<File>, ghost userBegin: Option<int>, ghost userEnd: Option<int>)
    ensures MeetingRange(files, level, begin, end, userBegin, userEnd)
    ensures inputs == Overlapping(files, userBegin, userEnd)
  {
    inputs := [];
    var ub, ue := begin, end;
    var i := 0;
    while i < |files|
      invariant i <= |files| && Covers(ub, ue, begin, end)
      invariant inputs == Overlapping(files[..i], ub, ue)
      invariant level > 0 ==> ub == begin && ue == end
      invariant level == 0 ==> ClosedRange(files[..i], ub, ue) && LeastSoFar(files, begin, end, ub, ue)
      decreases Outside(files, ub, ue), |files| - i
    {
      var f := files[i];
      assert f in files;
      OverlappingStep(files, i, ub, ue);
      if Meets(f, ub, ue) {
        inputs := inputs + [f];
        if level == 0 && ub.Some? && f.smallest.key < ub.value {
          GrowStaysLeast(files, begin, end, ub, ue, f);
          OutsideShrinks(files, ub, ue, Some(f.smallest.key), ue);
          ub := Some(f.smallest.key);
          inputs, i := [], 0;
        } else if level == 0 && ue.Some? && f.largest.key > ue.value {
          GrowStaysLeast(files, begin, end, ub, ue, f);
          OutsideShrinks(files, ub, ue, ub, Some(f.largest.key));
          ue := Some(f.largest.key);
          inputs, i := [], 0;
        } else {
          if level == 0 { ClosedStep(files, i, ub, ue); }
          i := i + 1;
        }
      } else {
        if level == 0 { ClosedStep(files, i, ub, ue); }
        i := i + 1;
      }
    }
    userBegin, userEnd := ub, ue;
    assert files[..|files|] == files;
  }

  // ----- Boundary files -----

  /** `f` starts with older writes of the very user key that `e` belongs to. */
  predicate IsBoundary(f: File, e: Entry) {
    Before(e, f.smallest) && f.smallest.key == e.key
  }

  ghost predicate IsLargest(ins: seq<File>, e: Entry) {
    && (exists f :: f in ins && f.largest == e)
    && (forall f :: f in ins ==> !Before(e, f.largest))
  }

  method FindLargestKey(ins: seq<File>) returns (e: Option<Entry>)
    ensures e.None? <==> ins == []
    ensures e.Some? ==> IsLargest(ins, e.value)
  {
    if ins == [] {
      return None;
    }
    var largest := ins[0].largest;
    for i := 1 to |ins|
      invariant IsLargest(ins[..i], largest)
    {
      if Before(largest, ins[i].largest) {
        largest := ins[i].largest;
      }
      assert ins[..i + 1] == ins[..i] + [ins[i]];
    }
    assert ins[..|ins|] == ins;
    e := Some(largest);
  }

  /** The least boundary file of a level for a key, if there is one. */
  method FindSmallestBoundaryFile(files: seq<File>, e: Entry) returns (r: Option<File>)
    ensures r.None? ==> forall f :: f in files ==> !IsBoundary(f, e)
    ensures r.Some? ==> r.value in files && IsBoundary(r.value, e)
    ensures r.Some? ==> forall f :: f in files && IsBoundary(f, e) ==> !Before(f.smallest, r.value.smallest)
  {
    r := None;
    for i := 0 to |files|
      invariant r.None? ==> forall j :: 0 <= j < i ==> !IsBoundary(files[j], e)
      invariant r.Some? ==> r.value in files && IsBoundary(r.value, e)
      invariant r.Some? ==> forall j :: 0 <= j < i && IsBoundary(files[j], e) ==>
                  !Before(files[j].smallest, r.value.smallest)
    {
      if IsBoundary(files[i], e) {
        if r.None? || Before(files[i].smallest, r.value.smallest) {
          r := Some(files[i]);
        }
      }
    }
  }

  /** Files that start after a key: what the boundary search has left to find. */
  function StartAfter(files: seq<File>, e: Entry): nat {
    if files == [] then 0 else (if Before(e, files[0].smallest) then 1 else 0) + StartAfter(files[1..], e)
  }

  lemma {:induction false} StartAfterShrinks(files: seq<File>, e: Entry, e': Entry, f: File)
    requires Before(e, e')
    ensures StartAfter(files, e') <= StartAfter(files, e)
    ensures f in files && Before(e, f.smallest) && !Before(e', f.smallest) ==>
              StartAfter(files, e') < StartAfter(files, e)
  {
    if files != [] {
      StartAfterShrinks(files[1..], e, e', f);
    }
  }

  /** `ins` is the stretch files[a..b] of the level. */
  ghost predicate IsRun(files: seq<File>, ins: seq<File>, a: nat, b: nat) {
    a < b <= |files| && ins == files[a..b]
  }

  /** A boundary file of a sorted level lies after the stretch, and so does an earlier one if it is not next. */
  lemma BoundaryIsAfter(files: seq<File>, b: nat, i: nat)
    requires FilesValid(files) && LevelSorted(files) && 0 < b <= |files| && i < |files|
    requires IsBoundary(files[i], files[b - 1].largest)
    ensures b <= i
    ensures b < i ==> IsBoundary(files[b], files[b - 1].largest) && Before(files[b].smallest, files[i].smallest)
  {
    assert files[b - 1].Valid() && files[i].Valid();
    Inside(files[i], files[i].largest);
    if i < b - 1 { FileOrder(files, i, b - 1); }
    if b < i {
      FileOrder(files, b, i);
      FileOrder(files, b - 1, b);
    }
  }

  lemma BoundaryIsNext(files: seq<File>, b: nat, f: File)
    requires FilesValid(files) && LevelSorted(files) && 0 < b <= |files|
    requires f in files && IsBoundary(f, files[b - 1].largest)
    requires forall g :: g in files && IsBoundary(g, files[b - 1].largest) ==> !Before(g.smallest, f.smallest)
    ensures b < |files| && files[b] == f
  {
    var i :| 0 <= i < |files| && files[i] == f;
    BoundaryIsAfter(files, b, i);
  }

  ghost predicate NoRepeat(r: seq<File>, n: nat) {
    forall i, j :: 0 <= i < j < |r| && n <= j ==> r[i] != r[j]
  }

  /** `f` is the least boundary file of the largest of the files. */
  ghost predicate NextBoundary(files: seq<File>, ins: seq<File>, f: File) {
    exists e :: IsLargest(ins, e) && IsBoundary(f, e)
                && forall g :: g in files && IsBoundary(g, e) ==> !Before(g.smallest, f.smallest)
  }

  /** From the `n`th on, each file is the least boundary file of those before it. */
  ghost predicate BoundaryChain(files: seq<File>, r: seq<File>, n: nat) {
    forall j {:trigger r[j]} :: n <= j < |r| ==> NextBoundary(files, r[..j], r[j])
  }

  lemma ChainGrows(files: seq<File>, r: seq<File>, n: nat, e: Entry, f: File)
    requires BoundaryChain(files, r, n) && IsLargest(r, e) && IsBoundary(f, e)
    requires forall g :: g in files && IsBoundary(g, e) ==> !Before(g.smallest, f.smallest)
    ensures BoundaryChain(files, r + [f], n)
  {
    var more := r + [f];
    forall j {:trigger more[j]} | n <= j < |more| ensures NextBoundary(files, more[..j], more[j]) {
      if j < |r| {
        assert more[..j] == r[..j] && more[j] == r[j];
      } else {
        assert more[..j] == r;
      }
    }
  }

  /** The chosen files have no boundary file at all. */
  ghost predicate NoneToAdd(files: seq<File>, ins: seq<File>) {
    forall f, e {:trigger IsBoundary(f, e)} :: f in files && IsLargest(ins, e) ==> !IsBoundary(f, e)
  }

  /** If the inputs started as a stretch of a sorted level, they still are one, ending at `c`. */
  ghost predicate StillRun(files: seq<File>, ins: seq<File>, a: nat, b: nat, r: seq<File>, c: nat, largest: Entry) {
    LevelSorted(files) && IsRun(files, ins, a, b) ==>
      b <= c && IsRun(files, r, a, c) && files[c - 1].largest == largest
  }

  /** What the boundary search maintains. */
  ghost predicate SearchState(files: seq<File>, ins: seq<File>, a: nat, b: nat, r: seq<File>, c: nat, largest: Entry) {
    && ins <= r && (forall f :: f in r ==> f in files)
    && IsLargest(r, largest) && NoRepeat(r, |ins|)
    && (NoneToAdd(files, ins) ==> r == ins)
    && StillRun(files, ins, a, b, r, c, largest)
  }

  lemma RunGrows(files: seq<File>, ins: seq<File>, a: nat, b: nat, r: seq<File>, c: nat, largest: Entry, f: File)
    requires FilesValid(files) && StillRun(files, ins, a, b, r, c, largest)
    requires f in files && IsBoundary(f, largest)
    requires forall g :: g in files && IsBoundary(g, largest) ==> !Before(g.smallest, f.smallest)
    ensures StillRun(files, ins, a, b, r + [f], c + 1, f.largest)
  {
    if LevelSorted(files) && IsRun(files, ins, a, b) {
      BoundaryIsNext(files, c, f);
      assert files[a..c + 1] == files[a..c] + [files[c]];
    }
  }

  lemma SearchGrows(files: seq<File>, ins: seq<File>, a: nat, b: nat, r: seq<File>, c: nat, largest: Entry, f: File)
    requires FilesValid(files) && SearchState(files, ins, a, b, r, c, largest)
    requires f in files && IsBoundary(f, largest)
    requires forall g :: g in files && IsBoundary(g, largest) ==> !Before(g.smallest, f.smallest)
    ensures SearchState(files, ins, a, b, r + [f], c + 1, f.largest)
    ensures Before(largest, f.largest) && !Before(f.largest, f.smallest)
  {
    RunGrows(files, ins, a, b, r, c, largest, f);
    BoundaryIsNew(files, r, largest, f);
    assert NoneToAdd(files, ins) ==> r != ins;
  }

  lemma RunIsClean(files: seq<File>, ins: seq<File>, a: nat, b: nat, r: seq<File>, c: nat, largest: Entry)
    requires FilesValid(files) && StillRun(files, ins, a, b, r, c, largest)
    requires forall g :: g in files ==> !IsBoundary(g, largest)
    ensures LevelSorted(files) && IsRun(files, ins, a, b) ==> CleanRun(files, r, a, c)
  {
    if LevelSorted(files) && IsRun(files, ins, a, b) && c < |files| {
      FileOrder(files, c - 1, c);
      assert files[c] in files && !IsBoundary(files[c], largest);
    }
  }

  /** The search loop from the largest key of the inputs on. */
  method SearchBoundaries(files: seq<File>, ins: seq<File>, ghost a: nat, ghost b: nat, start: Entry)
      returns (r: seq<File>, ghost c: nat, ghost largest: Entry)
    requires FilesValid(files) && SearchState(files, ins, a, b, ins, b, start)
    ensures SearchState(files, ins, a, b, r, c, largest) && BoundaryChain(files, r, |ins|)
    ensures forall f :: f in files ==> !IsBoundary(f, largest)
  {
    r, c := ins, b;
    var last := start;
    var next := FindSmallestBoundaryFile(files, last);
    while next.Some?
      invariant SearchState(files, ins, a, b, r, c, last) && BoundaryChain(files, r, |ins|)
      invariant next.None? ==> forall f :: f in files ==> !IsBoundary(f, last)
      invariant next.Some? ==> next.value in files && IsBoundary(next.value, last)
      invariant next.Some? ==> forall f :: f in files && IsBoundary(f, last) ==>
                  !Before(f.smallest, next.value.smallest)
      decreases StartAfter(files, last)
    {
      SearchGrows(files, ins, a, b, r, c, last, next.value);
      ChainGrows(files, r, |ins|, last, next.value);
      StartAfterShrinks(files, last, next.value.largest, next.value);
      r, c := r + [next.value], c + 1;
      last := next.value.largest;
      next := FindSmallestBoundaryFile(files, last);
    }
    largest := last;
  }

  lemma SearchStarts(files: seq<File>, ins: seq<File>, a: nat, b: nat, start: Entry)
    requires FilesValid(files) && (forall f :: f in ins ==> f in files) && IsLargest(ins, start)
    ensures SearchState(files, ins, a, b, ins, b, start)
  {
    if LevelSorted(files) && IsRun(files, ins, a, b) { RunLargest(files, ins, a, b, start); }
  }

  ghost predicate NoBoundaryLeft(files: seq<File>, ins: seq<File>) {
    exists e :: IsLargest(ins, e) && forall f :: f in files ==> !IsBoundary(f, e)
  }

  /** Adds the boundary files of the largest input, one after the other, each time from the new end. */
  method AddBoundaryInputs(files: seq<File>, ins: seq<File>, ghost a: nat, ghost b: nat)
      returns (r: seq<File>, ghost c: nat)
    requires FilesValid(files) && forall f :: f in ins ==> f in files
    ensures ins <= r && NoRepeat(r, |ins|) && BoundaryChain(files, r, |ins|) && forall f :: f in r ==> f in files
    ensures ins != [] ==> NoBoundaryLeft(files, r)
    ensures NoneToAdd(files, ins) ==> r == ins
    ensures LevelSorted(files) && IsRun(files, ins, a, b) ==> CleanRun(files, r, a, c)
  {
    r, c := ins, b;
    var found := FindLargestKey(ins);
    if found.Some? {
      SearchStarts(files, ins, a, b, found.value);
      ghost var largest;
      r, c, largest := SearchBoundaries(files, ins, a, b, found.value);
      RunIsClean(files, ins, a, b, r, c, largest);
    }
  }

  lemma RunLargest(files: seq<File>, ins: seq<File>, a: nat, b: nat, e: Entry)
    requires FilesValid(files) && LevelSorted(files) && IsRun(files, ins, a, b) && IsLargest(ins, e)
    ensures files[b - 1].largest == e
  {
    var f :| f in ins && f.largest == e;
    var i :| 0 <= i < |ins| && ins[i] == f;
    assert ins[b - a - 1] == files[b - 1] && ins[b - a - 1] in ins;
    if a + i < b - 1 { FileOrder(files, a + i, b - 1); }
  }

  /** A boundary file starts after everything chosen so far ends, so it is not among them. */
  lemma BoundaryIsNew(files: seq<File>, r: seq<File>, e: Entry, f: File)
    requires FilesValid(files) && (forall g :: g in r ==> g in files) && IsLargest(r, e)
    requires f in files && IsBoundary(f, e)
    ensures f !in r
    ensures Before(e, f.largest) && !Before(f.largest, f.smallest)
    ensures IsLargest(r + [f], f.largest)
  {
    assert f.Valid();
    Inside(f, f.largest);
    assert f in r + [f];
  }

  /** `files[a..b]` are the first `n` files that meet the range. */
  ghost predicate MeetingRun(files: seq<File>, n: nat, begin: Option<int>, end: Option<int>, a: nat, b: nat) {
    && a <= b <= n <= |files|
    && (a < b ==> Meets(files[b - 1], begin, end) && forall i :: b <= i < n ==> !Meets(files[i], begin, end))
  }

  lemma MeetingRunStep(files: seq<File>, n: nat, begin: Option<int>, end: Option<int>, a: nat, b: nat)
    requires FilesValid(files) && LevelSorted(files) && n < |files| && MeetingRun(files, n, begin, end, a, b)
    ensures Meets(files[n], begin, end) && a < b ==> b == n && files[a..n + 1] == files[a..b] + [files[n]]
  {
    if Meets(files[n], begin, end) && a < b < n {
      MeetsBetween(files, b - 1, b, n, begin, end);
    }
  }

  /** In a sorted level the files that meet a range lie next to each other. */
  lemma {:induction false} OverlapRun(files: seq<File>, n: nat, begin: Option<int>, end: Option<int>)
        returns (a: nat, b: nat)
    requires FilesValid(files) && LevelSorted(files) && n <= |files|
    ensures MeetingRun(files, n, begin, end, a, b) && Overlapping(files[..n], begin, end) == files[a..b]
  {
    if n == 0 {
      a, b := 0, 0;
    } else {
      var m := n - 1;
      a, b := OverlapRun(files, m, begin, end);
      OverlappingStep(files, m, begin, end);
      MeetingRunStep(files, m, begin, end, a, b);
      if Meets(files[m], begin, end) {
        a, b := if a < b then a else m, n;
      }
    }
  }

  lemma MeetsBetween(files: seq<File>, i: nat, j: nat, k: nat, begin: Option<int>, end: Option<int>)
    requires FilesValid(files) && LevelSorted(files) && i < j < k < |files|
    requires Meets(files[i], begin, end) && Meets(files[k], begin, end)
    ensures Meets(files[j], begin, end)
  {
    FileOrder(files, i, j);
    FileOrder(files, j, k);
  }

  // ----- The whole choice -----

  function TotalFileSize(files: seq<File>): nat {
    if files == [] then 0 else files[0].size + TotalFileSize(files[1..])
  }

  /** What a compaction may start from: all files of a closed range at level 0, a stretch above it. */
  ghost predicate ValidStart(files: seq<File>, level: nat, picked: seq<File>) {
    && picked != []
    && (level == 0 ==> exists ub, ue :: ClosedRange(files, ub, ue) && picked == Overlapping(files, ub, ue))
    && (level > 0 ==> exists a, b :: IsRun(files, picked, a, b))
  }

  lemma StartInFiles(files: seq<File>, level: nat, picked: seq<File>)
    requires ValidStart(files, level, picked)
    ensures forall f :: f in picked ==> f in files
  {
    if level == 0 {
      var ub, ue :| ClosedRange(files, ub, ue) && picked == Overlapping(files, ub, ue);
      forall f | f in picked ensures f in files { OverlappingMember(files, ub, ue, f); }
    }
  }

  /** A closed set of level-0 files has no boundary file left to add, and nothing left out overlaps it. */
  lemma ClosedIsValid(files: seq<File>, ub: Option<int>, ue: Option<int>, picked: seq<File>)
    requires FilesValid(files) && ClosedRange(files, ub, ue) && picked == Overlapping(files, ub, ue)
    ensures NoneToAdd(files, picked)
    ensures ValidInputs0(files, 0, picked)
  {
    forall f ensures f in picked <==> f in files && Meets(f, ub, ue) { OverlappingMember(files, ub, ue, f); }
    forall f, e | f in files && IsLargest(picked, e) ensures !IsBoundary(f, e) {
      var g :| g in picked && g.largest == e;
      assert f.Valid() && g.Valid();
      Inside(f, f.largest);
      if IsBoundary(f, e) { assert Meets(f, ub, ue); }
    }
  }

  /** `in0` is `picked` and its boundary files, all of them and nothing else. */
  ghost predicate IsClosing(files: seq<File>, picked: seq<File>, in0: seq<File>) {
    picked <= in0 && BoundaryChain(files, in0, |picked|) && NoBoundaryLeft(files, in0)
  }

  /** Closing a start under boundary files gives inputs that no left-out file of the level spoils. */
  method CloseInputs(files: seq<File>, level: nat, picked: seq<File>) returns (in0: seq<File>)
    requires FilesValid(files) && (level > 0 ==> LevelSorted(files)) && ValidStart(files, level, picked)
    ensures IsClosing(files, picked, in0) && ValidInputs0(files, level, in0) && (level == 0 ==> in0 == picked)
  {
    StartInFiles(files, level, picked);
    ghost var a: nat, b: nat, c: nat := 0, 0, 0;
    if level > 0 {
      ghost var i: nat, j: nat :| IsRun(files, picked, i, j);
      a, b := i, j;
    } else {
      ghost var ub, ue :| ClosedRange(files, ub, ue) && picked == Overlapping(files, ub, ue);
      ClosedIsValid(files, ub, ue, picked);
    }
    in0, c := AddBoundaryInputs(files, picked, a, b);
    if level > 0 { assert CleanRun(files, in0, a, c); }
  }

  method GetRange(ins: seq<File>) returns (lo: int, hi: int)
    requires ins != []
    ensures IsRange(ins, lo, hi)
  {
    lo, hi := ins[0].smallest.key, ins[0].largest.key;
    for i := 1 to |ins|
      invariant IsRange(ins[..i], lo, hi)
    {
      assert ins[..i + 1] == ins[..i] + [ins[i]];
      if ins[i].smallest.key < lo { lo := ins[i].smallest.key; }
      if ins[i].largest.key > hi { hi := ins[i].largest.key; }
      assert IsRange(ins[..i + 1], lo, hi) by {
        assert ins[i] in ins[..i + 1];
        assert forall f :: f in ins[..i] ==> f in ins[..i + 1];
      }
    }
    assert ins[..|ins|] == ins;
  }

  /** The files of the next level that meet the range of the inputs. */
  ghost predicate AreNext(files: seq<File>, in0: seq<File>, in1: seq<File>) {
    exists lo, hi :: IsRange(in0, lo, hi) && in1 == Overlapping(files, Some(lo), Some(hi))
  }

  lemma NextAreValid(files: seq<File>, in0: seq<File>, in1: seq<File>)
    requires AreNext(files, in0, in1)
    ensures ValidInputs1(files, in0, in1)
  {
    var lo, hi :| IsRange(in0, lo, hi) && in1 == Overlapping(files, Some(lo), Some(hi));
    forall f ensures f in in1 <==> f in files && f.Overlaps(lo, hi) { OverlappingMember(files, Some(lo), Some(hi), f); }
    assert AreOverlapping(files, lo, hi, in1);
  }

  method NextLevelInputs(files: seq<File>, level: nat, in0: seq<File>) returns (in1: seq<File>)
    requires in0 != []
    ensures AreNext(files, in0, in1) && ValidInputs1(files, in0, in1)
  {
    var lo, hi := GetRange(in0);
    ghost var ub, ue;
    in1, ub, ue := GetOverlappingInputs(files, level + 1, Some(lo), Some(hi));
    NextAreValid(files, in0, in1);
  }

  lemma OverlapsStart(files: seq<File>, level: nat, ub: Option<int>, ue: Option<int>, picked: seq<File>)
    requires FilesValid(files) && (level > 0 ==> LevelSorted(files))
    requires picked == Overlapping(files, ub, ue) && picked != [] && (level == 0 ==> ClosedRange(files, ub, ue))
    ensures ValidStart(files, level, picked)
  {
    if level > 0 {
      var a, b := OverlapRun(files, |files|, ub, ue);
      assert files[..|files|] == files;
      assert IsRun(files, picked, a, b);
    }
  }

  /** How inputs are completed: the closed start and what it meets at the next level; everything at the level that
      meets the range of both, closed as well; and what that meets at the next level. */
  datatype Plan = Plan(base0: seq<File>, base1: seq<File>, around: seq<File>, wide0: seq<File>, wide1: seq<File>) {
    predicate Wider(expandLimit: nat) {
      base1 != [] && |wide0| > |base0| && TotalFileSize(base1) + TotalFileSize(wide0) < expandLimit
    }

    /** The inputs grow when that takes no more files of the next level and not too many bytes. */
    predicate Grows(expandLimit: nat) {
      Wider(expandLimit) && |wide1| == |base1|
    }

    function Inputs(expandLimit: nat): (seq<File>, seq<File>) {
      if Grows(expandLimit) then (wide0, wide1) else (base0, base1)
    }
  }

  /** The files of the level that meet the range of both inputs. */
  ghost predicate AreAround(files: seq<File>, level: nat, in0: seq<File>, in1: seq<File>, around: seq<File>) {
    exists lo, hi, ub, ue ::
      && IsRange(in0 + in1, lo, hi) && MeetingRange(files, level, Some(lo), Some(hi), ub, ue)
      && around == Overlapping(files, ub, ue)
  }

  ghost predicate IsPlan(levels: seq<seq<File>>, level: nat, picked: seq<File>, plan: Plan, expandLimit: nat)
    requires level + 1 < |levels|
  {
    && IsClosing(levels[level], picked, plan.base0) && AreNext(levels[level + 1], plan.base0, plan.base1)
    && (plan.base1 != [] ==>
          && AreAround(levels[level], level, plan.base0, plan.base1, plan.around)
          && IsClosing(levels[level], plan.around, plan.wide0))
    && (plan.Wider(expandLimit) ==> AreNext(levels[level + 1], plan.wide0, plan.wide1))
  }

  /** What is around the inputs includes them. */
  lemma AroundIncludes(files: seq<File>, level: nat, in0: seq<File>, in1: seq<File>, lo: int, hi: int, ub: Option<int>,
                       ue: Option<int>)
    requires FilesValid(files) && IsRange(in0 + in1, lo, hi) && MeetingRange(files, level, Some(lo), Some(hi), ub, ue)
    requires forall f :: f in in0 ==> f in files
    ensures forall f :: f in in0 ==> f in Overlapping(files, ub, ue)
  {
    forall f | f in in0 ensures f in Overlapping(files, ub, ue) {
      assert f in in0 + in1 && f.Valid();
      Inside(f, f.largest);
      OverlappingMember(files, ub, ue, f);
    }
  }

  /** The attempt to grow. */
  method Widen(levels: seq<seq<File>>, level: nat, base0: seq<File>, base1: seq<File>)
      returns (ghost around: seq<File>, wide0: seq<File>)
    requires Ordered(levels) && level + 1 < NUM_LEVELS && base0 != [] && ValidInputs0(levels[level], level, base0)
    ensures AreAround(levels[level], level, base0, base1, around) && IsClosing(levels[level], around, wide0)
    ensures ValidInputs0(levels[level], level, wide0) && forall f :: f in base0 ==> f in wide0
  {
    assert LevelOk(levels, level);
    var allStart, allLimit := GetRange(base0 + base1);
    ghost var ub, ue;
    wide0, ub, ue := GetOverlappingInputs(levels[level], level, Some(allStart), Some(allLimit));
    around := wide0;
    AroundIncludes(levels[level], level, base0, base1, allStart, allLimit, ub, ue);
    assert base0[0] in base0;
    OverlapsStart(levels[level], level, ub, ue, wide0);
    wide0 := CloseInputs(levels[level], level, wide0);
    assert forall f :: f in around ==> f in wide0;
  }

  /** Completes the inputs, growing those at `level` when that needs no more files at the next level
      and stays within `expandLimit` bytes.  The next compaction of the level starts after the largest of them. */
  method SetupOtherInputs(levels: seq<seq<File>>, level: nat, picked: seq<File>, expandLimit: nat)
      returns (in0: seq<File>, in1: seq<File>, pointer: Entry, ghost plan: Plan)
    requires Ordered(levels) && level + 1 < NUM_LEVELS && ValidStart(levels[level], level, picked)
    ensures ValidInputs(levels, level, in0, in1) && forall f :: f in picked ==> f in in0
    ensures IsPlan(levels, level, picked, plan, expandLimit) && (in0, in1) == plan.Inputs(expandLimit)
    ensures IsLargest(in0, pointer)
  {
    assert LevelOk(levels, level);
    in0 := CloseInputs(levels[level], level, picked);
    in1 := NextLevelInputs(levels[level + 1], level, in0);
    plan := Plan(in0, in1, [], [], []);
    if in1 != [] {
      var wide0;
      ghost var around;
      around, wide0 := Widen(levels, level, in0, in1);
      plan := plan.(around := around, wide0 := wide0);
      if |wide0| > |in0| && TotalFileSize(in1) + TotalFileSize(wide0) < expandLimit {
        var wide1 := NextLevelInputs(levels[level + 1], level, wide0);
        plan := plan.(wide1 := wide1);
        if |wide1| == |in1| {
          in0, in1 := wide0, wide1;
        }
      }
    }
    var largest := FindLargestKey(in0);
    pointer := largest.value;
  }

  /** The first file that ends after the compaction pointer, or the first of all. */
  ghost predicate IsPick(files: seq<File>, pointer: Option<Entry>, index: nat) {
    && index < |files|
    && (forall i :: 0 <= i < |files| && EndsAfter(files[i], pointer) && EndsAfter(files[index], pointer) ==> index <= i)
    && (!EndsAfter(files[index], pointer) ==> index == 0 && forall i :: 0 <= i < |files| ==>
         !EndsAfter(files[i], pointer))
  }

  predicate EndsAfter(f: File, pointer: Option<Entry>) {
    pointer.None? || Before(pointer.value, f.largest)
  }

  method PickFile(files: seq<File>, pointer: Option<Entry>) returns (index: nat)
    requires files != []
    ensures IsPick(files, pointer, index)
  {
    for i := 0 to |files|
      invariant forall j :: 0 <= j < i ==> !EndsAfter(files[j], pointer)
    {
      if EndsAfter(files[i], pointer) {
        return i;
      }
    }
    index := 0;
  }

  /** What an automatic compaction starts from: the file, and at level 0 all that its closed range meets. */
  ghost predicate IsAutomaticStart(files: seq<File>, level: nat, f: File, picked: seq<File>) {
    if level > 0 then picked == [f]
    else exists ub, ue :: MeetingRange(files, 0, Some(f.smallest.key), Some(f.largest.key), ub, ue)
                          && picked == Overlapping(files, ub, ue)
  }

  /** An automatic compaction starts from one file, widened at level 0 to everything it overlaps: the file asked
      for by too many seeks, or else the one the compaction pointer of the level has come to. */
  method PickCompaction(levels: seq<seq<File>>, level: nat, seek: Option<nat>, pointer: Option<Entry>, expandLimit: nat)
      returns (in0: seq<File>, in1: seq<File>, next: Entry, ghost index: nat, ghost picked: seq<File>, ghost plan: Plan)
    requires Ordered(levels) && level + 1 < NUM_LEVELS && levels[level] != []
    requires seek.Some? ==> seek.value < |levels[level]|
    ensures ValidInputs(levels, level, in0, in1)
    ensures index < |levels[level]| && levels[level][index] in in0
    ensures if seek.Some? then index == seek.value else IsPick(levels[level], pointer, index)
    ensures IsAutomaticStart(levels[level], level, levels[level][index], picked)
    ensures IsPlan(levels, level, picked, plan, expandLimit) && (in0, in1) == plan.Inputs(expandLimit)
    ensures IsLargest(in0, next)
  {
    assert LevelOk(levels, level);
    var start;
    if seek.Some? {
      start := seek.value;
    } else {
      start := PickFile(levels[level], pointer);
    }
    index := start;
    var f := levels[level][start];
    var inputs := [f];
    if level == 0 {
      ghost var ub, ue;
      inputs, ub, ue := GetOverlappingInputs(levels[0], 0, Some(f.smallest.key), Some(f.largest.key));
      assert f.Valid();
      Inside(f, f.largest);
      OverlappingMember(levels[0], ub, ue, f);
      OverlapsStart(levels[0], 0, ub, ue, inputs);
    } else {
      assert IsRun(levels[level], inputs, index, index + 1);
    }
    assert f in inputs;
    picked := inputs;
    in0, in1, next, plan := SetupOtherInputs(levels, level, inputs, expandLimit);
  }

  lemma RangeMet(files: seq<File>, level: nat, begin: Option<int>, end: Option<int>, ub: Option<int>, ue: Option<int>)
    requires MeetingRange(files, level, begin, end, ub, ue)
    ensures forall f :: f in files && Meets(f, begin, end) ==> f in Overlapping(files, ub, ue)
    ensures Overlapping(files, ub, ue) == [] <==> forall f :: f in files ==> !Meets(f, begin, end)
  {
    forall f ensures f in Overlapping(files, ub, ue) <==> f in files && Meets(f, ub, ue) {
      OverlappingMember(files, ub, ue, f);
    }
    if forall f :: f in files ==> !Meets(f, begin, end) {
      assert ClosedRange(files, begin, end);
      assert Overlapping(files, ub, ue) != [] ==> Overlapping(files, ub, ue)[0] in Overlapping(files, ub, ue);
    }
  }

  /** What a manual compaction starts from: all files that meet a closed range at level 0; above it the first files
      that meet the range, up to the one that brings them to `limit` bytes. */
  ghost predicate IsManualStart(files: seq<File>, level: nat, begin: Option<int>, end: Option<int>, limit: nat,
                                picked: seq<File>) {
    if level == 0 then
      exists ub, ue :: MeetingRange(files, 0, begin, end, ub, ue) && picked == Overlapping(files, ub, ue)
    else
      var met := Overlapping(files, begin, end);
      && picked <= met && (picked == [] <==> met == [])
      && forall i :: 1 <= i < |met| ==> (i < |picked| <==> TotalFileSize(met[..i]) < limit)
  }

  method ManualStart(files: seq<File>, level: nat, begin: Option<int>, end: Option<int>, limit: nat)
      returns (picked: seq<File>)
    requires FilesValid(files) && (level > 0 ==> LevelSorted(files))
    ensures IsManualStart(files, level, begin, end, limit, picked)
    ensures picked != [] ==> ValidStart(files, level, picked)
    ensures picked == [] <==> forall f :: f in files ==> !Meets(f, begin, end)
  {
    ghost var ub, ue;
    picked, ub, ue := GetOverlappingInputs(files, level, begin, end);
    RangeMet(files, level, begin, end, ub, ue);
    if picked == [] {
      return;
    }
    OverlapsStart(files, level, ub, ue, picked);
    if level > 0 {
      var n := CutAt(picked, limit);
      StartOfRun(files, level, picked, n);
      picked := picked[..n];
    }
  }

  lemma StartOfRun(files: seq<File>, level: nat, picked: seq<File>, n: nat)
    requires level > 0 && ValidStart(files, level, picked) && 0 < n <= |picked|
    ensures ValidStart(files, level, picked[..n])
  {
    var a: nat, b: nat :| IsRun(files, picked, a, b);
    assert IsRun(files, picked[..n], a, a + n);
  }

  /** A manual compaction of a range; there is nothing to do exactly when no file of the level meets it. */
  method CompactRange(levels: seq<seq<File>>, level: nat, begin: Option<int>, end: Option<int>, limit: nat,
                      expandLimit: nat)
      returns (in0: seq<File>, in1: seq<File>, ghost picked: seq<File>, ghost plan: Plan)
    requires Ordered(levels) && level + 1 < NUM_LEVELS
    ensures in0 == [] <==> forall f :: f in levels[level] ==> !Meets(f, begin, end)
    ensures IsManualStart(levels[level], level, begin, end, limit, picked)
    ensures in0 != [] ==>
              && ValidInputs(levels, level, in0, in1) && (forall f :: f in picked ==> f in in0)
              && IsPlan(levels, level, picked, plan, expandLimit) && (in0, in1) == plan.Inputs(expandLimit)
  {
    assert LevelOk(levels, level);
    var start := ManualStart(levels[level], level, begin, end, limit);
    picked := start;
    if start == [] {
      return [], [], start, Plan([], [], [], [], []);
    }
    assert start[0] in start;
    var pointer;
    in0, in1, pointer, plan := SetupOtherInputs(levels, level, start, expandLimit);
  }

  lemma {:induction false} TotalPush(files: seq<File>, f: File)
    ensures TotalFileSize(files + [f]) == TotalFileSize(files) + f.size
  {
    if files != [] {
      assert (files + [f])[1..] == files[1..] + [f];
      TotalPush(files[1..], f);
    }
  }

  lemma {:induction false} TotalGrows(files: seq<File>, i: nat, j: nat)
    requires i <= j <= |files|
    ensures TotalFileSize(files[..i]) <= TotalFileSize(files[..j])
  {
    if i < j {
      TotalGrows(files, i, j - 1);
      assert files[..j] == files[..j - 1] + [files[j - 1]];
      TotalPush(files[..j - 1], files[j - 1]);
    }
  }

  /** How many of the files are kept: up to and including the one that reaches the limit. */
  method CutAt(inputs: seq<File>, limit: nat) returns (n: nat)
    requires inputs != []
    ensures 0 < n <= |inputs|
    ensures forall i :: 1 <= i < |inputs| ==> (i < n <==> TotalFileSize(inputs[..i]) < limit)
  {
    var total := 0;
    for i := 0 to |inputs|
      invariant total == TotalFileSize(inputs[..i])
      invariant forall j :: 1 <= j <= i ==> TotalFileSize(inputs[..j]) < limit
    {
      assert inputs[..i + 1] == inputs[..i] + [inputs[i]];
      TotalPush(inputs[..i], inputs[i]);
      total := total + inputs[i].size;
      if total >= limit {
        forall j | i + 1 <= j < |inputs| ensures TotalFileSize(inputs[..j]) >= limit {
          TotalGrows(inputs, i + 1, j);
        }
        return i + 1;
      }
    }
    n := |inputs|;
  }
}
