/** A compaction the input choice allows and that changes a read: AddBoundaryInputs closes the inputs
    under boundary files at the level that is compacted (db/version_set.cc:1407 and 1422), but nothing
    closes them at the next level (line 1410). */
module SplitKey {
  import opened Entries
  import opened Versions
  import opened VersionBuilder
  import opened Compaction
  import opened CompactionStep

  // Key 10 was written at 3 and deleted at 4; an earlier compaction cut its output between the two.
  const NEWER5 := Entry(5, 5, Put, [])
  const OLDER5 := Entry(5, 2, Put, [])
  const GONE10 := Entry(10, 4, Deletion, [])
  const OLD10 := Entry(10, 3, Put, [1])
  const KEY20 := Entry(20, 1, Put, [])

  const UPPER := File(5, 100, NEWER5, NEWER5, [NEWER5])
  const LEFT := File(3, 100, OLDER5, GONE10, [OLDER5, GONE10])
  const RIGHT := File(4, 100, OLD10, KEY20, [OLD10, KEY20])

  const LEVELS: seq<seq<File>> := [[], [UPPER], [LEFT, RIGHT], [], [], [], []]
  const INPUT := [NEWER5, OLDER5, GONE10]

  lemma LevelsHold(e: Entry)
    ensures e in All(LEVELS) <==> e in {NEWER5, OLDER5, GONE10, OLD10, KEY20}
    ensures e in Contents(LEVELS[1]) <==> e == NEWER5
    ensures e in Contents(LEVELS[2]) <==> e in {OLDER5, GONE10, OLD10, KEY20}
    ensures e in RestOf(LEVELS, 1, [UPPER], [LEFT]) <==> e in {OLD10, KEY20}
  {
    AllOf(LEVELS, e);
    assert UPPER in LEVELS[1] && LEFT in LEVELS[2] && RIGHT in LEVELS[2];
    assert NEWER5 in UPPER.entries && OLDER5 in LEFT.entries && GONE10 in LEFT.entries;
    assert OLD10 in RIGHT.entries && KEY20 in RIGHT.entries;
    assert TakesNoPart(2, RIGHT, 1, [UPPER], [LEFT]);
  }

  lemma EachLevelOk()
    ensures forall l {:trigger LevelOk(LEVELS, l)} :: 0 <= l < NUM_LEVELS ==> LevelOk(LEVELS, l)
  {
    forall l | 0 <= l < NUM_LEVELS ensures LevelOk(LEVELS, l) {
      assert LEFT.Valid() && RIGHT.Valid() && UPPER.Valid();
    }
  }

  lemma LevelsOrdered()
    ensures forall l, m {:trigger LevelsAge(LEVELS, l, m)} :: 0 <= l < m < NUM_LEVELS ==> LevelsAge(LEVELS, l, m)
  {
    forall l, m | 0 <= l < m < NUM_LEVELS ensures LevelsAge(LEVELS, l, m) {
      forall e ensures e in Contents(LEVELS[1]) <==> e == NEWER5 { LevelsHold(e); }
      forall e ensures e in Contents(LEVELS[2]) <==> e in {OLDER5, GONE10, OLD10, KEY20} { LevelsHold(e); }
    }
  }

  lemma LevelsWellFormed()
    ensures WellFormed(LEVELS, 6)
  {
    forall e ensures e in All(LEVELS) <==> e in {NEWER5, OLDER5, GONE10, OLD10, KEY20} { LevelsHold(e); }
    EachLevelOk();
    LevelsOrdered();
    forall l | 0 <= l < NUM_LEVELS ensures Tidy(LEVELS[l], 6) {}
  }

  lemma InputsValid()
    ensures ValidInputs(LEVELS, 1, [UPPER], [LEFT])
  {
    assert CleanRun(LEVELS[1], [UPPER], 0, 1) by {
      assert LEVELS[1][0..1] == [UPPER];
    }
    assert IsRange([UPPER], 5, 5) by {
      assert UPPER in [UPPER];
    }
    assert AreOverlapping(LEVELS[2], 5, 5, [LEFT]);
  }

  lemma InputHolds()
    ensures Sorted(INPUT) && EntriesOf(INPUT) == {NEWER5, OLDER5, GONE10}
    ensures Contents([UPPER]) + Contents([LEFT]) == {NEWER5, OLDER5, GONE10}
  {
    assert INPUT[0] in INPUT && INPUT[1] in INPUT && INPUT[2] in INPUT;
    assert UPPER in [UPPER] && LEFT in [LEFT];
    assert UPPER.entries[0] in UPPER.entries && LEFT.entries[0] in LEFT.entries && LEFT.entries[1] in LEFT.entries;
  }

  lemma Key10Resurrects()
    ensures Resurrects({NEWER5, OLDER5, GONE10}, {OLD10, KEY20}, 5, Base(LEVELS, 1), 10)
  {
    var input, rest := {NEWER5, OLDER5, GONE10}, {OLD10, KEY20};
    assert IsNewest(input + rest, 10, 5, Some(GONE10));
    assert IsNewest(rest, 10, 5, Some(OLD10));
    assert Base(LEVELS, 1)(10);
  }

  lemma RestHolds()
    ensures RestOf(LEVELS, 1, [UPPER], [LEFT]) == {OLD10, KEY20}
  {
    forall e ensures e in RestOf(LEVELS, 1, [UPPER], [LEFT]) <==> e in {OLD10, KEY20} { LevelsHold(e); }
  }

  /** The inputs of a compaction of level 1 can only be these. */
  lemma OnlyInputs(in0: seq<File>, in1: seq<File>)
    requires ValidInputs(LEVELS, 1, in0, in1)
    ensures forall f :: f in in0 <==> f == UPPER
    ensures forall f :: f in in1 <==> f == LEFT
  {
    var a: nat, b: nat :| CleanRun(LEVELS[1], in0, a, b);
    assert a == 0 && b == 1 && LEVELS[1][0..1] == [UPPER];
    var lo, hi :| IsRange(in0, lo, hi) && AreOverlapping(LEVELS[2], lo, hi, in1);
    assert lo == 5 && hi == 5;
    assert LEFT in LEVELS[2] && RIGHT in LEVELS[2];
  }

  /** Key 10 reads as deleted before the compaction, and its old value is back whatever way the outputs are
      cut and installed. */
  lemma SplitKeyResurrects(outs: seq<File>, after: seq<seq<File>>)
    requires |after| == NUM_LEVELS && FilesAfter(LEVELS, 1, [UPPER], [LEFT], outs, after)
    requires Contents(outs) == EntriesOf(KeptAll(INPUT, 5, Base(LEVELS, 1)))
    ensures WellFormed(LEVELS, 6) && ValidInputs(LEVELS, 1, [UPPER], [LEFT])
    ensures Sorted(INPUT) && EntriesOf(INPUT) == Contents([UPPER]) + Contents([LEFT])
    ensures !SameReads(All(LEVELS), All(after), 5)
  {
    LevelsWellFormed();
    InputsValid();
    InputHolds();
    RestHolds();
    Key10Resurrects();
    ResurrectionChangesReads(LEVELS, 1, [UPPER], [LEFT], INPUT, outs, 5, after, 10);
  }

  /** Key 10 is split between the input file and the file left out beside it. */
  lemma Key10IsSplit()
    ensures !NoSplitKey(LEVELS[2], [LEFT])
  {
    assert ShareKey(LEFT, RIGHT) by {
      assert GONE10 in LEFT.entries && OLD10 in RIGHT.entries;
    }
  }
}
