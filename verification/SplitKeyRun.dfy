/** The database gets into the state of the split key by ordinary steps from an empty start.  An output file is
    only cut once it reaches the maximum file size (1 MB at least), so that the values written have to be that
    large; file sizes and the contents of values do not matter to the steps, and are kept small here. */
module SplitKeyRun {
  import opened Entries
  import opened Versions
  import opened VersionBuilder
  import opened Compaction
  import opened CompactionStep
  import opened SplitKey
  import opened SplitCondition
  import Flush
  import opened Lsm

  // Keys 20, 5 and 10 are written and flushed; under a snapshot, key 10 is deleted and flushed above them.
  const FIRST := [OLDER5, OLD10, KEY20]
  const TABLE1 := File(1, 100, OLDER5, KEY20, FIRST)
  const TABLE2 := File(2, 100, GONE10, GONE10, [GONE10])

  const BATCH1 := [Write(20, Put, []), Write(5, Put, []), Write(10, Put, [1])]
  const BATCH2 := [Write(10, Deletion, [])]
  const BATCH3 := [Write(5, Put, [])]

  const HISTORY1 := {KEY20, OLDER5, OLD10}
  const HISTORY2 := HISTORY1 + {GONE10}
  const HISTORY3 := HISTORY2 + {NEWER5}

  const NONE: seq<seq<File>> := [[], [], [], [], [], [], []]
  const DEEP: seq<seq<File>> := [[], [], [TABLE1], [], [], [], []]
  const BOTH: seq<seq<File>> := [[], [TABLE2], [TABLE1], [], [], [], []]
  const SPLIT: seq<seq<File>> := [[], [], [LEFT, RIGHT], [], [], [], []]

  // The compaction of the two tables keeps everything, for the snapshot, and cuts its output inside key 10.
  const MERGED := [OLDER5, GONE10, OLD10, KEY20]
  const PARTS := [[OLDER5, GONE10], [OLD10, KEY20]]

  function Sizes(): nat -> nat {
    i => 100
  }

  const S0 := Db([], None, NONE, 0, [], 1, {}, 0)
  const S1 := Db(FIRST, None, NONE, 3, [], 1, HISTORY1, 0)
  const S2 := Db([], Some(FIRST), NONE, 3, [], 1, HISTORY1, 0)
  const S3 := Db([], None, DEEP, 3, [], 2, HISTORY1, 0)
  const S4 := Db([], None, DEEP, 3, [3], 2, HISTORY1, 0)
  const S5 := Db([GONE10], None, DEEP, 4, [3], 2, HISTORY2, 0)
  const S6 := Db([], Some([GONE10]), DEEP, 4, [3], 2, HISTORY2, 0)
  const S7 := Db([], None, BOTH, 4, [3], 3, HISTORY2, 0)
  const S8 := Db([], None, SPLIT, 4, [3], 5, HISTORY2, 3)
  const S9 := Db([], None, SPLIT, 4, [], 5, HISTORY2, 3)
  const S10 := Db([NEWER5], None, SPLIT, 5, [], 5, HISTORY3, 3)
  const S11 := Db([], Some([NEWER5]), SPLIT, 5, [], 5, HISTORY3, 3)
  const S12 := Db([], None, LEVELS, 5, [], 6, HISTORY3, 3)

  const COMPACTION := Compact(1, [TABLE2], [TABLE1], 3, MERGED, PARTS, [3, 4], Sizes())

  lemma OneWrite(w: Write, last: nat)
    ensures BatchEntries([w], last) == {Entry(w.key, last + 1, w.kind, w.value)}
  {
    assert [w][0] == w;
  }

  lemma ThreeWrites(a: Write, b: Write, c: Write, last: nat)
    ensures BatchEntries([a, b, c], last)
         == {Entry(a.key, last + 1, a.kind, a.value), Entry(b.key, last + 2, b.kind, b.value),
             Entry(c.key, last + 3, c.kind, c.value)}
  {
    var batch := [a, b, c];
    assert batch[0] == a && batch[1] == b && batch[2] == c;
    assert Entry(batch[1].key, last + 1 + 1, batch[1].kind, batch[1].value) in BatchEntries(batch, last);
    assert Entry(batch[2].key, last + 1 + 2, batch[2].kind, batch[2].value) in BatchEntries(batch, last);
    assert Entry(batch[0].key, last + 1 + 0, batch[0].kind, batch[0].value) in BatchEntries(batch, last);
  }

  lemma Singleton(e: Entry)
    ensures EntriesOf([e]) == {e}
  {
    assert [e][0] == e;
  }

  lemma Writes1()
    ensures Does(S0, DoWrite(BATCH1), S1)
  {
    ThreeWrites(BATCH1[0], BATCH1[1], BATCH1[2], 0);
    assert FIRST[0] in FIRST && FIRST[1] in FIRST && FIRST[2] in FIRST;
    assert EntriesOf(FIRST) == HISTORY1;
    assert EntriesOf(S0.mem) == {};
  }

  lemma Writes2()
    ensures Does(S4, DoWrite(BATCH2), S5) && Does(S9, DoWrite(BATCH3), S10)
  {
    OneWrite(BATCH2[0], 3);
    OneWrite(BATCH3[0], 4);
    Singleton(GONE10);
    Singleton(NEWER5);
    assert EntriesOf([]) == {};
  }

  lemma Switches()
    ensures Does(S1, SwitchMemTable, S2) && Does(S5, SwitchMemTable, S6) && Does(S10, SwitchMemTable, S11)
  {
  }

  lemma Snapshots()
    ensures Does(S3, TakeSnapshot, S4) && Does(S8, ReleaseSnapshot(0), S9)
  {
    assert [3][..0] + [3][1..] == [];
  }

  /** Each memtable goes as deep as no table is in its way. */
  lemma Flushes()
    ensures Does(S2, FlushMemTable(2, 1, 100), S3) && Does(S6, FlushMemTable(1, 2, 100), S7)
              && Does(S11, FlushMemTable(1, 5, 100), S12)
  {
    assert Flush.TableOf(FIRST, 1, 100) == TABLE1;
    assert Flush.TableOf([GONE10], 2, 100) == TABLE2;
    assert Flush.TableOf([NEWER5], 5, 100) == UPPER;
    assert IsSave([], Change({}, {TABLE1}), [TABLE1]) by { assert [TABLE1][0] == TABLE1; }
    assert IsSave([], Change({}, {TABLE2}), [TABLE2]) by { assert [TABLE2][0] == TABLE2; }
    assert IsSave([], Change({}, {UPPER}), [UPPER]) by { assert [UPPER][0] == UPPER; }
  }

  lemma InputsOfFirst()
    ensures ValidInputs(BOTH, 1, [TABLE2], [TABLE1])
  {
    assert CleanRun(BOTH[1], [TABLE2], 0, 1) by {
      assert BOTH[1][0..1] == [TABLE2];
    }
    assert IsRange([TABLE2], 10, 10) by {
      assert TABLE2 in [TABLE2];
    }
    assert TABLE1 in BOTH[2];
    assert AreOverlapping(BOTH[2], 10, 10, [TABLE1]);
  }

  lemma MergedHolds()
    ensures Sorted(MERGED) && EntriesOf(MERGED) == Contents([TABLE2]) + Contents([TABLE1])
  {
    assert MERGED[0] in MERGED && MERGED[1] in MERGED && MERGED[2] in MERGED && MERGED[3] in MERGED;
    assert TABLE2 in [TABLE2] && TABLE1 in [TABLE1];
    assert TABLE2.entries[0] in TABLE2.entries;
    assert FIRST[0] in FIRST && FIRST[1] in FIRST && FIRST[2] in FIRST;
  }

  /** Under the snapshot at 3 nothing is dropped: the deletion is newer than the snapshot. */
  lemma NothingDropped(base: int -> bool)
    ensures KeptAll(MERGED, 3, base) == MERGED
  {
    assert Kept(MERGED, 3, base, 1) == [OLDER5];
    assert Kept(MERGED, 3, base, 2) == [OLDER5, GONE10];
    assert Kept(MERGED, 3, base, 3) == [OLDER5, GONE10, OLD10];
    assert Kept(MERGED, 3, base, 4) == MERGED;
  }

  lemma PartsConcat()
    ensures Concat(PARTS) == MERGED
  {
    assert PARTS[..1] == [PARTS[0]];
    assert [PARTS[0]][..0] == [];
    assert Concat([PARTS[0]]) == [] + PARTS[0] == PARTS[0];
  }

  lemma OutputsInstalled()
    ensures OutputFiles(PARTS, [3, 4], Sizes()) == [LEFT, RIGHT]
    ensures Installed(BOTH, 1, [TABLE2], [TABLE1], [LEFT, RIGHT], SPLIT)
  {
    assert TABLE2 in FileSet([TABLE2]) && TABLE1 in FileSet([TABLE1]);
    assert Numbers(FileSet([TABLE2])) == {2} && Numbers(FileSet([TABLE1])) == {1};
    assert LEFT in [LEFT, RIGHT] && RIGHT in [LEFT, RIGHT];
    assert FileSet([LEFT, RIGHT]) == {LEFT, RIGHT};
    assert TABLE2 in BOTH[1] && TABLE1 in BOTH[2];
  }

  lemma Compacts()
    ensures Does(S7, COMPACTION, S8)
  {
    InputsOfFirst();
    MergedHolds();
    NothingDropped(Base(BOTH, 1));
    PartsConcat();
    OutputsInstalled();
    NothingSplit();
  }

  lemma NothingSplit()
    ensures forall key :: !IsSplit(BOTH[2], [TABLE1], key)
  {
    assert TABLE1 in [TABLE1];
  }

  ghost predicate Reaches(run: seq<Db>, steps: seq<Step>, b: Db) {
    IsRun(run, steps) && run[|steps|] == b
  }

  lemma Then(run: seq<Db>, steps: seq<Step>, a: Db, s: Step, b: Db) returns (run2: seq<Db>, steps2: seq<Step>)
    requires Reaches(run, steps, a) && |a.levels| == NUM_LEVELS && Does(a, s, b)
    ensures Reaches(run2, steps2, b)
  {
    run2, steps2 := run + [b], steps + [s];
    forall i | 0 <= i < |steps2| ensures |run2[i].levels| == NUM_LEVELS && Does(run2[i], steps2[i], run2[i + 1]) {
      if i < |steps| {
        assert Does(run[i], steps[i], run[i + 1]);
      }
    }
  }

  lemma FirstHalf() returns (run: seq<Db>, steps: seq<Step>)
    ensures Reaches(run, steps, S6)
  {
    Writes1();
    Writes2();
    Switches();
    Snapshots();
    Flushes();
    run, steps := [S0], [];
    assert NONE == seq(NUM_LEVELS, _ => []);
    run, steps := Then(run, steps, S0, DoWrite(BATCH1), S1);
    run, steps := Then(run, steps, S1, SwitchMemTable, S2);
    run, steps := Then(run, steps, S2, FlushMemTable(2, 1, 100), S3);
    run, steps := Then(run, steps, S3, TakeSnapshot, S4);
    run, steps := Then(run, steps, S4, DoWrite(BATCH2), S5);
    run, steps := Then(run, steps, S5, SwitchMemTable, S6);
  }

  /** A run from an empty database to the levels of the split key. */
  lemma SplitKeyIsReached() returns (run: seq<Db>, steps: seq<Step>)
    ensures IsRun(run, steps) && run[|steps|].levels == LEVELS && run[|steps|].SmallestSnapshot() == 5
  {
    Writes2();
    Switches();
    Snapshots();
    Flushes();
    Compacts();
    run, steps := FirstHalf();
    run, steps := Then(run, steps, S6, FlushMemTable(1, 2, 100), S7);
    run, steps := Then(run, steps, S7, COMPACTION, S8);
    run, steps := Then(run, steps, S8, ReleaseSnapshot(0), S9);
    run, steps := Then(run, steps, S9, DoWrite(BATCH3), S10);
    run, steps := Then(run, steps, S10, SwitchMemTable, S11);
    run, steps := Then(run, steps, S11, FlushMemTable(1, 5, 100), S12);
  }
}
