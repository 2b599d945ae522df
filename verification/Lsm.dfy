/** The tree as a whole: whatever sequence of writes, memtable switches, flushes, compactions, moves
    and snapshots it goes through, a read at a live snapshot returns what the history of writes says. */
module Lsm {
  import opened Entries
  import opened Versions
  import opened VersionBuilder
  import opened Compaction
  import opened CompactionStep
  import opened SplitCondition
  import DBIterator
  import Flush
  import opened Reference

  /** The state a reader sees, with two history variables: every entry ever written, and the
      smallest snapshot any compaction so far has worked for. */
  datatype Db = Db(
    mem: seq<Entry>,
    imm: Option<seq<Entry>>,
    levels: seq<seq<File>>,
    lastSequence: nat,
    snapshots: seq<nat>,
    nextFile: nat,
    history: set<Entry>,
    floor: nat)
  {
    ghost function Readable(): set<Entry> {
      Everything(mem, imm, levels)
    }

    ghost function Memory(): set<Entry> {
      EntriesOf(mem) + if imm.Some? then EntriesOf(imm.value) else {}
    }

    /** The oldest live snapshot, or the last sequence number when there is none. */
    function SmallestSnapshot(): nat {
      if snapshots == [] then lastSequence else snapshots[0]
    }
  }

  datatype Step =
    | DoWrite(batch: seq<Write>)
    | SwitchMemTable
    | FlushMemTable(level: nat, number: nat, size: nat)
    | TakeSnapshot
    | ReleaseSnapshot(index: nat)
    | Compact(level: nat, in0: seq<File>, in1: seq<File>, smallest: nat, input: seq<Entry>, parts: seq<seq<Entry>>,
              numbers: seq<nat>, sizes: nat -> nat)
    | TrivialMove(level: nat, file: File)
    | Reopen(files: seq<File>)         // a crash and a recovery: memory comes back as tables of level 0

  ghost predicate Does(a: Db, s: Step, b: Db)
    requires |a.levels| == NUM_LEVELS
  {
    match s
    case DoWrite(batch) =>
      && Sorted(b.mem) && EntriesOf(b.mem) == EntriesOf(a.mem) + BatchEntries(batch, a.lastSequence)
      && b == a.(mem := b.mem, lastSequence := a.lastSequence + |batch|,
                 history := a.history + BatchEntries(batch, a.lastSequence))
    case SwitchMemTable =>
      a.imm.None? && b == a.(imm := Some(a.mem), mem := [])
    case FlushMemTable(level, number, size) =>
      && a.imm.Some?
      && if a.imm.value == [] then b == a.(imm := None)
         else
           var f := Flush.TableOf(a.imm.value, number, size);
           && level <= MAX_MEM_COMPACT_LEVEL && a.nextFile <= number
           && (level > 0 ==> forall l :: 0 <= l <= level ==>
                !Flush.SomeOverlap(a.levels[l], f.smallest.key, f.largest.key))
           && Flush.TableInstalled(a.levels, level, f, b.levels)
           && b == a.(imm := None, levels := b.levels, nextFile := number + 1)
    case TakeSnapshot =>
      b == a.(snapshots := a.snapshots + [a.lastSequence])
    case ReleaseSnapshot(i) =>
      i < |a.snapshots| && b == a.(snapshots := a.snapshots[..i] + a.snapshots[i + 1..])
    case Compact(_, _, _, _, _, _, _, _) => Compacts(a, s, b) && SplitsNothing(a, s)
    case TrivialMove(level, f) =>
      && ValidInputs(a.levels, level, [f], [])
      && Installed(a.levels, level, [f], [], [f], b.levels)
      && b == a.(levels := b.levels)
    case Reopen(files) =>
      && Recovered(a, files, b.nextFile) && Flush.TablesInstalled(a.levels, files, b.levels)
      && a.floor <= b.lastSequence && (forall e :: e in a.history ==> e.seqno <= b.lastSequence)
      && b == a.(mem := [], imm := None, levels := b.levels, lastSequence := b.lastSequence, snapshots := [],
                 nextFile := b.nextFile)
  }

  /** A compaction of the inputs the code chooses by its drop rule, for a smallest snapshot that was the oldest
      live one when it began. */
  ghost predicate Compacts(a: Db, s: Step, b: Db)
    requires |a.levels| == NUM_LEVELS && s.Compact?
  {
    && ValidInputs(a.levels, s.level, s.in0, s.in1) && a.floor <= s.smallest <= a.SmallestSnapshot()
    && Sorted(s.input) && EntriesOf(s.input) == Contents(s.in0) + Contents(s.in1)
    && |s.numbers| == |s.parts| && (forall i :: 0 <= i < |s.parts| ==> s.parts[i] != [])
    && Concat(s.parts) == KeptAll(s.input, s.smallest, Base(a.levels, s.level))
    && Fresh(s.numbers, a.nextFile, b.nextFile)
    && Installed(a.levels, s.level, s.in0, s.in1, OutputFiles(s.parts, s.numbers, s.sizes), b.levels)
    && b == a.(levels := b.levels, nextFile := b.nextFile, floor := s.smallest)
  }

  /** No key is split at the next level before a value behind the deletion that is read. */
  ghost predicate SplitsNothing(a: Db, s: Step)
    requires |a.levels| == NUM_LEVELS && s.Compact? && ValidInputs(a.levels, s.level, s.in0, s.in1)
  {
    NoSplitDeletion(a.levels[s.level + 1], s.in1, EntriesOf(s.input),
                    a.Memory() + RestOf(a.levels, s.level, s.in0, s.in1), s.smallest, Base(a.levels, s.level))
  }

  /** Numbers not used before, in the order they are given. */
  ghost predicate Fresh(numbers: seq<nat>, next: nat, after: nat) {
    && next <= after && (forall i :: 0 <= i < |numbers| ==> next <= numbers[i] < after)
    && forall i, j :: 0 <= i < j < |numbers| ==> numbers[i] < numbers[j]
  }

  /** Tables that hold exactly what was in memory, a higher number meaning newer writes. */
  ghost predicate Recovered(a: Db, files: seq<File>, after: nat) {
    && FilesValid(files) && NumbersAge(files) && Contents(files) == a.Memory()
    && a.nextFile <= after && forall f :: f in files ==> a.nextFile <= f.number < after
  }

  ghost predicate Initial(a: Db) {
    && a.mem == [] && a.imm == None && a.levels == seq(NUM_LEVELS, _ => []) && a.lastSequence == 0
    && a.snapshots == [] && a.history == {} && a.floor == 0
  }

  /** Table numbers are not shared between levels. */
  ghost predicate LevelsApart(levels: seq<seq<File>>, l: nat, m: nat)
    requires l < |levels| && m < |levels|
  {
    forall f, g :: f in levels[l] && g in levels[m] ==> f.number != g.number
  }

  ghost predicate NumbersApart(levels: seq<seq<File>>) {
    forall l, m {:trigger LevelsApart(levels, l, m)} :: 0 <= l < |levels| && 0 <= m < |levels| && l != m ==>
        LevelsApart(levels, l, m)
  }

  ghost predicate SnapshotsOk(a: Db) {
    && a.floor <= a.lastSequence
    && (forall i :: 0 <= i < |a.snapshots| ==> a.floor <= a.snapshots[i] <= a.lastSequence)
    && (forall i, j :: 0 <= i < j < |a.snapshots| ==> a.snapshots[i] <= a.snapshots[j])
  }

  ghost predicate HistoryOk(a: Db) {
    && Unique(a.history) && a.Readable() <= a.history
    && (forall e :: e in a.history ==> e.seqno <= a.lastSequence)
    && SameReads(a.history, a.Readable(), a.floor)
  }

  ghost predicate Invariant(a: Db) {
    && Stacked(a.mem, a.imm, a.levels)
    && WellFormed(a.levels, a.nextFile) && NumbersApart(a.levels)
    && SnapshotsOk(a) && HistoryOk(a)
  }

  // ----- Writes -----

  lemma BatchIsNewer(batch: seq<Write>, last: nat, es: set<Entry>)
    requires forall e :: e in es ==> e.seqno <= last
    ensures NewerThan(BatchEntries(batch, last), es)
    ensures Unique(es) ==> Unique(es + BatchEntries(batch, last))
    ensures forall e :: e in BatchEntries(batch, last) ==> last < e.seqno <= last + |batch|
  {
  }

  /** The same newer entries on top of equal reads give equal reads. */
  lemma SameReadsAdd(before: set<Entry>, after: set<Entry>, added: set<Entry>, floor: nat)
    requires SameReads(before, after, floor) && after <= before
    requires Unique(before + added) && NewerThan(added, before)
    ensures SameReads(before + added, after + added, floor)
  {
    forall key, snapshot, p, q |
      snapshot >= floor && IsNewest(before + added, key, snapshot, p) && IsNewest(after + added, key, snapshot, q)
      ensures ValueOf(p) == ValueOf(q)
    {
      var n := NewestExists(added, key, snapshot);
      if n.Some? {
        assert IsNewest(before + added, key, snapshot, n) && IsNewest(after + added, key, snapshot, n);
        NewestUnique(before + added, key, snapshot, p, n);
        NewestUnique(after + added, key, snapshot, q, n);
      } else {
        assert IsNewest(before, key, snapshot, p) && IsNewest(after, key, snapshot, q);
      }
    }
  }

  lemma WriteKeeps(a: Db, batch: seq<Write>, b: Db)
    requires Invariant(a) && Does(a, DoWrite(batch), b)
    ensures Invariant(b)
  {
    var added := BatchEntries(batch, a.lastSequence);
    BatchIsNewer(batch, a.lastSequence, a.history);
    assert b.Readable() == a.Readable() + added;
    SameReadsAdd(a.history, a.Readable(), added, a.floor);
  }

  lemma SwitchKeeps(a: Db, b: Db)
    requires Invariant(a) && Does(a, SwitchMemTable, b)
    ensures Invariant(b)
  {
    assert EntriesOf(b.mem) == {};
    assert b.Readable() == a.Readable();
  }

  // ----- Snapshots -----

  lemma SnapshotKeeps(a: Db, s: Step, b: Db)
    requires Invariant(a) && (s.TakeSnapshot? || s.ReleaseSnapshot?) && Does(a, s, b)
    ensures Invariant(b)
  {
    assert b.Readable() == a.Readable();
  }

  // ----- Flushes -----

  lemma LaterNumbers(levels: seq<seq<File>>, next: nat, number: nat)
    requires WellFormed(levels, next) && next <= number
    ensures WellFormed(levels, number)
  {
    forall l | 0 <= l < NUM_LEVELS ensures Tidy(levels[l], number) {
      assert Tidy(levels[l], next);
    }
  }

  lemma FlushKeepsLayers(a: Db, level: nat, number: nat, size: nat, b: Db)
    requires Invariant(a) && Does(a, FlushMemTable(level, number, size), b) && a.imm.value != []
    ensures Stacked(b.mem, b.imm, b.levels) && WellFormed(b.levels, b.nextFile)
    ensures b.Readable() == a.Readable()
  {
    var es := a.imm.value;
    var f := Flush.TableOf(es, number, size);
    assert f.Valid();
    assert Unique(EntriesOf(es) + All(a.levels)) by {
      assert EntriesOf(es) + All(a.levels) <= a.history;
    }
    LaterNumbers(a.levels, a.nextFile, number);
    Flush.InstallTableKeepsForm(a.levels, number, level, f, b.levels);
  }

  lemma FlushKeepsNumbers(a: Db, level: nat, number: nat, size: nat, b: Db)
    requires Invariant(a) && Does(a, FlushMemTable(level, number, size), b) && a.imm.value != []
    ensures NumbersApart(b.levels)
  {
    forall l, m | 0 <= l < NUM_LEVELS && 0 <= m < NUM_LEVELS && l != m ensures LevelsApart(b.levels, l, m) {
      assert LevelsApart(a.levels, l, m) && Tidy(a.levels[l], a.nextFile) && Tidy(a.levels[m], a.nextFile);
    }
  }

  lemma FlushKeeps(a: Db, level: nat, number: nat, size: nat, b: Db)
    requires Invariant(a) && Does(a, FlushMemTable(level, number, size), b)
    ensures Invariant(b)
  {
    if a.imm.value == [] {
      assert b.Readable() == a.Readable();
    } else {
      FlushKeepsLayers(a, level, number, size, b);
      FlushKeepsNumbers(a, level, number, size, b);
    }
  }

  // ----- Compactions and moves -----

  lemma SameReadsTrans(p: set<Entry>, q: set<Entry>, r: set<Entry>, low: nat, high: nat)
    requires SameReads(p, q, low) && SameReads(q, r, high) && low <= high
    ensures SameReads(p, r, high)
  {
    forall key, snapshot, x, z | snapshot >= high && IsNewest(p, key, snapshot, x) && IsNewest(r, key, snapshot, z)
      ensures ValueOf(x) == ValueOf(z)
    {
      var y := NewestExists(q, key, snapshot);
    }
  }

  lemma OutputNumbers(a: Db, level: nat, parts: seq<seq<Entry>>, numbers: seq<nat>, sizes: nat -> nat, after: nat)
    requires WellFormed(a.levels, a.nextFile) && level < NUM_LEVELS && |numbers| == |parts|
    requires (forall i :: 0 <= i < |parts| ==> parts[i] != []) && Fresh(numbers, a.nextFile, after)
    ensures var outs := OutputFiles(parts, numbers, sizes);
            && NewNumbers(a.levels[level], outs) && NumbersIdentify(outs, after)
            && forall o :: o in outs ==> a.nextFile <= o.number
  {
    assert Tidy(a.levels[level], a.nextFile);
    var outs := OutputFiles(parts, numbers, sizes);
    forall o | o in outs ensures exists i :: 0 <= i < |outs| && outs[i] == o && o.number == numbers[i] {}
  }

  lemma CompactKeepsForm(a: Db, s: Step, b: Db)
    requires Invariant(a) && s.Compact? && Compacts(a, s, b)
    ensures WellFormed(b.levels, b.nextFile)
    ensures var outs := OutputFiles(s.parts, s.numbers, s.sizes);
            && FilesAfter(a.levels, s.level, s.in0, s.in1, outs, b.levels)
            && Contents(outs) == EntriesOf(KeptAll(s.input, s.smallest, Base(a.levels, s.level)))
    ensures All(b.levels) <= All(a.levels)
  {
    var level, outs := s.level, OutputFiles(s.parts, s.numbers, s.sizes);
    KeptSorted(s.input, s.smallest, Base(a.levels, level), |s.input|);
    KeptSubset(s.input, s.smallest, Base(a.levels, level));
    OutputsOk(s.parts, s.numbers, s.sizes);
    OutputNumbers(a, level + 1, s.parts, s.numbers, s.sizes, b.nextFile);
    InstallKeepsForm(a.levels, a.nextFile, level, s.in0, s.in1, outs, b.levels, b.nextFile);
    FilesAreAfter(a.levels, a.nextFile, level, s.in0, s.in1, outs, b.levels);
    ContentsBefore(a.levels, level, s.in0, s.in1);
    ContentsAfter(a.levels, level, s.in0, s.in1, outs, b.levels);
  }

  /** A compaction keeps the reads at the snapshots from its smallest one on when it splits nothing; otherwise
      it changes one at the smallest. */
  lemma CompactReads(a: Db, s: Step, b: Db)
    requires Invariant(a) && s.Compact? && Compacts(a, s, b)
    ensures SplitsNothing(a, s) ==> SameReads(a.Readable(), b.Readable(), s.smallest)
    ensures !SplitsNothing(a, s) ==> ReadsChange(a.Readable(), b.Readable(), s.smallest)
  {
    CompactKeepsForm(a, s, b);
    CompactSetting(a, s, b);
    assert b.Readable() == a.Memory() + All(b.levels) && a.Readable() == a.Memory() + All(a.levels);
    if SplitsNothing(a, s) {
      InstalledKeeps(a.Memory(), a.levels, s, b.levels);
    } else {
      InstalledChanges(a.Memory(), a.levels, s, b.levels);
    }
  }

  lemma CompactSetting(a: Db, s: Step, b: Db)
    requires Invariant(a) && s.Compact? && Compacts(a, s, b)
    ensures Setting(a.Memory(), a.levels, s.level, s.in0, s.in1)
  {
    MemoryAbove(a);
  }

  lemma InstalledKeeps(newer: set<Entry>, levels: seq<seq<File>>, s: Step, after: seq<seq<File>>)
    requires s.Compact? && Setting(newer, levels, s.level, s.in0, s.in1)
    requires |s.numbers| == |s.parts| && forall i :: 0 <= i < |s.parts| ==> s.parts[i] != []
    requires var outs := OutputFiles(s.parts, s.numbers, s.sizes);
             && |after| == NUM_LEVELS && FilesAfter(levels, s.level, s.in0, s.in1, outs, after)
             && Contents(outs) == EntriesOf(KeptAll(s.input, s.smallest, Base(levels, s.level)))
    requires Sorted(s.input) && EntriesOf(s.input) == Contents(s.in0) + Contents(s.in1)
    requires NoSplitDeletion(levels[s.level + 1], s.in1, EntriesOf(s.input),
                             newer + RestOf(levels, s.level, s.in0, s.in1), s.smallest, Base(levels, s.level))
    ensures SameReads(newer + All(levels), newer + All(after), s.smallest)
  {
    var outs := OutputFiles(s.parts, s.numbers, s.sizes);
    KeepsReadsIffNoSplit(newer, levels, s.level, s.in0, s.in1, s.input, outs, s.smallest, after);
  }

  lemma InstalledChanges(newer: set<Entry>, levels: seq<seq<File>>, s: Step, after: seq<seq<File>>)
    requires s.Compact? && Setting(newer, levels, s.level, s.in0, s.in1)
    requires |s.numbers| == |s.parts| && forall i :: 0 <= i < |s.parts| ==> s.parts[i] != []
    requires var outs := OutputFiles(s.parts, s.numbers, s.sizes);
             && |after| == NUM_LEVELS && FilesAfter(levels, s.level, s.in0, s.in1, outs, after)
             && Contents(outs) == EntriesOf(KeptAll(s.input, s.smallest, Base(levels, s.level)))
    requires Sorted(s.input) && EntriesOf(s.input) == Contents(s.in0) + Contents(s.in1)
    requires !NoSplitDeletion(levels[s.level + 1], s.in1, EntriesOf(s.input),
                             newer + RestOf(levels, s.level, s.in0, s.in1), s.smallest, Base(levels, s.level))
    ensures ReadsChange(newer + All(levels), newer + All(after), s.smallest)
  {
    var outs := OutputFiles(s.parts, s.numbers, s.sizes);
    KeepsReadsIffNoSplit(newer, levels, s.level, s.in0, s.in1, s.input, outs, s.smallest, after);
  }

  /** Memory is newer than the tables. */
  lemma MemoryAbove(a: Db)
    requires Invariant(a)
    ensures Unique(a.Memory() + All(a.levels)) && NewerThan(a.Memory(), All(a.levels))
  {
    assert a.Memory() + All(a.levels) == a.Readable();
  }

  lemma CompactKeepsReads(a: Db, s: Step, b: Db)
    requires Invariant(a) && s.Compact? && Does(a, s, b)
    ensures SameReads(a.history, b.Readable(), b.floor)
  {
    CompactReads(a, s, b);
    SameReadsTrans(a.history, a.Readable(), b.Readable(), a.floor, b.floor);
  }

  /** An output and a file that stays at another level have different numbers. */
  lemma OutputApartFrom(a: Db, level: nat, in0: seq<File>, in1: seq<File>, o: File, m: nat, g: File)
    requires Invariant(a) && level + 1 < NUM_LEVELS && m < NUM_LEVELS && m != level + 1
    requires a.nextFile <= o.number || (o in in0 && o in a.levels[level])
    requires g in a.levels[m] && TakesNoPart(m, g, level, in0, in1)
    ensures o.number != g.number
  {
    assert Tidy(a.levels[m], a.nextFile);
    if m != level { assert LevelsApart(a.levels, level, m); }
  }

  lemma OutsKeepNumbers(a: Db, level: nat, in0: seq<File>, in1: seq<File>, outs: seq<File>, after: seq<seq<File>>)
    requires Invariant(a) && level + 1 < NUM_LEVELS && |after| == NUM_LEVELS
    requires FilesAfter(a.levels, level, in0, in1, outs, after)
    requires forall o :: o in outs ==> a.nextFile <= o.number || (o in in0 && o in a.levels[level])
    ensures NumbersApart(after)
  {
    forall l, m | 0 <= l < NUM_LEVELS && 0 <= m < NUM_LEVELS && l != m ensures LevelsApart(after, l, m) {
      assert LevelsApart(a.levels, l, m);
      forall f, g | f in after[l] && g in after[m] ensures f.number != g.number {
        if !(f in a.levels[l] && TakesNoPart(l, f, level, in0, in1)) {
          assert g in a.levels[m] && TakesNoPart(m, g, level, in0, in1);
          OutputApartFrom(a, level, in0, in1, f, m, g);
        } else if !(g in a.levels[m] && TakesNoPart(m, g, level, in0, in1)) {
          OutputApartFrom(a, level, in0, in1, g, l, f);
        }
      }
    }
  }

  lemma CompactKeeps(a: Db, s: Step, b: Db)
    requires Invariant(a) && s.Compact? && Does(a, s, b)
    ensures Invariant(b)
  {
    CompactKeepsForm(a, s, b);
    CompactKeepsReads(a, s, b);
    CompactKeepsNumbers(a, s, b);
  }

  lemma CompactKeepsNumbers(a: Db, s: Step, b: Db)
    requires Invariant(a) && s.Compact? && Does(a, s, b)
    ensures NumbersApart(b.levels)
  {
    CompactKeepsForm(a, s, b);
    OutputNumbers(a, s.level + 1, s.parts, s.numbers, s.sizes, b.nextFile);
    OutsKeepNumbers(a, s.level, s.in0, s.in1, OutputFiles(s.parts, s.numbers, s.sizes), b.levels);
  }

  lemma MoveFilesAfter(a: Db, level: nat, f: File, b: Db)
    requires Invariant(a) && Does(a, TrivialMove(level, f), b)
    ensures f in a.levels[level] && f.Valid() && level + 1 < NUM_LEVELS
    ensures FilesAfter(a.levels, level, [f], [], [f], b.levels)
    ensures FilesValid([f]) && NumbersIdentify([f], a.nextFile) && NewNumbers(a.levels[level + 1], [f])
  {
    assert f in [f];
    assert f in a.levels[level];
    FileIsValid(a.levels, level, f);
    assert LevelsApart(a.levels, level, level + 1) && Tidy(a.levels[level], a.nextFile);
    assert FilesValid([f]) && NumbersIdentify([f], a.nextFile) && NewNumbers(a.levels[level + 1], [f]);
    FilesAreAfter(a.levels, a.nextFile, level, [f], [], [f], b.levels);
  }

  lemma MoveKeeps(a: Db, level: nat, f: File, b: Db)
    requires Invariant(a) && Does(a, TrivialMove(level, f), b)
    ensures Invariant(b)
  {
    MoveFilesAfter(a, level, f, b);
    InstallKeepsForm(a.levels, a.nextFile, level, [f], [], [f], b.levels, a.nextFile);
    ContentsBefore(a.levels, level, [f], []);
    ContentsAfter(a.levels, level, [f], [], [f], b.levels);
    assert Contents([]) == {};
    assert All(b.levels) == All(a.levels);
    OutsKeepNumbers(a, level, [f], [], [f], b.levels);
  }

  // ----- Crash and recovery -----

  lemma ReopenKeeps(a: Db, files: seq<File>, b: Db)
    requires Invariant(a) && Does(a, Reopen(files), b)
    ensures Invariant(b)
  {
    MemoryAbove(a);
    Flush.InstallTablesKeepsForm(a.levels, a.nextFile, files, b.levels, b.nextFile);
    assert EntriesOf([]) == {};
    assert b.Readable() == a.Readable();
    forall l, m | 0 <= l < NUM_LEVELS && 0 <= m < NUM_LEVELS && l != m ensures LevelsApart(b.levels, l, m) {
      assert LevelsApart(a.levels, l, m) && Tidy(a.levels[l], a.nextFile) && Tidy(a.levels[m], a.nextFile);
    }
  }

  // ----- Every run -----

  lemma InitialOk(a: Db)
    requires Initial(a)
    ensures Invariant(a)
  {
    forall e ensures e !in All(a.levels) { AllOf(a.levels, e); }
    forall l | 0 <= l < NUM_LEVELS ensures LevelOk(a.levels, l) && Tidy(a.levels[l], a.nextFile) {}
    forall l, m | 0 <= l < m < NUM_LEVELS ensures LevelsAge(a.levels, l, m) {}
    assert a.Readable() == {};
  }

  lemma StepKeeps(a: Db, s: Step, b: Db)
    requires Invariant(a) && Does(a, s, b)
    ensures Invariant(b)
  {
    match s
    case DoWrite(batch) => WriteKeeps(a, batch, b);
    case SwitchMemTable => SwitchKeeps(a, b);
    case FlushMemTable(level, number, size) => FlushKeeps(a, level, number, size, b);
    case TakeSnapshot => SnapshotKeeps(a, s, b);
    case ReleaseSnapshot(_) => SnapshotKeeps(a, s, b);
    case Compact(_, _, _, _, _, _, _, _) => CompactKeeps(a, s, b);
    case TrivialMove(level, f) => MoveKeeps(a, level, f, b);
    case Reopen(files) => ReopenKeeps(a, files, b);
  }

  ghost predicate IsRun(run: seq<Db>, steps: seq<Step>) {
    && |run| == |steps| + 1 && Initial(run[0])
    && forall i :: 0 <= i < |steps| ==> |run[i].levels| == NUM_LEVELS && Does(run[i], steps[i], run[i + 1])
  }

  lemma {:induction false} RunKeeps(run: seq<Db>, steps: seq<Step>, n: nat)
    requires IsRun(run, steps) && n < |run|
    ensures Invariant(run[n])
  {
    if n == 0 {
      InitialOk(run[0]);
    } else {
      RunKeeps(run, steps, n - 1);
      StepKeeps(run[n - 1], steps[n - 1], run[n]);
    }
  }

  ghost predicate IsLive(db: Db, snapshot: nat) {
    snapshot == db.lastSequence || snapshot in db.snapshots
  }

  /** Every read of the latest state or a live snapshot returns what the history says. */
  ghost predicate ReadsRight(db: Db) {
    forall key, snapshot, p, q ::
      IsLive(db, snapshot) && IsNewest(db.history, key, snapshot, p) && IsNewest(db.Readable(), key, snapshot, q)
      ==> ValueOf(p) == ValueOf(q)
  }

  lemma InvariantReads(db: Db)
    requires Invariant(db)
    ensures ReadsRight(db)
  {
    assert forall snapshot :: IsLive(db, snapshot) ==> db.floor <= snapshot;
  }

  lemma ChangedReads(a: Db, b: Db, snapshot: nat)
    requires Invariant(a) && IsLive(b, snapshot) && a.floor <= snapshot && b.history == a.history
    requires ReadsChange(a.Readable(), b.Readable(), snapshot)
    ensures !ReadsRight(b)
  {
    var key :| ReadsDiffer(a.Readable(), b.Readable(), key, snapshot);
    var p, q :| IsNewest(a.Readable(), key, snapshot, p) && IsNewest(b.Readable(), key, snapshot, q)
                && ValueOf(p) != ValueOf(q);
    var h := NewestExists(a.history, key, snapshot);
    assert ValueOf(h) == ValueOf(p);
  }

  /** Whether a compaction of a run can be observed: all reads stay right exactly when it splits no key at the
      next level before a value behind the deletion that is read. */
  lemma CompactionExact(run: seq<Db>, steps: seq<Step>, n: nat, s: Step, b: Db)
    requires IsRun(run, steps) && n < |run| && |run[n].levels| == NUM_LEVELS
    requires s.Compact? && Compacts(run[n], s, b) && s.smallest == run[n].SmallestSnapshot()
    ensures ReadsRight(b) <==> SplitsNothing(run[n], s)
  {
    var a := run[n];
    RunKeeps(run, steps, n);
    if SplitsNothing(a, s) {
      StepKeeps(a, s, b);
      InvariantReads(b);
    } else {
      CompactReads(a, s, b);
      ChangedReads(a, b, s.smallest);
    }
  }

  // ----- What clients wrote -----

  /** The operations a step writes. */
  function WrittenBy(s: Step): seq<Write> {
    if s.DoWrite? then s.batch else []
  }

  /** The map that the batches written by the steps make, each operation after the one before it. */
  function MapAfter(steps: seq<Step>): map<int, Bytes> {
    if steps == [] then map[]
    else AllChanged(MapAfter(steps[..|steps| - 1]), WrittenBy(steps[|steps| - 1]))
  }

  /** What a step does to the history. */
  lemma StepHistory(a: Db, s: Step, b: Db)
    requires Invariant(a) && Does(a, s, b)
    ensures b.history == a.history + BatchEntries(WrittenBy(s), a.lastSequence)
    ensures !s.Reopen? ==> b.lastSequence == a.lastSequence + |WrittenBy(s)|
    ensures s.Reopen? ==> b.history == a.history && forall e :: e in b.history ==> e.seqno <= b.lastSequence
  {
    assert BatchEntries([], a.lastSequence) == {};
  }

  lemma HistoryChanges(es: set<Entry>, last: nat, m: map<int, Bytes>, writes: seq<Write>, after: nat)
    requires StandsFor(es, last, m)
    requires after == last + |writes| || (writes == [] && forall e :: e in es ==> e.seqno <= after)
    ensures StandsFor(es + BatchEntries(writes, last), after, AllChanged(m, writes))
  {
    if after == last + |writes| {
      BatchChanges(es, last, m, writes);
    } else {
      OtherNumber(es, last, m, after);
      assert es + BatchEntries([], last) == es;
    }
  }

  lemma StepStands(a: Db, s: Step, b: Db, m: map<int, Bytes>)
    requires Invariant(a) && Does(a, s, b) && StandsFor(a.history, a.lastSequence, m)
    ensures StandsFor(b.history, b.lastSequence, AllChanged(m, WrittenBy(s)))
  {
    StepHistory(a, s, b);
    HistoryChanges(a.history, a.lastSequence, m, WrittenBy(s), b.lastSequence);
  }

  lemma {:induction false} HistoryStands(run: seq<Db>, steps: seq<Step>, n: nat)
    requires IsRun(run, steps) && n < |run|
    ensures StandsFor(run[n].history, run[n].lastSequence, MapAfter(steps[..n]))
  {
    if n > 0 {
      HistoryStands(run, steps, n - 1);
      RunKeeps(run, steps, n - 1);
      StepStands(run[n - 1], steps[n - 1], run[n], MapAfter(steps[..n - 1]));
      assert steps[..n][..n - 1] == steps[..n - 1];
    }
  }

  /** The snapshot was taken by step `i`, and the database has not been reopened before state `j`. */
  ghost predicate TakenAt(run: seq<Db>, steps: seq<Step>, i: nat, j: nat, snapshot: nat) {
    && i < j < |run| && j <= |steps| && steps[i].TakeSnapshot? && run[i].lastSequence == snapshot
    && forall k :: i <= k < j ==> !steps[k].Reopen?
  }

  /** What was written between two states is newer than anything in the first. */
  ghost predicate Grown(a: Db, b: Db) {
    && a.history <= b.history && a.lastSequence <= b.lastSequence
    && forall e :: e in b.history && e !in a.history ==> e.seqno > a.lastSequence
  }

  lemma RunGrows(run: seq<Db>, steps: seq<Step>, k: nat)
    requires IsRun(run, steps) && k < |steps| && !steps[k].Reopen?
    ensures Grown(run[k], run[k + 1])
  {
    RunKeeps(run, steps, k);
    StepHistory(run[k], steps[k], run[k + 1]);
    BatchIsNewer(WrittenBy(steps[k]), run[k].lastSequence, run[k].history);
  }

  lemma GrownOn(a: Db, b: Db, c: Db)
    requires Grown(a, b) && Grown(b, c)
    ensures Grown(a, c)
  {
  }

  lemma {:induction false} AllGrown(run: seq<Db>, i: nat, j: nat)
    requires i <= j < |run| && forall k :: i <= k < j ==> Grown(run[k], run[k + 1])
    ensures Grown(run[i], run[j])
  {
    if i < j {
      AllGrown(run, i, j - 1);
      GrownOn(run[i], run[j - 1], run[j]);
    }
  }

  /** At a snapshot the history reads as it did when the snapshot was taken. */
  lemma SnapshotStands(run: seq<Db>, steps: seq<Step>, i: nat, j: nat, snapshot: nat, key: int, p: Option<Entry>)
    requires IsRun(run, steps) && TakenAt(run, steps, i, j, snapshot) && IsNewest(run[j].history, key, snapshot, p)
    ensures ValueOf(p) == Lookup(MapAfter(steps[..i]), key)
  {
    HistoryStands(run, steps, i);
    forall k | i <= k < j ensures Grown(run[k], run[k + 1]) {
      RunGrows(run, steps, k);
    }
    AllGrown(run, i, j);
    var more := run[j].history - run[i].history;
    assert run[j].history == run[i].history + more;
    NewerUnseen(run[i].history, more, key, snapshot, p);
  }

  // ----- Reading -----

  /** In every state of every run a read returns what the plain map of all operations written so far says, and a
      read at a snapshot what the map said when the snapshot was taken.  Compactions of such a run split no key as
      above; flushes, moves, recoveries and those compactions cannot be observed. */
  method Read(ghost run: seq<Db>, ghost steps: seq<Step>, db: Db, key: int, snapshot: nat) returns (r: Option<Bytes>)
    requires IsRun(run, steps) && db in run && IsLive(db, snapshot)
    ensures forall n :: IsNewest(db.history, key, snapshot, n) ==> r == ValueOf(n)
    ensures snapshot == db.lastSequence ==>
              forall n :: 0 <= n < |run| && run[n] == db ==> r == Lookup(MapAfter(steps[..n]), key)
    ensures forall i, n :: 0 <= i < n < |run| && run[n] == db && TakenAt(run, steps, i, n, snapshot) ==>
              r == Lookup(MapAfter(steps[..i]), key)
  {
    ghost var i :| 0 <= i < |run| && run[i] == db;
    RunKeeps(run, steps, i);
    r := Get(db.mem, db.imm, db.levels, key, snapshot);
    ghost var p :| IsNewest(db.Readable(), key, snapshot, p) && r == ValueOf(p);
    assert snapshot >= db.floor;
    ghost var newest := NewestExists(db.history, key, snapshot);
    ReadsMap(run, steps, db, key, snapshot, newest);
  }

  lemma ReadsMap(run: seq<Db>, steps: seq<Step>, db: Db, key: int, snapshot: nat, p: Option<Entry>)
    requires IsRun(run, steps) && IsNewest(db.history, key, snapshot, p)
    ensures snapshot == db.lastSequence ==>
              forall n :: 0 <= n < |run| && run[n] == db ==> ValueOf(p) == Lookup(MapAfter(steps[..n]), key)
    ensures forall i, n :: 0 <= i < n < |run| && run[n] == db && TakenAt(run, steps, i, n, snapshot) ==>
              ValueOf(p) == Lookup(MapAfter(steps[..i]), key)
  {
    forall n | 0 <= n < |run| && run[n] == db && snapshot == db.lastSequence
      ensures ValueOf(p) == Lookup(MapAfter(steps[..n]), key)
    {
      HistoryStands(run, steps, n);
    }
    forall i, n | 0 <= i < n < |run| && run[n] == db && TakenAt(run, steps, i, n, snapshot)
      ensures ValueOf(p) == Lookup(MapAfter(steps[..i]), key)
    {
      SnapshotStands(run, steps, i, n, snapshot, key, p);
    }
  }

  /** A scan at a live snapshot shows exactly the keys whose newest write in the history is a value. */
  lemma ScanShowsHistory(run: seq<Db>, steps: seq<Step>, n: nat, merged: seq<Entry>, key: int, v: Bytes, snapshot: nat,
                         newest: Option<Entry>)
    requires IsRun(run, steps) && n < |run|
    requires snapshot == run[n].lastSequence || snapshot in run[n].snapshots
    requires Sorted(merged) && EntriesOf(merged) == run[n].Readable()
    requires IsNewest(run[n].history, key, snapshot, newest)
    ensures DBIterator.UserEntry(key, v) in DBIterator.View(merged, snapshot) <==> ValueOf(newest) == Some(v)
  {
    RunKeeps(run, steps, n);
    var found := NewestExists(EntriesOf(merged), key, snapshot);
    assert snapshot >= run[n].floor;
    assert ValueOf(found) == ValueOf(newest);
    DBIterator.ViewIsSnapshot(merged, snapshot, key, v);
    ReadOfNewest(merged, key, snapshot, v, found);
  }

  /** A scan of the latest state shows the map of all operations written so far, and a scan at a snapshot the map
      as it was when the snapshot was taken. */
  lemma ScanShowsMap(run: seq<Db>, steps: seq<Step>, n: nat, merged: seq<Entry>, key: int, v: Bytes, snapshot: nat)
    requires IsRun(run, steps) && n < |run| && IsLive(run[n], snapshot)
    requires Sorted(merged) && EntriesOf(merged) == run[n].Readable()
    ensures var shown := DBIterator.UserEntry(key, v) in DBIterator.View(merged, snapshot);
            && (snapshot == run[n].lastSequence ==> (shown <==> Lookup(MapAfter(steps[..n]), key) == Some(v)))
            && forall i :: 0 <= i < n && TakenAt(run, steps, i, n, snapshot) ==>
                 (shown <==> Lookup(MapAfter(steps[..i]), key) == Some(v))
  {
    var newest := NewestExists(run[n].history, key, snapshot);
    ScanShowsHistory(run, steps, n, merged, key, v, snapshot, newest);
    ReadsMap(run, steps, run[n], key, snapshot, newest);
  }

  lemma ReadOfNewest(es: seq<Entry>, key: int, snapshot: nat, v: Bytes, found: Option<Entry>)
    requires Unique(EntriesOf(es)) && IsNewest(EntriesOf(es), key, snapshot, found)
    ensures DBIterator.IsRead(es, snapshot, key, Some(v)) <==> ValueOf(found) == Some(v)
  {
    assert forall i :: 0 <= i < |es| ==> es[i] in EntriesOf(es);
    if found.Some? {
      var i :| 0 <= i < |es| && es[i] == found.value;
    }
  }
}
