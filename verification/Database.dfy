/** The database as a whole: the step system over memory and disk, and the tree its files stand for, run side by
    side.  Whatever happens, crashes and recoveries included, reads are those of the history of writes. */
module Database {
  import opened Entries
  import opened Reference
  import opened Storage
  import opened Versions
  import opened VersionBuilder
  import opened CompactionStep
  import D = Durability
  import L = Lsm
  import RecoveryOrder
  import Flush

  /** `smallest` is the oldest live snapshot when the compaction under way began. */
  datatype State = State(disk: D.State, tree: L.Db, smallest: nat)

  /** A step on disk, and what it is for the tree; or a client taking or releasing a snapshot. */
  datatype Step = OnDisk(step: D.Step, treeStep: L.Step) | OnSnapshots(treeStep: L.Step)

  // ----- What steps do to the tree -----

  /** The files of the tree are the tables with these numbers, and there are no others. */
  ghost predicate Names(tables: map<nat, set<Entry>>, levels: seq<seq<File>>, files: set<nat>) {
    && (forall l, f :: 0 <= l < |levels| && f in levels[l] ==> IsTable(tables, f) && f.number in files)
    && (forall n :: n in files ==> HasFile(levels, n))
  }

  ghost predicate IsTable(tables: map<nat, set<Entry>>, f: File) {
    f.number in tables && tables[f.number] == EntriesOf(f.entries)
  }

  ghost predicate HasFile(levels: seq<seq<File>>, n: nat) {
    exists l, f :: 0 <= l < |levels| && f in levels[l] && f.number == n
  }

  ghost predicate AreTables(tables: map<nat, set<Entry>>, files: seq<File>, numbers: set<nat>) {
    && FilesValid(files) && (forall f :: f in files ==> IsTable(tables, f))
    && (forall i, j :: 0 <= i < j < |files| ==> files[i].number != files[j].number)
    && Numbers(FileSet(files)) == numbers
  }

  /** The manifest record of a flush, a compaction or a move is the edit of the tree's step. */
  ghost predicate IsEdit(a: State, s: L.Step, b: L.Db)
    requires a.disk.phase.Running? && a.disk.phase.job.Logging? && |a.tree.levels| == NUM_LEVELS
  {
    var tables, e := a.disk.disk.tables, a.disk.phase.job.edit;
    match a.disk.phase.job.cause
    case Flush =>
      && s.FlushMemTable? && (e.added != {} ==> e.added == {s.number} && s.number in tables)
      && (NewNumber(a.tree, e.added) ==> L.Does(a.tree, s, b))
    case Compaction =>
      && s.Compact? && s.smallest == a.smallest
      && Numbers(FileSet(s.in0)) + Numbers(FileSet(s.in1)) == e.deleted
      && (set n | n in s.numbers) == e.added && |s.numbers| == |s.parts|
      && (forall i :: 0 <= i < |s.parts| ==> s.numbers[i] in tables && tables[s.numbers[i]] == EntriesOf(s.parts[i]))
      && e.nextFile == Some(b.nextFile)
      && (NewNumber(a.tree, e.added) && a.tree.floor <= a.smallest <= a.tree.SmallestSnapshot() ==>
           L.Does(a.tree, s, b))
    case TrivialMove =>
      s.TrivialMove? && e.added == {s.file.number} && L.Does(a.tree, s, b)
  }

  ghost predicate NewNumber(t: L.Db, added: set<nat>) {
    forall n :: n in added ==> t.nextFile <= n
  }

  /** After a recovery the tables it made are at level 0, and memory is empty. */
  ghost predicate Reopens(a: State, s: L.Step, b: State)
    requires a.disk.phase.Recovering? && b.disk.phase.Running? && |a.tree.levels| == NUM_LEVELS
  {
    && s.Reopen? && AreTables(a.disk.disk.tables, s.files, a.disk.phase.made)
    && Flush.TablesInstalled(a.tree.levels, s.files, b.tree.levels)
    && b.tree == a.tree.(mem := [], imm := None, levels := b.tree.levels, lastSequence := b.disk.phase.lastSequence,
                         snapshots := [], nextFile := b.disk.phase.nextFile)
  }

  /** A crash ends the snapshots; the write in flight has happened if its record was whole. */
  ghost predicate CrashesTree(a: State, kept: nat, s: L.Step, b: L.Db)
    requires |a.tree.levels| == NUM_LEVELS
  {
    var p := a.disk.phase;
    if p.Running? && p.inFlight.Some? && p.log in a.disk.disk.logs && kept == |a.disk.disk.logs[p.log]| then
      s == L.DoWrite(p.inFlight.value.writes) && exists c :: L.Does(a.tree, s, c) && b == c.(snapshots := [])
    else b == a.tree.(snapshots := [])
  }

  ghost predicate Does(a: State, s: Step, b: State)
    requires a.disk.disk.current in a.disk.disk.manifests && |a.tree.levels| == NUM_LEVELS
  {
    var p := a.disk.phase;
    match s
    case OnSnapshots(t) =>
      && p.Running? && (t.TakeSnapshot? || t.ReleaseSnapshot?) && L.Does(a.tree, t, b.tree)
      && b == a.(tree := b.tree)
    case OnDisk(d, t) =>
      && D.Does(a.disk, d, b.disk)
      && b.smallest == (if d.StartCompaction? then a.tree.SmallestSnapshot() else a.smallest)
      && TreeFollows(a, d, t, b)
  }

  /** What a step on disk is for the tree. */
  ghost predicate TreeFollows(a: State, d: D.Step, t: L.Step, b: State)
    requires |a.tree.levels| == NUM_LEVELS
  {
    var p := a.disk.phase;
    if d.InsertMem? then
      p.Running? && p.inFlight.Some? && t == L.DoWrite(p.inFlight.value.writes) && L.Does(a.tree, t, b.tree)
    else if d.SwitchMemTable? then t.SwitchMemTable? && L.Does(a.tree, t, b.tree)
    else if d.LogEdit? then p.Running? && p.job.Logging? && IsEdit(a, t, b.tree)
    else if d.Crash? then CrashesTree(a, d.kept, t, b.tree)
    else if d.SetCurrent? then p.Recovering? && b.disk.phase.Running? && Reopens(a, t, b)
    else b.tree == a.tree
  }

  ghost predicate Initial(a: State) {
    D.Initial(a.disk) && L.Initial(a.tree) && a.tree.nextFile <= 2
  }

  // ----- The invariant -----

  /** The memtables of the tree are those in memory; a flush is over for the tree once its record is written. */
  ghost predicate SameMemory(p: D.Phase, t: L.Db)
    requires p.Running?
  {
    && EntriesOf(t.mem) == p.mem && t.lastSequence == p.lastSequence
    && if p.job.Installing? && p.job.cause.Flush? then t.imm == None
       else (t.imm.Some? <==> p.imm.Some?) && (t.imm.Some? ==> EntriesOf(t.imm.value) == p.imm.value)
  }

  /** While a compaction is under way its smallest snapshot is no newer than any live one. */
  ghost predicate SmallestOk(a: State)
    requires a.disk.phase.Running?
  {
    var p := a.disk.phase;
    && (p.job.Compacting? || (p.job.Logging? && p.job.cause.Compaction?) ==>
          a.tree.floor <= a.smallest <= a.tree.SmallestSnapshot())
    && (p.job.Logging? && p.job.cause.Compaction? && p.job.edit.lastSequence.Some? ==>
          a.smallest <= p.job.edit.lastSequence.value)
  }

  ghost predicate Agrees(a: State)
    requires D.ManifestOk(a.disk.disk)
  {
    var d, p, t, m := a.disk.disk, a.disk.phase, a.tree, D.Committed(a.disk.disk);
    && Names(d.tables, t.levels, m.files) && t.history == a.disk.history
    && t.floor <= m.lastSequence.value && t.nextFile <= m.nextFile.value
    && (p.Running? ==> SameMemory(p, t) && SmallestOk(a))
    && (p.Recovering? ==> t.Memory() == LogFrom(d.logs, m.logNumber.value) && t.snapshots == [])
  }

  ghost predicate Invariant(a: State) {
    D.Invariant(a.disk) && RecoveryOrder.Order(a.disk) && L.Invariant(a.tree) && Agrees(a)
  }

  // ----- Names of tables -----

  lemma NamesFrame(t: map<nat, set<Entry>>, u: map<nat, set<Entry>>, levels: seq<seq<File>>, files: set<nat>)
    requires Names(t, levels, files) && forall n :: n in files && n in t ==> n in u && u[n] == t[n]
    ensures Names(u, levels, files)
  {
  }

  /** The entries of the tree are those of its tables. */
  lemma NamesEntries(tables: map<nat, set<Entry>>, levels: seq<seq<File>>, files: set<nat>)
    requires Names(tables, levels, files)
    ensures All(levels) == TableEntries(tables, files)
  {
    forall e ensures e in All(levels) <==> e in TableEntries(tables, files) {
      AllOf(levels, e);
      if l, f :| 0 <= l < |levels| && f in levels[l] && e in f.entries {
        assert IsTable(tables, f) && e in tables[f.number];
      }
      if n :| n in files && n in tables && e in tables[n] {
        assert HasFile(levels, n);
        var l, f :| 0 <= l < |levels| && f in levels[l] && f.number == n;
        assert IsTable(tables, f) && e in f.entries;
      }
    }
  }

  ghost predicate InLevel(levels: seq<seq<File>>, l: nat, f: File) {
    l < |levels| && f in levels[l]
  }

  /** No two files of a tree have the same number. */
  ghost predicate NumbersOnce(levels: seq<seq<File>>) {
    forall l, f, m, g {:trigger InLevel(levels, l, f), InLevel(levels, m, g)} ::
      InLevel(levels, l, f) && InLevel(levels, m, g) && f.number == g.number ==> l == m && f == g
  }

  lemma ApartOrSame(t: L.Db, l: nat, m: nat)
    requires L.Invariant(t) && l < |t.levels| && m < |t.levels|
    ensures l == m || L.LevelsApart(t.levels, l, m)
  {
  }

  lemma TreeNumbersOnce(t: L.Db)
    requires L.Invariant(t)
    ensures NumbersOnce(t.levels)
  {
    forall l: nat, f, m: nat, g | InLevel(t.levels, l, f) && InLevel(t.levels, m, g) && f.number == g.number
      ensures l == m && f == g
    {
      assert Tidy(t.levels[l], t.nextFile);
      ApartOrSame(t, l, m);
    }
  }

  // ----- Steps the tree does not take part in -----

  ghost predicate Quiet(s: D.Step) {
    !s.InsertMem? && !s.SwitchMemTable? && !s.LogEdit? && !s.Crash? && !s.SetCurrent?
  }

  /** The manifest and the tables it names are left alone. */
  ghost predicate SameCommitted(a: D.State, b: D.State)
    requires D.ManifestOk(a.disk)
  {
    && D.ManifestOk(b.disk) && D.Committed(b.disk) == D.Committed(a.disk)
    && forall n :: n in D.Committed(a.disk).files ==>
         n in a.disk.tables && n in b.disk.tables && b.disk.tables[n] == a.disk.tables[n]
  }

  lemma ServesQuietly(a: D.State, s: D.Step, b: D.State)
    requires D.Invariant(a) && D.Serves(a, s, b) && D.Invariant(b)
    ensures SameCommitted(a, b)
  {
  }

  lemma WorksQuietly(a: D.State, s: D.Step, b: D.State)
    requires D.Invariant(a) && D.Works(a, s, b) && !s.LogEdit? && D.Invariant(b)
    ensures SameCommitted(a, b)
  {
  }

  lemma CleansQuietly(a: D.State, s: D.Step, b: D.State)
    requires D.Invariant(a) && D.Cleans(a, s, b) && D.Invariant(b)
    ensures SameCommitted(a, b)
  {
  }

  lemma RecoversQuietly(a: D.State, s: D.Step, b: D.State)
    requires D.Invariant(a) && D.Recovers(a, s, b) && !s.SetCurrent? && D.Invariant(b)
    ensures SameCommitted(a, b)
    ensures LogFrom(b.disk.logs, D.Committed(b.disk).logNumber.value) ==
              LogFrom(a.disk.logs, D.Committed(a.disk).logNumber.value)
  {
    if s.NewLog? {
      LogRangeOfNew(a.disk.logs, D.Committed(a.disk).logNumber.value, a.phase.nextFile);
    }
  }

  lemma QuietTables(a: D.State, s: D.Step, b: D.State)
    requires D.Invariant(a) && D.Does(a, s, b) && Quiet(s) && D.Invariant(b)
    ensures SameCommitted(a, b) && b.history == a.history && (a.phase.Running? <==> b.phase.Running?)
    ensures a.phase.Recovering? ==> LogFrom(b.disk.logs, D.Committed(b.disk).logNumber.value)
                                    == LogFrom(a.disk.logs, D.Committed(a.disk).logNumber.value)
  {
    if a.phase.Recovering? {
      RecoversQuietly(a, s, b);
    } else if D.Serves(a, s, b) {
      ServesQuietly(a, s, b);
    } else if D.Cleans(a, s, b) {
      CleansQuietly(a, s, b);
    } else {
      WorksQuietly(a, s, b);
    }
  }

  /** What a quiet step does to memory and to the job, as far as the tree can tell. */
  lemma QuietMemory(a: D.State, s: D.Step, b: D.State, t: L.Db)
    requires D.Invariant(a) && D.Does(a, s, b) && Quiet(s) && a.phase.Running? && SameMemory(a.phase, t)
    ensures b.phase.Running? && SameMemory(b.phase, t)
  {
  }

  lemma SmallestBelow(t: L.Db)
    requires L.Invariant(t)
    ensures t.floor <= t.SmallestSnapshot() <= t.lastSequence
  {
  }

  lemma QuietJob(a: State, s: D.Step, b: State)
    requires D.Invariant(a.disk) && D.Does(a.disk, s, b.disk) && Quiet(s) && a.disk.phase.Running?
    requires a.tree.floor <= a.tree.SmallestSnapshot() <= a.disk.phase.lastSequence
    requires b.tree == a.tree && SmallestOk(a)
    requires b.smallest == (if s.StartCompaction? then a.tree.SmallestSnapshot() else a.smallest)
    ensures b.disk.phase.Running? && SmallestOk(b)
  {
  }

  lemma QuietKeeps(a: State, s: D.Step, b: State)
    requires Invariant(a) && D.Does(a.disk, s, b.disk) && Quiet(s) && D.Invariant(b.disk)
    requires b.tree == a.tree && b.smallest == (if s.StartCompaction? then a.tree.SmallestSnapshot() else a.smallest)
    ensures Agrees(b)
  {
    QuietTables(a.disk, s, b.disk);
    NamesFrame(a.disk.disk.tables, b.disk.disk.tables, a.tree.levels, D.Committed(a.disk.disk).files);
    if a.disk.phase.Running? {
      QuietMemory(a.disk, s, b.disk, a.tree);
      SmallestBelow(a.tree);
      QuietJob(a, s, b);
    }
  }

  // ----- Writes, memtable switches and snapshots -----

  lemma InsertKeeps(a: State, b: State)
    requires Invariant(a) && D.Does(a.disk, D.InsertMem, b.disk) && D.Invariant(b.disk)
    requires a.disk.phase.Running? && a.disk.phase.inFlight.Some? && b.smallest == a.smallest
    requires L.Does(a.tree, L.DoWrite(a.disk.phase.inFlight.value.writes), b.tree)
    ensures Agrees(b)
  {
    var p, r := a.disk.phase, a.disk.phase.inFlight.value;
    assert r.after == a.tree.lastSequence;
    assert r.Entries() == BatchEntries(r.writes, a.tree.lastSequence);
    ServesQuietly(a.disk, D.InsertMem, b.disk);
    NamesFrame(a.disk.disk.tables, b.disk.disk.tables, a.tree.levels, D.Committed(a.disk.disk).files);
  }

  lemma SwitchKeeps(a: State, b: State)
    requires Invariant(a) && D.Does(a.disk, D.SwitchMemTable, b.disk) && D.Invariant(b.disk)
    requires L.Does(a.tree, L.SwitchMemTable, b.tree) && b.smallest == a.smallest
    ensures Agrees(b)
  {
    ServesQuietly(a.disk, D.SwitchMemTable, b.disk);
    NamesFrame(a.disk.disk.tables, b.disk.disk.tables, a.tree.levels, D.Committed(a.disk.disk).files);
    assert EntriesOf([]) == {};
  }

  lemma SnapshotsKeep(a: State, s: L.Step, b: State)
    requires Invariant(a) && a.disk.phase.Running? && (s.TakeSnapshot? || s.ReleaseSnapshot?)
    requires L.Does(a.tree, s, b.tree) && b == a.(tree := b.tree)
    ensures Agrees(b)
  {
    SmallestBelow(a.tree);
    if s.ReleaseSnapshot? {
      var kept := a.tree.snapshots[..s.index] + a.tree.snapshots[s.index + 1..];
      assert kept != [] ==> kept[0] == a.tree.snapshots[if s.index == 0 then 1 else 0];
    }
  }

  // ----- A crash -----

  /** The logs from the manifest's log number on hold exactly what is in memory. */
  lemma LogsHoldMemory(a: D.State, t: L.Db)
    requires D.Invariant(a) && a.phase.Running? && SameMemory(a.phase, t)
    ensures D.Committed(a.disk).logNumber.value <= a.phase.log
    ensures LogRange(a.disk.logs, D.Committed(a.disk).logNumber.value, a.phase.log)
         == if t.imm.Some? then EntriesOf(t.imm.value) else {}
  {
    if a.phase.job.Installing? && a.phase.job.cause.Flush? {
      assert LogRange(a.disk.logs, a.phase.log, a.phase.log) == {};
    }
  }

  lemma CutHolds(a: D.State, kept: nat, t: L.Db)
    requires D.Invariant(a) && a.phase.Running? && SameMemory(a.phase, t) && kept <= |a.disk.logs[a.phase.log]|
    requires kept == |a.disk.logs[a.phase.log]| || (a.phase.inFlight.Some? && kept + 1 == |a.disk.logs[a.phase.log]|)
    ensures LogFrom(D.Cut(a.disk, a.phase.log, kept).logs, D.Committed(a.disk).logNumber.value)
         == t.Memory() + if kept == |a.disk.logs[a.phase.log]| then D.InFlightEntries(a.phase) else {}
  {
    var d, p, from := a.disk, a.phase, D.Committed(a.disk).logNumber.value;
    LogsHoldMemory(a, t);
    D.CutLog(d, p, kept);
    CutNewest(d.logs, from, p.log, kept);
  }

  /** What is in the logs when the newest one is cut. */
  lemma CutNewest(logs: map<nat, seq<Record>>, from: nat, log: nat, kept: nat)
    requires IsNewestLog(logs, log) && from <= log && kept <= |logs[log]|
    ensures LogFrom(logs[log := logs[log][..kept]], from) == LogRange(logs, from, log) + Logged(logs[log][..kept])
  {
    var cut := logs[log := logs[log][..kept]];
    LogFromNewest(cut, from, log);
    LogRangeFrame(logs, cut, from, log);
  }

  /** The tree after a crash. */
  lemma CrashedTree(t: L.Db, written: Option<Record>, u: L.Db)
    requires L.Invariant(t) && (written.Some? ==> written.value.after == t.lastSequence)
    requires if written.Some? then exists c :: L.Does(t, L.DoWrite(written.value.writes), c) && u == c.(snapshots := [])
             else u == t.(snapshots := [])
    ensures var added := if written.Some? then written.value.Entries() else {};
            L.Invariant(u) && u.Memory() == t.Memory() + added && u.history == t.history + added
    ensures u.levels == t.levels && u.floor == t.floor && u.nextFile == t.nextFile && u.snapshots == []
  {
    if written.Some? {
      var r := written.value;
      assert r.Entries() == BatchEntries(r.writes, t.lastSequence);
      var c :| L.Does(t, L.DoWrite(r.writes), c) && u == c.(snapshots := []);
      L.StepKeeps(t, L.DoWrite(r.writes), c);
      NoSnapshots(c);
    } else {
      NoSnapshots(t);
    }
  }

  lemma CrashRunning(a: State, kept: nat, s: L.Step, b: State)
    requires Invariant(a) && a.disk.phase.Running? && D.Crashes(a.disk, kept, b.disk) && D.Invariant(b.disk)
    requires CrashesTree(a, kept, s, b.tree)
    ensures Agrees(b) && L.Invariant(b.tree)
  {
    var p := a.disk.phase;
    var written := if kept == |a.disk.disk.logs[p.log]| then p.inFlight else None;
    CrashedTree(a.tree, written, b.tree);
    CutHolds(a.disk, kept, a.tree);
  }

  lemma NoSnapshots(t: L.Db)
    requires L.Invariant(t)
    ensures L.Invariant(t.(snapshots := []))
  {
    assert t.(snapshots := []).Readable() == t.Readable();
  }

  lemma CrashKeeps(a: State, kept: nat, s: L.Step, b: State)
    requires Invariant(a) && D.Crashes(a.disk, kept, b.disk) && D.Invariant(b.disk) && CrashesTree(a, kept, s, b.tree)
    ensures Agrees(b) && L.Invariant(b.tree)
  {
    if a.disk.phase.Running? {
      CrashRunning(a, kept, s, b);
    } else {
      NoSnapshots(a.tree);
    }
  }

  // ----- Manifest records -----

  /** What the record leaves as it was, and what it makes of the manifest. */
  lemma RecordWritten(a: D.State, b: D.State)
    requires D.Invariant(a) && a.phase.Running? && a.phase.job.Logging? && D.Does(a, D.LogEdit, b)
    ensures var e := a.phase.job.edit;
            && D.EditOk(a.disk, a.phase, e, a.phase.job.cause)
                 && b.phase == a.phase.(job := D.Installing(e, a.phase.job.cause))
            && b.disk.tables == a.disk.tables && b.history == a.history && b.disk.current in b.disk.manifests
            && D.Committed(b.disk) == Manifest(D.Committed(a.disk).files - e.deleted + e.added, e.logNumber, e.nextFile,
                                               e.lastSequence)
            && D.Committed(a.disk).lastSequence.value <= e.lastSequence.value
            && D.Committed(a.disk).nextFile.value <= e.nextFile.value
  {
    ReplayAppend(a.disk.manifests[a.disk.current], a.phase.job.edit);
  }

  /** A flushed table joins its level. */
  lemma FlushNames(tables: map<nat, set<Entry>>, levels: seq<seq<File>>, files: set<nat>, level: nat, f: File,
                   after: seq<seq<File>>)
    requires Names(tables, levels, files) && |levels| == NUM_LEVELS && level < NUM_LEVELS && IsTable(tables, f)
    requires Flush.TableInstalled(levels, level, f, after)
    ensures Names(tables, after, files + {f.number})
  {
    assert f in after[level];
    forall l, g | 0 <= l < |after| && g in after[l] ensures IsTable(tables, g) && g.number in files + {f.number} {
      assert g in levels[l] || g == f;
    }
    forall n | n in files + {f.number} ensures HasFile(after, n) {
      if n in files {
        assert HasFile(levels, n);
        var l, g :| 0 <= l < |levels| && g in levels[l] && g.number == n;
        assert g in after[l];
      }
    }
  }

  lemma TableOfOne(tables: map<nat, set<Entry>>, added: set<nat>, n: nat, es: set<Entry>)
    requires added == {n} && n in tables && TableEntries(tables, added) == es
    ensures tables[n] == es
  {
  }

  /** What a flush makes of the tree. */
  lemma FlushLogged(tables: map<nat, set<Entry>>, t: L.Db, files: set<nat>, e: Storage.Edit, s: L.Step, u: L.Db)
    requires |t.levels| == NUM_LEVELS && Names(tables, t.levels, files) && t.imm.Some?
    requires s.FlushMemTable? && L.Does(t, s, u) && e.nextFile.Some? && t.nextFile <= e.nextFile.value
    requires e.deleted == {} && (t.imm.value == [] <==> e.added == {})
    requires t.imm.value != [] ==> e.added == {s.number} && s.number < e.nextFile.value
                                   && IsTable(tables, Flush.TableOf(t.imm.value, s.number, s.size))
    ensures Names(tables, u.levels, files - e.deleted + e.added) && u.nextFile <= e.nextFile.value
    ensures u == t.(imm := None, levels := u.levels, nextFile := u.nextFile)
  {
    if t.imm.value != [] {
      FlushNames(tables, t.levels, files, s.level, Flush.TableOf(t.imm.value, s.number, s.size), u.levels);
      assert files - {} + {s.number} == files + {s.number};
    } else {
      assert files - {} + {} == files;
    }
  }

  lemma FlushDoes(a: State, s: L.Step, t: L.Db)
    requires Invariant(a) && a.disk.phase.Running? && a.disk.phase.job.Logging? && a.disk.phase.job.cause.Flush?
    requires IsEdit(a, s, t)
    ensures s.FlushMemTable? && L.Does(a.tree, s, t) && a.tree.imm.Some?
    ensures var es, e := a.tree.imm.value, a.disk.phase.job.edit;
            && e.deleted == {} && (es == [] <==> e.added == {})
            && (es != [] ==> e.added == {s.number} && IsTable(a.disk.disk.tables, Flush.TableOf(es, s.number, s.size)))
  {
    var e, es := a.disk.phase.job.edit, a.tree.imm.value;
    assert EntriesOf([]) == {};
    assert es != [] ==> es[0] in EntriesOf(es);
    if es != [] {
      TableOfOne(a.disk.disk.tables, e.added, s.number, EntriesOf(es));
    }
  }

  // ----- Compactions and moves -----

  /** The inputs go, the outputs come. */
  lemma InstalledNames(tables: map<nat, set<Entry>>, levels: seq<seq<File>>, files: set<nat>, level: nat,
                       in0: seq<File>, in1: seq<File>, outs: seq<File>, after: seq<seq<File>>, deleted: set<nat>,
                       added: set<nat>)
    requires Names(tables, levels, files) && NumbersOnce(levels) && level + 1 < |levels| == |after|
    requires (forall f :: f in in0 ==> f in levels[level]) && (forall f :: f in in1 ==> f in levels[level + 1])
    requires FilesAfter(levels, level, in0, in1, outs, after)
    requires deleted == Numbers(FileSet(in0)) + Numbers(FileSet(in1))
    requires (forall o :: o in outs ==> IsTable(tables, o) && o.number in added)
    requires (forall n :: n in added ==> exists o :: o in outs && o.number == n)
    ensures Names(tables, after, files - deleted + added)
  {
    forall l, f | 0 <= l < |after| && f in after[l] ensures IsTable(tables, f) && f.number in files - deleted + added {
      FromBefore(levels, level, in0, in1, outs, after, l, f);
      if !(l == level + 1 && f in outs) {
        StaysNamed(levels, level, in0, in1, l, f);
      }
    }
    forall n | n in files - deleted + added ensures HasFile(after, n) {
      if n in added {
        var o :| o in outs && o.number == n;
        assert o in after[level + 1];
      } else {
        assert HasFile(levels, n);
        StillThere(levels, level, in0, in1, outs, after, deleted, n);
      }
    }
  }

  lemma FromBefore(levels: seq<seq<File>>, level: nat, in0: seq<File>, in1: seq<File>, outs: seq<File>,
                   after: seq<seq<File>>, l: nat, f: File)
    requires |after| == |levels| && FilesAfter(levels, level, in0, in1, outs, after) && l < |after| && f in after[l]
    ensures (l == level + 1 && f in outs) || (f in levels[l] && TakesNoPart(l, f, level, in0, in1))
  {
  }

  lemma StillThere(levels: seq<seq<File>>, level: nat, in0: seq<File>, in1: seq<File>, outs: seq<File>,
                   after: seq<seq<File>>, deleted: set<nat>, n: nat)
    requires HasFile(levels, n) && n !in deleted && deleted == Numbers(FileSet(in0)) + Numbers(FileSet(in1))
    requires |after| == |levels| && FilesAfter(levels, level, in0, in1, outs, after)
    ensures HasFile(after, n)
  {
    var l, f :| 0 <= l < |levels| && f in levels[l] && f.number == n;
    NotGone(in0, in1, f, deleted);
    assert TakesNoPart(l, f, level, in0, in1);
    assert f in after[l];
  }

  /** A file that takes no part keeps its number: it shares it with no input. */
  lemma StaysNamed(levels: seq<seq<File>>, level: nat, in0: seq<File>, in1: seq<File>, l: nat, f: File)
    requires NumbersOnce(levels) && l < |levels| && f in levels[l] && level + 1 < |levels|
    requires (forall f :: f in in0 ==> f in levels[level]) && (forall f :: f in in1 ==> f in levels[level + 1])
    requires TakesNoPart(l, f, level, in0, in1)
    ensures f.number !in Numbers(FileSet(in0)) + Numbers(FileSet(in1))
  {
    assert InLevel(levels, l, f);
    if f.number in Numbers(FileSet(in0)) {
      var g :| g in FileSet(in0) && g.number == f.number;
      assert InLevel(levels, level, g);
    }
    if f.number in Numbers(FileSet(in1)) {
      var g :| g in FileSet(in1) && g.number == f.number;
      assert InLevel(levels, level + 1, g);
    }
  }

  lemma NotGone(in0: seq<File>, in1: seq<File>, f: File, deleted: set<nat>)
    requires deleted == Numbers(FileSet(in0)) + Numbers(FileSet(in1)) && f.number !in deleted
    ensures f !in in0 && f !in in1
  {
    assert f in in0 ==> f in FileSet(in0);
    assert f in in1 ==> f in FileSet(in1);
  }

  lemma OutputsNamed(tables: map<nat, set<Entry>>, parts: seq<seq<Entry>>, numbers: seq<nat>, sizes: nat -> nat,
                     added: set<nat>)
    requires |numbers| == |parts| && forall i :: 0 <= i < |parts| ==> parts[i] != []
    requires forall i :: 0 <= i < |parts| ==> numbers[i] in tables && tables[numbers[i]] == EntriesOf(parts[i])
    requires (set n | n in numbers) == added
    ensures var outs := OutputFiles(parts, numbers, sizes);
            && (forall o :: o in outs ==> IsTable(tables, o) && o.number in added)
            && (forall n :: n in added ==> exists o :: o in outs && o.number == n)
  {
    var outs := OutputFiles(parts, numbers, sizes);
    forall o | o in outs ensures IsTable(tables, o) && o.number in added {
      var i :| 0 <= i < |outs| && outs[i] == o;
    }
    forall n | n in added ensures exists o :: o in outs && o.number == n {
      var i :| 0 <= i < |numbers| && numbers[i] == n;
      assert outs[i] in outs;
    }
  }

  lemma InputsAreThere(levels: seq<seq<File>>, level: nat, in0: seq<File>, in1: seq<File>)
    requires ValidInputs(levels, level, in0, in1)
    ensures (forall f :: f in in0 ==> f in levels[level]) && (forall f :: f in in1 ==> f in levels[level + 1])
  {
    var lo, hi :| IsRange(in0, lo, hi) && AreOverlapping(levels[level + 1], lo, hi, in1);
  }

  /** What a compaction makes of the tree. */
  lemma CompactionLogged(t: L.Db, s: L.Step, u: L.Db)
    requires L.Invariant(t) && s.Compact? && L.Compacts(t, s, u)
    ensures |t.levels| == |u.levels| == NUM_LEVELS && s.level + 1 < NUM_LEVELS
    ensures |s.numbers| == |s.parts| && forall i :: 0 <= i < |s.parts| ==> s.parts[i] != []
    ensures (forall f :: f in s.in0 ==> f in t.levels[s.level])
              && (forall f :: f in s.in1 ==> f in t.levels[s.level + 1])
    ensures FilesAfter(t.levels, s.level, s.in0, s.in1, OutputFiles(s.parts, s.numbers, s.sizes), u.levels)
    ensures u == t.(levels := u.levels, nextFile := u.nextFile, floor := s.smallest)
  {
    L.CompactKeepsForm(t, s, u);
    InputsAreThere(t.levels, s.level, s.in0, s.in1);
  }

  lemma CompactedNames(tables: map<nat, set<Entry>>, levels: seq<seq<File>>, files: set<nat>, e: Storage.Edit,
                       s: L.Step, after: seq<seq<File>>)
    requires Names(tables, levels, files) && NumbersOnce(levels) && s.Compact? && s.level + 1 < |levels| == |after|
    requires |s.numbers| == |s.parts| && forall i :: 0 <= i < |s.parts| ==> s.parts[i] != []
    requires (forall f :: f in s.in0 ==> f in levels[s.level]) && (forall f :: f in s.in1 ==> f in levels[s.level + 1])
    requires FilesAfter(levels, s.level, s.in0, s.in1, OutputFiles(s.parts, s.numbers, s.sizes), after)
    requires Numbers(FileSet(s.in0)) + Numbers(FileSet(s.in1)) == e.deleted && (set n | n in s.numbers) == e.added
    requires forall i :: 0 <= i < |s.parts| ==> s.numbers[i] in tables && tables[s.numbers[i]] == EntriesOf(s.parts[i])
    ensures Names(tables, after, files - e.deleted + e.added)
  {
    OutputsNamed(tables, s.parts, s.numbers, s.sizes, e.added);
    InstalledNames(tables, levels, files, s.level, s.in0, s.in1, OutputFiles(s.parts, s.numbers, s.sizes), after,
                   e.deleted, e.added);
  }

  /** What a move makes of the tree. */
  lemma MoveLogged(tables: map<nat, set<Entry>>, t: L.Db, files: set<nat>, e: Storage.Edit, s: L.Step, u: L.Db)
    requires Names(tables, t.levels, files) && L.Invariant(t) && s.TrivialMove? && L.Does(t, s, u)
    requires e.deleted == e.added == {s.file.number}
    ensures Names(tables, u.levels, files - e.deleted + e.added)
  {
    TreeNumbersOnce(t);
    L.MoveFilesAfter(t, s.level, s.file, u);
    MovedNames(tables, t.levels, files, s.level, s.file, u.levels);
  }

  lemma MovedNames(tables: map<nat, set<Entry>>, levels: seq<seq<File>>, files: set<nat>, level: nat, f: File,
                   after: seq<seq<File>>)
    requires Names(tables, levels, files) && NumbersOnce(levels) && level + 1 < |levels| == |after|
    requires FilesAfter(levels, level, [f], [], [f], after) && f in levels[level]
    ensures Names(tables, after, files - {f.number} + {f.number})
  {
    OneFile(f);
    assert Numbers(FileSet([])) == {};
    assert [f][0] == f && IsTable(tables, f);
    InstalledNames(tables, levels, files, level, [f], [], [f], after, {f.number}, {f.number});
  }

  lemma OneFile(f: File)
    ensures Numbers(FileSet([f])) == {f.number}
  {
    assert [f][0] == f;
    assert FileSet([f]) == {f};
  }

  lemma CompactionDoes(a: State, s: L.Step, t: L.Db)
    requires Invariant(a) && a.disk.phase.Running? && a.disk.phase.job.Logging? && a.disk.phase.job.cause.Compaction?
    requires IsEdit(a, s, t)
    ensures s.Compact? && L.Does(a.tree, s, t) && a.smallest <= a.disk.phase.job.edit.lastSequence.value
  {
  }

  lemma MoveDoes(a: State, s: L.Step, t: L.Db)
    requires Invariant(a) && a.disk.phase.Running? && a.disk.phase.job.Logging? && a.disk.phase.job.cause.TrivialMove?
    requires IsEdit(a, s, t)
    ensures s.TrivialMove? && L.Does(a.tree, s, t)
    ensures a.disk.phase.job.edit.deleted == a.disk.phase.job.edit.added == {s.file.number}
  {
  }

  lemma LogEditKeeps(a: State, s: L.Step, b: State)
    requires Invariant(a) && a.disk.phase.Running? && a.disk.phase.job.Logging? && b.smallest == a.smallest
    requires D.Does(a.disk, D.LogEdit, b.disk) && D.Invariant(b.disk) && IsEdit(a, s, b.tree)
    ensures L.Does(a.tree, s, b.tree) && Agrees(b)
  {
    var tables, files, e := a.disk.disk.tables, D.Committed(a.disk.disk).files, a.disk.phase.job.edit;
    RecordWritten(a.disk, b.disk);
    match a.disk.phase.job.cause
    case Flush =>
      FlushDoes(a, s, b.tree);
      FlushLogged(tables, a.tree, files, e, s, b.tree);
    case Compaction =>
      CompactionDoes(a, s, b.tree);
      TreeNumbersOnce(a.tree);
      CompactionLogged(a.tree, s, b.tree);
      CompactedNames(tables, a.tree.levels, files, e, s, b.tree.levels);
    case TrivialMove =>
      MoveDoes(a, s, b.tree);
      MoveLogged(tables, a.tree, files, e, s, b.tree);
  }

  // ----- Reopening -----

  /** The tables of a recovery hold what the logs held, newer ones under higher numbers. */
  lemma MadeTables(tables: map<nat, set<Entry>>, made: set<nat>, files: seq<File>)
    requires AreTables(tables, files, made) && RecoveryOrder.MadeInOrder(tables, made)
    ensures NumbersAge(files) && Contents(files) == TableEntries(tables, made)
  {
    forall f | f in files ensures f in FileSet(files) && f.number in made {
      assert f in FileSet(files);
    }
    forall f, g | f in files && g in files ensures AgeAt(f, g) {
      assert IsTable(tables, f) && IsTable(tables, g);
    }
    forall e ensures e in Contents(files) <==> e in TableEntries(tables, made) {
      if f :| f in files && e in f.entries {
        assert IsTable(tables, f) && e in tables[f.number];
      }
      if n :| n in made && n in tables && e in tables[n] {
        var f :| f in FileSet(files) && f.number == n;
        assert f in files && IsTable(tables, f) && e in f.entries;
      }
    }
  }

  lemma ReopenedNames(tables: map<nat, set<Entry>>, levels: seq<seq<File>>, files: set<nat>, news: seq<File>,
                      made: set<nat>, after: seq<seq<File>>)
    requires Names(tables, levels, files) && |levels| == NUM_LEVELS && AreTables(tables, news, made)
    requires Flush.TablesInstalled(levels, news, after)
    ensures Names(tables, after, files + made)
  {
    Flush.TablesMembers(levels, news, after);
    forall l, f | 0 <= l < |after| && f in after[l] ensures IsTable(tables, f) && f.number in files + made {
      if !(f in levels[l]) {
        assert f in FileSet(news);
      }
    }
    forall n | n in files + made ensures HasFile(after, n) {
      ReopenedFile(levels, files, news, made, after, n);
    }
  }

  lemma ReopenedFile(levels: seq<seq<File>>, files: set<nat>, news: seq<File>, made: set<nat>, after: seq<seq<File>>,
                     n: nat)
    requires |levels| == |after| == NUM_LEVELS && Numbers(FileSet(news)) == made
    requires (forall l :: 1 <= l < NUM_LEVELS ==> after[l] == levels[l])
    requires forall f :: f in after[0] <==> f in levels[0] || f in news
    requires (n in files ==> HasFile(levels, n)) && n in files + made
    ensures HasFile(after, n)
  {
    if n in files {
      var l, f :| 0 <= l < |levels| && f in levels[l] && f.number == n;
      assert f in after[l];
    } else {
      var f :| f in FileSet(news) && f.number == n;
      assert f in after[0];
    }
  }

  /** What recovery ends with. */
  lemma RecoveryDone(a: D.State, b: D.State)
    requires D.Invariant(a) && a.phase.Recovering? && D.Does(a, D.SetCurrent, b) && D.Invariant(b)
    ensures var d, p, m := a.disk, a.phase, D.Committed(a.disk);
            && TableEntries(d.tables, p.made) == LogFrom(d.logs, m.logNumber.value)
            && (forall n :: n in p.made ==> m.nextFile.value <= n < p.nextFile) && m.nextFile.value <= p.nextFile
            && m.lastSequence.value <= p.lastSequence && D.UpTo(b.history, p.lastSequence) && b.history == a.history
            && b.disk.tables == d.tables && b.phase.Running? && b.phase.mem == {} && b.phase.imm == None
            && b.phase.job == D.Cleaning && b.phase.lastSequence == p.lastSequence && b.phase.nextFile == p.nextFile
    ensures D.Committed(b.disk).files == D.Committed(a.disk).files + a.phase.made
    ensures D.Committed(b.disk).nextFile == Some(a.phase.nextFile)
    ensures D.Committed(b.disk).lastSequence == Some(a.phase.lastSequence)
  {
    D.NewManifestReplays(a.phase);
    assert D.LogsIn(a.disk.logs, []) == {};
  }

  lemma ReopenDoes(a: State, s: L.Step, b: State)
    requires Invariant(a) && a.disk.phase.Recovering? && D.Does(a.disk, D.SetCurrent, b.disk) && D.Invariant(b.disk)
    requires b.disk.phase.Running? && Reopens(a, s, b)
    ensures L.Does(a.tree, s, b.tree)
  {
    var d, p := a.disk.disk, a.disk.phase;
    RecoveryDone(a.disk, b.disk);
    MadeTables(d.tables, p.made, s.files);
    assert forall f :: f in s.files ==> f in FileSet(s.files) && f.number in p.made;
  }

  lemma SetCurrentKeeps(a: State, s: L.Step, b: State)
    requires Invariant(a) && a.disk.phase.Recovering? && D.Does(a.disk, D.SetCurrent, b.disk) && D.Invariant(b.disk)
    requires b.disk.phase.Running? && Reopens(a, s, b)
    ensures Agrees(b)
  {
    RecoveryDone(a.disk, b.disk);
    ReopenedNames(a.disk.disk.tables, a.tree.levels, D.Committed(a.disk.disk).files, s.files, a.disk.phase.made,
                  b.tree.levels);
    assert EntriesOf([]) == {};
  }

  // ----- Every run -----

  ghost predicate Followed(a: State, s: D.Step, t: L.Step, b: State) {
    && Invariant(a) && D.Does(a.disk, s, b.disk) && D.Invariant(b.disk) && TreeFollows(a, s, t, b)
    && b.smallest == (if s.StartCompaction? then a.tree.SmallestSnapshot() else a.smallest)
  }

  lemma OnDiskKeeps(a: State, s: D.Step, t: L.Step, b: State)
    requires Followed(a, s, t, b)
    ensures L.Invariant(b.tree) && Agrees(b)
  {
    if Quiet(s) {
      QuietlyKeeps(a, s, t, b);
    } else if s.Crash? {
      CrashingKeeps(a, s.kept, t, b);
    } else {
      if s.SetCurrent? {
        ReopenKeeps(a, t, b);
      } else {
        LoudKeeps(a, s, t, b);
      }
      TreeKeeps(a, t, b);
    }
  }

  lemma CrashingKeeps(a: State, kept: nat, t: L.Step, b: State)
    requires Followed(a, D.Crash(kept), t, b)
    ensures L.Invariant(b.tree) && Agrees(b)
  {
    CrashDone(a.disk, kept, b.disk);
    CrashOfTree(a, kept, t, b);
    CrashKeeps(a, kept, t, b);
  }

  lemma CrashDone(a: D.State, kept: nat, b: D.State)
    requires a.disk.current in a.disk.manifests && D.Does(a, D.Crash(kept), b)
    ensures D.Crashes(a, kept, b)
  {
  }

  lemma CrashOfTree(a: State, kept: nat, t: L.Step, b: State)
    requires |a.tree.levels| == NUM_LEVELS && TreeFollows(a, D.Crash(kept), t, b)
    ensures CrashesTree(a, kept, t, b.tree)
  {
  }

  lemma QuietlyKeeps(a: State, s: D.Step, t: L.Step, b: State)
    requires Followed(a, s, t, b) && Quiet(s)
    ensures L.Invariant(b.tree) && Agrees(b)
  {
    QuietKeeps(a, s, b);
  }

  lemma TreeKeeps(a: State, t: L.Step, b: State)
    requires L.Invariant(a.tree) && L.Does(a.tree, t, b.tree)
    ensures L.Invariant(b.tree)
  {
    L.StepKeeps(a.tree, t, b.tree);
  }

  lemma ReopenKeeps(a: State, t: L.Step, b: State)
    requires Followed(a, D.SetCurrent, t, b)
    ensures L.Does(a.tree, t, b.tree) && Agrees(b)
  {
    ReopenDoes(a, t, b);
    SetCurrentKeeps(a, t, b);
  }

  lemma LoudKeeps(a: State, s: D.Step, t: L.Step, b: State)
    requires Followed(a, s, t, b) && (s.InsertMem? || s.SwitchMemTable? || s.LogEdit?)
    ensures L.Does(a.tree, t, b.tree) && Agrees(b)
  {
    if s.InsertMem? {
      InsertKeeps(a, b);
    } else if s.SwitchMemTable? {
      SwitchKeeps(a, b);
    } else {
      LogEditKeeps(a, t, b);
    }
  }

  lemma StepKeeps(a: State, s: Step, b: State)
    requires Invariant(a) && Does(a, s, b)
    ensures Invariant(b)
  {
    match s
    case OnSnapshots(t) =>
      SnapshotsKeep(a, t, b);
      L.StepKeeps(a.tree, t, b.tree);
    case OnDisk(d, t) =>
      D.StepKeeps(a.disk, d, b.disk);
      RecoveryOrder.StepOrder(a.disk, d, b.disk);
      OnDiskKeeps(a, d, t, b);
  }

  lemma InitialOk(a: State)
    requires Initial(a)
    ensures Invariant(a)
  {
    RecoveryOrder.InitialOrder(a.disk);
    L.InitialOk(a.tree);
    var e := Storage.Edit({}, {}, Some(0), Some(2), Some(0));
    ReplayAppend([], e);
    assert [] + [e] == [e];
    assert EntriesOf([]) == {};
  }

  ghost predicate Follows(run: seq<State>, steps: seq<Step>, i: nat)
    requires i < |steps| < |run|
  {
    && run[i].disk.disk.current in run[i].disk.disk.manifests && |run[i].tree.levels| == NUM_LEVELS
    && Does(run[i], steps[i], run[i + 1])
  }

  ghost predicate IsRun(run: seq<State>, steps: seq<Step>) {
    && |run| == |steps| + 1 && Initial(run[0])
    && forall i {:trigger Follows(run, steps, i)} :: 0 <= i < |steps| ==> Follows(run, steps, i)
  }

  lemma {:induction false} RunKeeps(run: seq<State>, steps: seq<Step>, k: nat)
    requires IsRun(run, steps) && k < |run|
    ensures Invariant(run[k])
  {
    if k == 0 {
      InitialOk(run[0]);
    } else {
      RunKeeps(run, steps, k - 1);
      assert Follows(run, steps, k - 1);
      StepKeeps(run[k - 1], steps[k - 1], run[k]);
    }
  }

  /** What the tree holds is what memory and the manifest's tables hold. */
  lemma TreeIsHeld(a: State)
    requires Invariant(a) && a.disk.phase.Running?
    ensures a.tree.Readable() == D.Held(a.disk.disk, a.disk.phase, D.Committed(a.disk.disk).files)
  {
    var d, p, m := a.disk.disk, a.disk.phase, D.Committed(a.disk.disk);
    NamesEntries(d.tables, a.tree.levels, m.files);
    if p.job.Installing? && p.job.cause.Flush? {
      D.TableEntriesMonotone(d.tables, p.job.edit.added, m.files);
    }
  }

  /** What a running database holds reads as its history. */
  lemma RunningReads(a: State, key: int, snapshot: nat, p: Option<Entry>, q: Option<Entry>)
    requires Invariant(a) && a.disk.phase.Running? && L.IsLive(a.tree, snapshot)
    requires IsNewest(a.disk.history, key, snapshot, p)
    requires IsNewest(D.Held(a.disk.disk, a.disk.phase, D.Committed(a.disk.disk).files), key, snapshot, q)
    ensures ValueOf(p) == ValueOf(q)
  {
    TreeIsHeld(a);
    L.InvariantReads(a.tree);
  }

  /** In every run of writes, memtable switches, flushes, moves, compactions by the drop rule that split no key,
      deletions of files, crashes at any point and recoveries: what a running database holds in memory and in the
      tables of its manifest reads, now and at every live snapshot, as the history of all writes says.  These are
      the tables of its version, except between a manifest record and its installation. */
  lemma ReadsAreHistory(run: seq<State>, steps: seq<Step>, k: nat, key: int, snapshot: nat, p: Option<Entry>,
                        q: Option<Entry>)
    requires IsRun(run, steps) && k < |run| && run[k].disk.phase.Running? && L.IsLive(run[k].tree, snapshot)
    requires IsNewest(run[k].disk.history, key, snapshot, p)
    ensures D.ManifestOk(run[k].disk.disk)
    ensures IsNewest(D.Held(run[k].disk.disk, run[k].disk.phase, D.Committed(run[k].disk.disk).files), key, snapshot,
              q) ==>
              ValueOf(p) == ValueOf(q)
    ensures !run[k].disk.phase.job.Installing? ==>
              D.Committed(run[k].disk.disk).files == run[k].disk.phase.version
  {
    RunKeeps(run, steps, k);
    if IsNewest(D.Held(run[k].disk.disk, run[k].disk.phase, D.Committed(run[k].disk.disk).files), key, snapshot, q) {
      RunningReads(run[k], key, snapshot, p, q);
    }
  }

  /** From state `i` on up to `j` the database is recovering. */
  ghost predicate Interrupted(run: seq<State>, i: nat, j: nat) {
    j < |run| && forall k :: i <= k <= j ==> run[k].disk.phase.Recovering?
  }

  lemma RecoveringStep(run: seq<State>, steps: seq<Step>, k: nat)
    requires IsRun(run, steps) && k < |steps| && run[k].disk.phase.Recovering?
    ensures run[k + 1].disk.history == run[k].disk.history
  {
    assert Follows(run, steps, k);
    RunKeeps(run, steps, k);
    if !steps[k].step.Crash? {
      D.RecoversKeeps(run[k].disk, steps[k].step, run[k + 1].disk);
    }
  }

  lemma {:induction false} RecoveryKeepsHistory(run: seq<State>, steps: seq<Step>, i: nat, j: nat)
    requires IsRun(run, steps) && i <= j && j + 1 < |run| && Interrupted(run, i, j)
    ensures run[j + 1].disk.history == run[i].disk.history
  {
    RecoveringStep(run, steps, j);
    if i < j {
      RecoveryKeepsHistory(run, steps, i, j - 1);
    }
  }

  /** What clients have written when the database crashes: the write in flight counts if its record was whole. */
  ghost function Survived(a: D.State, kept: nat): set<Entry>
    requires a.phase.Running? && a.phase.log in a.disk.logs
  {
    a.history + if kept == |a.disk.logs[a.phase.log]| then D.InFlightEntries(a.phase) else {}
  }

  lemma CrashHistory(run: seq<State>, steps: seq<Step>, i: nat, kept: nat)
    requires IsRun(run, steps) && i < |steps| && run[i].disk.phase.Running?
    requires steps[i].OnDisk? && steps[i].step == D.Crash(kept)
    ensures run[i].disk.phase.log in run[i].disk.disk.logs
    ensures run[i + 1].disk.history == Survived(run[i].disk, kept)
  {
    assert Follows(run, steps, i);
  }

  /** The history a recovery ends with. */
  lemma ReopenedHistory(run: seq<State>, steps: seq<Step>, i: nat, kept: nat, j: nat)
    requires IsRun(run, steps) && i < j < |steps| && run[i].disk.phase.Running?
    requires steps[i].OnDisk? && steps[i].step == D.Crash(kept)
    requires Interrupted(run, i + 1, j)
    ensures run[i].disk.phase.log in run[i].disk.disk.logs && Invariant(run[j + 1])
    ensures run[j + 1].disk.history == Survived(run[i].disk, kept)
  {
    CrashHistory(run, steps, i, kept);
    RecoveryKeepsHistory(run, steps, i + 1, j);
    RunKeeps(run, steps, j + 1);
  }

  /** A crash anywhere, and a recovery that may itself be interrupted: the reopened database reads as the history
      of the writes that survived. */
  lemma ReopenedReadsHistory(run: seq<State>, steps: seq<Step>, i: nat, kept: nat, j: nat, key: int, p: Option<Entry>,
                             q: Option<Entry>)
    requires IsRun(run, steps) && i < j < |steps| && run[i].disk.phase.Running?
    requires steps[i].OnDisk? && steps[i].step == D.Crash(kept)
    requires Interrupted(run, i + 1, j) && run[j + 1].disk.phase.Running?
    ensures run[i].disk.phase.log in run[i].disk.disk.logs && D.ManifestOk(run[j + 1].disk.disk)
    ensures var b := run[j + 1].disk;
            && IsNewest(Survived(run[i].disk, kept), key, b.phase.lastSequence, p)
            && IsNewest(D.Held(b.disk, b.phase, D.Committed(b.disk).files), key, b.phase.lastSequence, q)
            ==> ValueOf(p) == ValueOf(q)
  {
    ReopenedHistory(run, steps, i, kept, j);
    var b := run[j + 1].disk;
    if IsNewest(Survived(run[i].disk, kept), key, b.phase.lastSequence, p)
       && IsNewest(D.Held(b.disk, b.phase, D.Committed(b.disk).files), key, b.phase.lastSequence, q) {
      RunningReads(run[j + 1], key, b.phase.lastSequence, p, q);
    }
  }

  // ----- What clients wrote -----

  /** The operations that take effect with a step: those of a write when it is inserted, and those of the write in
      flight at a crash that leaves its record whole. */
  ghost function WrittenBy(a: D.State, s: Step): seq<Write> {
    if !s.OnDisk? || !a.phase.Running? || a.phase.inFlight.None? then []
    else if s.step.InsertMem? then a.phase.inFlight.value.writes
    else if s.step.Crash? && a.phase.log in a.disk.logs && s.step.kept == |a.disk.logs[a.phase.log]| then
      a.phase.inFlight.value.writes
    else []
  }

  /** The map that all these operations make, each after the one before it. */
  ghost function MapAfter(run: seq<State>, steps: seq<Step>, k: nat): map<int, Bytes>
    requires k <= |steps| < |run|
  {
    if k == 0 then map[] else AllChanged(MapAfter(run, steps, k - 1), WrittenBy(run[k - 1].disk, steps[k - 1]))
  }

  /** What a step writes is a batch of the tree, unless the tree's history stays. */
  ghost predicate Writes(t: L.Db, writes: seq<Write>, u: L.Db) {
    && u.history == t.history + BatchEntries(writes, t.lastSequence)
    && (u.lastSequence == t.lastSequence + |writes|
        || (writes == [] && forall e :: e in u.history ==> e.seqno <= u.lastSequence))
  }

  lemma CrashWrites(a: State, kept: nat, s: L.Step, b: State)
    requires Invariant(a) && CrashesTree(a, kept, s, b.tree)
    ensures Writes(a.tree, WrittenBy(a.disk, OnDisk(D.Crash(kept), s)), b.tree)
  {
    assert BatchEntries([], a.tree.lastSequence) == {};
  }

  lemma TreeWrites(t: L.Db, s: L.Step, u: L.Db)
    requires L.Invariant(t) && |t.levels| == NUM_LEVELS && L.Does(t, s, u)
    ensures Writes(t, L.WrittenBy(s), u)
  {
    L.StepHistory(t, s, u);
    assert BatchEntries([], t.lastSequence) == {};
  }

  lemma LoudWrites(a: State, s: D.Step, t: L.Step, b: State)
    requires Followed(a, s, t, b) && !Quiet(s) && !s.Crash?
    ensures Writes(a.tree, WrittenBy(a.disk, OnDisk(s, t)), b.tree)
  {
    if s.SetCurrent? {
      ReopenKeeps(a, t, b);
    } else {
      LoudKeeps(a, s, t, b);
    }
    TreeWrites(a.tree, t, b.tree);
  }

  lemma DiskWrites(a: State, s: D.Step, t: L.Step, b: State)
    requires Followed(a, s, t, b)
    ensures Writes(a.tree, WrittenBy(a.disk, OnDisk(s, t)), b.tree)
  {
    if Quiet(s) {
      assert BatchEntries([], a.tree.lastSequence) == {};
    } else if s.Crash? {
      CrashOfTree(a, s.kept, t, b);
      CrashWrites(a, s.kept, t, b);
    } else {
      LoudWrites(a, s, t, b);
    }
  }

  lemma StepWrites(a: State, s: Step, b: State)
    requires Invariant(a) && Does(a, s, b)
    ensures Writes(a.tree, WrittenBy(a.disk, s), b.tree)
  {
    match s
    case OnSnapshots(t) =>
      TreeWrites(a.tree, t, b.tree);
    case OnDisk(d, t) =>
      D.StepKeeps(a.disk, d, b.disk);
      DiskWrites(a, d, t, b);
  }

  lemma {:induction false} HistoryStands(run: seq<State>, steps: seq<Step>, k: nat)
    requires IsRun(run, steps) && k < |run|
    ensures StandsFor(run[k].tree.history, run[k].tree.lastSequence, MapAfter(run, steps, k))
  {
    if k > 0 {
      HistoryStands(run, steps, k - 1);
      RunKeeps(run, steps, k - 1);
      assert Follows(run, steps, k - 1);
      var a, writes := run[k - 1], WrittenBy(run[k - 1].disk, steps[k - 1]);
      StepWrites(a, steps[k - 1], run[k]);
      L.HistoryChanges(a.tree.history, a.tree.lastSequence, MapAfter(run, steps, k - 1), writes,
          run[k].tree.lastSequence);
    }
  }

  /** In every run, crashes and recoveries included, reading the latest state of a running database is looking the
      key up in the map of all operations that took effect, in their order. */
  lemma ReadsAreWrites(run: seq<State>, steps: seq<Step>, k: nat, key: int, q: Option<Entry>)
    requires IsRun(run, steps) && k < |run| && run[k].disk.phase.Running?
    ensures D.ManifestOk(run[k].disk.disk)
    ensures IsNewest(D.Held(run[k].disk.disk, run[k].disk.phase, D.Committed(run[k].disk.disk).files), key,
                     run[k].disk.phase.lastSequence, q) ==>
              ValueOf(q) == Lookup(MapAfter(run, steps, k), key)
  {
    var a := run[k];
    RunKeeps(run, steps, k);
    HistoryStands(run, steps, k);
    if IsNewest(D.Held(a.disk.disk, a.disk.phase, D.Committed(a.disk.disk).files), key, a.disk.phase.lastSequence, q) {
      var p := NewestExists(a.disk.history, key, a.disk.phase.lastSequence);
      RunningReads(a, key, a.disk.phase.lastSequence, p, q);
    }
  }

  /** The operations in flight are those of the write that was last appended to the log. */
  lemma InFlightIsAppended(a: D.State, writes: seq<Write>, b: D.State)
    requires a.disk.current in a.disk.manifests && D.Does(a, D.AppendLog(writes), b)
    ensures b.phase.Running? && b.phase.inFlight.Some? && b.phase.inFlight.value.writes == writes
  {
  }
}
