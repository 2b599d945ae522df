/** The tree can follow every step on disk, except a compaction that is not as the tree demands: running the two
    side by side leaves out no write, flush, crash or recovery. */
module DatabaseSteps {
  import opened Entries
  import opened Storage
  import opened Versions
  import opened VersionBuilder
  import opened CompactionStep
  import opened Database
  import D = Durability
  import L = Lsm
  import RecoveryOrder
  import Flush

  // ----- Putting sets in order -----

  lemma {:induction false} Insertion<T>(s: seq<T>, x: T, before: (T, T) -> bool) returns (r: seq<T>)
    requires forall i, j :: 0 <= i < j < |s| ==> before(s[i], s[j])
    requires forall i :: 0 <= i < |s| ==> before(x, s[i]) || before(s[i], x)
    requires forall i, j :: 0 <= i < |s| && 0 <= j < |s| && before(x, s[i]) && before(s[i], s[j]) ==> before(x, s[j])
    ensures forall y :: y in r <==> y in s || y == x
    ensures forall i, j :: 0 <= i < j < |r| ==> before(r[i], r[j])
  {
    if s == [] || before(x, s[0]) {
      r := [x] + s;
      assert forall i :: 0 < i < |r| ==> r[i] == s[i - 1];
    } else {
      var rest := Insertion(s[1..], x, before);
      r := [s[0]] + rest;
      forall i | 0 < i < |r| ensures before(s[0], r[i]) {
        assert r[i] in rest;
        if r[i] != x {
          var k :| 0 <= k < |s[1..]| && s[1..][k] == r[i];
          assert s[k + 1] == r[i];
        }
      }
    }
  }

  ghost predicate Orders<T(!new)>(xs: set<T>, before: (T, T) -> bool) {
    && (forall x, y :: x in xs && y in xs && x != y ==> before(x, y) || before(y, x))
    && (forall x, y, z :: x in xs && y in xs && z in xs && before(x, y) && before(y, z) ==> before(x, z))
  }

  /** A finite set in a total order is a list. */
  lemma {:induction false} InOrder<T(!new)>(xs: set<T>, before: (T, T) -> bool) returns (s: seq<T>)
    requires Orders(xs, before)
    ensures forall x :: x in s <==> x in xs
    ensures forall i, j :: 0 <= i < j < |s| ==> before(s[i], s[j])
  {
    if xs == {} {
      s := [];
    } else {
      var x :| x in xs;
      var rest := InOrder(xs - {x}, before);
      s := Insertion(rest, x, before);
    }
  }

  /** Entries as a memtable or a table lists them. */
  lemma ListOf(es: set<Entry>) returns (s: seq<Entry>)
    requires Unique(es)
    ensures Sorted(s) && EntriesOf(s) == es
  {
    s := InOrder(es, (x, y) => Before(x, y));
  }

  /** Files as a level lists them. */
  lemma LevelOf(files: set<File>) returns (s: seq<File>)
    requires forall f, g :: f in files && g in files && f.number == g.number ==> f == g
    ensures KeySorted(s) && forall f :: f in s <==> f in files
  {
    s := InOrder(files, (f, g) => BySmallest(f, g));
  }

  // ----- Memory -----

  lemma WriteFollows(t: L.Db, writes: seq<Write>) returns (u: L.Db)
    requires L.Invariant(t)
    ensures L.Does(t, L.DoWrite(writes), u)
  {
    var added := BatchEntries(writes, t.lastSequence);
    L.BatchIsNewer(writes, t.lastSequence, t.history);
    assert EntriesOf(t.mem) <= t.Readable();
    var mem := ListOf(EntriesOf(t.mem) + added);
    u := t.(mem := mem, lastSequence := t.lastSequence + |writes|, history := t.history + added);
  }

  lemma CrashFollows(a: State, kept: nat) returns (s: L.Step, u: L.Db)
    requires Invariant(a)
    ensures CrashesTree(a, kept, s, u)
  {
    var p := a.disk.phase;
    if p.Running? && p.inFlight.Some? && p.log in a.disk.disk.logs && kept == |a.disk.disk.logs[p.log]| {
      var c := WriteFollows(a.tree, p.inFlight.value.writes);
      s, u := L.DoWrite(p.inFlight.value.writes), c.(snapshots := []);
    } else {
      s, u := L.SwitchMemTable, a.tree.(snapshots := []);
    }
  }

  // ----- Flushes -----

  /** A table under a new number can join level 0. */
  lemma TableJoins(t: L.Db, f: File) returns (after: seq<seq<File>>)
    requires L.Invariant(t) && t.nextFile <= f.number
    ensures Flush.TableInstalled(t.levels, 0, f, after)
  {
    assert Tidy(t.levels[0], t.nextFile);
    var v := LevelOf(FileSet(t.levels[0]) + {f});
    after := t.levels[0 := v];
  }

  lemma FlushFollows(a: State) returns (s: L.Step, u: L.Db)
    requires Invariant(a) && a.disk.phase.Running? && a.disk.phase.job.Logging? && a.disk.phase.job.cause.Flush?
    ensures IsEdit(a, s, u)
  {
    FlushNumber(a);
    var added := a.disk.phase.job.edit.added;
    if a.tree.imm.value == [] {
      s, u := L.FlushMemTable(0, 0, 0), a.tree.(imm := None);
    } else {
      var n :| n in added;
      s := L.FlushMemTable(0, n, 0);
      u := TableFlushes(a.tree, n);
    }
  }

  /** The immutable memtable goes to level 0. */
  lemma TableFlushes(t: L.Db, n: nat) returns (u: L.Db)
    requires L.Invariant(t) && t.imm.Some? && t.imm.value != [] && t.nextFile <= n
    ensures L.Does(t, L.FlushMemTable(0, n, 0), u)
  {
    var after := TableJoins(t, Flush.TableOf(t.imm.value, n, 0));
    u := t.(imm := None, levels := after, nextFile := n + 1);
  }

  lemma FlushNumber(a: State)
    requires Invariant(a) && a.disk.phase.Running? && a.disk.phase.job.Logging? && a.disk.phase.job.cause.Flush?
    ensures a.tree.imm.Some? && (a.tree.imm.value == [] <==> a.disk.phase.job.edit.added == {})
    ensures forall n :: n in a.disk.phase.job.edit.added ==>
              a.tree.nextFile <= n && a.disk.phase.job.edit.added == {n} && n in a.disk.disk.tables
  {
    var es := a.tree.imm.value;
    assert EntriesOf([]) == {};
    assert es != [] ==> es[0] in EntriesOf(es);
  }

  // ----- Recovery -----

  lemma {:induction false} FilesOf(tables: map<nat, set<Entry>>, made: set<nat>) returns (files: seq<File>)
    requires forall n :: n in made ==> n in tables && tables[n] != {} && Unique(tables[n])
    ensures AreTables(tables, files, made)
  {
    if made == {} {
      files := [];
    } else {
      var n :| n in made;
      var rest := FilesOf(tables, made - {n});
      var es := ListOf(tables[n]);
      assert es != [] by { assert EntriesOf([]) == {}; }
      var f := Flush.TableOf(es, n, 0);
      files := rest + [f];
      OneMore(tables, made - {n}, rest, f);
    }
  }

  lemma OneMore(tables: map<nat, set<Entry>>, made: set<nat>, files: seq<File>, f: File)
    requires AreTables(tables, files, made) && f.Valid() && IsTable(tables, f) && f.number !in made
    ensures AreTables(tables, files + [f], made + {f.number})
  {
    forall g | g in files ensures g.number in made {
      assert g in FileSet(files);
    }
    assert FileSet(files + [f]) == FileSet(files) + {f};
  }

  lemma MadeAreTables(a: D.State) returns (files: seq<File>)
    requires D.Invariant(a) && RecoveryOrder.Order(a) && a.phase.Recovering? && Unique(a.history)
    requires TableEntries(a.disk.tables, a.phase.made) <= a.history
    ensures AreTables(a.disk.tables, files, a.phase.made)
  {
    forall n | n in a.phase.made ensures n in a.disk.tables && Unique(a.disk.tables[n]) {
      assert a.disk.tables[n] <= TableEntries(a.disk.tables, a.phase.made);
    }
    files := FilesOf(a.disk.tables, a.phase.made);
  }

  /** The tables of a recovery can join level 0. */
  lemma TablesJoin(t: L.Db, tables: map<nat, set<Entry>>, made: set<nat>, files: seq<File>)
        returns (after: seq<seq<File>>)
    requires L.Invariant(t) && AreTables(tables, files, made) && forall n :: n in made ==> t.nextFile <= n
    ensures Flush.TablesInstalled(t.levels, files, after)
  {
    assert Tidy(t.levels[0], t.nextFile);
    assert forall f :: f in files ==> f in FileSet(files) && f.number in made;
    var v := LevelOf(FileSet(t.levels[0]) + FileSet(files));
    after := t.levels[0 := v];
  }

  lemma MadeSurvived(a: D.State)
    requires D.Invariant(a) && a.phase.Recovering?
    ensures TableEntries(a.disk.tables, a.phase.made) <= a.history
  {
  }

  lemma ReopenFollows(a: State, disk: D.State) returns (s: L.Step, u: L.Db)
    requires Invariant(a) && a.disk.phase.Recovering? && D.Does(a.disk, D.SetCurrent, disk) && D.Invariant(disk)
    ensures disk.phase.Running? && Reopens(a, s, State(disk, u, a.smallest))
  {
    var t, made := a.tree, a.disk.phase.made;
    RecoveryDone(a.disk, disk);
    MadeSurvived(a.disk);
    var files := MadeAreTables(a.disk);
    var after := TablesJoin(t, a.disk.disk.tables, made, files);
    s := L.Reopen(files);
    u := t.(mem := [], imm := None, levels := after, lastSequence := disk.phase.lastSequence, snapshots := [],
            nextFile := disk.phase.nextFile);
  }

  // ----- Every step -----

  lemma InsertFollowed(a: State, disk: D.State, smallest: nat) returns (s: L.Step, u: L.Db)
    requires Invariant(a) && D.Does(a.disk, D.InsertMem, disk)
    ensures TreeFollows(a, D.InsertMem, s, State(disk, u, smallest))
  {
    s := L.DoWrite(a.disk.phase.inFlight.value.writes);
    u := WriteFollows(a.tree, a.disk.phase.inFlight.value.writes);
  }

  lemma SwitchFollowed(a: State, disk: D.State, smallest: nat) returns (s: L.Step, u: L.Db)
    requires Invariant(a) && D.Does(a.disk, D.SwitchMemTable, disk)
    ensures TreeFollows(a, D.SwitchMemTable, s, State(disk, u, smallest))
  {
    s, u := L.SwitchMemTable, a.tree.(imm := Some(a.tree.mem), mem := []);
  }

  lemma FlushFollowed(a: State, disk: D.State, smallest: nat) returns (s: L.Step, u: L.Db)
    requires Invariant(a) && D.Does(a.disk, D.LogEdit, disk) && a.disk.phase.job.cause.Flush?
    ensures TreeFollows(a, D.LogEdit, s, State(disk, u, smallest))
  {
    s, u := FlushFollows(a);
  }

  lemma CrashFollowed(a: State, kept: nat, disk: D.State, smallest: nat) returns (s: L.Step, u: L.Db)
    requires Invariant(a)
    ensures TreeFollows(a, D.Crash(kept), s, State(disk, u, smallest))
  {
    s, u := CrashFollows(a, kept);
  }

  lemma ReopenFollowed(a: State, disk: D.State, smallest: nat) returns (s: L.Step, u: L.Db)
    requires Invariant(a) && D.Does(a.disk, D.SetCurrent, disk)
    ensures TreeFollows(a, D.SetCurrent, s, State(disk, u, smallest))
  {
    D.StepKeeps(a.disk, D.SetCurrent, disk);
    s, u := ReopenFollows(a, disk);
  }

  lemma StepFollowed(a: State, d: D.Step, disk: D.State, smallest: nat) returns (s: L.Step, u: L.Db)
    requires Invariant(a) && D.Does(a.disk, d, disk)
    requires d.LogEdit? ==> a.disk.phase.job.cause.Flush?
    ensures TreeFollows(a, d, s, State(disk, u, smallest))
  {
    s, u := L.SwitchMemTable, a.tree;
    if d.InsertMem? {
      s, u := InsertFollowed(a, disk, smallest);
    } else if d.SwitchMemTable? {
      s, u := SwitchFollowed(a, disk, smallest);
    } else if d.LogEdit? {
      s, u := FlushFollowed(a, disk, smallest);
    } else if d.Crash? {
      s, u := CrashFollowed(a, d.kept, disk, smallest);
    } else if d.SetCurrent? {
      s, u := ReopenFollowed(a, disk, smallest);
    }
  }

  /** Whatever happens on disk, other than the manifest record of a compaction or a move, the tree can follow. */
  lemma TreeCanFollow(a: State, d: D.Step, disk: D.State) returns (s: L.Step, b: State)
    requires Invariant(a) && D.Does(a.disk, d, disk)
    requires d.LogEdit? ==> a.disk.phase.job.cause.Flush?
    ensures b.disk == disk && Does(a, OnDisk(d, s), b)
  {
    var smallest, t := if d.StartCompaction? then a.tree.SmallestSnapshot() else a.smallest, a.tree;
    s, t := StepFollowed(a, d, disk, smallest);
    b := State(disk, t, smallest);
  }
}
