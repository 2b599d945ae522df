/** The order of sequence numbers on disk: records follow one another in the logs, so that the tables a recovery
    makes of them, in the order of their numbers, hold newer and newer writes (db/db_impl.cc RecoverLogFile). */
module RecoveryOrder {
  import opened Entries
  import opened Storage
  import opened Durability

  // ----- What is kept -----

  /** Record `i` of log `n` comes before record `j` of log `m`. */
  predicate Earlier(n: nat, i: nat, m: nat, j: nat) {
    n < m || (n == m && i < j)
  }

  ghost predicate InOrder(logs: map<nat, seq<Record>>, n: nat, i: nat, m: nat, j: nat)
    requires n in logs && m in logs && i < |logs[n]| && j < |logs[m]|
  {
    logs[n][i].LastSequence() <= logs[m][j].after
  }

  /** In the logs from `from` on, each record starts after the ones before it. */
  ghost predicate RecordsInOrder(logs: map<nat, seq<Record>>, from: nat) {
    forall n, i, m, j {:trigger InOrder(logs, n, i, m, j)} ::
      n in logs && m in logs && from <= n && 0 <= i < |logs[n]| && 0 <= j < |logs[m]| && Earlier(n, i, m, j) ==>
        InOrder(logs, n, i, m, j)
  }

  ghost predicate RecordsUpTo(logs: map<nat, seq<Record>>, from: nat, last: nat) {
    forall n, i {:trigger logs[n][i]} :: n in logs && from <= n && 0 <= i < |logs[n]| ==>
        logs[n][i].LastSequence() <= last
  }

  /** The last sequence number used in the logs. */
  function Top(p: Phase): nat
    requires p.Running?
  {
    if p.inFlight.Some? then p.inFlight.value.LastSequence() else p.lastSequence
  }

  /** Every entry of `a` is older than every entry of `b`. */
  ghost predicate Older(a: set<Entry>, b: set<Entry>) {
    forall x, y :: x in a && y in b ==> x.seqno < y.seqno
  }

  /** The tables made so far are in order, and older than what is left to replay. */
  ghost predicate MadeInOrder(tables: map<nat, set<Entry>>, made: set<nat>) {
    forall n, m :: n in made && m in made && n < m && n in tables && m in tables ==> Older(tables[n], tables[m])
  }

  ghost predicate MadeBefore(tables: map<nat, set<Entry>>, made: set<nat>, r: Record) {
    forall n :: n in made && n in tables ==> UpTo(tables[n], r.after)
  }

  ghost predicate MadeFirst(d: Disk, made: set<nat>, todo: seq<nat>) {
    forall t, i {:trigger d.logs[t][i]} :: t in todo && t in d.logs && 0 <= i < |d.logs[t]| ==>
      MadeBefore(d.tables, made, d.logs[t][i])
  }

  /** The numbers of the tables a job makes are not below those the manifest knows; a flush makes one table exactly
      when there is something to put in it, and a move takes a table out to put it back. */
  ghost predicate JobNumbers(p: Phase, next: nat)
    requires p.Running?
  {
    match p.job
    case Building(n) => next <= n
    case Compacting(_, outputs) => forall n :: n in outputs ==> next <= n
    case Logging(e, cause) =>
      && (cause.Flush? && p.imm.Some? ==> (e.added == {} <==> p.imm.value == {}))
      && (cause.Flush? ==> forall n, m :: n in e.added && m in e.added ==> n == m)
      && (cause.TrivialMove? ==> e.deleted == e.added)
      && (!cause.TrivialMove? ==> forall n :: n in e.added ==> next <= n)
    case _ => true
  }

  /** No empty table is kept. */
  ghost predicate NoneEmpty(tables: map<nat, set<Entry>>, made: set<nat>) {
    forall n :: n in made ==> n in tables && tables[n] != {}
  }

  ghost predicate Order(a: State)
    requires Invariant(a)
  {
    var d, p, m := a.disk, a.phase, Committed(a.disk);
    && RecordsInOrder(d.logs, m.logNumber.value)
    && (p.Running? ==> RecordsUpTo(d.logs, m.logNumber.value, Top(p)) && JobNumbers(p, m.nextFile.value))
    && (p.Recovering? ==>
          MadeInOrder(d.tables, p.made) && NoneEmpty(d.tables, p.made) && MadeFirst(d, p.made, p.todo))
  }

  // ----- Every step keeps it -----

  /** Fewer logs, shorter logs, and a later start. */
  lemma FewerRecords(logs: map<nat, seq<Record>>, from: nat, logs2: map<nat, seq<Record>>, from2: nat)
    requires RecordsInOrder(logs, from) && from <= from2
    requires forall n :: n in logs2 && from2 <= n ==> n in logs && logs2[n] <= logs[n]
    ensures RecordsInOrder(logs2, from2)
    ensures forall last :: RecordsUpTo(logs, from, last) ==> RecordsUpTo(logs2, from2, last)
  {
    forall n, i, m, j |
      n in logs2 && m in logs2 && from2 <= n && 0 <= i < |logs2[n]| && 0 <= j < |logs2[m]| && Earlier(n, i, m, j)
      ensures InOrder(logs2, n, i, m, j)
    {
      assert InOrder(logs, n, i, m, j);
    }
    forall last | RecordsUpTo(logs, from, last) ensures RecordsUpTo(logs2, from2, last) {
      forall n, i | n in logs2 && from2 <= n && 0 <= i < |logs2[n]| ensures logs2[n][i].LastSequence() <= last {
        assert logs2[n][i] == logs[n][i];
      }
    }
  }

  lemma AppendLogOrder(a: State, writes: seq<Write>, b: State)
    requires Invariant(a) && Order(a) && Serves(a, AppendLog(writes), b) && Invariant(b)
    ensures Order(b)
  {
    var d, p, from := a.disk, a.phase, Committed(a.disk).logNumber.value;
    var logs: map<nat, seq<Record>>, logs2: map<nat, seq<Record>>, r := d.logs, b.disk.logs,
        Record(p.lastSequence, writes);
    forall n: nat, i: nat | n in logs2 && from <= n && 0 <= i < |logs2[n]|
      ensures logs2[n][i].LastSequence() <= r.LastSequence()
      ensures logs2[n][i] == r || logs2[n][i].LastSequence() <= r.after
    {
      assert n != p.log || i < |logs[p.log]| ==> logs2[n][i] == logs[n][i];
    }
    forall n, i, m, j |
      n in logs2 && m in logs2 && from <= n && 0 <= i < |logs2[n]| && 0 <= j < |logs2[m]| && Earlier(n, i, m, j)
      ensures InOrder(logs2, n, i, m, j)
    {
      if m == p.log && j == |logs[p.log]| {
        assert n in logs && n <= p.log && i < |logs[n]| && logs2[n][i] == logs[n][i];
      } else {
        assert InOrder(logs, n, i, m, j);
      }
    }
  }

  lemma ServesOrder(a: State, s: Step, b: State)
    requires Invariant(a) && Order(a) && Serves(a, s, b) && Invariant(b)
    ensures Order(b)
  {
    var from := Committed(a.disk).logNumber.value;
    if s.AppendLog? {
      AppendLogOrder(a, s.writes, b);
    } else if s.SwitchMemTable? {
      SwitchOrder(a.disk.logs, from, a.phase.nextFile);
    }
  }

  /** A new log. */
  lemma SwitchOrder(logs: map<nat, seq<Record>>, from: nat, n: nat)
    requires RecordsInOrder(logs, from)
    ensures RecordsInOrder(logs[n := []], from)
    ensures forall last :: RecordsUpTo(logs, from, last) ==> RecordsUpTo(logs[n := []], from, last)
  {
    forall k, i, m, j |
      k in logs[n := []] && m in logs[n := []] && from <= k && 0 <= i < |logs[n := []][k]|
          && 0 <= j < |logs[n := []][m]|
      && Earlier(k, i, m, j)
      ensures InOrder(logs[n := []], k, i, m, j)
    {
      assert InOrder(logs, k, i, m, j);
    }
  }

  lemma LogEditOrder(a: State, b: State)
    requires Invariant(a) && Order(a) && Works(a, LogEdit, b) && Invariant(b)
    ensures Order(b)
  {
    var d, e := a.disk, a.phase.job.edit;
    ReplayAppend(d.manifests[d.current], e);
    FewerRecords(d.logs, Committed(d).logNumber.value, d.logs, e.logNumber.value);
  }

  lemma JobStep(a: State, s: Step, b: State)
    requires Invariant(a) && Works(a, s, b) && !s.LogEdit? && JobNumbers(a.phase, Committed(a.disk).nextFile.value)
    ensures JobNumbers(b.phase, Committed(a.disk).nextFile.value) && Top(b.phase) == Top(a.phase)
    ensures b.disk.logs == a.disk.logs && b.disk.manifests == a.disk.manifests && b.disk.current == a.disk.current
  {
  }

  lemma WorksOrder(a: State, s: Step, b: State)
    requires Invariant(a) && Order(a) && Works(a, s, b) && Invariant(b)
    ensures Order(b)
  {
    if s.LogEdit? {
      LogEditOrder(a, b);
    } else {
      JobStep(a, s, b);
    }
  }

  lemma CleansOrder(a: State, s: Step, b: State)
    requires Invariant(a) && Order(a) && Cleans(a, s, b) && Invariant(b)
    ensures Order(b)
  {
    FewerRecords(a.disk.logs, Committed(a.disk).logNumber.value, b.disk.logs, Committed(a.disk).logNumber.value);
  }

  lemma CrashOrder(a: State, kept: nat, b: State)
    requires Invariant(a) && Order(a) && Crashes(a, kept, b) && Invariant(b)
    ensures Order(b)
  {
    FewerRecords(a.disk.logs, Committed(a.disk).logNumber.value, b.disk.logs, Committed(a.disk).logNumber.value);
  }

  lemma RecoverPartOrder(a: State, b: State)
    requires Invariant(a) && Order(a) && Recovers(a, RecoverPart, b) && Invariant(b)
    ensures Order(b)
  {
    var d, p, u := a.disk, a.phase, b.disk.tables;
    assert forall n :: n in p.made ==> n in d.tables && u[n] == d.tables[n];
    SameMade(d, b.disk, p.made, p.todo);
  }

  lemma SameMade(d: Disk, e: Disk, made: set<nat>, todo: seq<nat>)
    requires MadeInOrder(d.tables, made) && MadeFirst(d, made, todo) && e.logs == d.logs
    requires forall n :: n in made ==> n in d.tables && n in e.tables && e.tables[n] == d.tables[n]
    ensures MadeInOrder(e.tables, made) && MadeFirst(e, made, todo)
  {
    forall t, i | t in todo && t in e.logs && 0 <= i < |e.logs[t]| ensures MadeBefore(e.tables, made, e.logs[t][i]) {
      assert MadeBefore(d.tables, made, d.logs[t][i]);
    }
  }

  // ----- Replaying a log -----

  /** The place of record `i` of group `g` among the records of all groups. */
  lemma {:induction false} PlaceOf(groups: seq<seq<Record>>, g: nat, i: nat) returns (k: nat)
    requires g < |groups| && i < |groups[g]|
    ensures k < |Joined(groups)| && Joined(groups)[k] == groups[g][i]
    ensures |Joined(groups[..g])| <= k < |Joined(groups[..g + 1])|
  {
    var n := |groups| - 1;
    if g == n {
      k := |Joined(groups[..n])| + i;
      assert groups[..g + 1] == groups;
    } else {
      k := PlaceOf(groups[..n], g, i);
      assert groups[..n][..g] == groups[..g] && groups[..n][..g + 1] == groups[..g + 1];
    }
  }

  lemma {:induction false} JoinedGrows(groups: seq<seq<Record>>, g: nat, h: nat)
    requires g <= h <= |groups|
    ensures |Joined(groups[..g])| <= |Joined(groups[..h])|
    decreases h - g
  {
    if g < h {
      JoinedGrows(groups, g, h - 1);
      assert groups[..h][..h - 1] == groups[..h - 1];
    }
  }

  /** The tables of one log are in order. */
  lemma GroupsInOrder(records: seq<Record>, groups: seq<seq<Record>>, g: nat, h: nat)
    requires Joined(groups) == records && g < h < |groups|
    requires forall i, j :: 0 <= i < j < |records| ==> records[i].LastSequence() <= records[j].after
    ensures Older(Logged(groups[g]), Logged(groups[h]))
  {
    forall x, y | x in Logged(groups[g]) && y in Logged(groups[h]) ensures x.seqno < y.seqno {
      var i :| 0 <= i < |groups[g]| && x in groups[g][i].Entries();
      var j :| 0 <= j < |groups[h]| && y in groups[h][j].Entries();
      var k := PlaceOf(groups, g, i);
      var l := PlaceOf(groups, h, j);
      JoinedGrows(groups, g + 1, h);
      assert records[k].LastSequence() <= records[l].after;
    }
  }

  /** Every entry of a group is an entry of a record of the log. */
  lemma GroupIn(groups: seq<seq<Record>>, g: nat, x: Entry) returns (k: nat)
    requires g < |groups| && x in Logged(groups[g])
    ensures k < |Joined(groups)| && x in Joined(groups)[k].Entries()
  {
    var i :| 0 <= i < |groups[g]| && x in groups[g][i].Entries();
    k := PlaceOf(groups, g, i);
  }

  /** What a table made of a group of the log is. */
  lemma MadeTable(t: map<nat, set<Entry>>, groups: seq<seq<Record>>, next: nat, u: map<nat, set<Entry>>, n: nat)
    requires WrittenOut(t, groups, next, u) && n in MadeFrom(groups, next)
    ensures next <= n < next + |groups| && n in u && u[n] == Logged(groups[n - next])
  {
  }

  /** New tables among themselves, and after the ones before. */
  lemma MoreMade(t: map<nat, set<Entry>>, made: set<nat>, records: seq<Record>, groups: seq<seq<Record>>, next: nat,
                 u: map<nat, set<Entry>>)
    requires WrittenOut(t, groups, next, u) && Joined(groups) == records
    requires MadeInOrder(t, made) && forall n :: n in made ==> n in t && n < next
    requires forall i, j :: 0 <= i < j < |records| ==> records[i].LastSequence() <= records[j].after
    requires forall i :: 0 <= i < |records| ==> MadeBefore(t, made, records[i])
    ensures MadeInOrder(u, made + MadeFrom(groups, next))
  {
    var all := made + MadeFrom(groups, next);
    forall n, m | n in all && m in all && n < m && n in u && m in u ensures Older(u[n], u[m]) {
      TwoMade(t, made, records, groups, next, u, n, m);
    }
  }

  lemma TwoMade(t: map<nat, set<Entry>>, made: set<nat>, records: seq<Record>, groups: seq<seq<Record>>, next: nat,
                u: map<nat, set<Entry>>, n: nat, m: nat)
    requires WrittenOut(t, groups, next, u) && Joined(groups) == records && n < m && n in u && m in u
    requires MadeInOrder(t, made) && forall n :: n in made ==> n in t && n < next
    requires forall i, j :: 0 <= i < j < |records| ==> records[i].LastSequence() <= records[j].after
    requires forall i :: 0 <= i < |records| ==> MadeBefore(t, made, records[i])
    requires n in made || n in MadeFrom(groups, next)
    requires m in made || m in MadeFrom(groups, next)
    ensures Older(u[n], u[m])
  {
    if m in MadeFrom(groups, next) {
      MadeTable(t, groups, next, u, m);
      if n in made {
        NewAfterOld(t, made, records, groups, n, m - next);
      } else {
        MadeTable(t, groups, next, u, n);
        GroupsInOrder(records, groups, n - next, m - next);
      }
    }
  }

  lemma NewAfterOld(t: map<nat, set<Entry>>, made: set<nat>, records: seq<Record>, groups: seq<seq<Record>>, n: nat,
                    g: nat)
    requires Joined(groups) == records && n in made && n in t && g < |groups|
    requires forall i :: 0 <= i < |records| ==> MadeBefore(t, made, records[i])
    ensures Older(t[n], Logged(groups[g]))
  {
    forall x, y | x in t[n] && y in Logged(groups[g]) ensures x.seqno < y.seqno {
      var k := GroupIn(groups, g, y);
      assert MadeBefore(t, made, records[k]);
      RecordUpTo(records[k]);
    }
  }

  /** The tables of a log are older than the records of the logs after it. */
  lemma StillFirst(t: map<nat, set<Entry>>, made: set<nat>, records: seq<Record>, groups: seq<seq<Record>>, next: nat,
                   u: map<nat, set<Entry>>, r: Record)
    requires WrittenOut(t, groups, next, u) && Joined(groups) == records
    requires MadeBefore(t, made, r) && forall n :: n in made ==> n in t && n < next
    requires forall i :: 0 <= i < |records| ==> records[i].LastSequence() <= r.after
    ensures MadeBefore(u, made + MadeFrom(groups, next), r)
  {
    forall n | n in MadeFrom(groups, next) ensures n in u && UpTo(u[n], r.after) {
      MadeTable(t, groups, next, u, n);
      forall x | x in u[n] ensures x.seqno <= r.after {
        var k := GroupIn(groups, n - next, x);
        RecordUpTo(records[k]);
      }
    }
  }

  lemma RecoverLogOrder(a: State, groups: seq<seq<Record>>, b: State)
    requires Invariant(a) && Order(a) && Recovers(a, RecoverLog(groups), b) && Invariant(b)
    ensures Order(b)
  {
    var d, p, u, from := a.disk, a.phase, b.disk.tables, Committed(a.disk).logNumber.value;
    var n := p.todo[0];
    var records := d.logs[n];
    forall i, j | 0 <= i < j < |records| ensures records[i].LastSequence() <= records[j].after {
      assert InOrder(d.logs, n, i, n, j);
    }
    forall i | 0 <= i < |records| ensures MadeBefore(d.tables, p.made, records[i]) {
      assert d.logs[n][i] == records[i];
    }
    MoreMade(d.tables, p.made, records, groups, p.nextFile, u);
    forall t, i | t in p.todo[1..] && t in d.logs && 0 <= i < |d.logs[t]|
      ensures MadeBefore(u, b.phase.made, d.logs[t][i])
    {
      LaterLog(p.todo, t);
      forall k | 0 <= k < |records| ensures records[k].LastSequence() <= d.logs[t][i].after {
        assert InOrder(d.logs, n, k, t, i);
      }
      StillFirst(d.tables, p.made, records, groups, p.nextFile, u, d.logs[t][i]);
    }
  }

  lemma LaterLog(todo: seq<nat>, t: nat)
    requires todo != [] && t in todo[1..] && forall i, j :: 0 <= i < j < |todo| ==> todo[i] < todo[j]
    ensures t in todo && todo[0] < t
  {
    var k :| 0 <= k < |todo[1..]| && todo[1..][k] == t;
    assert todo[k + 1] == t;
  }

  lemma NewLogOrder(a: State, b: State)
    requires Invariant(a) && Order(a) && Recovers(a, NewLog, b) && Invariant(b)
    ensures Order(b)
  {
    SwitchOrder(a.disk.logs, Committed(a.disk).logNumber.value, a.phase.nextFile);
  }

  lemma SetCurrentOrder(a: State, b: State)
    requires Invariant(a) && Order(a) && Recovers(a, SetCurrent, b) && Invariant(b)
    ensures Order(b)
  {
    NewManifestReplays(a.phase);
  }

  lemma RecoversOrder(a: State, s: Step, b: State)
    requires Invariant(a) && Order(a) && Recovers(a, s, b) && Invariant(b)
    ensures Order(b)
  {
    match s
    case RecoverPart => RecoverPartOrder(a, b);
    case RecoverLog(groups) => RecoverLogOrder(a, groups, b);
    case NewLog => NewLogOrder(a, b);
    case WriteManifest =>
    case SetCurrent => SetCurrentOrder(a, b);
  }

  lemma StepOrder(a: State, s: Step, b: State)
    requires Invariant(a) && Order(a) && Does(a, s, b) && Invariant(b)
    ensures Order(b)
  {
    if s.Crash? {
      CrashOrder(a, s.kept, b);
    } else if a.phase.Recovering? {
      RecoversOrder(a, s, b);
    } else if Serves(a, s, b) {
      ServesOrder(a, s, b);
    } else if Cleans(a, s, b) {
      CleansOrder(a, s, b);
    } else {
      WorksOrder(a, s, b);
    }
  }

  lemma InitialOrder(a: State)
    requires Initial(a)
    ensures Invariant(a) && Order(a)
  {
    InitialOk(a);
  }
}
