/** What the database keeps on disk (logs, tables, manifests, the CURRENT file) and what recovery
    reads back from it (db/version_set.cc Recover, db/db_impl.cc Recover and RecoverLogFile). */
module Storage {
  import opened Entries

  /** One log record: a write batch and the last sequence number used before it. */
  datatype Record = Record(after: nat, writes: seq<Write>) {
    function Entries(): set<Entry> { BatchEntries(writes, after) }

    function LastSequence(): nat { after + |writes| }
  }

  /** A manifest record.  Numbers not present leave earlier ones standing. */
  datatype Edit = Edit(
    deleted: set<nat>, added: set<nat>, logNumber: Option<nat>, nextFile: Option<nat>, lastSequence: Option<nat>)

  /** `current` is the manifest the CURRENT file names. */
  datatype Disk = Disk(
    logs: map<nat, seq<Record>>, tables: map<nat, set<Entry>>, manifests: map<nat, seq<Edit>>, current: nat)

  // ----- The manifest -----

  datatype Manifest = Manifest(
    files: set<nat>, logNumber: Option<nat>, nextFile: Option<nat>, lastSequence: Option<nat>)

  function Later(earlier: Option<nat>, later: Option<nat>): Option<nat> {
    if later.Some? then later else earlier
  }

  function AfterEdit(m: Manifest, e: Edit): Manifest {
    Manifest(m.files - e.deleted + e.added, Later(m.logNumber, e.logNumber), Later(m.nextFile, e.nextFile),
             Later(m.lastSequence, e.lastSequence))
  }

  function Replay(edits: seq<Edit>): Manifest {
    if edits == [] then Manifest({}, None, None, None)
    else AfterEdit(Replay(edits[..|edits| - 1]), edits[|edits| - 1])
  }

  lemma ReplayAppend(edits: seq<Edit>, e: Edit)
    ensures Replay(edits + [e]) == AfterEdit(Replay(edits), e)
  {
    assert (edits + [e])[..|edits|] == edits;
  }

  /** Reading a manifest record by record, remembering the last of each number. */
  method ReplayManifest(edits: seq<Edit>) returns (files: set<nat>, logNumber: Option<nat>, nextFile: Option<nat>,
                                                   lastSequence: Option<nat>)
    ensures Manifest(files, logNumber, nextFile, lastSequence) == Replay(edits)
  {
    files, logNumber, nextFile, lastSequence := {}, None, None, None;
    for i := 0 to |edits|
      invariant Manifest(files, logNumber, nextFile, lastSequence) == Replay(edits[..i])
    {
      var e := edits[i];
      ReplayAppend(edits[..i], e);
      assert edits[..i + 1] == edits[..i] + [e];
      files := files - e.deleted + e.added;
      if e.logNumber.Some? { logNumber := e.logNumber; }
      if e.nextFile.Some? { nextFile := e.nextFile; }
      if e.lastSequence.Some? { lastSequence := e.lastSequence; }
    }
    assert edits[..|edits|] == edits;
  }

  // ----- The entries in logs and tables -----

  /** The entries of a run of log records. */
  ghost function Logged(records: seq<Record>): set<Entry> {
    set i, e | 0 <= i < |records| && e in records[i].Entries() :: e
  }

  lemma LoggedAppend(records: seq<Record>, more: seq<Record>)
    ensures Logged(records + more) == Logged(records) + Logged(more)
  {
    forall e | e in Logged(more) ensures e in Logged(records + more) {
      var i :| 0 <= i < |more| && e in more[i].Entries();
      assert (records + more)[|records| + i] == more[i];
    }
    forall e | e in Logged(records) ensures e in Logged(records + more) {
      var i :| 0 <= i < |records| && e in records[i].Entries();
      assert (records + more)[i] == records[i];
    }
  }

  lemma LoggedPush(records: seq<Record>, r: Record)
    ensures Logged(records + [r]) == Logged(records) + r.Entries()
  {
    LoggedAppend(records, [r]);
    assert [r][0] == r;
  }

  /** The entries of the log files `from`, `from` + 1, ... */
  ghost function LogFrom(logs: map<nat, seq<Record>>, from: nat): set<Entry> {
    set n, e | n in logs && from <= n && e in Logged(logs[n]) :: e
  }

  /** The entries of the log files from `from` up to but not including `upTo`. */
  ghost function LogRange(logs: map<nat, seq<Record>>, from: nat, upTo: nat): set<Entry> {
    set n, e | n in logs && from <= n < upTo && e in Logged(logs[n]) :: e
  }

  ghost function TableEntries(tables: map<nat, set<Entry>>, numbers: set<nat>): set<Entry> {
    set n, e | n in numbers && n in tables && e in tables[n] :: e
  }

  ghost predicate IsNewestLog(logs: map<nat, seq<Record>>, n: nat) {
    n in logs && forall l :: l in logs ==> l <= n
  }

  lemma LogFromNewest(logs: map<nat, seq<Record>>, from: nat, newest: nat)
    requires IsNewestLog(logs, newest) && from <= newest
    ensures LogFrom(logs, from) == LogRange(logs, from, newest) + Logged(logs[newest])
  {
  }

  /** Writing to a log, or deleting one, outside the range. */
  lemma LogRangeFrame(logs: map<nat, seq<Record>>, logs2: map<nat, seq<Record>>, from: nat, upTo: nat)
    requires forall n :: from <= n < upTo ==> (n in logs <==> n in logs2) && (n in logs ==> logs[n] == logs2[n])
    ensures LogRange(logs, from, upTo) == LogRange(logs2, from, upTo)
  {
  }

  lemma LogRangeOfNew(logs: map<nat, seq<Record>>, from: nat, newest: nat)
    requires forall l :: l in logs ==> l < newest
    ensures LogRange(logs[newest := []], from, newest) == LogFrom(logs, from) == LogFrom(logs[newest := []], from)
  {
    LogRangeFrame(logs, logs[newest := []], from, newest);
    assert LogRange(logs, from, newest) == LogFrom(logs, from);
  }

  lemma TableEntriesSplit(tables: map<nat, set<Entry>>, a: set<nat>, b: set<nat>)
    ensures TableEntries(tables, a + b) == TableEntries(tables, a) + TableEntries(tables, b)
  {
  }

  ghost predicate SameTables(t: map<nat, set<Entry>>, u: map<nat, set<Entry>>, numbers: set<nat>) {
    forall n :: n in numbers && n in t ==> n in u && u[n] == t[n]
  }

  lemma TableEntriesFrame(t: map<nat, set<Entry>>, u: map<nat, set<Entry>>, numbers: set<nat>)
    requires numbers <= t.Keys && SameTables(t, u, numbers)
    ensures numbers <= u.Keys && TableEntries(t, numbers) == TableEntries(u, numbers)
  {
  }

  /** Everything recovery finds: the manifest's tables and all logs from its log number on. */
  ghost function Recoverable(d: Disk): set<Entry>
    requires d.current in d.manifests && Replay(d.manifests[d.current]).logNumber.Some?
  {
    var m := Replay(d.manifests[d.current]);
    TableEntries(d.tables, m.files) + LogFrom(d.logs, m.logNumber.value)
  }

  // ----- Recovering one log file -----

  function Joined(groups: seq<seq<Record>>): seq<Record> {
    if groups == [] then [] else Joined(groups[..|groups| - 1]) + groups[|groups| - 1]
  }

  lemma JoinedAppend(groups: seq<seq<Record>>, g: seq<Record>)
    ensures Joined(groups + [g]) == Joined(groups) + g
  {
    assert (groups + [g])[..|groups|] == groups;
  }

  /** The highest sequence number the records use, or `start` if that is higher. */
  function MaxSequence(records: seq<Record>, start: nat): (r: nat)
    ensures start <= r
    ensures forall i :: 0 <= i < |records| ==> records[i].LastSequence() <= r
    ensures r == start || exists i :: 0 <= i < |records| && r == records[i].LastSequence()
  {
    if records == [] then start
    else
      var r, l := MaxSequence(records[..|records| - 1], start), records[|records| - 1].LastSequence();
      if r < l then l else r
  }

  lemma LoggedBelow(records: seq<Record>, start: nat)
    ensures forall e :: e in Logged(records) ==> e.seqno <= MaxSequence(records, start)
  {
  }

  ghost predicate Makes(groups: seq<seq<Record>>, next: nat, n: nat) {
    next <= n < next + |groups| && Logged(groups[n - next]) != {}
  }

  /** Table numbers given to the memtables `groups` fill, from `next` on; an empty table is not kept. */
  ghost function MadeFrom(groups: seq<seq<Record>>, next: nat): set<nat> {
    set n | next <= n < next + |groups| && Makes(groups, next, n)
  }

  /** `u` is `t` with the memtables `groups` written out under the numbers from `next` on. */
  ghost predicate WrittenOut(t: map<nat, set<Entry>>, groups: seq<seq<Record>>, next: nat, u: map<nat, set<Entry>>) {
    && (forall n :: n in t && n < next ==> n in u && u[n] == t[n])
    && (forall n :: n in MadeFrom(groups, next) ==> n in u && u[n] == Logged(groups[n - next]))
  }

  /** Writing out a log's records table by table keeps every entry of the log. */
  lemma {:induction false} WrittenOutEntries(t: map<nat, set<Entry>>, groups: seq<seq<Record>>, next: nat,
                                             u: map<nat, set<Entry>>)
    requires WrittenOut(t, groups, next, u)
    ensures TableEntries(u, MadeFrom(groups, next)) == Logged(Joined(groups))
    ensures MadeFrom(groups, next) <= u.Keys
  {
    if groups == [] {
    } else {
      var k := |groups| - 1;
      var front, g := groups[..k], groups[k];
      assert forall n :: n in MadeFrom(front, next) ==>
          front[n - next] == groups[n - next] && n in MadeFrom(groups, next);
      WrittenOutEntries(t, front, next, u);
      LoggedAppend(Joined(front), g);
      var one: set<nat> := if Logged(g) != {} then {next + k} else {};
      assert MadeFrom(groups, next) == MadeFrom(front, next) + one;
      TableEntriesSplit(u, MadeFrom(front, next), one);
      assert TableEntries(u, one) == Logged(g);
    }
  }

  /** Writes a memtable out as a level-0 table; nothing is kept when it is empty. */
  method WriteLevel0Table(tables: map<nat, set<Entry>>, mem: set<Entry>, made: set<nat>, nextFile: nat)
    returns (tables2: map<nat, set<Entry>>, made2: set<nat>, nextFile2: nat)
    ensures nextFile2 == nextFile + 1
    ensures if mem == {} then tables2 == tables && made2 == made
            else tables2 == tables[nextFile := mem] && made2 == made + {nextFile}
  {
    nextFile2 := nextFile + 1;
    if mem == {} {
      tables2, made2 := tables, made;
    } else {
      tables2, made2 := tables[nextFile := mem], made + {nextFile};
    }
  }

  /** The outcome of writing the memtables `groups` out. */
  ghost predicate Outcome(t: map<nat, set<Entry>>, groups: seq<seq<Record>>, next: nat,
                          u: map<nat, set<Entry>>, made: set<nat>, next2: nat)
  {
    && WrittenOut(t, groups, next, u) && made == MadeFrom(groups, next) && next2 == next + |groups|
    && (forall n :: n in u && n !in made ==> n in t && u[n] == t[n])
  }

  lemma OutcomeAppend(t: map<nat, set<Entry>>, groups: seq<seq<Record>>, next: nat, u: map<nat, set<Entry>>,
                      made: set<nat>, next2: nat, g: seq<Record>)
    requires Outcome(t, groups, next, u, made, next2)
    ensures Logged(g) == {} ==> Outcome(t, groups + [g], next, u, made, next2 + 1)
    ensures Logged(g) != {} ==> Outcome(t, groups + [g], next, u[next2 := Logged(g)], made + {next2}, next2 + 1)
  {
    var all := groups + [g];
    assert all[|groups|] == g && forall i :: 0 <= i < |groups| ==> all[i] == groups[i];
    assert MadeFrom(all, next) == MadeFrom(groups, next) + if Logged(g) == {} then {} else {next2};
  }

  /** The records read so far are in the tables written out and the current memtable. */
  ghost predicate Progress(records: seq<Record>, i: nat, groups: seq<seq<Record>>, pending: seq<Record>,
                           mem: Option<set<Entry>>)
  {
    && i <= |records| && Joined(groups) + pending == records[..i]
    && (if mem.Some? then mem.value == Logged(pending) else pending == [])
  }

  lemma PrefixStep<T>(s: seq<T>, i: nat, a: seq<T>, b: seq<T>)
    requires i < |s| && a + b == s[..i]
    ensures a + (b + [s[i]]) == s[..i + 1] && s[..i + 1][..i] == s[..i]
  {
    assert a + (b + [s[i]]) == (a + b) + [s[i]];
  }

  /** Adds one record to the memtable, creating it if there is none. */
  method InsertRecord(records: seq<Record>, i: nat, ghost groups: seq<seq<Record>>, ghost pending: seq<Record>,
                      mem: Option<set<Entry>>, maxSequence: nat, ghost start: nat)
    returns (mem2: set<Entry>, maxSequence2: nat)
    requires i < |records| && Progress(records, i, groups, pending, mem)
    requires maxSequence == MaxSequence(records[..i], start)
    ensures Progress(records, i + 1, groups, pending + [records[i]], Some(mem2))
    ensures maxSequence2 == MaxSequence(records[..i + 1], start)
  {
    var r := records[i];
    PrefixStep(records, i, Joined(groups), pending);
    LoggedPush(pending, r);
    mem2, maxSequence2 := if mem.Some? then mem.value else {}, maxSequence;
    mem2 := mem2 + r.Entries();
    if r.LastSequence() > maxSequence {
      maxSequence2 := r.LastSequence();
    }
  }

  /** Writes the pending memtable out as the next group. */
  method FlushGroup(ghost records: seq<Record>, ghost i: nat, ghost groups: seq<seq<Record>>,
                    ghost pending: seq<Record>, mem: set<Entry>, ghost t: map<nat, set<Entry>>, ghost next: nat,
                    tables: map<nat, set<Entry>>, made: set<nat>, nextFile: nat)
    returns (tables2: map<nat, set<Entry>>, made2: set<nat>, nextFile2: nat)
    requires Progress(records, i, groups, pending, Some(mem)) && Outcome(t, groups, next, tables, made, nextFile)
    ensures Progress(records, i, groups + [pending], [], None)
    ensures Outcome(t, groups + [pending], next, tables2, made2, nextFile2)
  {
    JoinedAppend(groups, pending);
    assert Joined(groups) + pending + [] == Joined(groups) + pending;
    OutcomeAppend(t, groups, next, tables, made, nextFile, pending);
    tables2, made2, nextFile2 := WriteLevel0Table(tables, mem, made, nextFile);
  }

  /** Replays one log into memtables, writing each out when `full` says it has outgrown its buffer,
      and the last one at the end. */
  method RecoverLogFile(records: seq<Record>, full: nat -> bool, tables: map<nat, set<Entry>>, nextFile: nat,
                        maxSequence: nat)
    returns (tables2: map<nat, set<Entry>>, made: set<nat>, nextFile2: nat, maxSequence2: nat,
             ghost groups: seq<seq<Record>>)
    ensures Joined(groups) == records && Outcome(tables, groups, nextFile, tables2, made, nextFile2)
    ensures maxSequence2 == MaxSequence(records, maxSequence)
    ensures made <= tables2.Keys && TableEntries(tables2, made) == Logged(records)
  {
    tables2, made, nextFile2, maxSequence2, groups := tables, {}, nextFile, maxSequence, [];
    var mem: Option<set<Entry>> := None;
    ghost var pending: seq<Record> := [];
    for i := 0 to |records|
      invariant Progress(records, i, groups, pending, mem)
      invariant Outcome(tables, groups, nextFile, tables2, made, nextFile2)
      invariant maxSequence2 == MaxSequence(records[..i], maxSequence)
    {
      var added, highest := InsertRecord(records, i, groups, pending, mem, maxSequence2, maxSequence);
      mem, maxSequence2, pending := Some(added), highest, pending + [records[i]];
      if full(i) {
        tables2, made, nextFile2 := FlushGroup(records, i + 1, groups, pending, mem.value, tables, nextFile,
                                               tables2, made, nextFile2);
        groups, pending, mem := groups + [pending], [], None;
      }
    }
    assert records[..|records|] == records;
    if mem.Some? {
      tables2, made, nextFile2 := FlushGroup(records, |records|, groups, pending, mem.value, tables, nextFile,
                                             tables2, made, nextFile2);
      groups, pending := groups + [pending], [];
    }
    assert Joined(groups) + [] == Joined(groups);
    WrittenOutEntries(tables, groups, nextFile, tables2);
  }
}
