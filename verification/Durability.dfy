/** Writes, memtable switches, flushes, compactions, deletion of obsolete files, crashes and recovery
    as a step system over memory and disk (db/db_impl.cc, db/version_set.cc).  A step writes at most one file,
    except `RecoverLog`, which ends the replay of a log; the tables on disk before it does are those of
    `RecoverPart`.  The background thread runs beside the writers. */
module Durability {
  import opened Entries
  import opened Storage

  // ----- State -----

  datatype Cause = Flush | Compaction | TrivialMove

  /** Where the background thread stands. */
  datatype Job =
    | Idle
    | Building(number: nat)                          // a flush whose table is not yet complete
    | Compacting(inputs: set<nat>, outputs: set<nat>)
    | Logging(edit: Edit, cause: Cause)              // the edit is complete, its manifest record is not written
    | Installing(edit: Edit, cause: Cause)           // the record is written, the version not yet installed
    | Cleaning                                       // deleting obsolete files

  /** A reader holding a version, and the entries its tables held when it took it. */
  datatype Reader = Reader(files: set<nat>, seen: set<Entry>)

  datatype Phase =
    | Running(
        mem: set<Entry>, imm: Option<set<Entry>>, inFlight: Option<Record>, log: nat, versionLog: nat,
        version: set<nat>, readers: seq<Reader>, pending: set<nat>, nextFile: nat, lastSequence: nat, job: Job)
    | Recovering(
        version: set<nat>, made: set<nat>, todo: seq<nat>, newLog: Option<nat>, manifest: nat, nextFile: nat,
        lastSequence: nat)

  /** Two history variables: `history` has the entries of every write that took effect, `dropped`
      those that compactions left out of their outputs. */
  datatype State = State(disk: Disk, phase: Phase, history: set<Entry>, dropped: set<Entry>)

  function ImmEntries(p: Phase): set<Entry>
    requires p.Running?
  {
    if p.imm.Some? then p.imm.value else {}
  }

  ghost function InFlightEntries(p: Phase): set<Entry> {
    if p.Running? && p.inFlight.Some? then p.inFlight.value.Entries() else {}
  }

  function Committed(d: Disk): Manifest
    requires d.current in d.manifests
  {
    Replay(d.manifests[d.current])
  }

  // ----- Steps -----

  datatype Step =
    | AppendLog(writes: seq<Write>)          // Write: log_->AddRecord
    | InsertMem                              // Write: InsertInto(mem_), SetLastSequence
    | SwitchMemTable                         // MakeRoomForWrite
    | RefVersion | UnrefVersion(index: nat)
    | StartFlush(partial: set<Entry>)        // the table file exists, half written
    | BuildFlush
    | StartCompaction(inputs: set<nat>)
    | WriteOutput(contents: set<Entry>)
    | FinishCompaction
    | MoveFile(number: nat)
    | LogEdit                                // LogAndApply: manifest record
    | Install                                // LogAndApply: AppendVersion
    | DeleteTable(number: nat) | DeleteLog(number: nat) | DeleteManifest(number: nat) | DoneCleaning
    | Crash(kept: nat)                       // the newest log keeps this many records
    | RecoverPart                            // some of the tables of the log being replayed are on disk
    | RecoverLog(groups: seq<seq<Record>>)   // all of them
    | NewLog
    | WriteManifest
    | SetCurrent

  /** Tables that a version in use, or an unfinished job, still needs. */
  ghost predicate TableNeeded(p: Phase, n: nat)
    requires p.Running?
  {
    n in p.pending || n in p.version || exists i :: 0 <= i < |p.readers| && n in p.readers[i].files
  }

  /** The logs recovery replays, in order. */
  ghost predicate IsTodo(logs: map<nat, seq<Record>>, from: nat, todo: seq<nat>) {
    && (forall i, j :: 0 <= i < j < |todo| ==> todo[i] < todo[j])
    && (forall n :: n in todo <==> n in logs && from <= n)
  }

  /** What recovery starts from: the manifest CURRENT names, and the logs it does not make obsolete. */
  ghost predicate RecoverFrom(d: Disk, p: Phase)
    requires d.current in d.manifests
  {
    var m := Committed(d);
    && p.Recovering? && m.logNumber.Some? && m.nextFile.Some? && m.lastSequence.Some?
    && IsTodo(d.logs, m.logNumber.value, p.todo)
    && p == Recovering(m.files, {}, p.todo, None, m.nextFile.value, m.nextFile.value + 1, m.lastSequence.value)
  }

  /** The manifest recovery writes: a snapshot of the recovered version, then the new tables and log. */
  function NewManifest(p: Phase): seq<Edit>
    requires p.Recovering? && p.newLog.Some?
  {
    [Edit({}, p.version, None, None, None),
     Edit({}, p.made, Some(p.newLog.value), Some(p.nextFile), Some(p.lastSequence))]
  }

  function Cut(d: Disk, log: nat, kept: nat): Disk
    requires log in d.logs && kept <= |d.logs[log]|
  {
    d.(logs := d.logs[log := d.logs[log][..kept]])
  }

  /** A crash may lose the record being written, and nothing that was acknowledged. */
  ghost predicate Crashes(a: State, kept: nat, b: State) {
    var d, p := a.disk, a.phase;
    && (p.Running? ==> p.log in d.logs && kept <= |d.logs[p.log]|
                       && (kept == |d.logs[p.log]| || (p.inFlight.Some? && kept + 1 == |d.logs[p.log]|)))
    && b.disk == (if p.Running? then Cut(d, p.log, kept) else d)
    && b.disk.current in b.disk.manifests && RecoverFrom(b.disk, b.phase)
    && b.history == a.history + (if p.Running? && kept == |d.logs[p.log]| then InFlightEntries(p) else {})
    && b.dropped == a.dropped
  }

  ghost predicate Does(a: State, s: Step, b: State)
    requires a.disk.current in a.disk.manifests
  {
    var d, p := a.disk, a.phase;
    match s
    case Crash(kept) => Crashes(a, kept, b)
    case RecoverPart => Recovers(a, s, b)
    case RecoverLog(_) => Recovers(a, s, b)
    case NewLog => Recovers(a, s, b)
    case WriteManifest => Recovers(a, s, b)
    case SetCurrent => Recovers(a, s, b)
    case AppendLog(_) => Serves(a, s, b)
    case InsertMem => Serves(a, s, b)
    case SwitchMemTable => Serves(a, s, b)
    case RefVersion => Serves(a, s, b)
    case UnrefVersion(_) => Serves(a, s, b)
    case DeleteTable(_) => Cleans(a, s, b)
    case DeleteLog(_) => Cleans(a, s, b)
    case DeleteManifest(_) => Cleans(a, s, b)
    case DoneCleaning => Cleans(a, s, b)
    case _ => Works(a, s, b)
  }

  /** Steps of writers and readers. */
  ghost predicate Serves(a: State, s: Step, b: State) {
    var d, p := a.disk, a.phase;
    p.Running? &&
    match s
    case AppendLog(writes) =>
      && p.inFlight == None && p.log in d.logs
      && var r := Record(p.lastSequence, writes);
         b == a.(disk := d.(logs := d.logs[p.log := d.logs[p.log] + [r]]), phase := p.(inFlight := Some(r)))
    case InsertMem =>
      && p.inFlight.Some?
      && var r := p.inFlight.value;
         b == a.(phase := p.(mem := p.mem + r.Entries(), inFlight := None, lastSequence := r.LastSequence()),
                 history := a.history + r.Entries())
    case SwitchMemTable =>
      && p.inFlight == None && p.imm == None
      && b == a.(disk := d.(logs := d.logs[p.nextFile := []]),
                 phase := p.(imm := Some(p.mem), mem := {}, log := p.nextFile, nextFile := p.nextFile + 1))
    case RefVersion =>
      b == a.(phase := p.(readers := p.readers + [Reader(p.version, TableEntries(d.tables, p.version))]))
    case UnrefVersion(i) =>
      i < |p.readers| && b == a.(phase := p.(readers := p.readers[..i] + p.readers[i + 1..]))
    case _ => false
  }

  /** Steps of the background thread. */
  ghost predicate Works(a: State, s: Step, b: State)
    requires a.disk.current in a.disk.manifests
  {
    var d, p := a.disk, a.phase;
    p.Running? &&
    match s
    case StartFlush(partial) =>
      && p.job.Idle? && p.imm.Some?
      && b == a.(disk := d.(tables := d.tables[p.nextFile := partial]),
                 phase := p.(job := Building(p.nextFile), pending := p.pending + {p.nextFile},
                     nextFile := p.nextFile + 1))
    case BuildFlush =>
      && p.job.Building? && p.imm.Some?
      && var n := p.job.number;
         var kept := p.imm.value != {};
         var edit := Edit({}, if kept then {n} else {}, Some(p.log), Some(p.nextFile), Some(p.lastSequence));
         b == a.(disk := d.(tables := if kept then d.tables[n := p.imm.value] else d.tables - {n}),
                 phase := p.(job := Logging(edit, Flush), pending := p.pending - {n}))
    case StartCompaction(inputs) =>
      && p.job.Idle? && p.imm.None? && inputs <= p.version
      && b == a.(phase := p.(job := Compacting(inputs, {})))
    case WriteOutput(contents) =>
      && p.job.Compacting? && contents <= TableEntries(d.tables, p.job.inputs)
      && b == a.(disk := d.(tables := d.tables[p.nextFile := contents]),
                 phase := p.(job := p.job.(outputs := p.job.outputs + {p.nextFile}),
                     pending := p.pending + {p.nextFile},
                             nextFile := p.nextFile + 1))
    case FinishCompaction =>
      && p.job.Compacting?
      && var edit := Edit(p.job.inputs, p.job.outputs, Some(p.versionLog), Some(p.nextFile), Some(p.lastSequence));
         b == a.(phase := p.(job := Logging(edit, Compaction)))
    case MoveFile(n) =>
      && p.job.Idle? && p.imm.None? && n in p.version
      && b == a.(phase := p.(job := Logging(Edit({n}, {n}, Some(p.versionLog), Some(p.nextFile), Some(p.lastSequence)),
                                            TrivialMove)))
    case LogEdit =>
      && p.job.Logging?
      && var e := p.job.edit;
         b == a.(disk := d.(manifests := d.manifests[d.current := d.manifests[d.current] + [e]]),
                 phase := p.(job := Installing(e, p.job.cause)),
                 dropped := a.dropped + (TableEntries(d.tables, e.deleted) - TableEntries(d.tables, e.added)))
    case Install =>
      && p.job.Installing? && p.job.edit.logNumber.Some?
      && var e, cause := p.job.edit, p.job.cause;
         b == a.(phase := p.(version := p.version - e.deleted + e.added, versionLog := e.logNumber.value,
                             imm := if cause.Flush? then None else p.imm,
                             pending := if cause.Compaction? then p.pending - e.added else p.pending,
                             job := if cause.TrivialMove? then Idle else Cleaning))
    case _ => false
  }

  /** Deletion of obsolete files, one file at a time. */
  ghost predicate Cleans(a: State, s: Step, b: State) {
    var d, p := a.disk, a.phase;
    p.Running? && p.job.Cleaning? &&
    match s
    case DeleteTable(n) => !TableNeeded(p, n) && b == a.(disk := d.(tables := d.tables - {n}))
    case DeleteLog(n) => n < p.versionLog && b == a.(disk := d.(logs := d.logs - {n}))
    case DeleteManifest(n) => n < d.current && b == a.(disk := d.(manifests := d.manifests - {n}))
    case DoneCleaning => b == a.(phase := p.(job := Idle))
    case _ => false
  }

  /** Steps of recovery, after the manifest has been read. */
  ghost predicate Recovers(a: State, s: Step, b: State) {
    var d, p := a.disk, a.phase;
    p.Recovering? &&
    match s
    case RecoverPart =>
      && p.todo != [] && WrittenOut(d.tables, [], p.nextFile, b.disk.tables)
      && b == a.(disk := d.(tables := b.disk.tables))
    case RecoverLog(groups) =>
      && p.todo != [] && p.todo[0] in d.logs && Joined(groups) == d.logs[p.todo[0]]
      && WrittenOut(d.tables, groups, p.nextFile, b.disk.tables)
      && var after := p.nextFile + |groups|;
         b == a.(disk := d.(tables := b.disk.tables),
                 phase := p.(todo := p.todo[1..], made := p.made + MadeFrom(groups, p.nextFile),
                             nextFile := if after <= p.todo[0] then p.todo[0] + 1 else after,
                             lastSequence := MaxSequence(d.logs[p.todo[0]], p.lastSequence)))
    case NewLog =>
      && p.todo == [] && p.newLog == None
      && b == a.(disk := d.(logs := d.logs[p.nextFile := []]),
           phase := p.(newLog := Some(p.nextFile), nextFile := p.nextFile + 1))
    case WriteManifest =>
      && p.newLog.Some? && b == a.(disk := d.(manifests := d.manifests[p.manifest := NewManifest(p)]))
    case SetCurrent =>
      && p.newLog.Some? && p.manifest in d.manifests && d.manifests[p.manifest] == NewManifest(p)
      && b == a.(disk := d.(current := p.manifest),
                 phase := Running({}, None, None, p.newLog.value, p.newLog.value, p.version + p.made, [], {},
                     p.nextFile,
                                  p.lastSequence, Cleaning))
    case _ => false
  }

  /** A new database: one manifest, nothing else. */
  ghost predicate Initial(a: State) {
    && a.disk == Disk(map[], map[], map[1 := [Edit({}, {}, Some(0), Some(2), Some(0))]], 1)
    && RecoverFrom(a.disk, a.phase) && a.history == {} && a.dropped == {}
  }

  // ----- The invariant -----

  ghost predicate Present(tables: map<nat, set<Entry>>, files: set<nat>, bound: nat) {
    forall n :: n in files ==> n in tables && n < bound
  }

  ghost predicate UpTo(es: set<Entry>, last: nat) {
    forall e :: e in es ==> e.seqno <= last
  }

  /** What the manifest names is there, and its counters cover it. */
  ghost predicate ManifestOk(d: Disk) {
    && d.current in d.manifests
    && var m := Committed(d);
       && m.logNumber.Some? && m.nextFile.Some? && m.lastSequence.Some?
       && m.logNumber.value < m.nextFile.value && d.current < m.nextFile.value
       && Present(d.tables, m.files, m.nextFile.value)
       && UpTo(TableEntries(d.tables, m.files), m.lastSequence.value)
  }

  /** The current log holds the memtable, and last the record in flight; the logs before it that
      are still needed hold the immutable memtable. */
  ghost predicate LogsOk(d: Disk, p: Phase)
    requires p.Running?
  {
    && IsNewestLog(d.logs, p.log) && p.versionLog <= p.log < p.nextFile
    && var records := d.logs[p.log];
       && (p.inFlight.None? ==> Logged(records) == p.mem)
       && (p.inFlight.Some? ==> records != [] && records[|records| - 1] == p.inFlight.value
                                && Logged(records[..|records| - 1]) == p.mem
                                     && p.inFlight.value.after == p.lastSequence)
       && LogRange(d.logs, p.versionLog, p.log) == ImmEntries(p)
  }

  ghost predicate ReaderOk(tables: map<nat, set<Entry>>, nextFile: nat, r: Reader) {
    Present(tables, r.files, nextFile) && TableEntries(tables, r.files) == r.seen
  }

  ghost predicate ReadersOk(d: Disk, p: Phase)
    requires p.Running?
  {
    && Present(d.tables, p.version, p.nextFile)
    && forall i {:trigger p.readers[i]} :: 0 <= i < |p.readers| ==> ReaderOk(d.tables, p.nextFile, p.readers[i])
  }

  /** An edit ready for the manifest. */
  ghost predicate EditOk(d: Disk, p: Phase, e: Edit, cause: Cause)
    requires p.Running?
  {
    && e.logNumber.Some? && e.nextFile.Some? && e.lastSequence.Some?
    && e.logNumber.value < e.nextFile.value <= p.nextFile && e.lastSequence.value <= p.lastSequence
    && e.deleted <= p.version
    && Present(d.tables, e.added, e.nextFile.value) && UpTo(TableEntries(d.tables, e.added), e.lastSequence.value)
    && if cause.Flush? then
         p.imm.Some? && e.deleted == {} && e.logNumber.value == p.log && TableEntries(d.tables, e.added) == p.imm.value
       else
         e.logNumber.value == p.versionLog && TableEntries(d.tables, e.added) <= TableEntries(d.tables, e.deleted)
  }

  ghost predicate JobOk(d: Disk, p: Phase)
    requires p.Running? && ManifestOk(d)
  {
    var m := Committed(d);
    match p.job
    case Installing(e, cause) =>
      && EditOk(d, p, e, cause)
      && m == Manifest(p.version - e.deleted + e.added, e.logNumber, e.nextFile, e.lastSequence)
    case Logging(e, cause) =>
      && m.files == p.version && m.logNumber.value == p.versionLog
      && EditOk(d, p, e, cause)
      && m.nextFile.value <= e.nextFile.value && m.lastSequence.value <= e.lastSequence.value
    case Building(n) =>
      && m.files == p.version && m.logNumber.value == p.versionLog
      && p.imm.Some? && n < p.nextFile && n !in p.version && m.nextFile.value <= p.nextFile
      && (forall i {:trigger p.readers[i]} :: 0 <= i < |p.readers| ==> n !in p.readers[i].files)
    case Compacting(inputs, outputs) =>
      && m.files == p.version && m.logNumber.value == p.versionLog
      && inputs <= p.version && Present(d.tables, outputs, p.nextFile)
      && TableEntries(d.tables, outputs) <= TableEntries(d.tables, inputs)
    case _ => m.files == p.version && m.logNumber.value == p.versionLog
  }

  /** Entries the running database can reach through a set of tables. */
  ghost function Held(d: Disk, p: Phase, files: set<nat>): set<Entry>
    requires p.Running?
  {
    TableEntries(d.tables, files) + ImmEntries(p) + p.mem
  }

  ghost predicate RunningOk(a: State)
    requires a.phase.Running? && ManifestOk(a.disk)
  {
    var d, p := a.disk, a.phase;
    && LogsOk(d, p) && ReadersOk(d, p) && JobOk(d, p)
    && Committed(d).nextFile.value <= p.nextFile && Committed(d).lastSequence.value <= p.lastSequence
    && UpTo(a.history, p.lastSequence)
    && Held(d, p, p.version) + a.dropped == a.history
    && Held(d, p, Committed(d).files) + a.dropped == a.history
  }

  ghost function LogsIn(logs: map<nat, seq<Record>>, numbers: seq<nat>): set<Entry> {
    set n, e | n in numbers && n in logs && e in Logged(logs[n]) :: e
  }

  ghost predicate RecoveringOk(a: State)
    requires a.phase.Recovering? && ManifestOk(a.disk)
  {
    var d, p, m := a.disk, a.phase, Committed(a.disk);
    && p.version == m.files && p.manifest == m.nextFile.value < p.nextFile
    && Present(d.tables, p.made, p.nextFile) && (forall n :: n in p.made ==> p.manifest < n)
    && (forall i, j :: 0 <= i < j < |p.todo| ==> p.todo[i] < p.todo[j])
    && (forall n :: n in p.todo ==> n in d.logs && m.logNumber.value <= n)
    && (forall n :: n in d.logs && n !in p.todo ==> n < p.nextFile)
    && TableEntries(d.tables, p.made) + LogsIn(d.logs, p.todo) == LogFrom(d.logs, m.logNumber.value)
    && m.lastSequence.value <= p.lastSequence && UpTo(TableEntries(d.tables, p.made), p.lastSequence)
    && (p.newLog.Some? ==> p.todo == [] && IsNewestLog(d.logs, p.newLog.value) && d.logs[p.newLog.value] == []
                           && m.nextFile.value < p.newLog.value < p.nextFile)
    && Recoverable(d) + a.dropped == a.history
  }

  ghost predicate Invariant(a: State) {
    && ManifestOk(a.disk) && UpTo(a.dropped, Committed(a.disk).lastSequence.value)
    && (if a.phase.Running? then RunningOk(a) else RecoveringOk(a))
  }

  // ----- What a step leaves alone -----

  lemma JobFrame(d: Disk, p: Phase, d2: Disk, p2: Phase)
    requires p.Running? && p2.Running? && ManifestOk(d) && ManifestOk(d2) && JobOk(d, p)
    requires d2.tables == d.tables && Committed(d2) == Committed(d)
    requires p2.version == p.version && p2.job == p.job && p2.imm == p.imm && p2.versionLog == p.versionLog
    requires p2.log == p.log
    requires p.nextFile <= p2.nextFile && p.lastSequence <= p2.lastSequence
    requires forall r :: r in p2.readers ==> r in p.readers || r.files == p.version
    ensures JobOk(d2, p2)
  {
    if p.job.Building? {
      forall i {:trigger p2.readers[i]} | 0 <= i < |p2.readers| ensures p.job.number !in p2.readers[i].files {
        assert p2.readers[i] in p2.readers;
      }
    }
  }

  lemma LogsFrame(d: Disk, p: Phase, d2: Disk, p2: Phase)
    requires p.Running? && p2.Running? && LogsOk(d, p)
    requires d2.logs == d.logs && p2.log == p.log && p2.versionLog == p.versionLog && p2.mem == p.mem && p2.imm == p.imm
    requires p2.inFlight == p.inFlight && p2.lastSequence == p.lastSequence && p.nextFile <= p2.nextFile
    ensures LogsOk(d2, p2)
  {
  }

  lemma ReadersFrame(d: Disk, p: Phase, d2: Disk, p2: Phase)
    requires p.Running? && p2.Running? && ReadersOk(d, p)
    requires d2.tables == d.tables && p.nextFile <= p2.nextFile && p2.version == p.version && p2.readers == p.readers
    ensures ReadersOk(d2, p2)
  {
  }

  /** No table but number `n` has changed. */
  ghost predicate Touches(t: map<nat, set<Entry>>, u: map<nat, set<Entry>>, n: nat) {
    forall k :: k in t && k != n ==> k in u && u[k] == t[k]
  }

  lemma TouchEntries(t: map<nat, set<Entry>>, u: map<nat, set<Entry>>, n: nat, files: set<nat>, next: nat)
    requires Touches(t, u, n) && Present(t, files, next) && n !in files
    ensures Present(u, files, next) && TableEntries(u, files) == TableEntries(t, files)
  {
    TableEntriesFrame(t, u, files);
  }

  lemma TouchManifest(d: Disk, u: map<nat, set<Entry>>, n: nat)
    requires ManifestOk(d) && n !in Committed(d).files && Touches(d.tables, u, n)
    ensures ManifestOk(d.(tables := u))
    ensures TableEntries(u, Committed(d).files) == TableEntries(d.tables, Committed(d).files)
  {
    TouchEntries(d.tables, u, n, Committed(d).files, Committed(d).nextFile.value);
  }

  lemma TouchReaders(d: Disk, p: Phase, u: map<nat, set<Entry>>, n: nat)
    requires p.Running? && ReadersOk(d, p) && Touches(d.tables, u, n)
    requires n !in p.version && forall i {:trigger p.readers[i]} :: 0 <= i < |p.readers| ==> n !in p.readers[i].files
    ensures ReadersOk(d.(tables := u), p)
    ensures TableEntries(u, p.version) == TableEntries(d.tables, p.version)
  {
    TouchEntries(d.tables, u, n, p.version, p.nextFile);
    forall i {:trigger p.readers[i]} | 0 <= i < |p.readers| ensures ReaderOk(u, p.nextFile, p.readers[i]) {
      TouchEntries(d.tables, u, n, p.readers[i].files, p.nextFile);
    }
  }

  // ----- Every step keeps the invariant -----

  lemma AppendLogKeeps(a: State, writes: seq<Write>, b: State)
    requires Invariant(a) && Serves(a, AppendLog(writes), b)
    ensures Invariant(b)
  {
    var p := a.phase;
    var r := Record(p.lastSequence, writes);
    assert (a.disk.logs[p.log] + [r])[..|a.disk.logs[p.log]|] == a.disk.logs[p.log];
    LogRangeFrame(a.disk.logs, b.disk.logs, p.versionLog, p.log);
    JobFrame(a.disk, p, b.disk, b.phase);
    ReadersFrame(a.disk, p, b.disk, b.phase);
  }

  lemma InsertMemLogs(a: State, b: State)
    requires a.phase.Running? && LogsOk(a.disk, a.phase) && Serves(a, InsertMem, b)
    ensures LogsOk(b.disk, b.phase)
    ensures forall e :: e in a.phase.inFlight.value.Entries() ==> e.seqno <= b.phase.lastSequence
    ensures a.phase.lastSequence <= b.phase.lastSequence
  {
    CutLog(a.disk, a.phase, |a.disk.logs[a.phase.log]|);
    assert a.disk.logs[a.phase.log][..|a.disk.logs[a.phase.log]|] == a.disk.logs[a.phase.log];
    RecordUpTo(a.phase.inFlight.value);
  }

  lemma InsertMemKeeps(a: State, b: State)
    requires Invariant(a) && Serves(a, InsertMem, b)
    ensures Invariant(b)
  {
    InsertMemLogs(a, b);
    JobFrame(a.disk, a.phase, b.disk, b.phase);
    ReadersFrame(a.disk, a.phase, b.disk, b.phase);
  }

  lemma RecordUpTo(r: Record)
    ensures forall e :: e in r.Entries() ==> r.after < e.seqno <= r.LastSequence()
  {
  }

  lemma SwitchMemTableKeeps(a: State, b: State)
    requires Invariant(a) && Serves(a, SwitchMemTable, b)
    ensures Invariant(b)
  {
    var p := a.phase;
    LogFromNewest(a.disk.logs, p.versionLog, p.log);
    LogRangeOfNew(a.disk.logs, p.versionLog, p.nextFile);
    SwitchJob(a, b);
    ReadersFrame(a.disk, p, b.disk, b.phase);
  }

  lemma SwitchJob(a: State, b: State)
    requires Invariant(a) && Serves(a, SwitchMemTable, b)
    ensures ManifestOk(b.disk) && JobOk(b.disk, b.phase)
  {
  }

  lemma ReadersKeep(a: State, s: Step, b: State)
    requires Invariant(a) && Serves(a, s, b) && (s.RefVersion? || s.UnrefVersion?)
    ensures Invariant(b)
  {
    JobFrame(a.disk, a.phase, b.disk, b.phase);
    LogsFrame(a.disk, a.phase, b.disk, b.phase);
  }

  lemma StartFlushKeeps(a: State, partial: set<Entry>, b: State)
    requires Invariant(a) && Works(a, StartFlush(partial), b)
    ensures Invariant(b)
  {
    var d, p, u := a.disk, a.phase, b.disk.tables;
    TouchManifest(d, u, p.nextFile);
    TouchReaders(d, p, u, p.nextFile);
    ReadersFrame(d.(tables := u), p, b.disk, b.phase);
    LogsFrame(d, p, b.disk, b.phase);
  }

  lemma BuildFlushKeeps(a: State, b: State)
    requires Invariant(a) && Works(a, BuildFlush, b)
    ensures Invariant(b)
  {
    var d, p, u := a.disk, a.phase, b.disk.tables;
    TouchManifest(d, u, p.job.number);
    TouchReaders(d, p, u, p.job.number);
    ReadersFrame(d.(tables := u), p, b.disk, b.phase);
    LogsFrame(d, p, b.disk, b.phase);
    BuiltTable(u, p.job.number, p.imm.value);
  }

  lemma BuiltTable(u: map<nat, set<Entry>>, n: nat, contents: set<Entry>)
    requires contents != {} ==> n in u && u[n] == contents
    ensures TableEntries(u, if contents != {} then {n} else {}) == contents
  {
  }

  lemma PrepareKeeps(a: State, s: Step, b: State)
    requires Invariant(a) && Works(a, s, b) && (s.StartCompaction? || s.FinishCompaction? || s.MoveFile?)
    ensures Invariant(b)
  {
    LogsFrame(a.disk, a.phase, b.disk, b.phase);
    ReadersFrame(a.disk, a.phase, b.disk, b.phase);
    if s.FinishCompaction? {
      UpToSubset(a, a.phase.job.outputs, a.phase.job.inputs);
    } else if s.MoveFile? {
      UpToSubset(a, {s.number}, {s.number});
    }
  }

  lemma TableEntriesMonotone(t: map<nat, set<Entry>>, files: set<nat>, more: set<nat>)
    requires files <= more
    ensures TableEntries(t, files) <= TableEntries(t, more)
  {
  }

  lemma UpToSubset(a: State, outputs: set<nat>, inputs: set<nat>)
    requires Invariant(a) && a.phase.Running? && inputs <= a.phase.version
    requires TableEntries(a.disk.tables, outputs) <= TableEntries(a.disk.tables, inputs)
    ensures UpTo(TableEntries(a.disk.tables, outputs), a.phase.lastSequence)
  {
    TableEntriesMonotone(a.disk.tables, inputs, a.phase.version);
  }

  lemma WriteOutputKeeps(a: State, contents: set<Entry>, b: State)
    requires Invariant(a) && Works(a, WriteOutput(contents), b)
    ensures Invariant(b)
  {
    var d, p, u := a.disk, a.phase, b.disk.tables;
    TouchManifest(d, u, p.nextFile);
    TouchReaders(d, p, u, p.nextFile);
    ReadersFrame(d.(tables := u), p, b.disk, b.phase);
    LogsFrame(d, p, b.disk, b.phase);
    TouchEntries(d.tables, u, p.nextFile, p.job.outputs, p.nextFile);
    TouchEntries(d.tables, u, p.nextFile, p.job.inputs, p.nextFile);
    TableEntriesSplit(u, p.job.outputs, {p.nextFile});
    BuiltTable(u, p.nextFile, contents);
    assert TableEntries(u, {p.nextFile}) == contents;
  }

  lemma LogEditKeeps(a: State, b: State)
    requires Invariant(a) && Works(a, LogEdit, b)
    ensures Invariant(b)
  {
    var d, p, e := a.disk, a.phase, a.phase.job.edit;
    ReplayAppend(d.manifests[d.current], e);
    LogsFrame(d, p, b.disk, b.phase);
    ReadersFrame(d, p, b.disk, b.phase);
    EditEntries(d.tables, p.version, e);
    TableEntriesMonotone(d.tables, e.deleted, p.version);
  }

  /** What an edit does to the entries of the version it is applied to. */
  lemma EditEntries(t: map<nat, set<Entry>>, version: set<nat>, e: Edit)
    requires e.deleted <= version
    ensures var after := TableEntries(t, version - e.deleted + e.added);
            && TableEntries(t, version) + TableEntries(t, e.added) == after + TableEntries(t, e.deleted)
            && after + (TableEntries(t, e.deleted) - TableEntries(t, e.added)) == after + TableEntries(t, e.deleted)
  {
    TableEntriesSplit(t, version - e.deleted, e.added);
    TableEntriesSplit(t, version - e.deleted, e.deleted);
    assert version - e.deleted + e.deleted == version;
  }

  lemma InstallKeeps(a: State, b: State)
    requires Invariant(a) && Works(a, Install, b)
    ensures Invariant(b)
  {
    var d, p := a.disk, a.phase;
    if p.job.cause.Flush? {
      assert LogRange(d.logs, p.log, p.log) == {};
    }
  }

  /** Some obsolete files are gone, and nothing else has changed. */
  ghost predicate Shrunk(d: Disk, p: Phase, e: Disk)
    requires p.Running?
  {
    && e.current == d.current
    && (forall n :: n in e.tables ==> n in d.tables && e.tables[n] == d.tables[n])
    && (forall n :: n in d.tables && TableNeeded(p, n) ==> n in e.tables)
    && (forall n :: n in e.logs ==> n in d.logs && e.logs[n] == d.logs[n])
    && (forall n :: n in d.logs && n >= p.versionLog ==> n in e.logs)
    && (forall n :: n in e.manifests ==> n in d.manifests && e.manifests[n] == d.manifests[n])
    && (forall n :: n in d.manifests && n >= d.current ==> n in e.manifests)
  }

  lemma ShrinkTables(d: Disk, p: Phase, e: Disk)
    requires p.Running? && ManifestOk(d) && ReadersOk(d, p) && p.job.Cleaning? && JobOk(d, p) && Shrunk(d, p, e)
    ensures ManifestOk(e) && ReadersOk(e, p) && JobOk(e, p) && Committed(e) == Committed(d)
    ensures TableEntries(e.tables, p.version) == TableEntries(d.tables, p.version)
  {
    TableEntriesFrame(d.tables, e.tables, p.version);
    forall i {:trigger p.readers[i]} | 0 <= i < |p.readers| ensures ReaderOk(e.tables, p.nextFile, p.readers[i]) {
      TableEntriesFrame(d.tables, e.tables, p.readers[i].files);
    }
  }

  lemma ShrinkKeeps(a: State, b: State)
    requires Invariant(a) && a.phase.Running? && a.phase.job.Cleaning?
    requires b == a.(disk := b.disk) && Shrunk(a.disk, a.phase, b.disk)
    ensures Invariant(b)
  {
    ShrinkTables(a.disk, a.phase, b.disk);
    LogRangeFrame(a.disk.logs, b.disk.logs, a.phase.versionLog, a.phase.log);
  }

  lemma CleansKeeps(a: State, s: Step, b: State)
    requires Invariant(a) && Cleans(a, s, b)
    ensures Invariant(b)
  {
    if s.DoneCleaning? {
      LogsFrame(a.disk, a.phase, b.disk, b.phase);
      ReadersFrame(a.disk, a.phase, b.disk, b.phase);
    } else {
      ShrinkKeeps(a, b);
    }
  }

  // ----- Crash and recovery -----

  /** What recovery will find if the newest log keeps `kept` records: all that was acknowledged, and
      the write in flight when its record is whole. */
  lemma CutRecovers(a: State, kept: nat)
    requires Invariant(a) && a.phase.Running? && kept <= |a.disk.logs[a.phase.log]|
    requires kept == |a.disk.logs[a.phase.log]| || (a.phase.inFlight.Some? && kept + 1 == |a.disk.logs[a.phase.log]|)
    ensures ManifestOk(Cut(a.disk, a.phase.log, kept))
    ensures Recoverable(Cut(a.disk, a.phase.log, kept)) ==
            Held(a.disk, a.phase, Committed(a.disk).files)
            + if kept == |a.disk.logs[a.phase.log]| then InFlightEntries(a.phase) else {}
  {
    var d, p := a.disk, a.phase;
    var c, from := Cut(d, p.log, kept), Committed(d).logNumber.value;
    CommittedLogs(d, p);
    CutLog(d, p, kept);
    LogFromNewest(c.logs, from, p.log);
    LogRangeFrame(d.logs, c.logs, from, p.log);
  }

  lemma CutLog(d: Disk, p: Phase, kept: nat)
    requires p.Running? && LogsOk(d, p) && kept <= |d.logs[p.log]|
    requires kept == |d.logs[p.log]| || (p.inFlight.Some? && kept + 1 == |d.logs[p.log]|)
    ensures Logged(d.logs[p.log][..kept]) == p.mem + if kept == |d.logs[p.log]| then InFlightEntries(p) else {}
  {
    var records := d.logs[p.log];
    assert records[..|records|] == records;
    if p.inFlight.Some? {
      assert records == records[..|records| - 1] + [records[|records| - 1]];
      LoggedPush(records[..|records| - 1], p.inFlight.value);
    }
  }

  /** The logs before the current one that the manifest still needs hold the immutable memtable,
      unless its table is in the manifest already. */
  lemma CommittedLogs(d: Disk, p: Phase)
    requires p.Running? && ManifestOk(d) && JobOk(d, p) && LogsOk(d, p)
    ensures Committed(d).logNumber.value <= p.log
    ensures TableEntries(d.tables, Committed(d).files) + LogRange(d.logs, Committed(d).logNumber.value, p.log)
         == TableEntries(d.tables, Committed(d).files) + ImmEntries(p)
  {
    if p.job.Installing? && p.job.cause.Flush? {
      assert LogRange(d.logs, p.log, p.log) == {};
      TableEntriesMonotone(d.tables, p.job.edit.added, Committed(d).files);
    }
  }

  lemma StartRecovery(d: Disk, p: Phase, history: set<Entry>, dropped: set<Entry>)
    requires ManifestOk(d) && RecoverFrom(d, p) && Recoverable(d) + dropped == history
    ensures RecoveringOk(State(d, p, history, dropped))
  {
    var from := Committed(d).logNumber.value;
    assert LogsIn(d.logs, p.todo) == LogFrom(d.logs, from);
    assert TableEntries(d.tables, {}) == {};
  }

  lemma CrashKeeps(a: State, kept: nat, b: State)
    requires Invariant(a) && Crashes(a, kept, b)
    ensures Invariant(b)
  {
    if a.phase.Running? {
      CutRecovers(a, kept);
      assert Committed(b.disk) == Committed(a.disk);
    }
    StartRecovery(b.disk, b.phase, b.history, b.dropped);
  }

  lemma LogsInStep(logs: map<nat, seq<Record>>, todo: seq<nat>)
    requires todo != [] && todo[0] in logs
    ensures LogsIn(logs, todo) == Logged(logs[todo[0]]) + LogsIn(logs, todo[1..])
  {
    assert todo == [todo[0]] + todo[1..];
  }

  /** Tables under numbers not yet given away change nothing. */
  lemma RecoverPartKeeps(a: State, b: State)
    requires Invariant(a) && Recovers(a, RecoverPart, b)
    ensures Invariant(b)
    ensures Recoverable(b.disk) == Recoverable(a.disk)
  {
    var d, p, u := a.disk, a.phase, b.disk.tables;
    WrittenOutFrame(d.tables, [], p.nextFile, u, Committed(d).files);
    WrittenOutFrame(d.tables, [], p.nextFile, u, p.made);
  }

  lemma RecoverLogKeeps(a: State, groups: seq<seq<Record>>, b: State)
    requires Invariant(a) && Recovers(a, RecoverLog(groups), b)
    ensures Invariant(b)
    ensures Recoverable(b.disk) == Recoverable(a.disk)
  {
    RecoverLogForm(a, groups, b);
    RecoverLogEntries(a, groups, b);
  }

  /** The tables made so far and the logs still to do always hold the same entries. */
  lemma RecoverLogEntries(a: State, groups: seq<seq<Record>>, b: State)
    requires Invariant(a) && Recovers(a, RecoverLog(groups), b)
    ensures ManifestOk(b.disk) && Recoverable(b.disk) == Recoverable(a.disk)
    ensures b.phase.made <= b.disk.tables.Keys && UpTo(TableEntries(b.disk.tables, b.phase.made), b.phase.lastSequence)
    ensures TableEntries(b.disk.tables, b.phase.made) + LogsIn(b.disk.logs, b.phase.todo)
         == TableEntries(a.disk.tables, a.phase.made) + LogsIn(a.disk.logs, a.phase.todo)
  {
    var d, p, u := a.disk, a.phase, b.disk.tables;
    WrittenOutFrame(d.tables, groups, p.nextFile, u, Committed(d).files);
    WrittenOutFrame(d.tables, groups, p.nextFile, u, p.made);
    WrittenOutEntries(d.tables, groups, p.nextFile, u);
    TableEntriesSplit(u, p.made, MadeFrom(groups, p.nextFile));
    LogsInStep(d.logs, p.todo);
    LoggedBelow(d.logs[p.todo[0]], p.lastSequence);
  }

  lemma WrittenOutFrame(t: map<nat, set<Entry>>, groups: seq<seq<Record>>, next: nat, u: map<nat, set<Entry>>,
                        files: set<nat>)
    requires WrittenOut(t, groups, next, u) && Present(t, files, next)
    ensures Present(u, files, next) && TableEntries(u, files) == TableEntries(t, files)
  {
    TableEntriesFrame(t, u, files);
  }

  /** The numbers recovery keeps track of, after one more log. */
  lemma RecoverLogForm(a: State, groups: seq<seq<Record>>, b: State)
    requires Invariant(a) && Recovers(a, RecoverLog(groups), b)
    ensures var d, p := b.disk, b.phase;
            && p.manifest < p.nextFile && (forall n :: n in p.made ==> p.manifest < n < p.nextFile)
            && (forall i, j :: 0 <= i < j < |p.todo| ==> p.todo[i] < p.todo[j])
            && (forall n :: n in p.todo ==> n in d.logs && n in a.phase.todo)
            && (forall n :: n in d.logs && n !in p.todo ==> n < p.nextFile)
  {
    var todo := a.phase.todo;
    assert forall n :: n in todo ==> n == todo[0] || n in todo[1..];
    assert forall n :: n in todo[1..] ==> n in todo;
  }

  lemma NewLogKeeps(a: State, b: State)
    requires Invariant(a) && Recovers(a, NewLog, b)
    ensures Invariant(b)
    ensures Recoverable(b.disk) == Recoverable(a.disk)
  {
    LogRangeOfNew(a.disk.logs, Committed(a.disk).logNumber.value, a.phase.nextFile);
    assert LogsIn(a.disk.logs, []) == {} == LogsIn(b.disk.logs, []);
  }

  lemma WriteManifestKeeps(a: State, b: State)
    requires Invariant(a) && Recovers(a, WriteManifest, b)
    ensures Invariant(b)
    ensures Recoverable(b.disk) == Recoverable(a.disk)
  {
  }

  lemma NewManifestReplays(p: Phase)
    requires p.Recovering? && p.newLog.Some?
    ensures Replay(NewManifest(p)) == Manifest(p.version + p.made, p.newLog, Some(p.nextFile), Some(p.lastSequence))
  {
    var e, f := NewManifest(p)[0], NewManifest(p)[1];
    ReplayAppend([], e);
    ReplayAppend([e], f);
    assert [] + [e] == [e] && [e] + [f] == NewManifest(p);
  }

  /** Once CURRENT names the new manifest the database holds exactly what the old one made recoverable. */
  lemma SetCurrentKeeps(a: State, b: State)
    requires Invariant(a) && Recovers(a, SetCurrent, b)
    ensures Invariant(b)
    ensures Held(b.disk, b.phase, b.phase.version) == Recoverable(a.disk)
  {
    var d, p := a.disk, a.phase;
    NewManifestReplays(p);
    TableEntriesSplit(d.tables, p.version, p.made);
    assert LogsIn(d.logs, []) == {};
    assert LogRange(d.logs, p.newLog.value, p.newLog.value) == {} == Logged([]);
  }

  // ----- Whole runs -----

  lemma ServesKeeps(a: State, s: Step, b: State)
    requires Invariant(a) && Serves(a, s, b)
    ensures Invariant(b)
  {
    if s.AppendLog? {
      AppendLogKeeps(a, s.writes, b);
    } else if s.InsertMem? {
      InsertMemKeeps(a, b);
    } else if s.SwitchMemTable? {
      SwitchMemTableKeeps(a, b);
    } else {
      ReadersKeep(a, s, b);
    }
  }

  lemma WorksKeeps(a: State, s: Step, b: State)
    requires Invariant(a) && Works(a, s, b)
    ensures Invariant(b)
  {
    if s.StartFlush? {
      StartFlushKeeps(a, s.partial, b);
    } else if s.BuildFlush? {
      BuildFlushKeeps(a, b);
    } else if s.WriteOutput? {
      WriteOutputKeeps(a, s.contents, b);
    } else if s.LogEdit? {
      LogEditKeeps(a, b);
    } else if s.Install? {
      InstallKeeps(a, b);
    } else {
      PrepareKeeps(a, s, b);
    }
  }

  lemma RecoversKeeps(a: State, s: Step, b: State)
    requires Invariant(a) && Recovers(a, s, b)
    ensures Invariant(b)
    ensures s.SetCurrent? <==> b.phase.Running?
    ensures b.phase.Recovering? ==> Recoverable(b.disk) == Recoverable(a.disk)
    ensures b.phase.Running? ==> Held(b.disk, b.phase, b.phase.version) == Recoverable(a.disk)
    ensures b.history == a.history && b.dropped == a.dropped
  {
    match s
    case RecoverPart => RecoverPartKeeps(a, b);
    case RecoverLog(groups) => RecoverLogKeeps(a, groups, b);
    case NewLog => NewLogKeeps(a, b);
    case WriteManifest => WriteManifestKeeps(a, b);
    case SetCurrent => SetCurrentKeeps(a, b);
  }

  lemma StepKeeps(a: State, s: Step, b: State)
    requires Invariant(a) && Does(a, s, b)
    ensures Invariant(b)
  {
    if s.Crash? {
      CrashKeeps(a, s.kept, b);
    } else if a.phase.Recovering? {
      RecoversKeeps(a, s, b);
    } else if Serves(a, s, b) {
      ServesKeeps(a, s, b);
    } else if Cleans(a, s, b) {
      CleansKeeps(a, s, b);
    } else {
      WorksKeeps(a, s, b);
    }
  }

  lemma InitialOk(a: State)
    requires Initial(a)
    ensures Invariant(a)
  {
    var e := Edit({}, {}, Some(0), Some(2), Some(0));
    ReplayAppend([], e);
    assert [] + [e] == [e];
    assert TableEntries(a.disk.tables, {}) == {} == LogFrom(a.disk.logs, 0);
    StartRecovery(a.disk, a.phase, a.history, a.dropped);
  }

  ghost predicate Follows(states: seq<State>, steps: seq<Step>, i: nat)
    requires i < |steps| < |states|
  {
    states[i].disk.current in states[i].disk.manifests && Does(states[i], steps[i], states[i + 1])
  }

  ghost predicate IsRun(states: seq<State>, steps: seq<Step>) {
    && |states| == |steps| + 1 && Initial(states[0])
    && forall i {:trigger Follows(states, steps, i)} :: 0 <= i < |steps| ==> Follows(states, steps, i)
  }

  lemma {:induction false} RunKeeps(states: seq<State>, steps: seq<Step>, k: nat)
    requires IsRun(states, steps) && k < |states|
    ensures Invariant(states[k])
  {
    if k == 0 {
      InitialOk(states[0]);
    } else {
      RunKeeps(states, steps, k - 1);
      assert Follows(states, steps, k - 1);
      StepKeeps(states[k - 1], steps[k - 1], states[k]);
    }
  }

  lemma StepAt(states: seq<State>, steps: seq<Step>, k: nat)
    requires IsRun(states, steps) && k < |steps|
    ensures Invariant(states[k]) && Does(states[k], steps[k], states[k + 1]) && Invariant(states[k + 1])
  {
    RunKeeps(states, steps, k);
    RunKeeps(states, steps, k + 1);
    assert Follows(states, steps, k);
  }

  /** At every point of every run the running database holds every write that took effect, except the
      entries compactions left out; and so does what a recovery from that point would find. */
  lemma NothingLost(states: seq<State>, steps: seq<Step>, k: nat)
    requires IsRun(states, steps) && k < |states|
    ensures var a := states[k];
            && ManifestOk(a.disk)
            && (a.phase.Running? ==> Held(a.disk, a.phase, a.phase.version) + a.dropped == a.history)
            && Recoverable(a.disk) + a.dropped == a.history + InFlightEntries(a.phase)
  {
    RunKeeps(states, steps, k);
    var a := states[k];
    if a.phase.Running? {
      CutRecovers(a, |a.disk.logs[a.phase.log]|);
      var log := a.disk.logs[a.phase.log];
      assert log[..|log|] == log;
      assert Cut(a.disk, a.phase.log, |log|) == a.disk;
    }
  }

  /** No deletion ever takes a file away that the current version, a reader, or recovery needs: readers
      go on seeing the entries their tables held when they took their version. */
  lemma NothingNeededIsDeleted(states: seq<State>, steps: seq<Step>, k: nat)
    requires IsRun(states, steps) && k < |states| && states[k].phase.Running?
    ensures var d, p := states[k].disk, states[k].phase;
            && d.current in d.manifests && Committed(d).files <= d.tables.Keys && p.version <= d.tables.Keys
            && p.log in d.logs
            && forall r :: r in p.readers ==> r.files <= d.tables.Keys && TableEntries(d.tables, r.files) == r.seen
  {
    RunKeeps(states, steps, k);
  }

  /** A write gets sequence numbers above those of every earlier write, across crashes too. */
  lemma SequencesAreFresh(states: seq<State>, steps: seq<Step>, k: nat)
    requires IsRun(states, steps) && k < |steps| && steps[k].AppendLog?
    ensures states[k + 1].phase.Running? && states[k + 1].phase.inFlight.Some?
    ensures forall e, h :: e in InFlightEntries(states[k + 1].phase) && h in states[k].history ==> h.seqno < e.seqno
  {
    StepAt(states, steps, k);
    RecordUpTo(states[k + 1].phase.inFlight.value);
  }

  ghost function Found(d: Disk): set<Entry> {
    if ManifestOk(d) then Recoverable(d) else {}
  }

  lemma RecoveryStep(a: State, s: Step, b: State)
    requires Invariant(a) && a.phase.Recovering? && Does(a, s, b) && b.phase.Recovering?
    ensures Found(b.disk) == Found(a.disk)
  {
    if s.Crash? {
      CrashKeeps(a, s.kept, b);
    } else {
      RecoversKeeps(a, s, b);
    }
  }

  lemma RecoveryEnds(a: State, s: Step, b: State)
    requires Invariant(a) && a.phase.Recovering? && Does(a, s, b) && b.phase.Running?
    ensures Held(b.disk, b.phase, b.phase.version) == Found(a.disk)
  {
    RecoversKeeps(a, s, b);
  }

  ghost predicate Interrupted(states: seq<State>, i: nat, j: nat) {
    j < |states| && forall k :: i <= k <= j ==> states[k].phase.Recovering?
  }

  /** A recovery, however often it is itself interrupted, finds the same entries at every stage. */
  lemma {:induction false} RecoveryFindsTheSame(states: seq<State>, steps: seq<Step>, i: nat, j: nat)
    requires IsRun(states, steps) && i <= j && Interrupted(states, i, j)
    ensures Found(states[j].disk) == Found(states[i].disk)
  {
    if i < j {
      RecoveryFindsTheSame(states, steps, i, j - 1);
      RecoveryStepAt(states, steps, j - 1);
    }
  }

  lemma RecoveryStepAt(states: seq<State>, steps: seq<Step>, k: nat)
    requires IsRun(states, steps) && k < |steps| && states[k].phase.Recovering? && states[k + 1].phase.Recovering?
    ensures Found(states[k + 1].disk) == Found(states[k].disk)
  {
    StepAt(states, steps, k);
    RecoveryStep(states[k], steps[k], states[k + 1]);
  }

  /** The entries a crash leaves to be recovered: those of the last logged version and the memtables,
      and the write in flight if its record was whole. */
  ghost function Surviving(a: State, kept: nat): set<Entry>
    requires a.phase.Running? && a.disk.current in a.disk.manifests && a.phase.log in a.disk.logs
  {
    Held(a.disk, a.phase, Committed(a.disk).files)
    + if kept == |a.disk.logs[a.phase.log]| then InFlightEntries(a.phase) else {}
  }

  lemma CrashLeaves(a: State, s: Step, b: State)
    requires Invariant(a) && a.phase.Running? && s.Crash? && Does(a, s, b)
    ensures Found(b.disk) == Surviving(a, s.kept)
  {
    CutRecovers(a, s.kept);
  }

  lemma RunningDisk(states: seq<State>, steps: seq<Step>, k: nat)
    requires IsRun(states, steps) && k < |states| && states[k].phase.Running?
    ensures states[k].disk.current in states[k].disk.manifests && states[k].phase.log in states[k].disk.logs
    ensures !states[k].phase.job.Installing? ==> Committed(states[k].disk).files == states[k].phase.version
  {
    RunKeeps(states, steps, k);
  }

  lemma CrashAt(states: seq<State>, steps: seq<Step>, i: nat)
    requires IsRun(states, steps) && i < |steps| && states[i].phase.Running? && steps[i].Crash?
    requires states[i].disk.current in states[i].disk.manifests && states[i].phase.log in states[i].disk.logs
    ensures Found(states[i + 1].disk) == Surviving(states[i], steps[i].kept)
  {
    StepAt(states, steps, i);
    CrashLeaves(states[i], steps[i], states[i + 1]);
  }

  lemma EndAt(states: seq<State>, steps: seq<Step>, j: nat)
    requires IsRun(states, steps) && j < |steps| && states[j].phase.Recovering? && states[j + 1].phase.Running?
    ensures Held(states[j + 1].disk, states[j + 1].phase, states[j + 1].phase.version) == Found(states[j].disk)
  {
    StepAt(states, steps, j);
    RecoveryEnds(states[j], steps[j], states[j + 1]);
  }

  /** Crash anywhere, recover, possibly crashing again on the way: the reopened database holds exactly
      what survived the crash. */
  lemma RecoveryRebuilds(states: seq<State>, steps: seq<Step>, i: nat, j: nat)
    requires IsRun(states, steps) && i < j < |steps|
    requires states[i].phase.Running? && steps[i].Crash? && Interrupted(states, i + 1, j)
               && states[j + 1].phase.Running?
    ensures var a, b := states[i], states[j + 1];
            && a.disk.current in a.disk.manifests && a.phase.log in a.disk.logs
            && Held(b.disk, b.phase, b.phase.version) == Surviving(a, steps[i].kept)
            && (!a.phase.job.Installing? ==> Committed(a.disk).files == a.phase.version)
  {
    RunningDisk(states, steps, i);
    CrashAt(states, steps, i);
    RecoveryFindsTheSame(states, steps, i + 1, j);
    EndAt(states, steps, j);
  }

  // ----- Deleting obsolete files -----

  /** The table files some version or unfinished job needs (pending outputs, then AddLiveFiles). */
  method LiveFiles(p: Phase) returns (live: set<nat>)
    requires p.Running?
    ensures forall n :: n in live <==> TableNeeded(p, n)
  {
    live := p.pending;
    for i := 0 to |p.readers|
      invariant forall n :: n in live <==> n in p.pending || exists j :: 0 <= j < i && n in p.readers[j].files
    {
      live := live + p.readers[i].files;
    }
    live := live + p.version;
  }

  /** The log before the current one, kept only for databases of versions that had two; here there is none. */
  const PREV_LOG := 0

  /** Deletes exactly the tables and the temporary files nothing needs, the logs below the version's log number and
      the manifests below the current one. */
  method DeleteObsoleteFiles(a: State, temps: map<nat, Bytes>) returns (b: State, tempsLeft: map<nat, Bytes>)
    requires Invariant(a) && a.phase.Running? && a.phase.job.Cleaning?
    ensures Invariant(b) && b == a.(disk := b.disk) && Shrunk(a.disk, a.phase, b.disk)
    ensures forall n :: n in b.disk.tables ==> TableNeeded(a.phase, n)
    ensures forall n :: n in b.disk.logs <==> n in a.disk.logs && (n >= a.phase.versionLog || n == PREV_LOG)
    ensures forall n :: n in b.disk.manifests ==> n >= a.disk.current
    ensures forall n :: n in tempsLeft <==> n in temps && TableNeeded(a.phase, n)
    ensures forall n :: n in tempsLeft ==> tempsLeft[n] == temps[n]
  {
    var d, p := a.disk, a.phase;
    var live := LiveFiles(p);
    var tables := KeepFiles(d.tables, n => n in live);
    var logs := KeepFiles(d.logs, n => n >= p.versionLog || n == PREV_LOG);
    var manifests := KeepFiles(d.manifests, n => n >= d.current);
    tempsLeft := KeepFiles(temps, n => n in live);
    b := a.(disk := Disk(logs, tables, manifests, d.current));
    ShrinkKeeps(a, b);
  }

  /** Goes through a directory listing and deletes the files not to be kept. */
  method KeepFiles<T>(files: map<nat, T>, keep: nat -> bool) returns (kept: map<nat, T>)
    ensures forall n :: n in kept <==> n in files && keep(n)
    ensures forall n :: n in kept ==> kept[n] == files[n]
  {
    kept := files;
    var names := files.Keys;
    while names != {}
      invariant names <= files.Keys
      invariant forall n :: n in kept ==> n in files && kept[n] == files[n]
      invariant forall n :: n in files ==> (n in kept <==> n in names || keep(n))
      decreases names
    {
      var n :| n in names;
      if !keep(n) {
        kept := kept - {n};
      }
      names := names - {n};
    }
  }
}
