/** The writers queue of DBImpl::Write (db/db_impl.cc): the writer at the front of the queue logs and
    inserts a group of batches on behalf of the writers behind it.  A step is what one thread does
    between two points where it holds or may lose the mutex. */
module GroupCommit {
  import opened Entries
  import opened Reference

  /** One call of Write; no batch asks only for a memtable compaction. */
  datatype Request = Request(batch: Option<seq<Write>>, sync: bool, size: nat)

  /** A log record: a group of writes and the last sequence number used before it. */
  datatype Record = Record(after: nat, writes: seq<Write>)

  /** The group a leader has built: how many writers it takes off the queue, what they write, and
      whether tmp_batch_ holds it. */
  datatype Group = Group(count: nat, writes: seq<Write>, usesTmp: bool)

  /** How far a call of Write has come. */
  datatype Progress =
    | Waiting
    | MakingRoom
    | Built(group: Group)
    | Logged(group: Group)
    | Synced(group: Group)
    | Inserted(group: Group)
    | Returned

  /** Calls are numbered in the order they reached the queue; `head` counts those taken off it. */
  datatype State = State(
    calls: seq<Request>, progress: seq<Progress>, done: seq<bool>, queue: seq<nat>, head: nat, tmp: seq<Write>,
    log: seq<Record>, synced: nat, mem: seq<Entry>, lastSequence: nat)

  // ----- Building a group -----

  const BIG_GROUP := 0x10_0000
  const SMALL_BATCH := 0x2_0000

  function MaxSize(first: nat): nat {
    if first <= SMALL_BATCH then first + SMALL_BATCH else BIG_GROUP
  }

  function BatchOf(r: Request): seq<Write> {
    if r.batch.Some? then r.batch.value else []
  }

  /** The batches of requests `i` up to but not including `j`, one after the other. */
  function Batches(requests: seq<Request>, i: nat, j: nat): seq<Write>
    requires i <= j <= |requests|
    decreases j
  {
    if i == j then [] else Batches(requests, i, j - 1) + BatchOf(requests[j - 1])
  }

  function TotalSize(requests: seq<Request>, j: nat): nat
    requires j <= |requests|
  {
    if j == 0 then 0 else TotalSize(requests, j - 1) + if requests[j - 1].batch.Some? then requests[j - 1].size else 0
  }

  lemma {:induction false} BatchesSplit(requests: seq<Request>, i: nat, j: nat, k: nat)
    requires i <= j <= k <= |requests|
    ensures Batches(requests, i, k) == Batches(requests, i, j) + Batches(requests, j, k)
    decreases k
  {
    if j < k {
      BatchesSplit(requests, i, j, k - 1);
    }
  }

  /** Later arrivals change nothing about earlier calls. */
  lemma {:induction false} BatchesArrive(calls: seq<Request>, r: Request, i: nat, j: nat)
    requires i <= j <= |calls|
    ensures Batches(calls + [r], i, j) == Batches(calls, i, j)
    decreases j
  {
    if i < j {
      BatchesArrive(calls, r, i, j - 1);
    }
  }

  lemma {:induction false} BatchesShift(queue: seq<Request>, calls: seq<Request>, head: nat, j: nat)
    requires j <= |queue| && head + j <= |calls| && forall k :: 0 <= k < j ==> queue[k] == calls[head + k]
    ensures Batches(queue, 0, j) == Batches(calls, head, head + j)
  {
    if 0 < j {
      BatchesShift(queue, calls, head, j - 1);
    }
  }

  /** Writer `i` may ride with the first one: it does not ask for a sync the first one will not do,
      and its batch does not make the group too big. */
  predicate Rides(queue: seq<Request>, i: nat)
    requires 0 < i < |queue|
  {
    && (queue[i].sync ==> queue[0].sync)
    && (queue[i].batch.Some? ==> TotalSize(queue, i + 1) <= MaxSize(queue[0].size))
  }

  ghost predicate AllRide(queue: seq<Request>, count: nat) {
    count <= |queue| && forall i :: 0 < i < count ==> Rides(queue, i)
  }

  /** The group takes every writer up to the first that may not ride. */
  ghost predicate IsGroup(queue: seq<Request>, g: Group) {
    && 0 < g.count && AllRide(queue, g.count)
    && (g.count < |queue| ==> !Rides(queue, g.count))
    && g.writes == Batches(queue, 0, g.count)
  }

  /** A writer after the first has a batch. */
  ghost predicate Combines(queue: seq<Request>, n: nat)
    requires n <= |queue|
  {
    exists j :: 0 < j < n && queue[j].batch.Some?
  }

  lemma {:induction false} OneBatch(queue: seq<Request>, n: nat)
    requires 0 < n <= |queue| && queue[0].batch.Some? && !Combines(queue, n)
    ensures Batches(queue, 0, n) == queue[0].batch.value
  {
    if n > 1 {
      OneBatch(queue, n - 1);
    }
  }

  lemma OneMore(queue: seq<Request>, i: nat)
    requires 0 < i < |queue| && AllRide(queue, i) && Rides(queue, i)
    ensures AllRide(queue, i + 1) && (Combines(queue, i + 1) <==> Combines(queue, i) || queue[i].batch.Some?)
  {
  }

  /** No writer of a group asks for a sync the first one does not do, and the batches come to no more than 1 MB, or
      128 KB more than a first one of up to 128 KB, or the first alone; it ends only where one of this would fail. */
  ghost predicate WithinLimits(queue: seq<Request>, count: nat) {
    && 0 < count <= |queue|
    && (forall i :: 0 < i < count && queue[i].sync ==> queue[0].sync)
    && var first, all := queue[0].size, TotalSize(queue, count);
       && all <= (if first <= 0x2_0000 then first + 0x2_0000 else if first <= 0x10_0000 then 0x10_0000 else first)
       && (count < |queue| ==>
             || (queue[count].sync && !queue[0].sync)
             || (queue[count].batch.Some?
                 && all + queue[count].size > if first <= 0x2_0000 then first + 0x2_0000 else 0x10_0000))
  }

  lemma GroupWithin(queue: seq<Request>, count: nat)
    requires 0 < count && AllRide(queue, count) && (count < |queue| ==> !Rides(queue, count))
    requires TotalSize(queue, count) <= MaxSize(queue[0].size) || TotalSize(queue, count) == queue[0].size
    ensures WithinLimits(queue, count)
  {
    forall i | 0 < i < count && queue[i].sync ensures queue[0].sync {
      assert Rides(queue, i);
    }
  }

  /** Joins the batches of the writers that may ride with the first, in tmp_batch_ if there are several. */
  method BuildBatchGroup(queue: seq<Request>, tmp: seq<Write>) returns (g: Group, tmp2: seq<Write>)
    requires queue != [] && queue[0].batch.Some? && tmp == []
    ensures IsGroup(queue, g)
    ensures WithinLimits(queue, g.count)
    ensures tmp2 == if g.usesTmp then g.writes else []
    ensures g.usesTmp <==> Combines(queue, g.count)
  {
    var first := queue[0];
    var result, usesTmp, size := first.batch.value, false, first.size;
    var maxSize := BIG_GROUP;
    if size <= SMALL_BATCH {
      maxSize := size + SMALL_BATCH;
    }
    tmp2 := tmp;
    var i := 1;
    while i < |queue|
      invariant 0 < i && AllRide(queue, i) && (size <= maxSize || size == first.size)
      invariant size == TotalSize(queue, i) && result == Batches(queue, 0, i)
      invariant tmp2 == if usesTmp then result else []
      invariant usesTmp <==> Combines(queue, i)
    {
      var w := queue[i];
      if w.sync && !first.sync {
        break;
      }
      if w.batch.Some? {
        size := size + w.size;
        if size > maxSize {
          break;
        }
        if !usesTmp {
          OneBatch(queue, i);
          usesTmp, tmp2 := true, tmp2 + first.batch.value;
          assert tmp2 == result;
        }
        tmp2 := tmp2 + w.batch.value;
        result := tmp2;
      }
      OneMore(queue, i);
      i := i + 1;
    }
    g := Group(i, result, usesTmp);
    GroupWithin(queue, i);
  }

  // ----- Steps -----

  datatype Step =
    | Arrive(request: Request)
    | Lead(call: nat)          // at the front of the queue: MakeRoomForWrite, which may give up the mutex
    | Build(call: nat, group: Group)
    | SkipNull(call: nat)
    | AppendLog(call: nat)
    | SyncLog(call: nat)
    | InsertMem(call: nat)
    | Finish(call: nat)
    | Return(call: nat)

  /** The entries a run of writes becomes. */
  function Stamped(writes: seq<Write>, after: nat): seq<Entry> {
    seq(|writes|, i requires 0 <= i < |writes| => Entry(writes[i].key, after + 1 + i, writes[i].kind, writes[i].value))
  }

  /** The requests of the calls still in the queue. */
  function Queued(a: State): seq<Request>
    requires forall i :: 0 <= i < |a.queue| ==> a.queue[i] < |a.calls|
  {
    seq(|a.queue|, i requires 0 <= i < |a.queue| => a.calls[a.queue[i]])
  }

  ghost predicate WellFormed(a: State) {
    && |a.progress| == |a.calls| == |a.done| && a.synced <= |a.log|
    && forall i :: 0 <= i < |a.queue| ==> a.queue[i] < |a.calls|
  }

  /** The done flags after the leader `t` has taken `count` writers off the queue. */
  function Released(a: State, t: nat, count: nat): seq<bool>
    requires count <= |a.queue|
  {
    seq(|a.done|, i requires 0 <= i < |a.done| => a.done[i] || (i != t && i in a.queue[..count]))
  }

  ghost predicate Does(a: State, s: Step, b: State)
    requires WellFormed(a)
  {
    match s
    case Arrive(r) =>
      b == a.(calls := a.calls + [r], progress := a.progress + [Waiting], done := a.done + [false],
              queue := a.queue + [|a.calls|])
    case Lead(t) =>
      && t < |a.calls| && a.progress[t].Waiting? && !a.done[t] && a.queue != [] && a.queue[0] == t
      && b == a.(progress := a.progress[t := MakingRoom])
    case Build(t, g) =>
      && t < |a.calls| && a.progress[t].MakingRoom? && a.calls[t].batch.Some? && IsGroup(Queued(a), g)
      && var writes := if g.usesTmp then a.tmp + g.writes else g.writes;
         b == a.(progress := a.progress[t := Built(g.(writes := writes))], tmp := if g.usesTmp then writes else a.tmp)
    case SkipNull(t) =>
      && t < |a.calls| && a.progress[t].MakingRoom? && a.calls[t].batch.None? && a.queue != []
      && b == a.(progress := a.progress[t := Returned], queue := a.queue[1..], head := a.head + 1)
    case AppendLog(t) =>
      && t < |a.calls| && a.progress[t].Built?
      && var g := a.progress[t].group;
         b == a.(progress := a.progress[t := Logged(g)], log := a.log + [Record(a.lastSequence, g.writes)])
    case SyncLog(t) =>
      && t < |a.calls| && a.progress[t].Logged? && a.calls[t].sync
      && b == a.(progress := a.progress[t := Synced(a.progress[t].group)], synced := |a.log|)
    case InsertMem(t) =>
      && t < |a.calls| && (if a.calls[t].sync then a.progress[t].Synced? else a.progress[t].Logged?)
      && var g := a.progress[t].group;
         b == a.(progress := a.progress[t := Inserted(g)], mem := a.mem + Stamped(g.writes, a.lastSequence))
    case Finish(t) =>
      && t < |a.calls| && a.progress[t].Inserted? && a.progress[t].group.count <= |a.queue|
      && var g := a.progress[t].group;
         b == a.(progress := a.progress[t := Returned], done := Released(a, t, g.count), queue := a.queue[g.count..],
                 head := a.head + g.count, tmp := if g.usesTmp then [] else a.tmp,
                 lastSequence := a.lastSequence + |g.writes|)
    case Return(t) =>
      && t < |a.calls| && a.progress[t].Waiting? && a.done[t] && b == a.(progress := a.progress[t := Returned])
  }

  // ----- The invariant -----

  /** The writes of the first `k` records of the log, in order. */
  function LogWrites(log: seq<Record>, k: nat): seq<Write>
    requires k <= |log|
  {
    if k == 0 then [] else LogWrites(log, k - 1) + log[k - 1].writes
  }

  lemma {:induction false} LogWritesSame(log: seq<Record>, r: Record, k: nat)
    requires k <= |log|
    ensures LogWrites(log + [r], k) == LogWrites(log, k)
  {
    if k > 0 {
      LogWritesSame(log, r, k - 1);
    }
  }

  /** Each record is stamped with the number of writes logged before it. */
  ghost predicate LogStamped(log: seq<Record>) {
    forall i {:trigger StampedAt(log, i)} :: 0 <= i < |log| ==> StampedAt(log, i)
  }

  ghost predicate StampedAt(log: seq<Record>, i: nat)
    requires i < |log|
  {
    log[i].after == |LogWrites(log, i)|
  }

  /** The queue is the calls from `head` on, in the order they arrived. */
  ghost predicate QueueOk(a: State) {
    && WellFormed(a) && a.head + |a.queue| == |a.calls|
    && forall i :: 0 <= i < |a.queue| ==> a.queue[i] == a.head + i
  }

  /** Calls behind the head wait; calls taken off the queue have returned or been told to. */
  predicate CallOk(t: nat, head: nat, p: Progress, done: bool) {
    && (t < head ==> p.Returned? || (p.Waiting? && done))
    && (t == head ==> !p.Returned? && !done)
    && (t > head ==> p.Waiting? && !done)
  }

  ghost predicate CallsOk(a: State) {
    && |a.progress| == |a.calls| == |a.done|
    && forall t {:trigger a.progress[t]} :: 0 <= t < |a.calls| ==> CallOk(t, a.head, a.progress[t], a.done[t])
  }

  /** How far the call at the head of the queue is. */
  function Front(a: State): Progress {
    if a.head < |a.progress| then a.progress[a.head] else Waiting
  }

  /** How many calls the front call has logged, and inserted, for. */
  function LoggedBy(p: Progress): nat {
    if p.Logged? || p.Synced? || p.Inserted? then p.group.count else 0
  }

  function InsertedBy(p: Progress): nat {
    if p.Inserted? then p.group.count else 0
  }

  ghost predicate GroupOk(calls: seq<Request>, head: nat, g: Group, tmp: seq<Write>) {
    && 0 < g.count && head + g.count <= |calls| && calls[head].batch.Some?
    && g.writes == Batches(calls, head, head + g.count)
    && tmp == (if g.usesTmp then g.writes else [])
    && (forall t :: head < t < head + g.count && calls[t].sync ==> calls[head].sync)
  }

  ghost predicate FrontOk(calls: seq<Request>, head: nat, p: Progress, tmp: seq<Write>, allSynced: bool) {
    if p.Waiting? || p.MakingRoom? || p.Returned? then tmp == []
    else
      && GroupOk(calls, head, p.group, tmp) && (p.Synced? ==> calls[head].sync)
      && ((p.Synced? || p.Inserted?) && calls[head].sync ==> allSynced)
  }

  /** The synced part of the log reaches past the writes of call `t`. */
  ghost predicate IsSynced(calls: seq<Request>, log: seq<Record>, synced: nat, t: nat)
    requires t < |calls| && synced <= |log|
  {
    |Batches(calls, 0, t + 1)| <= |LogWrites(log, synced)|
  }

  ghost predicate SyncedUpTo(calls: seq<Request>, log: seq<Record>, synced: nat, head: nat)
    requires head <= |calls| && synced <= |log|
  {
    forall t {:trigger IsSynced(calls, log, synced, t)} ::
      0 <= t < head && calls[t].sync && calls[t].batch.Some? ==> IsSynced(calls, log, synced, t)
  }

  /** The log is the batches of the first `logged` calls and the memtable those of the first `inserted`,
      each write once, in the order of the calls, and numbered consecutively from 1. */
  ghost predicate DataOk(calls: seq<Request>, logged: nat, inserted: nat, log: seq<Record>, mem: seq<Entry>) {
    && inserted <= logged <= |calls|
    && LogWrites(log, |log|) == Batches(calls, 0, logged) && LogStamped(log)
    && mem == Stamped(Batches(calls, 0, inserted), 0)
  }

  /** What the writers share besides the queue. */
  datatype Store = Store(tmp: seq<Write>, log: seq<Record>, synced: nat, mem: seq<Entry>, lastSequence: nat)

  function StoreOf(a: State): Store {
    Store(a.tmp, a.log, a.synced, a.mem, a.lastSequence)
  }

  /** The store when `head` calls are done with and the next has come as far as `p`. */
  ghost predicate StoreOk(calls: seq<Request>, head: nat, p: Progress, st: Store) {
    && head <= |calls| && st.synced <= |st.log|
    && FrontOk(calls, head, p, st.tmp, st.synced == |st.log|)
    && DataOk(calls, head + LoggedBy(p), head + InsertedBy(p), st.log, st.mem)
    && st.lastSequence == |Batches(calls, 0, head)|
    && SyncedUpTo(calls, st.log, st.synced, head)
  }

  ghost predicate Invariant(a: State) {
    QueueOk(a) && CallsOk(a) && StoreOk(a.calls, a.head, Front(a), StoreOf(a))
  }

  ghost predicate Initial(a: State) {
    a == State([], [], [], [], 0, [], [], 0, [], 0)
  }

  // ----- What the steps do to the data -----

  lemma DataArrive(calls: seq<Request>, r: Request, logged: nat, inserted: nat, log: seq<Record>, mem: seq<Entry>)
    requires DataOk(calls, logged, inserted, log, mem)
    ensures DataOk(calls + [r], logged, inserted, log, mem)
  {
    BatchesArrive(calls, r, 0, logged);
    BatchesArrive(calls, r, 0, inserted);
  }

  lemma SyncedArrive(calls: seq<Request>, r: Request, log: seq<Record>, synced: nat, head: nat)
    requires head <= |calls| && synced <= |log| && SyncedUpTo(calls, log, synced, head)
    ensures SyncedUpTo(calls + [r], log, synced, head)
  {
    forall t | 0 <= t < head && calls[t].sync && calls[t].batch.Some? ensures IsSynced(calls + [r], log, synced, t) {
      assert IsSynced(calls, log, synced, t);
      BatchesArrive(calls, r, 0, t + 1);
    }
  }

  lemma DataLog(calls: seq<Request>, head: nat, count: nat, log: seq<Record>, mem: seq<Entry>, r: Record)
    requires DataOk(calls, head, head, log, mem) && head + count <= |calls|
    requires r == Record(|Batches(calls, 0, head)|, Batches(calls, head, head + count))
    ensures DataOk(calls, head + count, head, log + [r], mem)
  {
    BatchesSplit(calls, 0, head, head + count);
    LogWritesSame(log, r, |log|);
    forall i | 0 <= i <= |log| ensures StampedAt(log + [r], i) {
      LogWritesSame(log, r, i);
      assert i < |log| ==> StampedAt(log, i);
    }
  }

  lemma SyncedLog(calls: seq<Request>, head: nat, log: seq<Record>, synced: nat, r: Record)
    requires head <= |calls| && synced <= |log| && SyncedUpTo(calls, log, synced, head)
    ensures SyncedUpTo(calls, log + [r], synced, head)
  {
    LogWritesSame(log, r, synced);
    forall t | 0 <= t < head && calls[t].sync && calls[t].batch.Some? ensures IsSynced(calls, log + [r], synced, t) {
      assert IsSynced(calls, log, synced, t);
    }
  }

  lemma DataInsert(calls: seq<Request>, head: nat, count: nat, log: seq<Record>, mem: seq<Entry>, w: seq<Write>,
                   last: nat)
    requires DataOk(calls, head + count, head, log, mem)
    requires w == Batches(calls, head, head + count) && last == |Batches(calls, 0, head)|
    ensures DataOk(calls, head + count, head + count, log, mem + Stamped(w, last))
  {
    BatchesSplit(calls, 0, head, head + count);
    StampedConcat(Batches(calls, 0, head), w);
  }

  lemma StampedConcat(a: seq<Write>, b: seq<Write>)
    ensures Stamped(a + b, 0) == Stamped(a, 0) + Stamped(b, |a|)
  {
  }

  /** Once the whole log is synced, every call whose writes are in it is. */
  lemma AllSynced(calls: seq<Request>, logged: nat, log: seq<Record>, head: nat)
    requires head <= logged <= |calls| && LogWrites(log, |log|) == Batches(calls, 0, logged)
    ensures SyncedUpTo(calls, log, |log|, head)
  {
    forall t | 0 <= t < head ensures IsSynced(calls, log, |log|, t) {
      BatchesSplit(calls, 0, t + 1, logged);
    }
  }

  // ----- Every step keeps the invariant -----

  /** Only the call at the head of the queue is ever past waiting. */
  lemma ActiveIsHead(a: State, t: nat)
    requires CallsOk(a) && t < |a.calls| && !a.progress[t].Waiting? && !a.progress[t].Returned?
    ensures t == a.head && Front(a) == a.progress[t]
  {
  }

  /** The front call has moved on, and the queue has not. */
  lemma Advance(a: State, t: nat, p: Progress, b: State)
    requires QueueOk(a) && CallsOk(a) && t == a.head < |a.calls| && !p.Returned?
    requires b.progress == a.progress[t := p] && b.calls == a.calls && b.done == a.done && b.queue == a.queue
    requires b.head == a.head && b.synced <= |b.log|
    ensures QueueOk(b) && CallsOk(b) && Front(b) == p
  {
    forall u {:trigger b.progress[u]} | 0 <= u < |b.calls| ensures CallOk(u, b.head, b.progress[u], b.done[u]) {
      assert CallOk(u, a.head, a.progress[u], a.done[u]);
    }
  }

  lemma ArriveKeeps(a: State, r: Request, b: State)
    requires Invariant(a) && Does(a, Arrive(r), b)
    ensures Invariant(b)
  {
    StoreArrive(a.calls, r, a.head, Front(a), StoreOf(a));
  }

  lemma StoreArrive(calls: seq<Request>, r: Request, head: nat, p: Progress, st: Store)
    requires StoreOk(calls, head, p, st)
    ensures StoreOk(calls + [r], head, p, st)
  {
    DataArrive(calls, r, head + LoggedBy(p), head + InsertedBy(p), st.log, st.mem);
    SyncedArrive(calls, r, st.log, st.synced, head);
    BatchesArrive(calls, r, 0, head);
    FrontArrive(calls, r, head, p, st.tmp, st.synced == |st.log|);
  }

  lemma FrontArrive(calls: seq<Request>, r: Request, head: nat, p: Progress, tmp: seq<Write>, allSynced: bool)
    requires FrontOk(calls, head, p, tmp, allSynced)
    ensures FrontOk(calls + [r], head, p, tmp, allSynced)
  {
    if !p.Waiting? && !p.MakingRoom? && !p.Returned? {
      BatchesArrive(calls, r, head, head + p.group.count);
    }
  }

  lemma LeadKeeps(a: State, t: nat, b: State)
    requires Invariant(a) && Does(a, Lead(t), b)
    ensures Invariant(b)
  {
    Advance(a, t, MakingRoom, b);
    StoreLead(a.calls, a.head, StoreOf(a));
  }

  lemma StoreLead(calls: seq<Request>, head: nat, st: Store)
    requires StoreOk(calls, head, Waiting, st)
    ensures StoreOk(calls, head, MakingRoom, st)
  {
  }

  lemma BuildKeeps(a: State, t: nat, g: Group, b: State)
    requires Invariant(a) && Does(a, Build(t, g), b)
    ensures Invariant(b)
  {
    ActiveIsHead(a, t);
    BuildGroup(a, g);
    StoreBuild(a.calls, a.head, g, StoreOf(a));
    NothingBefore(a.tmp, g.writes);
    Advance(a, t, Built(g), b);
  }

  /** tmp_batch_ being empty, the record the leader will log is the group's writes and no more. */
  lemma {:induction false} StoreBuild(calls: seq<Request>, head: nat, g: Group, st: Store)
    requires StoreOk(calls, head, MakingRoom, st)
    requires 0 < g.count && head + g.count <= |calls| && g.writes == Batches(calls, head, head + g.count)
    requires calls[head].batch.Some? && forall t :: head < t < head + g.count && calls[t].sync ==> calls[head].sync
    ensures st.tmp == []
    ensures StoreOk(calls, head, Built(g), st.(tmp := if g.usesTmp then g.writes else []))
  {
    assert GroupOk(calls, head, g, if g.usesTmp then g.writes else []);
  }

  lemma NothingBefore<T>(a: seq<T>, b: seq<T>)
    requires a == []
    ensures a + b == b
  {
  }

  /** The group a leader builds, in terms of the calls. */
  lemma BuildGroup(a: State, g: Group)
    requires QueueOk(a) && IsGroup(Queued(a), g)
    ensures 0 < g.count && a.head + g.count <= |a.calls| && g.writes == Batches(a.calls, a.head, a.head + g.count)
    ensures forall t :: a.head < t < a.head + g.count && a.calls[t].sync ==> a.calls[a.head].sync
  {
    var q := Queued(a);
    BatchesShift(q, a.calls, a.head, g.count);
    forall t | a.head < t < a.head + g.count && a.calls[t].sync ensures a.calls[a.head].sync {
      assert Rides(q, t - a.head);
    }
  }

  lemma SkipNullKeeps(a: State, t: nat, b: State)
    requires Invariant(a) && Does(a, SkipNull(t), b)
    ensures Invariant(b)
  {
    ActiveIsHead(a, t);
    SkipNullCalls(a, t, b);
    StoreSkip(a.calls, a.head, StoreOf(a));
  }

  lemma StoreSkip(calls: seq<Request>, head: nat, st: Store)
    requires StoreOk(calls, head, MakingRoom, st) && head < |calls| && calls[head].batch.None?
    ensures StoreOk(calls, head + 1, Waiting, st)
  {
    assert Batches(calls, 0, head + 1) == Batches(calls, 0, head);
  }

  lemma SkipNullCalls(a: State, t: nat, b: State)
    requires QueueOk(a) && CallsOk(a) && Does(a, SkipNull(t), b)
    ensures QueueOk(b) && CallsOk(b) && Front(b) == Waiting
  {
    ActiveIsHead(a, t);
  }

  lemma AppendLogKeeps(a: State, t: nat, b: State)
    requires Invariant(a) && Does(a, AppendLog(t), b)
    ensures Invariant(b)
  {
    ActiveIsHead(a, t);
    var g := a.progress[t].group;
    Advance(a, t, Logged(g), b);
    StoreLog(a.calls, a.head, g, StoreOf(a));
  }

  lemma StoreLog(calls: seq<Request>, head: nat, g: Group, st: Store)
    requires StoreOk(calls, head, Built(g), st)
    ensures StoreOk(calls, head, Logged(g), st.(log := st.log + [Record(st.lastSequence, g.writes)]))
  {
    var r := Record(st.lastSequence, g.writes);
    DataLog(calls, head, g.count, st.log, st.mem, r);
    SyncedLog(calls, head, st.log, st.synced, r);
  }

  lemma SyncLogKeeps(a: State, t: nat, b: State)
    requires Invariant(a) && Does(a, SyncLog(t), b)
    ensures Invariant(b)
  {
    ActiveIsHead(a, t);
    var g := a.progress[t].group;
    Advance(a, t, Synced(g), b);
    StoreSync(a.calls, a.head, g, StoreOf(a));
  }

  lemma StoreSync(calls: seq<Request>, head: nat, g: Group, st: Store)
    requires StoreOk(calls, head, Logged(g), st) && calls[head].sync
    ensures StoreOk(calls, head, Synced(g), st.(synced := |st.log|))
  {
    AllSynced(calls, head + g.count, st.log, head);
  }

  lemma InsertMemKeeps(a: State, t: nat, b: State)
    requires Invariant(a) && Does(a, InsertMem(t), b)
    ensures Invariant(b)
  {
    ActiveIsHead(a, t);
    var g := a.progress[t].group;
    Advance(a, t, Inserted(g), b);
    StoreInsert(a.calls, a.head, Front(a), g, StoreOf(a));
  }

  lemma StoreInsert(calls: seq<Request>, head: nat, p: Progress, g: Group, st: Store)
    requires StoreOk(calls, head, p, st)
    requires p == Synced(g) || (p == Logged(g) && head < |calls| && !calls[head].sync)
    ensures StoreOk(calls, head, Inserted(g), st.(mem := st.mem + Stamped(g.writes, st.lastSequence)))
  {
    DataInsert(calls, head, g.count, st.log, st.mem, g.writes, st.lastSequence);
  }

  lemma FinishKeeps(a: State, t: nat, b: State)
    requires Invariant(a) && Does(a, Finish(t), b)
    ensures Invariant(b)
  {
    ActiveIsHead(a, t);
    FinishCalls(a, t, b);
    FinishStore(a, t, b);
    StoreFinish(a.calls, a.head, a.progress[t].group, StoreOf(a));
  }

  lemma FinishStore(a: State, t: nat, b: State)
    requires WellFormed(a) && Does(a, Finish(t), b)
    ensures var g, st := a.progress[t].group, StoreOf(a);
            && b.calls == a.calls && b.head == a.head + g.count
            && StoreOf(b) == st.(tmp := if g.usesTmp then [] else st.tmp, lastSequence := st.lastSequence + |g.writes|)
  {
  }

  lemma StoreFinish(calls: seq<Request>, head: nat, g: Group, st: Store)
    requires StoreOk(calls, head, Inserted(g), st)
    ensures StoreOk(calls, head + g.count, Waiting,
                    st.(tmp := if g.usesTmp then [] else st.tmp, lastSequence := st.lastSequence + |g.writes|))
  {
    BatchesSplit(calls, 0, head, head + g.count);
    SyncedFinish(calls, head, g, st);
  }

  lemma SyncedFinish(calls: seq<Request>, head: nat, g: Group, st: Store)
    requires StoreOk(calls, head, Inserted(g), st)
    ensures SyncedUpTo(calls, st.log, st.synced, head + g.count)
  {
    if calls[head].sync {
      AllSynced(calls, head + g.count, st.log, head + g.count);
    }
  }

  lemma FinishCalls(a: State, t: nat, b: State)
    requires QueueOk(a) && CallsOk(a) && Does(a, Finish(t), b) && 0 < a.progress[t].group.count
    ensures QueueOk(b) && CallsOk(b) && Front(b) == Waiting
  {
    ActiveIsHead(a, t);
    var g := a.progress[t].group;
    forall i | 0 <= i < |a.done| ensures i in a.queue[..g.count] <==> a.head <= i < b.head {
      if a.head <= i < b.head {
        assert a.queue[..g.count][i - a.head] == i;
      }
    }
  }

  lemma ReturnKeeps(a: State, t: nat, b: State)
    requires Invariant(a) && Does(a, Return(t), b)
    ensures Invariant(b)
  {
    assert CallOk(t, a.head, a.progress[t], a.done[t]);
    ReturnCalls(a, t, b);
  }

  lemma ReturnCalls(a: State, t: nat, b: State)
    requires QueueOk(a) && CallsOk(a) && Does(a, Return(t), b)
    ensures QueueOk(b) && CallsOk(b) && Front(b) == Front(a)
  {
    assert CallOk(t, a.head, a.progress[t], a.done[t]);
  }

  // ----- Whole runs -----

  lemma StepKeeps(a: State, s: Step, b: State)
    requires Invariant(a) && Does(a, s, b)
    ensures Invariant(b)
  {
    match s
    case Arrive(r) => ArriveKeeps(a, r, b);
    case Lead(t) => LeadKeeps(a, t, b);
    case Build(t, g) => BuildKeeps(a, t, g, b);
    case SkipNull(t) => SkipNullKeeps(a, t, b);
    case AppendLog(t) => AppendLogKeeps(a, t, b);
    case SyncLog(t) => SyncLogKeeps(a, t, b);
    case InsertMem(t) => InsertMemKeeps(a, t, b);
    case Finish(t) => FinishKeeps(a, t, b);
    case Return(t) => ReturnKeeps(a, t, b);
  }

  ghost predicate Follows(states: seq<State>, steps: seq<Step>, i: nat)
    requires i < |steps| < |states|
  {
    WellFormed(states[i]) && Does(states[i], steps[i], states[i + 1])
  }

  ghost predicate IsRun(states: seq<State>, steps: seq<Step>) {
    && |states| == |steps| + 1 && Initial(states[0])
    && forall i {:trigger Follows(states, steps, i)} :: 0 <= i < |steps| ==> Follows(states, steps, i)
  }

  lemma {:induction false} RunKeeps(states: seq<State>, steps: seq<Step>, k: nat)
    requires IsRun(states, steps) && k < |states|
    ensures Invariant(states[k])
  {
    if k > 0 {
      RunKeeps(states, steps, k - 1);
      assert Follows(states, steps, k - 1);
      StepKeeps(states[k - 1], steps[k - 1], states[k]);
    }
  }

  /** The writes `w` are at position `i` of `all`. */
  ghost predicate IsAt<T>(all: seq<T>, i: nat, w: seq<T>) {
    i + |w| <= |all| && all[i..i + |w|] == w
  }

  /** The batch of call `t` is in the log and in the memtable exactly where its place among the calls
      says, numbered accordingly, and in the synced part of the log if it asked for that. */
  ghost predicate Placed(calls: seq<Request>, log: seq<Record>, synced: nat, mem: seq<Entry>, t: nat)
    requires t < |calls| && synced <= |log|
  {
    var i, w := |Batches(calls, 0, t)|, BatchOf(calls[t]);
    && IsAt(LogWrites(log, |log|), i, w) && IsAt(mem, i, Stamped(w, i))
    && (calls[t].sync && calls[t].batch.Some? ==> i + |w| <= |LogWrites(log, synced)|)
  }

  lemma DataPlaced(calls: seq<Request>, logged: nat, inserted: nat, log: seq<Record>, synced: nat, mem: seq<Entry>,
                   head: nat, t: nat)
    requires DataOk(calls, logged, inserted, log, mem) && t < head <= inserted && synced <= |log|
    requires SyncedUpTo(calls, log, synced, head)
    ensures Placed(calls, log, synced, mem, t)
  {
    BatchAt(calls, t, logged);
    BatchAt(calls, t, inserted);
    StampedAtPlace(Batches(calls, 0, inserted), |Batches(calls, 0, t)|, BatchOf(calls[t]));
    if calls[t].sync && calls[t].batch.Some? {
      assert IsSynced(calls, log, synced, t);
    }
  }

  /** In every run, a batch whose write has returned is in its place.  The log and the memtable hold the
      batches of the first calls and nothing else, so none is there twice. */
  lemma AcknowledgedOnce(states: seq<State>, steps: seq<Step>, k: nat, t: nat)
    requires IsRun(states, steps) && k < |states| && t < |states[k].calls|
    ensures var a := states[k];
            && WellFormed(a)
            && (a.progress[t].Returned? || a.done[t] ==> t < a.head)
            && (t < a.head ==> Placed(a.calls, a.log, a.synced, a.mem, t))
    ensures exists m: nat, n: nat :: DataOk(states[k].calls, m, n, states[k].log, states[k].mem)
  {
    RunKeeps(states, steps, k);
    var a := states[k];
    assert CallOk(t, a.head, a.progress[t], a.done[t]);
    var logged, inserted := a.head + LoggedBy(Front(a)), a.head + InsertedBy(Front(a));
    assert DataOk(a.calls, logged, inserted, a.log, a.mem);
    if t < a.head {
      DataPlaced(a.calls, logged, inserted, a.log, a.synced, a.mem, a.head, t);
    }
  }

  lemma StampedEntries(writes: seq<Write>, after: nat)
    ensures EntriesOf(Stamped(writes, after)) == BatchEntries(writes, after)
  {
    var all := Stamped(writes, after);
    forall e | e in BatchEntries(writes, after) ensures e in all {
      var i :| 0 <= i < |writes| && e == Entry(writes[i].key, after + 1 + i, writes[i].kind, writes[i].value);
      assert all[i] == e;
    }
  }

  /** In every interleaving the memtable reads as the batches of the first calls, one after the other, and these
      are all the calls that have returned. */
  lemma MemReadsCalls(states: seq<State>, steps: seq<Step>, k: nat) returns (n: nat)
    requires IsRun(states, steps) && k < |states|
    ensures n <= |states[k].calls|
    ensures StandsFor(EntriesOf(states[k].mem), |states[k].mem|, AllChanged(map[], Batches(states[k].calls, 0, n)))
    ensures |states[k].progress| == |states[k].calls| == |states[k].done|
    ensures forall t :: 0 <= t < |states[k].calls| && (states[k].progress[t].Returned? || states[k].done[t]) ==> t < n
  {
    RunKeeps(states, steps, k);
    var a := states[k];
    n := a.head + InsertedBy(Front(a));
    assert DataOk(a.calls, a.head + LoggedBy(Front(a)), n, a.log, a.mem);
    StampedEntries(Batches(a.calls, 0, n), 0);
    MapOfBatch(Batches(a.calls, 0, n));
    forall t | 0 <= t < |a.calls| && (a.progress[t].Returned? || a.done[t]) ensures t < n {
      assert CallOk(t, a.head, a.progress[t], a.done[t]);
    }
  }

  lemma MapOfBatch(writes: seq<Write>)
    ensures StandsFor(BatchEntries(writes, 0), |writes|, AllChanged(map[], writes))
  {
    assert StandsFor({}, 0, map[]);
    BatchChanges({}, 0, map[], writes);
    assert {} + BatchEntries(writes, 0) == BatchEntries(writes, 0);
  }

  lemma BatchAt(calls: seq<Request>, t: nat, n: nat)
    requires t < n <= |calls|
    ensures IsAt(Batches(calls, 0, n), |Batches(calls, 0, t)|, BatchOf(calls[t]))
  {
    BatchesSplit(calls, 0, t + 1, n);
    assert Batches(calls, 0, t + 1) == Batches(calls, 0, t) + BatchOf(calls[t]);
  }

  lemma StampedAtPlace(all: seq<Write>, i: nat, w: seq<Write>)
    requires IsAt(all, i, w)
    ensures IsAt(Stamped(all, 0), i, Stamped(w, i))
  {
    forall j | 0 <= j < |w| ensures Stamped(all, 0)[i..i + |w|][j] == Stamped(w, i)[j] {
      assert all[i..i + |w|][j] == all[i + j];
    }
  }

  /** Never do two calls lead at once, and a leader starts building with tmp_batch_ empty. */
  lemma OneLeader(states: seq<State>, steps: seq<Step>, k: nat, t: nat, u: nat)
    requires IsRun(states, steps) && k < |states| && t < |states[k].calls| && u < |states[k].calls|
    ensures |states[k].progress| == |states[k].calls|
    ensures var p, q := states[k].progress[t], states[k].progress[u];
            && (!p.Waiting? && !p.Returned? && !q.Waiting? && !q.Returned? ==> t == u)
            && (p.MakingRoom? ==> states[k].tmp == [])
  {
    RunKeeps(states, steps, k);
    assert CallOk(t, states[k].head, states[k].progress[t], states[k].done[t]);
    assert CallOk(u, states[k].head, states[k].progress[u], states[k].done[u]);
  }

  /** Each group takes the block of sequence numbers after that of the group before it. */
  lemma BlocksAreConsecutive(states: seq<State>, steps: seq<Step>, k: nat, i: nat)
    requires IsRun(states, steps) && k < |states| && i < |states[k].log|
    ensures var log := states[k].log;
            log[i].after == if i == 0 then 0 else log[i - 1].after + |log[i - 1].writes|
  {
    RunKeeps(states, steps, k);
    var log := states[k].log;
    assert StampedAt(log, i);
    if i > 0 {
      assert StampedAt(log, i - 1);
    }
  }

  lemma {:induction false} GroupExists(queue: seq<Request>, n: nat) returns (g: Group)
    requires 0 < n <= |queue| && AllRide(queue, n)
    ensures IsGroup(queue, g) && !g.usesTmp
    decreases |queue| - n
  {
    if n < |queue| && Rides(queue, n) {
      g := GroupExists(queue, n + 1);
    } else {
      g := Group(n, Batches(queue, 0, n), false);
    }
  }

  /** The step the front call takes next. */
  lemma NextStep(a: State, p: Progress) returns (s: Step, b: State)
    requires Invariant(a) && a.queue != [] && p == a.progress[a.head] && !p.MakingRoom?
    ensures !s.Arrive? && Does(a, s, b)
  {
    var t := a.head;
    assert CallOk(t, a.head, p, a.done[t]);
    if p.Waiting? {
      s, b := Lead(t), a.(progress := a.progress[t := MakingRoom]);
    } else if p.Built? {
      s, b := AppendLog(t),
          a.(progress := a.progress[t := Logged(p.group)], log := a.log + [Record(a.lastSequence, p.group.writes)]);
    } else if p.Logged? && a.calls[t].sync {
      s, b := SyncLog(t), a.(progress := a.progress[t := Synced(p.group)], synced := |a.log|);
    } else if p.Inserted? {
      var g := p.group;
      s, b := Finish(t), a.(progress := a.progress[t := Returned], done := Released(a, t, g.count),
                            queue := a.queue[g.count..],
                            head := a.head + g.count, tmp := if g.usesTmp then [] else a.tmp,
                            lastSequence := a.lastSequence + |g.writes|);
    } else {
      s, b := InsertMem(t), a.(progress := a.progress[t := Inserted(p.group)],
                               mem := a.mem + Stamped(p.group.writes, a.lastSequence));
    }
  }

  lemma NextBuild(a: State) returns (s: Step, b: State)
    requires Invariant(a) && a.queue != [] && a.progress[a.head].MakingRoom?
    ensures !s.Arrive? && Does(a, s, b)
  {
    var t := a.head;
    if a.calls[t].batch.None? {
      s, b := SkipNull(t), a.(progress := a.progress[t := Returned], queue := a.queue[1..], head := a.head + 1);
    } else {
      var g := GroupExists(Queued(a), 1);
      s, b := Build(t, g), a.(progress := a.progress[t := Built(g)]);
    }
  }

  /** While a call is in the queue some call can go on: the queue never gets stuck. */
  lemma NeverStuck(states: seq<State>, steps: seq<Step>, k: nat) returns (s: Step, b: State)
    requires IsRun(states, steps) && k < |states| && states[k].queue != []
    ensures WellFormed(states[k]) && !s.Arrive? && Does(states[k], s, b)
  {
    RunKeeps(states, steps, k);
    var a := states[k];
    if a.progress[a.head].MakingRoom? {
      s, b := NextBuild(a);
    } else {
      s, b := NextStep(a, a.progress[a.head]);
    }
  }
}
