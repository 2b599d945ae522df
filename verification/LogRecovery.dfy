/** What recovery finds in a log file whose end a crash cut off, byte by byte: the records of the log without
    the last (db/db_impl.cc RecoverLogFile, db/log_reader.cc, db/write_batch.cc). */
module LogRecovery {
  import opened Entries
  import opened Coding
  import opened LogChecksum
  import LogFormat
  import WriteBatches
  import opened Storage
  import Durability

  /** How user keys are written as bytes. */
  datatype Keys = Keys(encode: int -> Bytes, decode: Bytes -> int)

  ghost predicate SoundKeys(keys: Keys) {
    forall k :: keys.decode(keys.encode(k)) == k
  }

  function OpOf(keys: Keys, w: Write): WriteBatches.Op {
    if w.kind.Put? then WriteBatches.PutOp(keys.encode(w.key), w.value) else WriteBatches.DeleteOp(keys.encode(w.key))
  }

  function WriteOf(keys: Keys, op: WriteBatches.Op): Write {
    if op.PutOp? then Write(keys.decode(op.key), Put, op.value) else Write(keys.decode(op.key), Deletion, [])
  }

  function OpsOf(keys: Keys, writes: seq<Write>): (r: seq<WriteBatches.Op>)
    ensures |r| == |writes|
  {
    if writes == [] then [] else [OpOf(keys, writes[0])] + OpsOf(keys, writes[1..])
  }

  function WritesOf(keys: Keys, ops: seq<WriteBatches.Op>): seq<Write> {
    if ops == [] then [] else [WriteOf(keys, ops[0])] + WritesOf(keys, ops[1..])
  }

  /** The payload of a log record: its write batch, with the sequence number of its first operation. */
  function RecordBytes(keys: Keys, r: Record): Bytes {
    WriteBatches.Encoded(r.after + 1, OpsOf(keys, r.writes))
  }

  /** The record a payload holds; None when it is not a write batch. */
  function RecordOf(keys: Keys, rep: Bytes): Option<Record> {
    if |rep| < WriteBatches.HEADER || DecodeFixed(rep, 0, 8) == 0 then None
    else
      var ops := DecodeAll(WriteBatches.DecodeOp, rep, WriteBatches.HEADER);
      if ops.1.Some? || |ops.0| != DecodeFixed(rep, 8, 4) then None
      else Some(Record(DecodeFixed(rep, 0, 8) - 1, WritesOf(keys, ops.0)))
  }

  /** A write whose lengths fit their fields; a deletion has no value. */
  ghost predicate WriteFits(keys: Keys, w: Write) {
    |keys.encode(w.key)| < TWO_32 && |w.value| < TWO_32 && (w.kind.Deletion? ==> w.value == [])
  }

  /** A record whose numbers and lengths fit their fields. */
  ghost predicate Fits(keys: Keys, r: Record) {
    && r.after + 1 < Bound(8) && |r.writes| < 0x8000_0000
    && forall w :: w in r.writes ==> WriteFits(keys, w)
  }

  lemma {:induction false} OpsBack(keys: Keys, writes: seq<Write>)
    requires SoundKeys(keys) && forall w :: w in writes ==> WriteFits(keys, w)
    ensures WritesOf(keys, OpsOf(keys, writes)) == writes
    ensures forall op :: op in OpsOf(keys, writes) ==> WriteBatches.Encodable(op)
  {
    if writes != [] {
      var w := writes[0];
      assert w in writes && WriteFits(keys, w) && keys.decode(keys.encode(w.key)) == w.key;
      OpsBack(keys, writes[1..]);
      assert OpsOf(keys, writes)[1..] == OpsOf(keys, writes[1..]);
    }
  }

  lemma RecordRoundTrip(keys: Keys, r: Record)
    requires SoundKeys(keys) && Fits(keys, r)
    ensures RecordOf(keys, RecordBytes(keys, r)) == Some(r)
  {
    OpsBack(keys, r.writes);
    WriteBatches.BatchRoundTrip(RecordBytes(keys, r), r.after + 1, OpsOf(keys, r.writes));
  }

  // ----- What replaying a record inserts -----

  lemma {:induction false} OpsAt(keys: Keys, writes: seq<Write>, i: nat)
    requires i < |writes|
    ensures OpsOf(keys, writes)[i] == OpOf(keys, writes[i])
  {
    if i > 0 {
      OpsAt(keys, writes[1..], i - 1);
    }
  }

  /** The entry the inserter makes of an operation and its number. */
  function EntryOf(keys: Keys, added: (nat, WriteBatches.Op)): Entry {
    match added.1
    case PutOp(key, value) => Entry(keys.decode(key), added.0, Put, value)
    case DeleteOp(key) => Entry(keys.decode(key), added.0, Deletion, [])
  }

  /** The bytes of a batch fix its number and its operations. */
  lemma OneBatch(keys: Keys, r: Record, sequence: nat, ops: seq<WriteBatches.Op>)
    requires SoundKeys(keys) && Fits(keys, r) && WriteBatches.Representable(sequence, ops)
    requires WriteBatches.Encoded(sequence, ops) == RecordBytes(keys, r)
    ensures sequence == r.after + 1 && ops == OpsOf(keys, r.writes)
  {
    var rep := RecordBytes(keys, r);
    OpsBack(keys, r.writes);
    WriteBatches.BatchRoundTrip(rep, r.after + 1, OpsOf(keys, r.writes));
    WriteBatches.BatchRoundTrip(rep, sequence, ops);
  }

  /** Inserting the batch whose bytes are a log record adds exactly the entries of the record: one for each write,
      in order, under the numbers from the record's own on. */
  method InsertRecord(keys: Keys, ghost r: Record, b: WriteBatches.WriteBatch)
        returns (added: seq<(nat, WriteBatches.Op)>)
    requires SoundKeys(keys) && Fits(keys, r) && b.Valid() && b.rep == RecordBytes(keys, r)
    ensures |added| == |r.writes|
    ensures forall i {:trigger added[i]} :: 0 <= i < |added| ==>
              var w := r.writes[i]; EntryOf(keys, added[i]) == Entry(w.key, r.after + 1 + i, w.kind, w.value)
    ensures r.Entries() == set i | 0 <= i < |added| :: EntryOf(keys, added[i])
  {
    OneBatch(keys, r, b.sequence, b.ops);
    added := WriteBatches.InsertInto(b);
    forall i {:trigger added[i]} | 0 <= i < |added|
      ensures var w := r.writes[i]; EntryOf(keys, added[i]) == Entry(w.key, r.after + 1 + i, w.kind, w.value)
    {
      var w := r.writes[i];
      OpsAt(keys, r.writes, i);
      assert w in r.writes && WriteFits(keys, w) && keys.decode(keys.encode(w.key)) == w.key;
    }
    SameEntries(keys, r, added);
  }

  lemma SameEntries(keys: Keys, r: Record, added: seq<(nat, WriteBatches.Op)>)
    requires |added| == |r.writes|
    requires forall i {:trigger added[i]} :: 0 <= i < |added| ==>
               var w := r.writes[i]; EntryOf(keys, added[i]) == Entry(w.key, r.after + 1 + i, w.kind, w.value)
    ensures r.Entries() == set i | 0 <= i < |added| :: EntryOf(keys, added[i])
  {
    var all := set i | 0 <= i < |added| :: EntryOf(keys, added[i]);
    forall e ensures e in r.Entries() <==> e in all {
      if e in r.Entries() {
        var i :| 0 <= i < |r.writes|
                 && e == Entry(r.writes[i].key, r.after + 1 + i, r.writes[i].kind, r.writes[i].value);
        assert e == EntryOf(keys, added[i]);
      }
    }
  }

  // ----- A whole log -----

  function Payloads(keys: Keys, log: seq<Record>): (r: seq<Bytes>)
    ensures |r| == |log|
  {
    if log == [] then [] else Payloads(keys, log[..|log| - 1]) + [RecordBytes(keys, log[|log| - 1])]
  }

  /** The records of the payloads that are write batches. */
  function RecordsOf(keys: Keys, payloads: seq<Bytes>): seq<Record> {
    if payloads == [] then []
    else
      var last := RecordOf(keys, payloads[|payloads| - 1]);
      RecordsOf(keys, payloads[..|payloads| - 1]) + if last.Some? then [last.value] else []
  }

  lemma {:induction false} PayloadsPrefix(keys: Keys, log: seq<Record>, k: nat)
    requires k <= |log|
    ensures Payloads(keys, log)[..k] == Payloads(keys, log[..k])
  {
    if k == |log| {
      assert log[..k] == log;
    } else {
      var before, last := log[..|log| - 1], log[|log| - 1];
      PayloadsPrefix(keys, before, k);
      PrefixOfPush(log, k);
      PrefixOfLonger(Payloads(keys, before), RecordBytes(keys, last), k);
    }
  }

  lemma PrefixOfPush<T>(s: seq<T>, k: nat)
    requires k < |s|
    ensures s[..|s| - 1][..k] == s[..k]
  {
  }

  lemma PrefixOfLonger<T>(s: seq<T>, x: T, k: nat)
    requires k <= |s|
    ensures (s + [x])[..k] == s[..k]
  {
  }

  lemma RecordsPush(keys: Keys, payloads: seq<Bytes>, rep: Bytes, r: Record)
    requires RecordOf(keys, rep) == Some(r)
    ensures RecordsOf(keys, payloads + [rep]) == RecordsOf(keys, payloads) + [r]
  {
    assert (payloads + [rep])[..|payloads|] == payloads;
  }

  /** One record more. */
  lemma PayloadsStep(keys: Keys, before: seq<Record>, last: Record, rep: Bytes)
    requires rep == RecordBytes(keys, last) && RecordOf(keys, rep) == Some(last)
    ensures RecordsOf(keys, Payloads(keys, before + [last])) == RecordsOf(keys, Payloads(keys, before)) + [last]
  {
    assert (before + [last])[..|before|] == before;
    RecordsPush(keys, Payloads(keys, before), rep, last);
  }

  lemma {:induction false} PayloadsBack(keys: Keys, log: seq<Record>)
    requires SoundKeys(keys) && forall r :: r in log ==> Fits(keys, r)
    ensures RecordsOf(keys, Payloads(keys, log)) == log
  {
    if log != [] {
      var before, last := log[..|log| - 1], log[|log| - 1];
      assert log == before + [last];
      RecordRoundTrip(keys, last);
      PayloadsStep(keys, before, last, RecordBytes(keys, last));
      PayloadsBack(keys, before);
    }
  }

  /** The bytes of a log file, and where record `k` starts in it. */
  ghost function LogFile(keys: Keys, log: seq<Record>): Bytes {
    MaskedCrcIsSound();
    LogFormat.Written(MASKED_CRC, Payloads(keys, log), |log|)
  }

  ghost function StartOf(keys: Keys, log: seq<Record>, k: nat): nat
    requires k <= |log|
  {
    MaskedCrcIsSound();
    LogFormat.StartOf(MASKED_CRC, Payloads(keys, log), k)
  }

  /** What recovery makes of a file, and what it reports. */
  ghost function Recovered(keys: Keys, file: Bytes): seq<Record> {
    RecordsOf(keys, LogFormat.ReadFrom(MASKED_CRC, file, 0).0)
  }

  ghost function Reported(file: Bytes): seq<LogFormat.Report> {
    LogFormat.ReadFrom(MASKED_CRC, file, 0).1
  }

  /** A log cut at any byte recovers the records wholly before the cut, without a complaint. */
  lemma CutRecovers(keys: Keys, log: seq<Record>, cut: nat) returns (k: nat)
    requires SoundKeys(keys) && (forall r :: r in log ==> Fits(keys, r)) && cut <= |LogFile(keys, log)|
    ensures k <= |log| && Recovered(keys, LogFile(keys, log)[..cut]) == log[..k]
    ensures Reported(LogFile(keys, log)[..cut]) == []
    ensures StartOf(keys, log, k) <= cut && (k < |log| ==> cut < StartOf(keys, log, k + 1))
  {
    MaskedCrcIsSound();
    k := LogFormat.CutLogReadsBack(MASKED_CRC, Payloads(keys, log), cut);
    PayloadsPrefix(keys, log, k);
    PayloadsBack(keys, log[..k]);
  }

  /** A cut in the last record, or at the end. */
  lemma CutInLast(keys: Keys, log: seq<Record>, cut: nat) returns (kept: nat)
    requires log != [] && SoundKeys(keys) && (forall r :: r in log ==> Fits(keys, r))
    requires StartOf(keys, log, |log| - 1) <= cut <= |LogFile(keys, log)|
    ensures kept == if cut == |LogFile(keys, log)| then |log| else |log| - 1
    ensures Recovered(keys, LogFile(keys, log)[..cut]) == log[..kept]
  {
    MaskedCrcIsSound();
    kept := LogFormat.CutInLast(MASKED_CRC, Payloads(keys, log), cut);
    PayloadsPrefix(keys, log, kept);
    PayloadsBack(keys, log[..kept]);
  }

  /** A crash that cuts the newest log anywhere in its last record is the crash step of the durability model
      that keeps all records but that one; one that cuts nothing keeps them all. */
  lemma CutIsCrash(keys: Keys, d: Disk, number: nat, log: seq<Record>, cut: nat) returns (kept: nat)
    requires number in d.logs && d.logs[number] == log != []
    requires SoundKeys(keys) && (forall r :: r in log ==> Fits(keys, r))
    requires StartOf(keys, log, |log| - 1) <= cut <= |LogFile(keys, log)|
    ensures kept == if cut == |LogFile(keys, log)| then |log| else |log| - 1
    ensures Durability.Cut(d, number, kept).logs[number] == Recovered(keys, LogFile(keys, log)[..cut])
  {
    kept := CutInLast(keys, log, cut);
  }

  // ----- There are such keys -----

  /** The simplest way to write integers as bytes: as many zeros, or as many ones for the negative. */
  function Unary(): Keys {
    Keys((k: int) => if k >= 0 then seq(k, _ => 0) else seq(-k, _ => 1),
         (b: Bytes) => if b != [] && b[0] == 1 then -|b| else |b|)
  }

  /** Keys can be written so that they read back, and then logs with records in them fit. */
  lemma SomeLogFits() returns (keys: Keys, log: seq<Record>)
    ensures SoundKeys(keys) && log != [] && (forall r :: r in log ==> r.writes != [] && Fits(keys, r))
  {
    keys := Unary();
    log := [Record(0, [Write(3, Put, [7]), Write(-2, Deletion, [])])];
    assert Bound(8) == 256 * Bound(7);
  }
}
