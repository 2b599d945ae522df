/** Internal keys and entries: the objects every other component stores, sorts and searches. */
module Entries {

  datatype Option<+T> = None | Some(value: T)

  /** A byte, and strings of them. */
  type Byte = b: int | 0 <= b < 256
  type Bytes = seq<Byte>

  /** The largest sequence number (56 bits), and the largest packed tag: that number and the highest kind. */
  const MAX_SEQUENCE := 0xff_ffff_ffff_ffff
  const MAX_TAG := 0xffff_ffff_ffff_ff01

  /** The kind tag of an entry: a stored value or a deletion marker. */
  datatype Kind = Deletion | Put

  /** One write.  User keys are compared only through their order, so they are integers here. */
  datatype Entry = Entry(key: int, seqno: nat, kind: Kind, value: Bytes) {
    /** Sequence number and kind packed into one number, kind in the low byte. */
    function Tag(): nat {
      seqno * 256 + if kind.Put? then 1 else 0
    }
  }

  /** One operation of a write batch. */
  datatype Write = Write(key: int, kind: Kind, value: Bytes)

  /** The entries a batch writes: consecutive sequence numbers after the last one used. */
  function BatchEntries(batch: seq<Write>, last: nat): set<Entry> {
    set i | 0 <= i < |batch| :: Entry(batch[i].key, last + 1 + i, batch[i].kind, batch[i].value)
  }

  /** A position in the internal-key order: a user key and a packed tag. */
  datatype Target = Target(key: int, tag: nat)

  /** The target used to look a user key up at a snapshot (the highest kind, so that the
      entry written at exactly that sequence number is found). */
  function LookupTarget(key: int, snapshot: nat): Target {
    Target(key, snapshot * 256 + 1)
  }

  /** The internal-key order: increasing user key, then decreasing tag. */
  predicate Before(a: Entry, b: Entry) {
    a.key < b.key || (a.key == b.key && a.Tag() > b.Tag())
  }

  /** `e` sorts strictly before the target. */
  predicate BeforeTarget(e: Entry, t: Target) {
    e.key < t.key || (e.key == t.key && e.Tag() > t.tag)
  }

  ghost predicate Sorted(es: seq<Entry>) {
    forall i, j :: 0 <= i < j < |es| ==> Before(es[i], es[j])
  }

  /** The first index whose entry is at or after the target; |es| when there is none. */
  ghost predicate IsLowerBound(es: seq<Entry>, t: Target, i: nat) {
    && i <= |es|
    && (forall j :: 0 <= j < i ==> BeforeTarget(es[j], t))
    && (forall j :: i <= j < |es| ==> !BeforeTarget(es[j], t))
  }

  predicate VisibleAt(e: Entry, snapshot: nat) {
    e.seqno <= snapshot
  }

  predicate AtOrAfter(e: Entry, t: Target) {
    !BeforeTarget(e, t)
  }

  // ----- Reading a set of entries at a snapshot -----

  ghost function EntriesOf(es: seq<Entry>): set<Entry> {
    set e | e in es
  }

  ghost predicate Matches(e: Entry, key: int, snapshot: nat) {
    e.key == key && VisibleAt(e, snapshot)
  }

  /** `r` is the newest entry of `key` the snapshot can see, or None when it can see none. */
  ghost predicate IsNewest(es: set<Entry>, key: int, snapshot: nat, r: Option<Entry>) {
    match r
    case None => forall e :: e in es ==> !Matches(e, key, snapshot)
    case Some(n) => n in es && Matches(n, key, snapshot)
                    && forall e :: e in es && Matches(e, key, snapshot) ==> e.seqno <= n.seqno
  }

  /** A sequence number is used for one write only. */
  ghost predicate Unique(es: set<Entry>) {
    forall a, b :: a in es && b in es && a.key == b.key && a.seqno == b.seqno ==> a == b
  }

  /** Every entry of `a` is newer than every entry of `b` for the same key. */
  ghost predicate NewerThan(a: set<Entry>, b: set<Entry>) {
    forall x, y :: x in a && y in b && x.key == y.key ==> x.seqno > y.seqno
  }

  /** What a client reads: a deletion reads like an absent key. */
  function ValueOf(r: Option<Entry>): Option<Bytes> {
    if r.Some? && r.value.kind.Put? then Some(r.value.value) else None
  }

  /** Searching the newer of two layers first, and the older only when nothing was found. */
  lemma NewestOfLayers(a: set<Entry>, b: set<Entry>, key: int, snapshot: nat, ra: Option<Entry>, rb: Option<Entry>)
    requires NewerThan(a, b)
    requires IsNewest(a, key, snapshot, ra)
    requires ra.None? ==> IsNewest(b, key, snapshot, rb)
    ensures IsNewest(a + b, key, snapshot, if ra.Some? then ra else rb)
  {
  }

  lemma NewestUnique(es: set<Entry>, key: int, snapshot: nat, p: Option<Entry>, q: Option<Entry>)
    requires Unique(es) && IsNewest(es, key, snapshot, p) && IsNewest(es, key, snapshot, q)
    ensures p == q
  {
  }

  lemma {:induction false} NewestExists(es: set<Entry>, key: int, snapshot: nat) returns (r: Option<Entry>)
    ensures IsNewest(es, key, snapshot, r)
    decreases |es|
  {
    if es == {} {
      r := None;
    } else {
      var e :| e in es;
      var rest := NewestExists(es - {e}, key, snapshot);
      if Matches(e, key, snapshot) && (rest.None? || rest.value.seqno < e.seqno) {
        r := Some(e);
      } else {
        r := rest;
      }
      assert forall x :: x in es ==> x == e || x in es - {e};
    }
  }
}
