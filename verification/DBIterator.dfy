/** The user-level iterator (db/db_iter.cc): it hides newer, overwritten and deleted entries
    of a sorted run of internal entries, and can turn around at any point. */
module DBIterator {
  import opened Entries
  import opened Cursors

  datatype UserEntry = UserEntry(key: int, value: Bytes)

  // ----- What the iterator is supposed to walk over -----

  /** Entry `i` is the newest entry of its user key that the snapshot can see, and holds a value. */
  ghost predicate Yields(es: seq<Entry>, snap: nat, i: int) {
    && 0 <= i < |es|
    && VisibleAt(es[i], snap)
    && es[i].kind.Put?
    && forall j :: 0 <= j < i && es[j].key == es[i].key ==> !VisibleAt(es[j], snap)
  }

  /** The user entries the first `n` internal entries give rise to. */
  ghost function UserEntries(es: seq<Entry>, snap: nat, n: nat): (us: seq<UserEntry>)
    requires n <= |es|
    ensures |us| <= n
  {
    if n == 0 then []
    else if Yields(es, snap, n - 1)
    then UserEntries(es, snap, n - 1) + [UserEntry(es[n - 1].key, es[n - 1].value)]
    else UserEntries(es, snap, n - 1)
  }

  ghost function View(es: seq<Entry>, snap: nat): seq<UserEntry> {
    UserEntries(es, snap, |es|)
  }

  /** What a snapshot read of one key must return: the value of the newest visible entry,
      or nothing when there is none or it is a deletion. */
  ghost predicate IsRead(es: seq<Entry>, snap: nat, key: int, r: Option<Bytes>) {
    match r
    case Some(v) =>
      exists i :: 0 <= i < |es| && es[i].key == key && es[i].kind.Put? && es[i].value == v && VisibleAt(es[i], snap)
        && forall j :: 0 <= j < |es| && es[j].key == key && VisibleAt(es[j], snap) ==> es[j].Tag() <= es[i].Tag()
    case None =>
      forall i :: 0 <= i < |es| && es[i].key == key && es[i].kind.Put? && VisibleAt(es[i], snap) ==>
        exists j :: 0 <= j < |es| && es[j].key == key && VisibleAt(es[j], snap) && es[j].Tag() > es[i].Tag()
  }

  lemma {:induction false} UserEntriesPrefix(es: seq<Entry>, snap: nat, m: nat, n: nat)
    requires m <= n <= |es|
    ensures UserEntries(es, snap, m) <= UserEntries(es, snap, n)
    ensures (forall i :: m <= i < n ==> !Yields(es, snap, i)) ==> UserEntries(es, snap, m) == UserEntries(es, snap, n)
    decreases n
  {
    if m < n {
      UserEntriesPrefix(es, snap, m, n - 1);
    }
  }

  /** Every yielding entry sits in the view at its own rank. */
  lemma YieldAtRank(es: seq<Entry>, snap: nat, i: nat)
    requires Yields(es, snap, i)
    ensures var r := |UserEntries(es, snap, i)|;
            r < |View(es, snap)| && View(es, snap)[r] == UserEntry(es[i].key, es[i].value)
  {
    UserEntriesPrefix(es, snap, i + 1, |es|);
  }

  /** Two yielding entries are in the same order as their user keys. */
  lemma YieldsOrdered(es: seq<Entry>, snap: nat, i: nat, j: nat)
    requires Sorted(es) && i < j && Yields(es, snap, i) && Yields(es, snap, j)
    ensures es[i].key < es[j].key
  {
    assert Before(es[i], es[j]);
  }

  lemma {:induction false} UserEntriesMember(es: seq<Entry>, snap: nat, n: nat, r: nat) returns (i: nat)
    requires n <= |es| && r < |UserEntries(es, snap, n)|
    ensures i < n && Yields(es, snap, i)
    ensures |UserEntries(es, snap, i)| == r
    ensures UserEntries(es, snap, n)[r] == UserEntry(es[i].key, es[i].value)
  {
    if Yields(es, snap, n - 1) && r == |UserEntries(es, snap, n - 1)| {
      i := n - 1;
    } else {
      i := UserEntriesMember(es, snap, n - 1, r);
    }
  }

  lemma ViewIncreasing(es: seq<Entry>, snap: nat)
    requires Sorted(es)
    ensures forall a, b :: 0 <= a < b < |View(es, snap)| ==> View(es, snap)[a].key < View(es, snap)[b].key
  {
    forall a, b | 0 <= a < b < |View(es, snap)| ensures View(es, snap)[a].key < View(es, snap)[b].key {
      var i := UserEntriesMember(es, snap, |es|, a);
      var j := UserEntriesMember(es, snap, |es|, b);
      if j <= i {
        UserEntriesPrefix(es, snap, j, i);
      }
      YieldsOrdered(es, snap, i, j);
    }
  }

  /** The view is exactly the snapshot: its keys strictly increase, and a pair is in it
      exactly when a snapshot read of that key returns that value. */
  lemma ViewIsSnapshot(es: seq<Entry>, snap: nat, key: int, v: Bytes)
    requires Sorted(es)
    ensures UserEntry(key, v) in View(es, snap) <==> IsRead(es, snap, key, Some(v))
  {
    if UserEntry(key, v) in View(es, snap) {
      var r: nat :| r < |View(es, snap)| && View(es, snap)[r] == UserEntry(key, v);
      var i := UserEntriesMember(es, snap, |es|, r);
      forall j | 0 <= j < |es| && es[j].key == key && VisibleAt(es[j], snap) ensures es[j].Tag() <= es[i].Tag() {
        if i < j { assert Before(es[i], es[j]); }
      }
    }
    if IsRead(es, snap, key, Some(v)) {
      var i :| 0 <= i < |es| && es[i].key == key && es[i].kind.Put? && es[i].value == v && VisibleAt(es[i], snap)
        && forall j :: 0 <= j < |es| && es[j].key == key && VisibleAt(es[j], snap) ==> es[j].Tag() <= es[i].Tag();
      forall j | 0 <= j < i && es[j].key == key ensures !VisibleAt(es[j], snap) {
        assert Before(es[j], es[i]);
      }
      YieldAtRank(es, snap, i);
    }
  }

  /** The order in which a user-level Seek compares. */
  predicate AtOrAbove(u: UserEntry, target: int) {
    u.key >= target
  }

  // ----- The iterator itself -----

  datatype Direction = Forward | Reverse

  class DBIter {
    const entries: seq<Entry>
    const snapshot: nat
    var inner: nat               // where the internal iterator stands; |entries| when it is not valid
    var direction: Direction
    var valid: bool
    var savedKey: Option<int>    // None: cleared
    var savedValue: Bytes
    ghost var at: nat            // the entry that yields the current user entry; |entries| when not valid

    /** How far left of the current entry the internal iterator stands when walking backwards. */
    ghost function Left(): int reads this {
      if inner < |entries| then inner else -1
    }

    ghost predicate Invariant() reads this {
      && Sorted(entries)
      && inner <= |entries| && at <= |entries|
      && (valid <==> at < |entries|)
      && (valid ==> Yields(entries, snapshot, at))
      && (valid && direction.Forward? ==> inner == at)
      && (valid && direction.Reverse? ==>
           && savedKey == Some(entries[at].key) && savedValue == entries[at].value
           && Left() < at
           && (inner < |entries| ==> entries[inner].key < entries[at].key)
           && (forall j :: Left() < j < at ==> !VisibleAt(entries[j], snapshot)))
    }

    /** Position in the view that the iterator stands for. */
    ghost function Cursor(): (c: nat)
      requires Invariant()
      reads this
      ensures c <= |View(entries, snapshot)|
    {
      UserEntriesPrefix(entries, snapshot, at, |entries|);
      |UserEntries(entries, snapshot, at)|
    }

    constructor (es: seq<Entry>, snap: nat)
      requires Sorted(es)
      ensures Invariant() && entries == es && snapshot == snap && !valid
      ensures Cursor() == |View(es, snap)|
    {
      entries, snapshot := es, snap;
      inner, direction, valid, savedKey, savedValue := |es|, Forward, false, None, [];
      at := |es|;
    }

    /** A client sees an entry exactly when the plain cursor is on one, and it is that one. */
    method Current() returns (r: Option<UserEntry>)
      requires Invariant()
      ensures r == Shown(View(entries, snapshot), Cursor())
    {
      if valid {
        YieldAtRank(entries, snapshot, at);
        if direction.Forward? {
          r := Some(UserEntry(entries[inner].key, entries[inner].value));
        } else {
          r := Some(UserEntry(savedKey.value, savedValue));
        }
      } else {
        r := None;
      }
    }

    /** Moves forward to the first yielding entry at or after `inner`, past `skip` when skipping. */
    method FindNextUserEntry(skippingAtStart: bool)
      requires Sorted(entries) && inner < |entries| && direction.Forward?
      requires skippingAtStart ==> savedKey.Some?
      requires forall i, j ::
                 0 <= j < inner <= i < |entries| && entries[i].key == entries[j].key && VisibleAt(entries[j], snapshot)
                 ==> skippingAtStart && entries[i].key <= savedKey.value
      requires skippingAtStart ==> forall i :: inner <= i < |entries| && VisibleAt(entries[i], snapshot) ==>
                 savedKey.value <= entries[i].key
      modifies this
      ensures Invariant() && direction.Forward?
      ensures old(inner) <= at
      ensures valid && skippingAtStart ==> entries[at].key > old(savedKey).value
      ensures forall i :: old(inner) <= i < at ==>
                !(Yields(entries, snapshot, i) && (skippingAtStart ==> entries[i].key > old(savedKey).value))
    {
      ghost var start, skip0 := inner, savedKey;
      var skipping := skippingAtStart;
      while inner < |entries|
        invariant start <= inner <= |entries| && direction.Forward?
        invariant skippingAtStart ==> skipping && skip0.Some? && savedKey.Some? && skip0.value <= savedKey.value
        invariant skipping ==> savedKey.Some?
        invariant skipping ==>
                    || (skippingAtStart && savedKey == skip0)
                    || exists j :: start <= j < inner && VisibleAt(entries[j], snapshot)
                        && entries[j].key == savedKey.value
        invariant forall j :: start <= j < inner && VisibleAt(entries[j], snapshot) ==>
                    skipping && entries[j].key <= savedKey.value
        invariant forall i :: start <= i < inner ==>
                    !(Yields(entries, snapshot, i) && (skippingAtStart ==> entries[i].key > skip0.value))
        decreases |entries| - inner
      {
        var e := entries[inner];
        if VisibleAt(e, snapshot) {
          if e.kind.Deletion? {
            savedKey := Some(e.key);
            skipping := true;
          } else if skipping && e.key <= savedKey.value {
            // hidden: it does not yield, or it is the key to skip past
            assert !(Yields(entries, snapshot, inner) && (skippingAtStart ==> e.key > skip0.value)) by {
              if !(skippingAtStart && savedKey == skip0) {
                var j :| start <= j < inner && VisibleAt(entries[j], snapshot) && entries[j].key == savedKey.value;
                assert Before(entries[j], entries[inner]);
              }
            }
          } else {
            assert Yields(entries, snapshot, inner) by {
              forall j | 0 <= j < inner && entries[j].key == e.key ensures !VisibleAt(entries[j], snapshot) {}
            }
            valid := true;
            savedKey := None;
            at := inner;
            return;
          }
        }
        inner := inner + 1;
      }
      savedKey := None;
      valid := false;
      at := |entries|;
    }

    /** Moves backward to the last yielding entry at or before `inner`, and leaves the internal
        iterator just before that user key. */
    method FindPrevUserEntry()
      requires Sorted(entries) && inner <= |entries| && direction.Reverse?
      requires inner < |entries| ==>
                 forall j :: inner < j < |entries| && VisibleAt(entries[j], snapshot) ==>
                     entries[j].key > entries[inner].key
      modifies this
      ensures Invariant()
      ensures valid ==> at <= old(Left())
      ensures forall i :: 0 <= i <= old(Left()) && Yields(entries, snapshot, i) ==> valid && i <= at
    {
      ghost var start := Left();
      var kind := Deletion;
      ghost var last := start + 1;     // the leftmost visible entry seen so far
      if inner < |entries| {
        while inner < |entries|
          invariant inner <= |entries| && direction.Reverse? && Left() <= start
          invariant Left() < last <= start + 1
          invariant kind.Put? ==>
                      && last <= start && entries[last].kind.Put? && VisibleAt(entries[last], snapshot)
                      && savedKey == Some(entries[last].key) && savedValue == entries[last].value
          invariant kind.Deletion? && last <= start ==> entries[last].kind.Deletion?
          invariant last <= start ==> VisibleAt(entries[last], snapshot)
          invariant forall j :: Left() < j < last ==> !VisibleAt(entries[j], snapshot)
          invariant forall i :: last < i <= start ==> !Yields(entries, snapshot, i)
          decreases Left()
        {
          var e := entries[inner];
          if VisibleAt(e, snapshot) {
            if kind.Put? && e.key < savedKey.value {
              break;
            }
            assert last <= start ==> !Yields(entries, snapshot, last) by {
              if last <= start && kind.Put? {
                assert Before(e, entries[last]);
              }
            }
            last := inner;
            kind := e.kind;
            if kind.Deletion? {
              savedKey, savedValue := None, [];
            } else {
              savedKey, savedValue := Some(e.key), e.value;
            }
          }
          inner := if inner == 0 then |entries| else inner - 1;
        }
      }
      if kind.Deletion? {
        valid, savedKey, savedValue, direction := false, None, [], Forward;
        at := |entries|;
      } else {
        valid := true;
        at := last;
        assert Yields(entries, snapshot, at) by {
          forall j | 0 <= j <= Left() ensures entries[j].key < entries[at].key {
            assert j == inner || Before(entries[j], entries[inner]);
          }
        }
      }
    }

    /** The cursor of a position that no yielding entry separates from the current one. */
    lemma CursorFrom(n: nat)
      requires Invariant() && n <= at
      requires forall i :: n <= i < at ==> !Yields(entries, snapshot, i)
      ensures Cursor() == |UserEntries(entries, snapshot, n)|
    {
      UserEntriesPrefix(entries, snapshot, n, at);
    }

    method Next()
      requires Invariant() && valid
      modifies this
      ensures Invariant()
      ensures Cursor() == Move(View(entries, snapshot), AtOrAbove, old(Cursor()), Op.Next)
    {
      ghost var was := at;
      YieldAtRank(entries, snapshot, at);
      forall j | 0 <= j < |entries| && j != at
        ensures if j < at then entries[j].key <= entries[at].key else entries[at].key <= entries[j].key
      {
        assert if j < at then Before(entries[j], entries[at]) else Before(entries[at], entries[j]);
      }
      if direction.Reverse? {
        direction := Forward;
        inner := if inner == |entries| then 0 else inner + 1;
        assert inner <= was < |entries|;
      } else {
        savedKey := Some(entries[inner].key);
      }
      forall j | 0 <= j < inner && VisibleAt(entries[j], snapshot) ensures entries[j].key <= entries[was].key {}
      forall j | inner <= j < |entries| && VisibleAt(entries[j], snapshot) ensures entries[was].key <= entries[j].key {}
      FindNextUserEntry(true);
      CursorFrom(was + 1);
    }

    /** Scans backwards until the key changes; false when nothing comes before the current key. */
    method LeaveCurrentKey() returns (found: bool)
      requires Invariant() && valid && direction.Forward?
      modifies this`inner, this`savedKey
      ensures inner <= |entries| && savedKey == Some(entries[at].key)
      ensures found <==> inner < |entries|
      ensures found ==> inner < at && entries[inner].key < entries[at].key
      ensures forall i :: Left() < i <= at ==> entries[i].key == entries[at].key
    {
      savedKey := Some(entries[inner].key);
      while true
        invariant inner <= at && savedKey == Some(entries[at].key)
        invariant forall i :: inner <= i <= at ==> entries[i].key == entries[at].key
        decreases inner
      {
        inner := if inner == 0 then |entries| else inner - 1;
        if inner == |entries| {
          return false;
        }
        if entries[inner].key < savedKey.value {
          return true;
        }
        assert Before(entries[inner], entries[at]);
      }
    }

    method Prev()
      requires Invariant() && valid
      modifies this
      ensures Invariant()
      ensures Cursor() == Move(View(entries, snapshot), AtOrAbove, old(Cursor()), Op.Prev)
    {
      ghost var was := at;
      YieldAtRank(entries, snapshot, at);
      if direction.Forward? {
        var found := LeaveCurrentKey();
        if !found {
          forall i | 0 <= i < was ensures !Yields(entries, snapshot, i) {}
          UserEntriesPrefix(entries, snapshot, 0, was);
          valid, savedKey, savedValue := false, None, [];
          at := |entries|;
          return;
        }
        direction := Reverse;
      }
      StopsBefore();
      ghost var left := Left();
      forall i | left < i < was ensures !Yields(entries, snapshot, i) {}
      FindPrevUserEntry();
      Landed(left, was);
    }

    /** When the internal iterator stands before the current key, so does everything left of it. */
    lemma StopsBefore()
      requires Sorted(entries) && at < |entries| && inner <= |entries| && Left() < at
      requires inner < |entries| ==> entries[inner].key < entries[at].key
      requires forall j :: Left() < j < at ==> !VisibleAt(entries[j], snapshot) || entries[j].key == entries[at].key
      ensures inner < |entries| ==>
                forall j :: inner < j < |entries| && VisibleAt(entries[j], snapshot) ==>
                    entries[j].key > entries[inner].key
    {
      forall j | at < j < |entries| ensures entries[at].key <= entries[j].key {
        assert Before(entries[at], entries[j]);
      }
    }

    /** Landing on the last yielding entry up to `left` is one step back from `was`. */
    lemma Landed(left: int, was: nat)
      requires Invariant() && -1 <= left < was <= |entries|
      requires was < |entries| ==> Yields(entries, snapshot, was)
      requires forall i :: left < i < was ==> !Yields(entries, snapshot, i)
      requires valid ==> at <= left
      requires forall i :: 0 <= i <= left && Yields(entries, snapshot, i) ==> valid && i <= at
      ensures var c := |UserEntries(entries, snapshot, was)|;
              Cursor() == if c == 0 then |View(entries, snapshot)| else c - 1
    {
      if valid {
        UserEntriesPrefix(entries, snapshot, at + 1, was);
      } else {
        UserEntriesPrefix(entries, snapshot, 0, was);
      }
    }

    method SeekToLast()
      requires Invariant()
      modifies this
      ensures Invariant()
      ensures Cursor() == Move(View(entries, snapshot), AtOrAbove, old(Cursor()), Op.SeekToLast)
    {
      direction, savedValue := Reverse, [];
      inner := if entries == [] then 0 else |entries| - 1;
      ghost var left := Left();
      FindPrevUserEntry();
      Landed(left, |entries|);
    }

    method SeekToFirst()
      requires Invariant()
      modifies this
      ensures Invariant()
      ensures Cursor() == Move(View(entries, snapshot), AtOrAbove, old(Cursor()), Op.SeekToFirst)
    {
      direction, savedValue, inner := Forward, [], 0;
      if inner < |entries| {
        FindNextUserEntry(false);
      } else {
        valid, at := false, |entries|;
      }
      CursorFrom(0);
    }

    method Seek(target: int)
      requires Invariant()
      modifies this
      ensures Invariant()
      ensures Cursor() == Move(View(entries, snapshot), AtOrAbove, old(Cursor()), Op.Seek(target))
    {
      direction, savedValue, savedKey := Forward, [], Some(target);
      ghost var was := inner;
      inner := LowerBound(LookupTarget(target, snapshot));
      ghost var start := inner;
      if inner < |entries| {
        FindNextUserEntry(false);
      } else {
        valid, at := false, |entries|;
      }
      CursorFrom(start);
      SeekLands(target, start);
    }

    /** The seek position splits the view at the first key at or above the target. */
    lemma SeekLands(target: int, start: nat)
      requires Sorted(entries) && IsLowerBound(entries, LookupTarget(target, snapshot), start)
      ensures FirstAtOrAbove(View(entries, snapshot), AtOrAbove, target) == |UserEntries(entries, snapshot, start)|
    {
      var us, r := View(entries, snapshot), |UserEntries(entries, snapshot, start)|;
      UserEntriesPrefix(entries, snapshot, start, |entries|);
      forall a | 0 <= a < r ensures us[a].key < target {
        var i := UserEntriesMember(entries, snapshot, start, a);
      }
      if r < |us| {
        var i := UserEntriesMember(entries, snapshot, |entries|, r);
        if i < start {
          UserEntriesPrefix(entries, snapshot, i + 1, start);
          assert false;
        }
      }
      FirstAtOrAboveIs(us, AtOrAbove, target, r);
    }

    /** One move of a client, who may call Next and Prev only on a valid iterator. */
    method Apply(op: Op<int>)
      requires Invariant()
      modifies this
      ensures Invariant()
      ensures Cursor() == Move(View(entries, snapshot), AtOrAbove, old(Cursor()), op)
    {
      if valid { YieldAtRank(entries, snapshot, at); }
      match op {
        case SeekToFirst => SeekToFirst();
        case SeekToLast => SeekToLast();
        case Seek(t) => Seek(t);
        case Next => if valid { Next(); }
        case Prev => if valid { Prev(); }
      }
    }

    /** The internal iterator's Seek: the first entry at or after the target. */
    method LowerBound(t: Target) returns (i: nat)
      requires Sorted(entries)
      ensures IsLowerBound(entries, t, i)
    {
      i := 0;
      while i < |entries| && BeforeTarget(entries[i], t)
        invariant i <= |entries|
        invariant forall j :: 0 <= j < i ==> BeforeTarget(entries[j], t)
      {
        i := i + 1;
      }
      forall j | i <= j < |entries| ensures !BeforeTarget(entries[j], t) {
        assert j == i || Before(entries[i], entries[j]);
      }
    }
  }

  /** Any interleaving of moves shows a client exactly what a plain index into the
      snapshot's sorted user entries would show. */
  method Drive(it: DBIter, ops: seq<Op<int>>) returns (seen: seq<Option<UserEntry>>)
    requires it.Invariant()
    modifies it
    ensures it.Invariant()
    ensures seen == Transcript(View(it.entries, it.snapshot), AtOrAbove, old(it.Cursor()), ops)
  {
    seen := [];
    ghost var us, c := View(it.entries, it.snapshot), it.Cursor();
    for n := 0 to |ops|
      invariant it.Invariant()
      invariant seen == Transcript(us, AtOrAbove, c, ops[..n])
      invariant it.Cursor() == Final(us, AtOrAbove, c, ops[..n])
    {
      assert ops[..n + 1] == ops[..n] + [ops[n]];
      TranscriptStep(us, AtOrAbove, c, ops[..n], ops[n]);
      it.Apply(ops[n]);
      var shown := it.Current();
      seen := seen + [shown];
    }
    assert ops[..|ops|] == ops;
  }
}
