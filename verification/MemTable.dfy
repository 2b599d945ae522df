/** The memtable (db/memtable.cc): encoded entries in the order of their internal keys, and the lookup of a user
    key at a snapshot. */
module MemTable {
  import opened Entries
  import opened Coding
  import opened Separators

  /** One addition. */
  datatype Added = Added(user: Bytes, sequence: nat, kind: Kind, value: Bytes) {
    function Tag(): nat {
      sequence * 256 + if kind.Put? then 1 else 0
    }

    function Key(): Bytes {
      InternalKey(user, Tag())
    }

    ghost predicate Fits() {
      |user| + 8 < TWO_32 && |value| < TWO_32 && sequence <= MAX_SEQUENCE
    }
  }

  /** The bytes of an entry: the internal key and the value, each with its length in front. */
  function Encode(a: Added): Bytes {
    EncodeString(a.Key()) + EncodeString(a.value)
  }

  lemma EntryRoundTrip(a: Added)
    requires a.Fits()
    ensures var next := |EncodeString(a.Key())|;
            && GetString(Encode(a), 0) == Some((a.Key(), next))
                 && GetString(Encode(a), next) == Some((a.value, |Encode(a)|))
  {
    assert Holds(Encode(a), 0, EncodeString(a.Key()))
        && Holds(Encode(a), |EncodeString(a.Key())|, EncodeString(a.value));
    StringRoundTrip(Encode(a), 0, a.Key());
    StringRoundTrip(Encode(a), |EncodeString(a.Key())|, a.value);
  }

  lemma KeyParts(a: Added)
    requires a.Fits()
    ensures UserKey(a.Key()) == a.user && TagOf(a.Key()) == a.Tag()
  {
    InternalKeyParts(a.user, a.Tag());
  }

  ghost predicate Visible(a: Added, user: Bytes, snapshot: nat) {
    a.user == user && a.sequence <= snapshot
  }

  /** The newest addition of the user key that the snapshot sees, if any. */
  ghost predicate IsAnswer(added: seq<Added>, user: Bytes, snapshot: nat, r: Option<(Kind, Bytes)>) {
    if r.None? then forall a :: a in added ==> !Visible(a, user, snapshot)
    else exists a :: a in added && Visible(a, user, snapshot) && r.value == (a.kind, a.value)
                     && forall b :: b in added && Visible(b, user, snapshot) ==> b.sequence <= a.sequence
  }

  ghost predicate InOrder(added: seq<Added>) {
    forall i, j :: 0 <= i < j < |added| ==> InternalLess(added[i].Key(), added[j].Key())
  }

  /** The table is the additions, encoded. */
  ghost predicate Stored(table: seq<Bytes>, added: seq<Added>) {
    && |table| == |added|
    && forall i {:trigger EntryAt(table, added, i)} :: 0 <= i < |added| ==> EntryAt(table, added, i)
  }

  ghost predicate EntryAt(table: seq<Bytes>, added: seq<Added>, i: nat)
    requires i < |added| == |table|
  {
    added[i].Fits() && table[i] == Encode(added[i])
  }

  class MemTable {
    var table: seq<Bytes>          // the skip list, read off its lowest level
    ghost var added: seq<Added>

    ghost predicate Valid()
      reads this
    {
      Stored(table, added) && InOrder(added)
    }

    constructor ()
      ensures Valid() && added == []
    {
      table, added := [], [];
    }

    /** The internal key of an entry, and where its value starts. */
    method KeyAt(i: nat) returns (key: Bytes, next: nat)
      requires Stored(table, added) && i < |table|
      ensures added[i].Fits() && key == added[i].Key()
      ensures next <= |table[i]| && GetString(table[i], next) == Some((added[i].value, |table[i]|))
    {
      assert EntryAt(table, added, i);
      EntryRoundTrip(added[i]);
      var found := GetString(table[i], 0);
      key, next := found.value.0, found.value.1;
    }

    /** The first entry whose internal key is at or after the key. */
    method Seek(key: Bytes) returns (i: nat)
      requires Stored(table, added)
      ensures i <= |table| && SeekEndsAt(added, key, i)
    {
      i := 0;
      while i < |table|
        invariant i <= |table| && BelowKey(added, key, i)
      {
        var k, next := KeyAt(i);
        if !InternalLess(k, key) {
          return;
        }
        i := i + 1;
      }
    }

    /** Adds an entry of a sequence number the key does not have yet. */
    method Add(sequence: nat, kind: Kind, user: Bytes, value: Bytes)
      requires Valid() && Added(user, sequence, kind, value).Fits()
      requires forall a :: a in added ==> a.Key() != Added(user, sequence, kind, value).Key()
      modifies this
      ensures Valid() && multiset(added) == multiset(old(added)) + multiset{Added(user, sequence, kind, value)}
    {
      ghost var a := Added(user, sequence, kind, value);
      var key, entry := EncodeEntry(sequence, kind, user, value);
      var i := Seek(key);
      InsertedInOrder(table, added, i, a);
      InsertedStored(table, added, i, a);
      InsertedMultiset(added, i, a);
      table := InsertAt(table, i, entry);
      added := InsertAt(added, i, a);
    }

    /** The value or deletion marker of a user key at a snapshot. */
    method Get(user: Bytes, snapshot: nat) returns (r: Option<(Kind, Bytes)>)
      requires Valid() && snapshot <= MAX_SEQUENCE
      ensures IsAnswer(added, user, snapshot, r)
    {
      var i := Seek(user + EncodeFixed(snapshot * 256 + 1, 8));
      SeekAnswers(table, added, user, snapshot, i);
      if i == |table| {
        return None;
      }
      var key, next := KeyAt(i);
      KeyParts(added[i]);
      if UserKey(key) != user {
        return None;
      }
      var value := GetString(table[i], next);
      r := Some((if TagOf(key) % 256 == 1 then Put else Deletion, value.value.0));
    }
  }

  method EncodeEntry(sequence: nat, kind: Kind, user: Bytes, value: Bytes) returns (key: Bytes, entry: Bytes)
    ensures var a := Added(user, sequence, kind, value); key == a.Key() && entry == Encode(a)
  {
    key := user + EncodeFixed(sequence * 256 + if kind.Put? then 1 else 0, 8);
    entry := EncodeString(key) + EncodeString(value);
  }

  ghost predicate BelowKey(added: seq<Added>, key: Bytes, i: nat)
    requires i <= |added|
  {
    forall j {:trigger added[j]} :: 0 <= j < i ==> InternalLess(added[j].Key(), key)
  }

  ghost predicate SeekEndsAt(added: seq<Added>, key: Bytes, i: nat) {
    i <= |added| && BelowKey(added, key, i) && (i < |added| ==> !InternalLess(added[i].Key(), key))
  }

  function InsertAt<T>(s: seq<T>, i: nat, x: T): seq<T>
    requires i <= |s|
  {
    s[..i] + [x] + s[i..]
  }

  lemma InsertedMultiset<T>(s: seq<T>, i: nat, x: T)
    requires i <= |s|
    ensures multiset(InsertAt(s, i, x)) == multiset(s) + multiset{x}
  {
    assert s == s[..i] + s[i..];
  }

  lemma InsertedStored(table: seq<Bytes>, added: seq<Added>, i: nat, a: Added)
    requires Stored(table, added) && i <= |added| && a.Fits()
    ensures Stored(InsertAt(table, i, Encode(a)), InsertAt(added, i, a))
  {
    var table2, added2 := InsertAt(table, i, Encode(a)), InsertAt(added, i, a);
    forall j | 0 <= j < |added2| ensures EntryAt(table2, added2, j) {
      if j < i {
        assert EntryAt(table, added, j);
      } else if j > i {
        assert EntryAt(table, added, j - 1);
      }
    }
  }

  lemma InsertedInOrder(table: seq<Bytes>, added: seq<Added>, i: nat, a: Added)
    requires Stored(table, added) && InOrder(added) && a.Fits() && SeekEndsAt(added, a.Key(), i)
    requires forall b :: b in added ==> b.Key() != a.Key()
    ensures InOrder(InsertAt(added, i, a))
  {
    forall j | i <= j < |added| ensures InternalLess(a.Key(), added[j].Key()) {
      assert EntryAt(table, added, i);
      Distinct(added[i], a);
      if i < j {
        InternalOrder(a.Key(), added[i].Key(), added[j].Key());
      }
    }
  }

  /** Two internal keys that are not the same are in order one way or the other. */
  lemma Distinct(a: Added, b: Added)
    requires a.Fits() && b.Fits() && a.Key() != b.Key()
    ensures InternalLess(a.Key(), b.Key()) || InternalLess(b.Key(), a.Key())
  {
    KeyParts(a);
    KeyParts(b);
    LessOrder(a.user, b.user, a.user);
  }

  /** What the search for the lookup key finds is the newest visible entry, if it has the user key. */
  lemma SeekAnswers(table: seq<Bytes>, added: seq<Added>, user: Bytes, snapshot: nat, i: nat)
    requires Stored(table, added) && InOrder(added) && snapshot <= MAX_SEQUENCE
    requires SeekEndsAt(added, InternalKey(user, snapshot * 256 + 1), i)
    ensures forall j :: 0 <= j < |added| && Visible(added[j], user, snapshot) ==>
              i <= j && added[i].user == user && added[j].sequence <= added[i].sequence
    ensures i < |added| && added[i].user == user ==> Visible(added[i], user, snapshot)
  {
    var lookup := InternalKey(user, snapshot * 256 + 1);
    InternalKeyParts(user, snapshot * 256 + 1);
    LessOrder(user, user, user);
    forall j | 0 <= j < |added| && Visible(added[j], user, snapshot)
      ensures i <= j && added[i].user == user && added[j].sequence <= added[i].sequence
    {
      assert EntryAt(table, added, j);
      KeyParts(added[j]);
      assert i <= j;
      assert EntryAt(table, added, i);
      KeyParts(added[i]);
      if i < j {
        LessOrder(added[i].user, user, added[i].user);
        assert InternalLess(added[i].Key(), added[j].Key());
      }
    }
    if i < |added| {
      assert EntryAt(table, added, i);
      KeyParts(added[i]);
    }
  }
}
