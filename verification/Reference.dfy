/** What a client thinks of the database as: a map from keys to values that writes change one after another.
    Numbered entries stand for that map when reading the newest entry of a key is looking the key up. */
module Reference {
  import opened Entries

  function Lookup(m: map<int, Bytes>, key: int): Option<Bytes> {
    if key in m then Some(m[key]) else None
  }

  function Changed(m: map<int, Bytes>, w: Write): map<int, Bytes> {
    if w.kind.Put? then m[w.key := w.value] else m - {w.key}
  }

  /** The writes, first to last. */
  function AllChanged(m: map<int, Bytes>, writes: seq<Write>): map<int, Bytes> {
    if writes == [] then m
    else Changed(AllChanged(m, writes[..|writes| - 1]), writes[|writes| - 1])
  }

  /** Reading the entries at a number that sees them all is looking the key up. */
  ghost predicate StandsFor(es: set<Entry>, last: nat, m: map<int, Bytes>) {
    && (forall e :: e in es ==> e.seqno <= last)
    && forall key, p :: IsNewest(es, key, last, p) ==> ValueOf(p) == Lookup(m, key)
  }

  /** A write under the next number. */
  lemma OneChange(es: set<Entry>, last: nat, m: map<int, Bytes>, w: Write)
    requires StandsFor(es, last, m)
    ensures StandsFor(es + {Entry(w.key, last + 1, w.kind, w.value)}, last + 1, Changed(m, w))
  {
    var e := Entry(w.key, last + 1, w.kind, w.value);
    forall key, p | IsNewest(es + {e}, key, last + 1, p) ensures ValueOf(p) == Lookup(Changed(m, w), key) {
      if key == w.key {
        assert p == Some(e) by { assert Matches(e, key, last + 1); }
      } else {
        assert IsNewest(es, key, last, p);
      }
    }
  }

  lemma BatchPush(writes: seq<Write>, w: Write, last: nat)
    ensures BatchEntries(writes + [w], last) ==
            BatchEntries(writes, last) + {Entry(w.key, last + 1 + |writes|, w.kind, w.value)}
  {
    var all := writes + [w];
    forall e | e in BatchEntries(writes, last) ensures e in BatchEntries(all, last) {
      var i :| 0 <= i < |writes| && e == Entry(writes[i].key, last + 1 + i, writes[i].kind, writes[i].value);
      assert all[i] == writes[i];
    }
    assert all[|writes|] == w;
  }

  /** One write more at the end of a batch. */
  lemma PushChanges(es: set<Entry>, last: nat, m: map<int, Bytes>, front: seq<Write>, w: Write)
    requires StandsFor(es + BatchEntries(front, last), last + |front|, AllChanged(m, front))
    ensures StandsFor(es + BatchEntries(front + [w], last), last + |front| + 1, AllChanged(m, front + [w]))
  {
    var before, e := es + BatchEntries(front, last), Entry(w.key, last + |front| + 1, w.kind, w.value);
    OneChange(before, last + |front|, AllChanged(m, front), w);
    BatchPush(front, w, last);
    assert es + BatchEntries(front + [w], last) == before + {e};
    assert (front + [w])[..|front|] == front;
  }

  /** A batch of writes changes the map as its writes do, one after another. */
  lemma {:induction false} BatchChanges(es: set<Entry>, last: nat, m: map<int, Bytes>, batch: seq<Write>)
    requires StandsFor(es, last, m)
    ensures StandsFor(es + BatchEntries(batch, last), last + |batch|, AllChanged(m, batch))
  {
    if batch == [] {
      assert es + BatchEntries(batch, last) == es;
    } else {
      var n := |batch| - 1;
      BatchChanges(es, last, m, batch[..n]);
      PushChanges(es, last, m, batch[..n], batch[n]);
      assert batch[..n] + [batch[n]] == batch;
    }
  }

  /** A number that sees no more entries, or a later one, does not matter. */
  lemma OtherNumber(es: set<Entry>, last: nat, m: map<int, Bytes>, other: nat)
    requires StandsFor(es, last, m) && forall e :: e in es ==> e.seqno <= other
    ensures StandsFor(es, other, m)
  {
    forall key, p | IsNewest(es, key, other, p) ensures ValueOf(p) == Lookup(m, key) {
      assert IsNewest(es, key, last, p);
    }
  }

  /** Later entries are not seen. */
  lemma NewerUnseen(es: set<Entry>, more: set<Entry>, key: int, snapshot: nat, p: Option<Entry>)
    requires forall e :: e in more ==> e.seqno > snapshot
    ensures IsNewest(es + more, key, snapshot, p) <==> IsNewest(es, key, snapshot, p)
  {
  }

  /** The last write of a key in a batch decides what is read. */
  lemma {:induction false} LastWriteWins(m: map<int, Bytes>, batch: seq<Write>, i: nat)
    requires i < |batch| && forall j :: i < j < |batch| ==> batch[j].key != batch[i].key
    ensures Lookup(AllChanged(m, batch), batch[i].key) == if batch[i].kind.Put? then Some(batch[i].value) else None
  {
    var n := |batch| - 1;
    if i < n {
      LastWriteWins(m, batch[..n], i);
    }
  }

  lemma {:induction false} UnwrittenStays(m: map<int, Bytes>, batch: seq<Write>, key: int)
    requires forall i :: 0 <= i < |batch| ==> batch[i].key != key
    ensures Lookup(AllChanged(m, batch), key) == Lookup(m, key)
  {
    if batch != [] {
      UnwrittenStays(m, batch[..|batch| - 1], key);
    }
  }
}
