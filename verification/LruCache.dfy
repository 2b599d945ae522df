/** One shard of the block and table cache (util/cache.cc): reference-counted handles, a hash table over
    those in the cache, and two circular lists, of handles in use by clients and of handles that are not. */
module LruCache {
  import opened Entries
  import opened HandleTable
  import opened Rings

  /** `refs` counts clients and, while `inCache`, the cache itself. */
  datatype Handle = Handle(name: Name, value: nat, charge: nat, inCache: bool, refs: nat)

  // ----- The cache as a value -----

  /** Handles are numbered in the order they were made, from 2: 0 and 1 are the list heads.  `lru` is
      oldest first.  `deleted` logs the deleter calls; `clients` holds one token for each handle
      a client has and has not released. */
  datatype Cache = Cache(
    handles: seq<Handle>, lru: seq<nat>, inUse: seq<nat>, contents: map<Name, nat>, usage: nat, deleted: seq<nat>,
    clients: multiset<nat>)

  function Without(list: seq<nat>, h: nat): seq<nat> {
    if list == [] then [] else if list[0] == h then list[1..] else [list[0]] + Without(list[1..], h)
  }

  function ChargeOf(handles: seq<Handle>, h: nat): nat {
    if h < |handles| then handles[h].charge else 0
  }

  function TotalCharge(handles: seq<Handle>, list: seq<nat>): nat {
    if list == [] then 0 else ChargeOf(handles, list[0]) + TotalCharge(handles, list[1..])
  }

  /** Table membership, list membership and reference counts agree, and a handle's deleter has run
      exactly when nothing refers to it any more. */
  predicate Agree(e: Handle, inTable: bool, onLru: bool, onInUse: bool, tokens: nat, deleted: bool) {
    && e.inCache == inTable == (onLru || onInUse) && !(onLru && onInUse)
    && (onLru ==> e.refs == 1) && (onInUse ==> e.refs >= 2)
    && e.refs == tokens + (if e.inCache then 1 else 0)
    && deleted == (e.refs == 0)
  }

  predicate InTable(contents: map<Name, nat>, name: Name, h: nat) {
    name in contents && contents[name] == h
  }

  ghost predicate HandleOk(c: Cache, h: nat)
    requires h < |c.handles|
  {
    Agree(c.handles[h], InTable(c.contents, c.handles[h].name, h), h in c.lru, h in c.inUse, c.clients[h],
        h in c.deleted)
  }

  ghost predicate IsHandle(c: Cache, h: nat) {
    2 <= h < |c.handles|
  }

  ghost predicate ListsOk(c: Cache) {
    && Distinct(c.lru) && Distinct(c.inUse) && Distinct(c.deleted)
    && (forall h :: h in c.lru ==> IsHandle(c, h))
    && (forall h :: h in c.inUse ==> IsHandle(c, h))
    && (forall h :: h in c.deleted ==> IsHandle(c, h))
    && (forall h :: h in c.clients ==> IsHandle(c, h))
  }

  ghost predicate Consistent(c: Cache) {
    && |c.handles| >= 2 && ListsOk(c)
    && (forall n :: n in c.contents ==> IsHandle(c, c.contents[n]) && c.handles[c.contents[n]].name == n)
    && (forall h {:trigger HandleOk(c, h)} :: 2 <= h < |c.handles| ==> HandleOk(c, h))
    && c.usage == TotalCharge(c.handles, c.lru) + TotalCharge(c.handles, c.inUse)
  }

  // ----- What the operations do to it -----

  /** A handle's only other reference is the cache's, so it moves to the in-use list. */
  function Ref(c: Cache, h: nat): Cache
    requires h < |c.handles|
  {
    var e := c.handles[h];
    var moved := if e.refs == 1 && e.inCache then c.(lru := Without(c.lru, h), inUse := c.inUse + [h]) else c;
    moved.(handles := c.handles[h := e.(refs := e.refs + 1)])
  }

  function Unref(c: Cache, h: nat): Cache
    requires h < |c.handles| && c.handles[h].refs > 0
  {
    var e := c.handles[h];
    var less := c.(handles := c.handles[h := e.(refs := e.refs - 1)]);
    if e.refs == 1 then less.(deleted := c.deleted + [h])
    else if e.inCache && e.refs == 2 then less.(inUse := Without(c.inUse, h), lru := c.lru + [h])
    else less
  }

  /** FinishErase: the handle leaves its list, and the cache's reference goes. */
  function Finish(c: Cache, h: nat): Cache
    requires h < |c.handles| && c.handles[h].refs > 0 && c.handles[h].charge <= c.usage
  {
    var e := c.handles[h];
    Unref(c.(handles := c.handles[h := e.(inCache := false)], lru := Without(c.lru, h), inUse := Without(c.inUse, h),
             usage := c.usage - e.charge), h)
  }

  function Looked(c: Cache, name: Name): Cache
    requires name in c.contents ==> c.contents[name] < |c.handles|
  {
    if name in c.contents then
      var h := c.contents[name];
      Ref(c, h).(clients := c.clients + multiset{h})
    else c
  }

  function Released(c: Cache, h: nat): Cache
    requires h < |c.handles| && c.handles[h].refs > 0
  {
    Unref(c, h).(clients := c.clients - multiset{h})
  }

  /** Taking a name out of the table and finishing. */
  function Erased(c: Cache, name: Name): Cache
    requires Consistent(c)
  {
    if name in c.contents then
      InTheCache(c, name);
      Finish(c.(contents := c.contents - {name}), c.contents[name])
    else c
  }

  // ----- Lists -----

  lemma {:induction false} WithoutIs(list: seq<nat>, i: nat)
    requires Distinct(list) && i < |list|
    ensures Without(list, list[i]) == list[..i] + list[i + 1..]
  {
    if i > 0 {
      WithoutIs(list[1..], i - 1);
    }
  }

  /** The place in a list of place `j` of the list without element `i`. */
  function Skip(i: nat, j: nat): nat {
    if j < i then j else j + 1
  }

  lemma WithoutSkips(list: seq<nat>, i: nat)
    requires Distinct(list) && i < |list|
    ensures |Without(list, list[i])| == |list| - 1
    ensures forall j :: 0 <= j < |list| - 1 ==> Without(list, list[i])[j] == list[Skip(i, j)]
  {
    WithoutIs(list, i);
  }

  lemma SkippedMembers(list: seq<nat>, i: nat, cut: seq<nat>)
    requires Distinct(list) && i < |list| && |cut| == |list| - 1
    requires forall j :: 0 <= j < |cut| ==> cut[j] == list[Skip(i, j)]
    ensures Distinct(cut) && forall x :: x in cut <==> x in list && x != list[i]
  {
    forall x | x in list && x != list[i] ensures x in cut {
      var j :| 0 <= j < |list| && list[j] == x;
      assert cut[if j < i then j else j - 1] == x;
    }
  }

  lemma WithoutMembers(list: seq<nat>, h: nat)
    requires Distinct(list)
    ensures Distinct(Without(list, h)) && forall x :: x in Without(list, h) <==> x in list && x != h
  {
    if h in list {
      var i :| 0 <= i < |list| && list[i] == h;
      WithoutSkips(list, i);
      SkippedMembers(list, i, Without(list, h));
    } else {
      WithoutNone(list, h);
    }
  }

  lemma {:induction false} WithoutNone(list: seq<nat>, h: nat)
    requires h !in list
    ensures Without(list, h) == list
  {
    if list != [] {
      WithoutNone(list[1..], h);
    }
  }

  lemma {:induction false} ChargeConcat(handles: seq<Handle>, a: seq<nat>, b: seq<nat>)
    ensures TotalCharge(handles, a + b) == TotalCharge(handles, a) + TotalCharge(handles, b)
  {
    if a == [] {
      assert a + b == b;
    } else {
      ChargeConcat(handles, a[1..], b);
      assert (a + b)[1..] == a[1..] + b;
    }
  }

  lemma ChargeWithout(handles: seq<Handle>, list: seq<nat>, h: nat)
    requires Distinct(list) && h in list
    ensures TotalCharge(handles, list) == TotalCharge(handles, Without(list, h)) + ChargeOf(handles, h)
  {
    var i :| 0 <= i < |list| && list[i] == h;
    WithoutIs(list, i);
    assert list == list[..i] + ([h] + list[i + 1..]);
    ChargeConcat(handles, list[..i], [h] + list[i + 1..]);
    ChargeConcat(handles, [h], list[i + 1..]);
    ChargeConcat(handles, list[..i], list[i + 1..]);
    assert TotalCharge(handles, [h]) == ChargeOf(handles, h);
  }

  lemma ChargeAppend(handles: seq<Handle>, list: seq<nat>, h: nat)
    ensures TotalCharge(handles, list + [h]) == TotalCharge(handles, list) + ChargeOf(handles, h)
  {
    ChargeConcat(handles, list, [h]);
    assert TotalCharge(handles, [h]) == ChargeOf(handles, h);
  }

  /** Charges do not depend on anything else about the handles. */
  lemma {:induction false} ChargeFrame(handles: seq<Handle>, handles2: seq<Handle>, list: seq<nat>)
    requires forall x :: x in list ==> ChargeOf(handles, x) == ChargeOf(handles2, x)
    ensures TotalCharge(handles2, list) == TotalCharge(handles, list)
  {
    if list != [] {
      assert list[0] in list;
      ChargeFrame(handles, handles2, list[1..]);
    }
  }

  lemma InTheCache(c: Cache, name: Name)
    requires Consistent(c) && name in c.contents
    ensures var h := c.contents[name];
            IsHandle(c, h) && c.handles[h].inCache && c.handles[h].refs > 0 && c.handles[h].charge <= c.usage
            && (h in c.lru <==> h !in c.inUse)
  {
    var h := c.contents[name];
    assert IsHandle(c, h) && HandleOk(c, h);
    assert InTable(c.contents, c.handles[h].name, h);
    if h in c.lru {
      ChargeWithout(c.handles, c.lru, h);
    } else {
      ChargeWithout(c.handles, c.inUse, h);
    }
    assert ChargeOf(c.handles, h) == c.handles[h].charge;
    assert c.usage == TotalCharge(c.handles, c.lru) + TotalCharge(c.handles, c.inUse);
  }

  // ----- Every operation keeps it consistent -----

  /** The table has changed for the name of handle `h` at most, and then by losing that handle. */
  ghost predicate TableShrinks(contents: map<Name, nat>, contents2: map<Name, nat>, name: Name, h: nat) {
    && (forall n :: n in contents2 ==> n in contents && contents2[n] == contents[n])
    && (forall n :: n in contents && n != name ==> n in contents2)
    && (name in contents && name !in contents2 ==> contents[name] == h)
  }

  /** Nothing has changed about the other handles. */
  ghost predicate OthersSame(c: Cache, d: Cache, h: nat)
    requires IsHandle(c, h) && |d.handles| == |c.handles|
  {
    && d.handles[h].name == c.handles[h].name && d.handles[h].charge == c.handles[h].charge
    && (forall x :: 0 <= x < |c.handles| && x != h ==> d.handles[x] == c.handles[x])
    && (forall x :: x != h ==> (x in d.lru <==> x in c.lru) && (x in d.inUse <==> x in c.inUse))
    && (forall x :: x != h ==> c.clients[x] == d.clients[x] && (x in d.deleted <==> x in c.deleted))
    && TableShrinks(c.contents, d.contents, c.handles[h].name, h)
  }

  lemma OtherHandle(c: Cache, d: Cache, h: nat, x: nat)
    requires IsHandle(c, h) && IsHandle(c, x) && x != h && |d.handles| == |c.handles| && OthersSame(c, d, h)
               && HandleOk(c, x)
    ensures HandleOk(d, x)
  {
    var name := c.handles[x].name;
    assert InTable(d.contents, name, x) == InTable(c.contents, name, x);
  }

  /** What has to be shown when only handle `h` has changed. */
  lemma OneHandleChanged(c: Cache, d: Cache, h: nat)
    requires Consistent(c) && IsHandle(c, h) && |d.handles| == |c.handles| && ListsOk(d) && OthersSame(c, d, h)
    requires HandleOk(d, h)
    requires d.usage == TotalCharge(c.handles, d.lru) + TotalCharge(c.handles, d.inUse)
    ensures Consistent(d)
  {
    ChargeFrame(c.handles, d.handles, d.lru);
    ChargeFrame(c.handles, d.handles, d.inUse);
    forall x {:trigger HandleOk(d, x)} | 2 <= x < |d.handles| ensures HandleOk(d, x) {
      assert HandleOk(c, x);
      if x != h {
        OtherHandle(c, d, h, x);
      }
    }
  }

  lemma LookedKeeps(c: Cache, name: Name)
    requires Consistent(c)
    ensures Consistent(Looked(c, name))
  {
    if name in c.contents {
      var h := c.contents[name];
      var d := Looked(c, name);
      InTheCache(c, name);
      assert HandleOk(c, h);
      if h in c.lru {
        WithoutMembers(c.lru, h);
        ChargeWithout(c.handles, c.lru, h);
        ChargeAppend(c.handles, c.inUse, h);
      }
      OneHandleChanged(c, d, h);
    }
  }

  lemma ReleasedKeeps(c: Cache, h: nat)
    requires Consistent(c) && h in c.clients
    ensures IsHandle(c, h) && c.handles[h].refs > 0 && Consistent(Released(c, h))
  {
    assert IsHandle(c, h);
    assert HandleOk(c, h);
    var d := Released(c, h);
    if h in c.inUse {
      WithoutMembers(c.inUse, h);
      ChargeWithout(c.handles, c.inUse, h);
      ChargeAppend(c.handles, c.lru, h);
    }
    OneHandleChanged(c, d, h);
  }

  lemma ErasedKeeps(c: Cache, name: Name)
    requires Consistent(c)
    ensures Consistent(Erased(c, name))
  {
    if name in c.contents {
      InTheCache(c, name);
      var h := c.contents[name];
      var d := Erased(c, name);
      assert HandleOk(c, h);
      WithoutMembers(c.lru, h);
      WithoutMembers(c.inUse, h);
      if h in c.lru {
        ChargeWithout(c.handles, c.lru, h);
        WithoutNone(c.inUse, h);
      } else {
        ChargeWithout(c.handles, c.inUse, h);
        WithoutNone(c.lru, h);
      }
      OneHandleChanged(c, d, h);
    }
  }

  // ----- Insertion and eviction -----

  /** A new handle the cache does not keep. */
  function Uncached(c: Cache, name: Name, value: nat, charge: nat): Cache {
    c.(handles := c.handles + [Handle(name, value, charge, false, 1)], clients := c.clients + multiset{|c.handles|})
  }

  /** A new handle, in use by the caller and found by its name. */
  function Placed(c: Cache, name: Name, value: nat, charge: nat): Cache {
    var h := |c.handles|;
    c.(handles := c.handles + [Handle(name, value, charge, true, 2)], inUse := c.inUse + [h], usage := c.usage + charge,
       contents := c.contents[name := h], clients := c.clients + multiset{h})
  }

  lemma UncachedKeeps(c: Cache, name: Name, value: nat, charge: nat)
    requires Consistent(c)
    ensures Consistent(Uncached(c, name, value, charge))
  {
    var d, h := Uncached(c, name, value, charge), |c.handles|;
    ChargeFrame(c.handles, d.handles, c.lru);
    ChargeFrame(c.handles, d.handles, c.inUse);
    forall x {:trigger HandleOk(d, x)} | 2 <= x < |d.handles| ensures HandleOk(d, x) {
      if x < h {
        assert HandleOk(c, x);
      }
    }
  }

  lemma PlacedKeeps(c: Cache, name: Name, value: nat, charge: nat)
    requires Consistent(c) && name !in c.contents
    ensures Consistent(Placed(c, name, value, charge))
  {
    var d, h := Placed(c, name, value, charge), |c.handles|;
    ChargeFrame(c.handles, d.handles, c.lru);
    ChargeFrame(c.handles, d.handles, c.inUse);
    ChargeAppend(d.handles, c.inUse, h);
    forall x {:trigger HandleOk(d, x)} | 2 <= x < |d.handles| ensures HandleOk(d, x) {
      if x < h {
        assert HandleOk(c, x);
        assert InTable(d.contents, c.handles[x].name, x) == InTable(c.contents, c.handles[x].name, x);
      }
    }
  }

  /** The handle no client uses that was released longest ago. */
  function Oldest(c: Cache): Name
    requires c.lru != [] && c.lru[0] < |c.handles|
  {
    c.handles[c.lru[0]].name
  }

  /** Erasing the oldest handle runs its deleter and leaves the rest of the list in order. */
  lemma OldestErased(c: Cache)
    requires Consistent(c) && c.lru != []
    ensures c.lru[0] < |c.handles| && Oldest(c) in c.contents && c.contents[Oldest(c)] == c.lru[0]
    ensures var d := Erased(c, Oldest(c));
            && Consistent(d) && d.lru == c.lru[1..] && d.inUse == c.inUse && d.deleted == c.deleted + [c.lru[0]]
            && d.usage == c.usage - c.handles[c.lru[0]].charge && d.clients == c.clients
            && d.contents == c.contents - {Oldest(c)}
            && |d.handles| == |c.handles| && forall h :: 0 <= h < |c.handles| ==>
                 d.handles[h].charge == c.handles[h].charge
  {
    var h := c.lru[0];
    assert h in c.lru;
    assert IsHandle(c, h) && HandleOk(c, h);
    assert InTable(c.contents, Oldest(c), h);
    ErasedKeeps(c, Oldest(c));
    WithoutNone(c.inUse, h);
  }

  function Evicted(c: Cache, capacity: nat): Cache
    requires Consistent(c)
    decreases |c.lru|
  {
    if c.usage > capacity && c.lru != [] then
      OldestErased(c);
      Evicted(Erased(c, Oldest(c)), capacity)
    else c
  }

  function Pruned(c: Cache): Cache
    requires Consistent(c)
    decreases |c.lru|
  {
    if c.lru != [] then
      OldestErased(c);
      Pruned(Erased(c, Oldest(c)))
    else c
  }

  function Inserted(c: Cache, capacity: nat, name: Name, value: nat, charge: nat): Cache
    requires Consistent(c)
  {
    if capacity > 0 then
      ErasedKeeps(c, name);
      ErasedGone(c, name);
      PlacedKeeps(Erased(c, name), name, value, charge);
      Evicted(Placed(Erased(c, name), name, value, charge), capacity)
    else
      UncachedKeeps(c, name, value, charge);
      Evicted(Uncached(c, name, value, charge), capacity)
  }

  lemma ErasedGone(c: Cache, name: Name)
    requires Consistent(c)
    ensures Erased(c, name).contents == c.contents - {name}
  {
    if name !in c.contents {
      assert c.contents - {name} == c.contents;
    }
  }

  /** `d` is `c` without the first `k` handles of the list of those not in use: they have been deleted in
      that order, and none of them would have fitted. */
  ghost predicate Evicts(c: Cache, d: Cache, capacity: nat, k: nat) {
    && k <= |c.lru| && d.lru == c.lru[k..] && d.deleted == c.deleted + c.lru[..k]
    && d.usage + TotalCharge(c.handles, c.lru[..k]) == c.usage && d.inUse == c.inUse && d.clients == c.clients
    && (k > 0 ==> d.usage + ChargeOf(c.handles, c.lru[k - 1]) > capacity)
  }

  lemma EvictsOneMore(c: Cache, c1: Cache, d: Cache, capacity: nat, j: nat)
    requires c.lru != [] && c1.lru == c.lru[1..] && c1.deleted == c.deleted + [c.lru[0]] && c1.inUse == c.inUse
    requires c1.clients == c.clients && c1.usage + ChargeOf(c.handles, c.lru[0]) == c.usage && c.usage > capacity
    requires forall h :: ChargeOf(c1.handles, h) == ChargeOf(c.handles, h)
    requires Evicts(c1, d, capacity, j)
    ensures Evicts(c, d, capacity, j + 1)
  {
    assert c.lru[..j + 1] == [c.lru[0]] + c1.lru[..j] && c.lru[j + 1..] == c1.lru[j..];
    assert c.deleted + [c.lru[0]] + c1.lru[..j] == c.deleted + c.lru[..j + 1];
    ChargeFrame(c.handles, c1.handles, c1.lru[..j]);
    if j > 0 {
      assert c.lru[j] == c1.lru[j - 1];
    }
  }

  /** Eviction takes handles from the old end of the list, in the order they were released, and no more
      than it must: it stops when the rest fits, or when nothing evictable is left. */
  lemma {:induction false} EvictedInOrder(c: Cache, capacity: nat) returns (k: nat)
    requires Consistent(c)
    ensures var d := Evicted(c, capacity);
            Consistent(d) && Evicts(c, d, capacity, k) && (d.usage <= capacity || d.lru == [])
    decreases |c.lru|
  {
    if c.usage > capacity && c.lru != [] {
      OldestErased(c);
      var j := EvictedInOrder(Erased(c, Oldest(c)), capacity);
      k := j + 1;
      EvictsOneMore(c, Erased(c, Oldest(c)), Evicted(c, capacity), capacity, j);
    } else {
      k := 0;
      assert c.lru[0..] == c.lru && c.deleted + c.lru[..0] == c.deleted;
    }
  }

  /** Eviction changes the contents only by what it deletes. */
  lemma {:induction false} EvictedContents(c: Cache, capacity: nat)
    requires Consistent(c)
    ensures var d := Evicted(c, capacity);
            && (forall n :: n in d.contents ==> n in c.contents && d.contents[n] == c.contents[n])
            && (forall n :: n in c.contents && c.contents[n] in c.inUse ==> n in d.contents)
    decreases |c.lru|
  {
    if c.usage > capacity && c.lru != [] {
      OldestErased(c);
      EvictedContents(Erased(c, Oldest(c)), capacity);
      assert HandleOk(c, c.lru[0]);
    }
  }

  /** Pruning deletes every handle no client uses, oldest first, and nothing else. */
  lemma {:induction false} PrunedAll(c: Cache)
    requires Consistent(c)
    ensures var d := Pruned(c);
            && Consistent(d) && d.lru == [] && d.deleted == c.deleted + c.lru && d.inUse == c.inUse
                 && d.clients == c.clients
            && (forall n :: n in d.contents <==> n in c.contents && c.contents[n] in c.inUse)
            && (forall n :: n in d.contents ==> d.contents[n] == c.contents[n])
    decreases |c.lru|
  {
    if c.lru != [] {
      OldestErased(c);
      var d := Erased(c, Oldest(c));
      PrunedAll(d);
      assert c.deleted + [c.lru[0]] + c.lru[1..] == c.deleted + c.lru;
      assert HandleOk(c, c.lru[0]);
    } else {
      assert c.deleted + [] == c.deleted;
      forall n | n in c.contents ensures c.contents[n] in c.inUse {
        InTheCache(c, n);
      }
    }
  }

  // ----- Whole runs -----

  datatype Op =
    | Insert(name: Name, value: nat, charge: nat)
    | Lookup(name: Name)
    | Release(handle: nat)
    | Erase(name: Name)
    | Prune

  lemma InsertedKeeps(c: Cache, capacity: nat, name: Name, value: nat, charge: nat)
    requires Consistent(c)
    ensures Consistent(Inserted(c, capacity, name, value, charge))
  {
    if capacity > 0 {
      ErasedKeeps(c, name);
      ErasedGone(c, name);
      PlacedKeeps(Erased(c, name), name, value, charge);
      var k := EvictedInOrder(Placed(Erased(c, name), name, value, charge), capacity);
    } else {
      UncachedKeeps(c, name, value, charge);
      var k := EvictedInOrder(Uncached(c, name, value, charge), capacity);
    }
  }

  /** After an insertion usage fits the capacity or nothing is evictable, and the new handle is found under
      its name unless the cache keeps nothing. */
  lemma InsertedFits(c: Cache, capacity: nat, name: Name, value: nat, charge: nat)
    requires Consistent(c)
    ensures var d := Inserted(c, capacity, name, value, charge);
            && (d.usage <= capacity || d.lru == [])
            && (capacity > 0 ==> name in d.contents && d.contents[name] == |c.handles|)
            && d.clients == c.clients + multiset{|c.handles|}
            && forall n :: n in d.contents && n != name ==> n in c.contents && d.contents[n] == c.contents[n]
  {
    if capacity > 0 {
      ErasedKeeps(c, name);
      ErasedGone(c, name);
      var p := Placed(Erased(c, name), name, value, charge);
      PlacedKeeps(Erased(c, name), name, value, charge);
      var k := EvictedInOrder(p, capacity);
      assert p.inUse[|p.inUse| - 1] == |c.handles|;
      EvictedContents(p, capacity);
    } else {
      UncachedKeeps(c, name, value, charge);
      var k := EvictedInOrder(Uncached(c, name, value, charge), capacity);
      EvictedContents(Uncached(c, name, value, charge), capacity);
    }
  }

  function Do(c: Cache, capacity: nat, op: Op): Cache
    requires Consistent(c)
  {
    match op
    case Insert(name, value, charge) => Inserted(c, capacity, name, value, charge)
    case Lookup(name) => Looked(c, name)
    case Release(h) =>
      if h in c.clients then
        ReleasedKeeps(c, h);
        Released(c, h)
      else c                      // a client may release only what it holds
    case Erase(name) => Erased(c, name)
    case Prune => Pruned(c)
  }

  lemma DoKeeps(c: Cache, capacity: nat, op: Op)
    requires Consistent(c)
    ensures Consistent(Do(c, capacity, op))
  {
    match op
    case Insert(name, value, charge) => InsertedKeeps(c, capacity, name, value, charge);
    case Lookup(name) => LookedKeeps(c, name);
    case Release(h) => if h in c.clients { ReleasedKeeps(c, h); }
    case Erase(name) => ErasedKeeps(c, name);
    case Prune => PrunedAll(c);
  }

  lemma ErasedDeleted(c: Cache, name: Name)
    requires Consistent(c)
    ensures c.deleted <= Erased(c, name).deleted
  {
  }

  lemma InsertedDeleted(c: Cache, capacity: nat, name: Name, value: nat, charge: nat)
    requires Consistent(c)
    ensures c.deleted <= Inserted(c, capacity, name, value, charge).deleted
  {
    if capacity > 0 {
      ErasedKeeps(c, name);
      ErasedGone(c, name);
      ErasedDeleted(c, name);
      PlacedKeeps(Erased(c, name), name, value, charge);
      var k := EvictedInOrder(Placed(Erased(c, name), name, value, charge), capacity);
    } else {
      UncachedKeeps(c, name, value, charge);
      var k := EvictedInOrder(Uncached(c, name, value, charge), capacity);
    }
  }

  /** A deleter that has run stays run, and is not run again: the log only grows, without repeats. */
  lemma DeletedGrows(c: Cache, capacity: nat, op: Op)
    requires Consistent(c)
    ensures Distinct(Do(c, capacity, op).deleted) && c.deleted <= Do(c, capacity, op).deleted
  {
    DoKeeps(c, capacity, op);
    match op
    case Insert(name, value, charge) => InsertedDeleted(c, capacity, name, value, charge);
    case Prune => PrunedAll(c);
    case Erase(name) => ErasedDeleted(c, name);
    case _ =>
  }

  const EMPTY := Cache([Handle(Name([], 0), 0, 0, false, 0), Handle(Name([], 0), 0, 0, false, 0)], [], [], map[], 0,
      [], multiset{})

  ghost predicate IsRun(caches: seq<Cache>, ops: seq<Op>, capacity: nat) {
    && |caches| == |ops| + 1 && caches[0] == EMPTY
    && forall i :: 0 <= i < |ops| ==> Consistent(caches[i]) ==> caches[i + 1] == Do(caches[i], capacity, ops[i])
  }

  /** In every reachable state table, lists, counts and usage agree, and each deleter has run exactly once if
      nobody refers to its handle any more, and not at all otherwise. */
  lemma {:induction false} RunKeeps(caches: seq<Cache>, ops: seq<Op>, capacity: nat, k: nat)
    requires IsRun(caches, ops, capacity) && k < |caches|
    ensures Consistent(caches[k])
  {
    if k > 0 {
      RunKeeps(caches, ops, capacity, k - 1);
      DoKeeps(caches[k - 1], capacity, ops[k - 1]);
    }
  }

  // ----- Least recently used first -----

  /** When a client last released handle `h`, counting the operations from 1; 0 if none has. */
  ghost function LastRelease(caches: seq<Cache>, ops: seq<Op>, k: nat, h: nat): (t: nat)
    requires k <= |ops| < |caches|
    ensures t <= k
  {
    if k == 0 then 0
    else if ops[k - 1] == Release(h) && h in caches[k - 1].clients then k
    else LastRelease(caches, ops, k - 1, h)
  }

  ghost predicate SortedBy(list: seq<nat>, when: nat -> nat) {
    && (forall i :: 0 <= i < |list| ==> when(list[i]) > 0)
    && forall i, j :: 0 <= i < j < |list| ==> when(list[i]) < when(list[j])
  }

  lemma SkippedSorted(list: seq<nat>, i: nat, cut: seq<nat>, when: nat -> nat)
    requires SortedBy(list, when) && i < |list| && |cut| == |list| - 1
    requires forall j :: 0 <= j < |cut| ==> cut[j] == list[Skip(i, j)]
    ensures SortedBy(cut, when)
  {
  }

  lemma SortedWithout(list: seq<nat>, h: nat, when: nat -> nat)
    requires Distinct(list) && SortedBy(list, when)
    ensures SortedBy(Without(list, h), when)
  {
    if h in list {
      var i :| 0 <= i < |list| && list[i] == h;
      WithoutSkips(list, i);
      SkippedSorted(list, i, Without(list, h), when);
    } else {
      WithoutNone(list, h);
    }
  }

  lemma SortedPlaces(list: seq<nat>, when: nat -> nat, i: nat, j: nat)
    requires SortedBy(list, when) && i < |list| && j < |list| && when(list[i]) < when(list[j])
    ensures i < j
  {
  }

  lemma SortedFrom(list: seq<nat>, k: nat, when: nat -> nat)
    requires SortedBy(list, when) && k <= |list|
    ensures SortedBy(list[k..], when)
  {
  }

  /** The list after an operation that is no release: handles have left it, and nothing else. */
  lemma OthersStaySorted(c: Cache, capacity: nat, op: Op, when: nat -> nat)
    requires Consistent(c) && SortedBy(c.lru, when) && !op.Release?
    ensures SortedBy(Do(c, capacity, op).lru, when)
  {
    match op
    case Insert(name, value, charge) =>
      InsertStaysSorted(c, capacity, name, value, charge, when);
    case Lookup(name) =>
      if name in c.contents {
        SortedWithout(c.lru, c.contents[name], when);
      }
    case Erase(name) =>
      EraseStaysSorted(c, name, when);
    case Prune =>
      PrunedAll(c);
  }

  lemma EraseStaysSorted(c: Cache, name: Name, when: nat -> nat)
    requires Consistent(c) && SortedBy(c.lru, when)
    ensures SortedBy(Erased(c, name).lru, when)
  {
    if name in c.contents {
      InTheCache(c, name);
      assert HandleOk(c, c.contents[name]);
      SortedWithout(c.lru, c.contents[name], when);
    }
  }

  lemma InsertStaysSorted(c: Cache, capacity: nat, name: Name, value: nat, charge: nat, when: nat -> nat)
    requires Consistent(c) && SortedBy(c.lru, when)
    ensures SortedBy(Inserted(c, capacity, name, value, charge).lru, when)
  {
    if capacity > 0 {
      ErasedKeeps(c, name);
      ErasedGone(c, name);
      EraseStaysSorted(c, name, when);
      PlacedKeeps(Erased(c, name), name, value, charge);
      var k := EvictedInOrder(Placed(Erased(c, name), name, value, charge), capacity);
      SortedFrom(Erased(c, name).lru, k, when);
    } else {
      UncachedKeeps(c, name, value, charge);
      var k := EvictedInOrder(Uncached(c, name, value, charge), capacity);
      SortedFrom(c.lru, k, when);
    }
  }

  /** A handle released by its last client goes behind all the others. */
  lemma ReleaseStaysSorted(c: Cache, h: nat, when: nat -> nat, after: nat -> nat, k: nat)
    requires Consistent(c) && h in c.clients && SortedBy(c.lru, when) && k > 0
    requires after(h) == k && forall x :: x != h ==> after(x) == when(x) < k
    ensures IsHandle(c, h) && c.handles[h].refs > 0 && SortedBy(Released(c, h).lru, after)
  {
    ReleasedKeeps(c, h);
    assert HandleOk(c, h);
    assert h !in c.lru;
    assert forall i :: 0 <= i < |c.lru| ==> c.lru[i] in c.lru;
  }

  ghost function When(caches: seq<Cache>, ops: seq<Op>, k: nat): nat -> nat
    requires k <= |ops| < |caches|
  {
    h => LastRelease(caches, ops, k, h)
  }

  /** In every run the handles no client uses are listed in the order in which they were last released. */
  lemma {:induction false} ListedByRelease(caches: seq<Cache>, ops: seq<Op>, capacity: nat, k: nat)
    requires IsRun(caches, ops, capacity) && k < |caches|
    ensures SortedBy(caches[k].lru, When(caches, ops, k))
  {
    if k > 0 {
      var c, op, when, after := caches[k - 1], ops[k - 1], When(caches, ops, k - 1), When(caches, ops, k);
      ListedByRelease(caches, ops, capacity, k - 1);
      RunKeeps(caches, ops, capacity, k - 1);
      if op.Release? && op.handle in c.clients {
        ReleaseStaysSorted(c, op.handle, when, after, k);
      } else {
        forall h ensures after(h) == when(h) {
        }
        if !op.Release? {
          OthersStaySorted(c, capacity, op, when);
        }
      }
    }
  }

  ghost predicate DeletedBefore(deleted: seq<nat>, x: nat, y: nat) {
    exists i, j :: 0 <= i < j < |deleted| && deleted[i] == x && deleted[j] == y
  }

  lemma FromPrefix(before: seq<nat>, list: seq<nat>, k: nat, i: nat, j: nat)
    requires k <= |list| && Distinct(list) && i < j < |list| && list[j] in before + list[..k] && list[j] !in before
    ensures DeletedBefore(before + list[..k], list[i], list[j])
  {
    var m :| 0 <= m < |list[..k]| && list[..k][m] == list[j];
    assert m == j;
    assert (before + list[..k])[|before| + i] == list[i] && (before + list[..k])[|before| + j] == list[j];
  }

  /** Of two handles on the list, evicting the later one has evicted the earlier one before. */
  lemma EvictedBefore(c: Cache, capacity: nat, i: nat, j: nat)
    requires Consistent(c) && i < j < |c.lru| && c.lru[j] in Evicted(c, capacity).deleted
    ensures DeletedBefore(Evicted(c, capacity).deleted, c.lru[i], c.lru[j])
  {
    var k := EvictedInOrder(c, capacity);
    var deleted := Evicted(c, capacity).deleted;
    assert c.lru[j] in c.lru && HandleOk(c, c.lru[j]);
    FromPrefix(c.deleted, c.lru, k, i, j);
  }

  /** Where handles other than `h` are in a list without it. */
  lemma PlaceWithout(list: seq<nat>, h: nat, i: nat, j: nat) returns (i2: nat, j2: nat)
    requires Distinct(list) && i < j < |list| && list[i] != h && list[j] != h
    ensures i2 < j2 < |Without(list, h)| && Without(list, h)[i2] == list[i] && Without(list, h)[j2] == list[j]
  {
    i2, j2 := i, j;
    if h in list {
      var m :| 0 <= m < |list| && list[m] == h;
      WithoutSkips(list, m);
      i2, j2 := if i < m then i else i - 1, if j < m then j else j - 1;
    } else {
      WithoutNone(list, h);
    }
  }

  /** A new name makes room by deleting from the old end of the list; a handle displaced goes before. */
  lemma InsertDeletesInOrder(c: Cache, capacity: nat, name: Name, value: nat, charge: nat, i: nat, j: nat)
    requires Consistent(c) && capacity > 0 && i < j < |c.lru| && c.lru[j] < |c.handles|
    requires c.handles[c.lru[j]].name != name
    requires c.lru[j] in Inserted(c, capacity, name, value, charge).deleted
    ensures DeletedBefore(Inserted(c, capacity, name, value, charge).deleted, c.lru[i], c.lru[j])
  {
    ErasedKeeps(c, name);
    ErasedGone(c, name);
    var e := Erased(c, name);
    PlacedKeeps(e, name, value, charge);
    var p := Placed(e, name, value, charge);
    if name in c.contents {
      InTheCache(c, name);
      var h := c.contents[name];
      assert HandleOk(c, h);
      if c.lru[i] == h {
        DisplacedBefore(c, e, p, capacity, h, c.lru[j]);
      } else {
        var i2, j2 := PlaceWithout(c.lru, h, i, j);
        EvictedBefore(p, capacity, i2, j2);
      }
    } else {
      EvictedBefore(p, capacity, i, j);
    }
  }

  lemma DisplacedBefore(c: Cache, e: Cache, p: Cache, capacity: nat, h: nat, y: nat)
    requires Consistent(c) && Consistent(p) && h in c.lru && y in c.lru && y != h
    requires e.deleted == c.deleted + [h] && p.deleted == e.deleted
    requires y in Evicted(p, capacity).deleted
    ensures DeletedBefore(Evicted(p, capacity).deleted, h, y)
  {
    var k := EvictedInOrder(p, capacity);
    var deleted := Evicted(p, capacity).deleted;
    assert HandleOk(c, y);
    assert y !in c.deleted + [h] && deleted == c.deleted + [h] + p.lru[..k];
    var n :| 0 <= n < |p.lru[..k]| && p.lru[..k][n] == y;
    assert deleted[|c.deleted|] == h && deleted[|c.deleted| + 1 + n] == y;
  }

  /** Of two handles that no client uses, an insertion that evicts the one released later has evicted the other
      before it. */
  lemma LeastRecentFirst(caches: seq<Cache>, ops: seq<Op>, capacity: nat, k: nat, x: nat, y: nat)
    requires IsRun(caches, ops, capacity) && capacity > 0 && k < |ops| && ops[k].Insert?
    requires x in caches[k].lru && y in caches[k].lru && LastRelease(caches, ops, k, x) < LastRelease(caches, ops, k, y)
    requires y < |caches[k].handles| && caches[k].handles[y].name != ops[k].name && y in caches[k + 1].deleted
    ensures DeletedBefore(caches[k + 1].deleted, x, y)
  {
    var c := caches[k];
    RunKeeps(caches, ops, capacity, k);
    ListedByRelease(caches, ops, capacity, k);
    var i :| 0 <= i < |c.lru| && c.lru[i] == x;
    var j :| 0 <= j < |c.lru| && c.lru[j] == y;
    SortedPlaces(c.lru, When(caches, ops, k), i, j);
    InsertDeletesInOrder(c, capacity, ops[k].name, ops[k].value, ops[k].charge, i, j);
  }

  // ----- What is found -----

  /** Handles keep their names, values and charges. */
  ghost predicate Kept(c: Cache, d: Cache) {
    && |c.handles| <= |d.handles|
    && forall h :: 0 <= h < |c.handles| ==>
         && d.handles[h].name == c.handles[h].name && d.handles[h].value == c.handles[h].value
         && d.handles[h].charge == c.handles[h].charge
  }

  lemma {:induction false} EvictedKept(c: Cache, capacity: nat)
    requires Consistent(c)
    ensures Kept(c, Evicted(c, capacity))
    decreases |c.lru|
  {
    if c.usage > capacity && c.lru != [] {
      OldestErased(c);
      EvictedKept(Erased(c, Oldest(c)), capacity);
    }
  }

  lemma {:induction false} PrunedKept(c: Cache)
    requires Consistent(c)
    ensures Kept(c, Pruned(c))
    decreases |c.lru|
  {
    if c.lru != [] {
      OldestErased(c);
      PrunedKept(Erased(c, Oldest(c)));
    }
  }

  /** What the last insertion under the name put there, if nothing was erased under it since. */
  function LastInserted(ops: seq<Op>, name: Name): Option<Op> {
    if ops == [] then None
    else
      var op := ops[|ops| - 1];
      if op.Insert? && op.name == name then Some(op)
      else if op.Erase? && op.name == name then None
      else LastInserted(ops[..|ops| - 1], name)
  }

  ghost predicate Finds(c: Cache, name: Name, op: Option<Op>)
    requires name in c.contents
  {
    && op.Some? && op.value.Insert? && c.contents[name] < |c.handles|
    && c.handles[c.contents[name]].value == op.value.value && c.handles[c.contents[name]].charge == op.value.charge
  }

  ghost predicate FindsLast(c: Cache, ops: seq<Op>) {
    forall name {:trigger name in c.contents} :: name in c.contents ==> Finds(c, name, LastInserted(ops, name))
  }

  lemma KeptOn(c: Cache, d: Cache, e: Cache)
    requires Kept(c, d) && Kept(d, e)
    ensures Kept(c, e)
  {
  }

  lemma InsertKept(c: Cache, capacity: nat, name: Name, value: nat, charge: nat)
    requires Consistent(c) && capacity > 0
    ensures var d := Inserted(c, capacity, name, value, charge);
            && Kept(c, d) && |c.handles| < |d.handles|
            && d.handles[|c.handles|].value == value && d.handles[|c.handles|].charge == charge
  {
    ErasedKeeps(c, name);
    ErasedGone(c, name);
    var p := Placed(Erased(c, name), name, value, charge);
    PlacedKeeps(Erased(c, name), name, value, charge);
    assert Kept(c, p);
    EvictedKept(p, capacity);
    KeptOn(c, p, Evicted(p, capacity));
  }

  lemma DoKept(c: Cache, capacity: nat, op: Op)
    requires Consistent(c) && capacity > 0
    ensures Kept(c, Do(c, capacity, op))
  {
    match op
    case Insert(name, value, charge) => InsertKept(c, capacity, name, value, charge);
    case Prune => PrunedKept(c);
    case _ =>
  }

  lemma InsertFinds(c: Cache, capacity: nat, op: Op, name: Name)
    requires Consistent(c) && capacity > 0 && op.Insert? && name in Do(c, capacity, op).contents
    ensures name == op.name ==> Finds(Do(c, capacity, op), name, Some(op))
    ensures name != op.name ==> name in c.contents && Do(c, capacity, op).contents[name] == c.contents[name]
  {
    InsertedFits(c, capacity, op.name, op.value, op.charge);
    InsertKept(c, capacity, op.name, op.value, op.charge);
  }

  lemma OthersFind(c: Cache, capacity: nat, op: Op, name: Name)
    requires Consistent(c) && !op.Insert? && name in Do(c, capacity, op).contents
    ensures name in c.contents && Do(c, capacity, op).contents[name] == c.contents[name]
    ensures op.Erase? ==> name != op.name
  {
    match op
    case Erase(gone) => ErasedGone(c, gone);
    case Prune => PrunedAll(c);
    case _ =>
  }

  /** In every run a name leads to what was last inserted under it, and to nothing if it was erased since. */
  lemma {:induction false} FoundIsLast(caches: seq<Cache>, ops: seq<Op>, capacity: nat, k: nat)
    requires IsRun(caches, ops, capacity) && capacity > 0 && k < |caches|
    ensures FindsLast(caches[k], ops[..k])
  {
    if k > 0 {
      var c, op := caches[k - 1], ops[k - 1];
      FoundIsLast(caches, ops, capacity, k - 1);
      RunKeeps(caches, ops, capacity, k - 1);
      assert ops[..k][..k - 1] == ops[..k - 1];
      DoKept(c, capacity, op);
      forall name {:trigger name in caches[k].contents} | name in caches[k].contents
        ensures Finds(caches[k], name, LastInserted(ops[..k], name))
      {
        if op.Insert? {
          InsertFinds(c, capacity, op, name);
        } else {
          OthersFind(c, capacity, op, name);
        }
        assert name in c.contents ==> Finds(c, name, LastInserted(ops[..k - 1], name));
      }
    }
  }

  /** A cache of no capacity keeps nothing. */
  lemma {:induction false} NothingCached(caches: seq<Cache>, ops: seq<Op>, k: nat)
    requires IsRun(caches, ops, 0) && k < |caches|
    ensures caches[k].contents == map[]
  {
    if k > 0 {
      var c, op := caches[k - 1], ops[k - 1];
      NothingCached(caches, ops, k - 1);
      RunKeeps(caches, ops, 0, k - 1);
      forall name ensures name !in Do(c, 0, op).contents {
        if name in Do(c, 0, op).contents {
          StillThere(c, op, name);
        }
      }
    }
  }

  lemma StillThere(c: Cache, op: Op, name: Name)
    requires Consistent(c) && name in Do(c, 0, op).contents
    ensures name in c.contents
  {
    if op.Insert? {
      UncachedKeeps(c, op.name, op.value, op.charge);
      EvictedContents(Uncached(c, op.name, op.value, op.charge), 0);
    } else {
      OthersFind(c, 0, op, name);
    }
  }

  // ----- The shard itself -----

  lemma {:induction false} WithoutAppend(list: seq<nat>, h: nat, e: nat)
    requires h in list || h != e
    ensures Without(list + [e], h) == if h in list then Without(list, h) + [e] else list + [e]
  {
    if list != [] && list[0] != h {
      WithoutAppend(list[1..], h, e);
      assert (list + [e])[1..] == list[1..] + [e];
      assert [list[0]] + (list[1..] + [e]) == list + [e];
    } else if list != [] {
      assert (list + [e])[1..] == list[1..] + [e];
    }
  }

  /** Displacing the old handle after placing the new one comes to the same as erasing it first. */
  lemma DisplaceLast(c: Cache, name: Name, value: nat, charge: nat)
    requires Consistent(c) && name in c.contents
    ensures var p, h := Placed(c, name, value, charge), c.contents[name];
            && h < |c.handles| && p.handles[h] == c.handles[h] && c.handles[h].refs > 0
                 && c.handles[h].charge <= p.usage
            && Finish(p, h) == Placed(Erased(c, name), name, value, charge)
  {
    InTheCache(c, name);
    var p, h, new_ := Placed(c, name, value, charge), c.contents[name], |c.handles|;
    WithoutAppend(c.inUse, h, new_);
    if h !in c.inUse {
      WithoutNone(c.inUse, h);
    }
    var a, b := Finish(p, h), Placed(Erased(c, name), name, value, charge);
    assert a.handles == b.handles;
    assert a.contents == b.contents;
  }

  class LRUCache {
    const table: HandleTable
    const capacity: nat
    var handles: seq<Handle>
    var links: Links
    var usage: nat
    var deleted: seq<nat>
    ghost var lru: seq<nat>
    ghost var inUse: seq<nat>
    ghost var clients: multiset<nat>

    ghost function Model(): Cache
      reads this, table
    {
      Cache(handles, lru, inUse, table.contents, usage, deleted, clients)
    }

    ghost predicate Threaded()
      reads this
    {
      TwoRings(links, lru, inUse) && |links.next| == |handles|
    }

    ghost predicate Valid()
      reads this, table
    {
      table.Valid() && Threaded() && Consistent(Model())
    }

    constructor (capacity: nat)
      ensures Valid() && fresh(table) && Model() == EMPTY && this.capacity == capacity
    {
      this.capacity := capacity;
      table := new HandleTable();
      handles, links := EMPTY.handles, Links([0, 1], [0, 1]);
      usage, deleted := 0, [];
      lru, inUse, clients := [], [], multiset{};
      new;
      assert Linked(links, 0, [], 0) && Linked(links, 1, [], 0);
    }

    method LRU_Remove(e: nat)
      requires Threaded() && (e in lru || e in inUse)
      modifies this`links, this`lru, this`inUse
      ensures Threaded() && lru == Without(old(lru), e) && inUse == Without(old(inUse), e)
    {
      RemovedTwoRings(links, lru, inUse, e);
      links := Removed(links, e);
      lru, inUse := Without(lru, e), Without(inUse, e);
    }

    method LRU_Append(toLru: bool, e: nat)
      requires Threaded() && 2 <= e < |handles| && e !in lru && e !in inUse
      modifies this`links, this`lru, this`inUse
      ensures Threaded() && lru == (if toLru then old(lru) + [e] else old(lru))
      ensures inUse == if toLru then old(inUse) else old(inUse) + [e]
    {
      AppendedTwoRings(links, lru, inUse, toLru, e);
      links := Appended(links, if toLru then 0 else 1, e);
      if toLru {
        lru := lru + [e];
      } else {
        inUse := inUse + [e];
      }
    }

    /** One more reference; a handle only the cache referred to is now in use. */
    method RefHandle(e: nat)
      requires Threaded() && 2 <= e < |handles|
      requires handles[e].refs == 1 && handles[e].inCache ==> e in lru && e !in inUse
      modifies this`handles, this`links, this`lru, this`inUse
      ensures Threaded() && Model() == Ref(old(Model()), e)
    {
      if handles[e].refs == 1 && handles[e].inCache {
        WithoutNone(inUse, e);
        WithoutMembers(lru, e);
        LRU_Remove(e);
        LRU_Append(false, e);
      }
      handles := handles[e := handles[e].(refs := handles[e].refs + 1)];
    }

    /** One reference less: the last one gone, the deleter runs; only the cache's left, the handle becomes
        the newest of those not in use. */
    method UnrefHandle(e: nat)
      requires Threaded() && 2 <= e < |handles| && handles[e].refs > 0
      requires handles[e].refs == 2 && handles[e].inCache ==> e in inUse && e !in lru
      modifies this`handles, this`links, this`lru, this`inUse, this`deleted
      ensures Threaded() && Model() == Unref(old(Model()), e)
      ensures !old(handles)[e].inCache ==> links == old(links)
    {
      handles := handles[e := handles[e].(refs := handles[e].refs - 1)];
      if handles[e].refs == 0 {
        deleted := deleted + [e];
      } else if handles[e].inCache && handles[e].refs == 1 {
        WithoutNone(lru, e);
        WithoutMembers(inUse, e);
        LRU_Remove(e);
        LRU_Append(true, e);
      }
    }

    /** Finishes removing a handle that is no longer in the table; says whether there was one. */
    method FinishErase(e: Option<nat>) returns (erased: bool)
      requires Threaded()
      requires e.Some? ==> 2 <= e.value < |handles| && handles[e.value].refs > 0 && handles[e.value].charge <= usage
                           && (e.value in lru || e.value in inUse)
      modifies this`handles, this`links, this`lru, this`inUse, this`deleted, this`usage
      ensures Threaded() && erased == e.Some?
      ensures Model() == if e.Some? then Finish(old(Model()), e.value) else old(Model())
    {
      if e.Some? {
        LRU_Remove(e.value);
        handles := handles[e.value := handles[e.value].(inCache := false)];
        usage := usage - handles[e.value].charge;
        UnrefHandle(e.value);
      }
      erased := e.Some?;
    }

    /** The handle found under a name, if any; the caller holds it until it releases it. */
    method Lookup(name: Name) returns (r: Option<nat>)
      requires Valid()
      modifies this
      ensures Valid() && Model() == Looked(old(Model()), name)
      ensures r == if name in old(table.contents) then Some(old(table.contents)[name]) else None
    {
      r := table.Lookup(name);
      LookedKeeps(Model(), name);
      if r.Some? {
        InTheCache(Model(), name);
        assert HandleOk(Model(), r.value);
        RefHandle(r.value);
        clients := clients + multiset{r.value};
      }
    }

    method Release(h: nat)
      requires Valid() && h in clients
      modifies this
      ensures Valid() && 2 <= h < |old(handles)| && old(handles)[h].refs > 0 && Model() == Released(old(Model()), h)
    {
      ReleasedKeeps(Model(), h);
      assert HandleOk(Model(), h);
      UnrefHandle(h);
      clients := clients - multiset{h};
    }

    method Erase(name: Name)
      requires Valid()
      modifies this, table
      ensures Valid() && Model() == Erased(old(Model()), name)
    {
      ErasedKeeps(Model(), name);
      if name in table.contents {
        InTheCache(Model(), name);
      } else {
        assert table.contents - {name} == table.contents;
      }
      var e := table.Remove(name);
      var erased := FinishErase(e);
    }

    /** Erases the handle at the old end of the list. */
    method EraseOldest()
      requires Valid() && lru != []
      modifies this, table
      ensures old(lru)[0] < |old(handles)|
      ensures Valid() && Model() == Erased(old(Model()), Oldest(old(Model())))
    {
      OldestErased(Model());
      assert Linked(links, 0, lru, 0);
      var e := links.next[0];
      Erase(handles[e].name);
    }

    method Evict()
      requires Valid()
      modifies this, table
      ensures Valid() && Model() == Evicted(old(Model()), capacity)
    {
      ghost var start := Model();
      while usage > capacity && links.next[0] != 0
        invariant Valid() && Evicted(Model(), capacity) == Evicted(start, capacity)
        decreases |lru|
      {
        assert Linked(links, 0, lru, 0);
        OldestErased(Model());
        EraseOldest();
      }
      assert Linked(links, 0, lru, 0);
    }

    method Prune()
      requires Valid()
      modifies this, table
      ensures Valid() && Model() == Pruned(old(Model()))
    {
      ghost var start := Model();
      while links.next[0] != 0
        invariant Valid() && Pruned(Model()) == Pruned(start)
        decreases |lru|
      {
        assert Linked(links, 0, lru, 0);
        OldestErased(Model());
        EraseOldest();
      }
      assert Linked(links, 0, lru, 0);
    }

    /** Puts a new handle in the cache, displacing the one its name had, and evicts what no longer fits. */
    method Insert(name: Name, value: nat, charge: nat) returns (h: nat)
      requires Valid()
      modifies this, table
      ensures Valid() && Model() == Inserted(old(Model()), capacity, name, value, charge) && h == |old(handles)|
    {
      h := |handles|;
      if capacity > 0 {
        Place(name, value, charge);
      } else {
        UncachedKeeps(Model(), name, value, charge);
        NewHandle(Handle(name, value, charge, false, 1));
        clients := clients + multiset{h};
      }
      Evict();
    }

    method NewHandle(e: Handle)
      requires Threaded() && |handles| >= 2
      modifies this`handles, this`links
      ensures Threaded() && handles == old(handles) + [e] && |handles| - 1 !in lru && |handles| - 1 !in inUse
    {
      handles := handles + [e];
      NewNode(links, lru, inUse);
      links := Links(links.next + [0], links.prev + [0]);
    }

    /** The new handle goes on the in-use list, with one reference for the caller and one for the cache. */
    method NewInUse(name: Name, value: nat, charge: nat)
      requires Threaded() && |handles| >= 2
      modifies this`handles, this`links, this`lru, this`inUse, this`usage, this`clients
      ensures Threaded() && lru == old(lru) && inUse == old(inUse) + [|old(handles)|] && usage == old(usage) + charge
      ensures handles == old(handles) + [Handle(name, value, charge, true, 2)]
      ensures clients == old(clients) + multiset{|old(handles)|}
    {
      var h := |handles|;
      NewHandle(Handle(name, value, charge, false, 1));
      clients := clients + multiset{h};
      handles := handles[h := handles[h].(refs := 2, inCache := true)];
      LRU_Append(false, h);
      usage := usage + charge;
    }

    method PlaceInTable(name: Name, value: nat, charge: nat) returns (displaced: Option<nat>)
      requires table.Valid() && Threaded() && |handles| >= 2
      requires forall n :: n in table.contents ==> table.contents[n] < |handles|
      modifies this, table
      ensures table.Valid() && Threaded() && Model() == Placed(old(Model()), name, value, charge)
      ensures displaced == if name in old(table.contents) then Some(old(table.contents)[name]) else None
    {
      var h := |handles|;
      NewInUse(name, value, charge);
      displaced := table.Insert(name, h);
    }

    method Place(name: Name, value: nat, charge: nat)
      requires Valid()
      modifies this, table
      ensures Valid() && Model() == Placed(Erased(old(Model()), name), name, value, charge)
    {
      ghost var c := Model();
      PlaceKeeps(c, name, value, charge);
      forall n | n in table.contents ensures table.contents[n] < |handles| {
        InTheCache(c, n);
      }
      var displaced := PlaceInTable(name, value, charge);
      var erased := FinishErase(displaced);
    }

    /** Drops the cache's reference to a handle no client uses, which stays linked. */
    method Drop(e: nat)
      requires Threaded() && 2 <= e < |handles| && handles[e].refs == 1
      modifies this`handles, this`links, this`lru, this`inUse, this`deleted
      ensures Threaded() && links == old(links) && lru == old(lru) && inUse == old(inUse)
      ensures deleted == old(deleted) + [e] && handles == old(handles)[e := handles[e]]
    {
      handles := handles[e := handles[e].(inCache := false)];
      UnrefHandle(e);
    }

    /** The destructor: the cache's reference to every handle no client uses goes. */
    method Close()
      requires Valid() && inUse == []
      modifies this`handles, this`links, this`lru, this`inUse, this`deleted
      ensures deleted == old(deleted) + old(lru)
    {
      ghost var l, list, was := links, lru, handles;
      OnLruOk(Model());
      var e := links.next[0];
      ghost var i := 0;
      assert Linked(l, 0, list, 0);
      while e != 0
        invariant Threaded() && links == l && lru == list && |handles| == |was| && i <= |list| && e == After(0, list, i)
        invariant deleted == old(deleted) + list[..i]
        invariant forall k :: i <= k < |list| ==> list[k] < |was| && handles[list[k]] == was[list[k]]
        decreases |list| - i
      {
        assert e == list[i] && Linked(l, 0, list, i + 1);
        var next := links.next[e];
        Drop(e);
        assert list[..i + 1] == list[..i] + [e];
        e, i := next, i + 1;
      }
      assert list[..|list|] == list;
    }
  }

  lemma OnLruOk(c: Cache)
    requires Consistent(c)
    ensures forall k :: 0 <= k < |c.lru| ==> IsHandle(c, c.lru[k]) && c.handles[c.lru[k]].refs == 1
  {
    forall k | 0 <= k < |c.lru| ensures IsHandle(c, c.lru[k]) && c.handles[c.lru[k]].refs == 1 {
      assert c.lru[k] in c.lru;
      assert HandleOk(c, c.lru[k]);
    }
  }

  /** When no client holds anything, closing the cache has run every deleter exactly once. */
  lemma ClosedDeletesAll(c: Cache)
    requires Consistent(c) && c.clients == multiset{}
    ensures c.inUse == [] && Distinct(c.deleted + c.lru)
    ensures forall h :: 2 <= h < |c.handles| ==> h in c.deleted + c.lru
  {
    assert c.inUse != [] ==> c.inUse[0] in c.inUse;
    forall h | 2 <= h < |c.handles| ensures (h in c.deleted <==> h !in c.lru) && h !in c.inUse {
      assert HandleOk(c, h);
    }
    assert forall k :: 0 <= k < |c.lru| ==> c.lru[k] in c.lru && IsHandle(c, c.lru[k]) && c.lru[k] !in c.deleted;
    assert forall k :: 0 <= k < |c.deleted| ==> c.deleted[k] in c.deleted;
  }

  /** What placing a handle comes to, with or without one to displace. */
  lemma PlaceKeeps(c: Cache, name: Name, value: nat, charge: nat)
    requires Consistent(c)
    ensures var p, d := Placed(c, name, value, charge), Placed(Erased(c, name), name, value, charge);
            && Consistent(d)
            && if name in c.contents then
                 var h := c.contents[name];
                 && 2 <= h < |c.handles| && p.handles[h].refs > 0 && p.handles[h].charge <= p.usage
                 && (h in p.lru || h in p.inUse) && Finish(p, h) == d
               else p == d
  {
    ErasedKeeps(c, name);
    ErasedGone(c, name);
    PlacedKeeps(Erased(c, name), name, value, charge);
    if name in c.contents {
      DisplaceLast(c, name, value, charge);
      InTheCache(c, name);
    }
  }

  lemma NewNode(l: Links, lru: seq<nat>, inUse: seq<nat>)
    requires TwoRings(l, lru, inUse)
    ensures TwoRings(Links(l.next + [0], l.prev + [0]), lru, inUse)
    ensures forall x :: x in lru || x in inUse ==> x < |l.next|
  {
    forall x | x in lru || x in inUse ensures x < |l.next| {
      if x in lru {
        OnRing(l, 0, lru, x);
      } else {
        OnRing(l, 1, inUse, x);
      }
    }
    OnRing(l, 0, lru, 0);
    OnRing(l, 1, inUse, 1);
    RingFrame(l, Links(l.next + [0], l.prev + [0]), 0, lru);
    RingFrame(l, Links(l.next + [0], l.prev + [0]), 1, inUse);
  }

  lemma RemovedTwoRings(l: Links, lru: seq<nat>, inUse: seq<nat>, e: nat)
    requires TwoRings(l, lru, inUse) && (e in lru || e in inUse)
    ensures e < |l.next| == |l.prev| && l.next[e] < |l.prev| && l.prev[e] < |l.next|
    ensures TwoRings(Removed(l, e), Without(lru, e), Without(inUse, e))
  {
    if e in lru {
      RemovedFrom(l, 0, lru, 1, inUse, e);
    } else {
      RemovedFrom(l, 1, inUse, 0, lru, e);
    }
    WithoutMembers(lru, e);
    WithoutMembers(inUse, e);
  }

  lemma RemovedFrom(l: Links, head: nat, list: seq<nat>, otherHead: nat, other: seq<nat>, e: nat)
    requires Ring(l, head, list) && Ring(l, otherHead, other) && e in list && head != otherHead
    requires head !in other && otherHead !in list && forall x :: x in list ==> x !in other
    ensures e < |l.next| == |l.prev| && l.next[e] < |l.prev| && l.prev[e] < |l.next|
    ensures Ring(Removed(l, e), head, Without(list, e)) && Ring(Removed(l, e), otherHead, Without(other, e))
  {
    var i :| 0 <= i < |list| && list[i] == e;
    RemovedRing(l, head, list, i);
    OnRing(l, head, list, e);
    OnRing(l, otherHead, other, otherHead);
    WithoutIs(list, i);
    WithoutNone(other, e);
    RingFrame(l, Removed(l, e), otherHead, other);
  }

  lemma AppendedTwoRings(l: Links, lru: seq<nat>, inUse: seq<nat>, toLru: bool, e: nat)
    requires TwoRings(l, lru, inUse) && 2 <= e < |l.next| && e !in lru && e !in inUse
    ensures 1 < |l.next| == |l.prev| && l.prev[if toLru then 0 else 1] < |l.next|
    ensures TwoRings(Appended(l, if toLru then 0 else 1, e),
                     if toLru then lru + [e] else lru, if toLru then inUse else inUse + [e])
  {
    if toLru {
      AppendedTo(l, 0, lru, 1, inUse, e);
    } else {
      AppendedTo(l, 1, inUse, 0, lru, e);
    }
  }

  lemma AppendedTo(l: Links, head: nat, list: seq<nat>, otherHead: nat, other: seq<nat>, e: nat)
    requires Ring(l, head, list) && Ring(l, otherHead, other) && e !in list && e !in other && head != otherHead
    requires head !in other && otherHead !in list && e != head && e != otherHead && e < |l.next|
    requires forall x :: x in list ==> x !in other
    ensures head < |l.next| == |l.prev| && otherHead < |l.next| && l.prev[head] < |l.next|
    ensures Ring(Appended(l, head, e), head, list + [e]) && Ring(Appended(l, head, e), otherHead, other)
  {
    AppendedRing(l, head, list, e);
    OnRing(l, head, list, head);
    OnRing(l, otherHead, other, otherHead);
    RingFrame(l, Appended(l, head, e), otherHead, other);
  }
}
