/** The cache's hash table (util/cache.cc): buckets of handles chained through their next_hash pointers, doubled
    when they get crowded. */
module HandleTable {
  import opened Entries

  /** What a handle is found by: its key and the key's hash. */
  datatype Name = Name(key: Bytes, hash: nat)

  /** A chained handle: its name, and the number it goes by. */
  datatype Item = Item(name: Name, handle: nat)

  predicate PowerOfTwo(n: nat) {
    n == 1 || (n > 1 && n % 2 == 0 && PowerOfTwo(n / 2))
  }

  /** The bits two numbers have in common (the `&` of the code). */
  function And(a: nat, b: nat): nat {
    if a == 0 || b == 0 then 0 else 2 * And(a / 2, b / 2) + a % 2 * (b % 2)
  }

  lemma {:induction false} AndAtMost(a: nat, b: nat)
    ensures And(a, b) <= b
  {
    if a > 0 && b > 0 {
      AndAtMost(a / 2, b / 2);
    }
  }

  /** For a power of two, the mask `n - 1` leaves the numbers below `n` alone: every bucket has its hashes. */
  lemma {:induction false} MaskKeeps(h: nat, n: nat)
    requires PowerOfTwo(n) && h < n
    ensures And(h, n - 1) == h
  {
    if h > 0 {
      MaskKeeps(h / 2, n / 2);
    }
  }

  /** The bucket of a name: its hash under the mask `length - 1`. */
  function BucketOf(name: Name, length: nat): (b: nat)
    requires length > 0
    ensures b < length
  {
    AndAtMost(name.hash, length - 1);
    And(name.hash, length - 1)
  }

  /** The place of the first item with this name in a chain, or the end of the chain. */
  function Find(chain: seq<Item>, name: Name): (i: nat)
    ensures i <= |chain|
    ensures i < |chain| ==> chain[i].name == name
    ensures forall j :: 0 <= j < i ==> chain[j].name != name
  {
    if chain == [] || chain[0].name == name then 0 else 1 + Find(chain[1..], name)
  }

  // ----- What the buckets stand for -----

  ghost predicate NoRepeats(chain: seq<Item>) {
    forall i, j :: 0 <= i < j < |chain| ==> chain[i].name != chain[j].name
  }

  /** Bucket `b` holds exactly the contents whose names belong there. */
  ghost predicate BucketOk(chain: seq<Item>, b: nat, length: nat, contents: map<Name, nat>)
    requires length > 0
  {
    && NoRepeats(chain)
    && (forall i :: 0 <= i < |chain| ==> BucketOf(chain[i].name, length) == b)
    && (forall i :: 0 <= i < |chain| ==> chain[i].name in contents && contents[chain[i].name] == chain[i].handle)
    && (forall n :: n in contents && BucketOf(n, length) == b ==> Item(n, contents[n]) in chain)
  }

  ghost predicate Refines(list: seq<seq<Item>>, contents: map<Name, nat>) {
    && |list| > 0
    && forall b {:trigger list[b]} :: 0 <= b < |list| ==> BucketOk(list[b], b, |list|, contents)
  }

  /** Looking a name up in its bucket is looking it up in the contents. */
  lemma FindIsLookup(list: seq<seq<Item>>, contents: map<Name, nat>, name: Name)
    requires Refines(list, contents)
    ensures var chain := list[BucketOf(name, |list|)]; var i := Find(chain, name);
            && (name in contents <==> i < |chain|)
            && (i < |chain| ==> chain[i] == Item(name, contents[name]))
  {
    var chain := list[BucketOf(name, |list|)];
    if name in contents {
      var j :| 0 <= j < |chain| && chain[j] == Item(name, contents[name]);
    }
  }

  /** Every bucket but `b` is as it was, and every name that changed belongs to `b`. */
  lemma OneBucketChanged(list: seq<seq<Item>>, contents: map<Name, nat>, b: nat, chain: seq<Item>,
                         contents2: map<Name, nat>, name: Name)
    requires Refines(list, contents) && b == BucketOf(name, |list|) && BucketOk(chain, b, |list|, contents2)
    requires forall n :: n != name ==>
               (n in contents <==> n in contents2) && (n in contents ==> contents[n] == contents2[n])
    ensures Refines(list[b := chain], contents2)
  {
    forall c {:trigger list[b := chain][c]} | 0 <= c < |list|
        ensures BucketOk(list[b := chain][c], c, |list|, contents2) {
      if c != b {
        assert BucketOk(list[c], c, |list|, contents);
        OtherBucket(list[c], c, |list|, contents, contents2, name);
      }
    }
  }

  lemma OtherBucket(chain: seq<Item>, c: nat, length: nat, contents: map<Name, nat>, contents2: map<Name, nat>,
                    name: Name)
    requires length > 0 && BucketOk(chain, c, length, contents) && BucketOf(name, length) != c
    requires forall n :: n != name ==>
               (n in contents <==> n in contents2) && (n in contents ==> contents[n] == contents2[n])
    ensures BucketOk(chain, c, length, contents2)
  {
    assert forall i :: 0 <= i < |chain| ==> chain[i].name != name;
    forall n | n in contents2 && BucketOf(n, length) == c ensures Item(n, contents2[n]) in chain {
      assert n in contents && Item(n, contents[n]) in chain;
    }
  }

  /** The chain with the item at `i` replaced, or put at the end. */
  function PutIn(chain: seq<Item>, i: nat, it: Item): seq<Item>
    requires i <= |chain|
  {
    if i < |chain| then chain[i := it] else chain + [it]
  }

  function TakeOut(chain: seq<Item>, i: nat): seq<Item>
    requires i < |chain|
  {
    chain[..i] + chain[i + 1..]
  }

  lemma PutBucket(chain: seq<Item>, b: nat, length: nat, contents: map<Name, nat>, name: Name, handle: nat)
    requires length > 0 && b == BucketOf(name, length) && BucketOk(chain, b, length, contents)
    ensures BucketOk(PutIn(chain, Find(chain, name), Item(name, handle)), b, length, contents[name := handle])
  {
    var i, it := Find(chain, name), Item(name, handle);
    var chain2, contents2 := PutIn(chain, i, it), contents[name := handle];
    assert chain2[i] == it && forall j :: 0 <= j < |chain| && j != i ==> chain2[j] == chain[j];
    assert forall j :: 0 <= j < |chain2| && j != i ==> chain2[j] == chain[j] && chain[j].name != name;
    forall n | n in contents2 && BucketOf(n, length) == b ensures Item(n, contents2[n]) in chain2 {
      if n != name {
        assert Item(n, contents[n]) in chain;
        var j :| 0 <= j < |chain| && chain[j] == Item(n, contents[n]);
        assert chain2[j] == chain[j];
      }
    }
  }

  lemma TakeBucket(chain: seq<Item>, b: nat, length: nat, contents: map<Name, nat>, i: nat)
    requires length > 0 && BucketOk(chain, b, length, contents) && i < |chain|
    ensures BucketOk(TakeOut(chain, i), b, length, contents - {chain[i].name})
  {
    var chain2, contents2 := TakeOut(chain, i), contents - {chain[i].name};
    assert forall j :: 0 <= j < |chain2| ==> chain2[j] == chain[if j < i then j else j + 1];
    forall n | n in contents2 && BucketOf(n, length) == b ensures Item(n, contents2[n]) in chain2 {
      assert Item(n, contents[n]) in chain;
      var j :| 0 <= j < |chain| && chain[j] == Item(n, contents[n]);
      assert chain2[if j < i then j else j - 1] == chain[j];
    }
  }

  lemma PushBucket(chain: seq<Item>, b: nat, length: nat, contents: map<Name, nat>, it: Item)
    requires length > 0 && b == BucketOf(it.name, length) && BucketOk(chain, b, length, contents)
               && it.name !in contents
    ensures BucketOk([it] + chain, b, length, contents[it.name := it.handle])
  {
    var chain2, contents2 := [it] + chain, contents[it.name := it.handle];
    assert chain2[0] == it && forall k :: 1 <= k < |chain2| ==> chain2[k] == chain[k - 1];
    forall n | n in contents2 && BucketOf(n, length) == b ensures Item(n, contents2[n]) in chain2 {
      if n != it.name {
        assert Item(n, contents[n]) in chain;
        var j :| 0 <= j < |chain| && chain[j] == Item(n, contents[n]);
        assert chain2[j + 1] == chain[j];
      }
    }
  }

  // ----- The pointers -----

  /** What the table reads and writes of a handle: its name and its next_hash. */
  datatype Node = Node(name: Name, next: Option<nat>)

  /** A place where a pointer to a handle is kept: the head of a bucket, or the next_hash of a handle. */
  datatype Slot = Head(bucket: nat) | NextOf(handle: nat)

  /** The pointer to item `i` of a chain, null at its end. */
  function Link(chain: seq<Item>, i: nat): Option<nat>
    requires i <= |chain|
  {
    if i < |chain| then Some(chain[i].handle) else None
  }

  ghost predicate NodeAt(nodes: map<nat, Node>, chain: seq<Item>, i: nat)
    requires i < |chain|
  {
    chain[i].handle in nodes && nodes[chain[i].handle] == Node(chain[i].name, Link(chain, i + 1))
  }

  /** Following the pointers from `first` meets exactly the items of `chain`, in order. */
  ghost predicate IsChain(first: Option<nat>, nodes: map<nat, Node>, chain: seq<Item>) {
    && first == Link(chain, 0)
    && forall i {:trigger NodeAt(nodes, chain, i)} :: 0 <= i < |chain| ==> NodeAt(nodes, chain, i)
  }

  ghost predicate Chained(heads: seq<Option<nat>>, nodes: map<nat, Node>, list: seq<seq<Item>>) {
    && |heads| == |list|
    && forall b {:trigger list[b]} :: 0 <= b < |list| ==> IsChain(heads[b], nodes, list[b])
  }

  /** The place of the pointer to item `i` of bucket `b`. */
  function SlotAt(chain: seq<Item>, b: nat, i: nat): Slot
    requires i <= |chain|
  {
    if i == 0 then Head(b) else NextOf(chain[i - 1].handle)
  }

  predicate IsSlot(heads: seq<Option<nat>>, nodes: map<nat, Node>, p: Slot) {
    match p
    case Head(b) => b < |heads|
    case NextOf(h) => h in nodes
  }

  function Load(heads: seq<Option<nat>>, nodes: map<nat, Node>, p: Slot): Option<nat>
    requires IsSlot(heads, nodes, p)
  {
    match p
    case Head(b) => heads[b]
    case NextOf(h) => nodes[h].next
  }

  function StoreHead(heads: seq<Option<nat>>, p: Slot, v: Option<nat>): seq<Option<nat>>
    requires p.Head? ==> p.bucket < |heads|
  {
    if p.Head? then heads[p.bucket := v] else heads
  }

  function StoreNext(nodes: map<nat, Node>, p: Slot, v: Option<nat>): map<nat, Node>
    requires p.NextOf? ==> p.handle in nodes
  {
    if p.NextOf? then nodes[p.handle := nodes[p.handle].(next := v)] else nodes
  }

  /** The slot of an item, loaded. */
  lemma SlotLoads(heads: seq<Option<nat>>, nodes: map<nat, Node>, list: seq<seq<Item>>, b: nat, i: nat)
    requires Chained(heads, nodes, list) && b < |list| && i <= |list[b]|
    ensures IsSlot(heads, nodes, SlotAt(list[b], b, i))
    ensures Load(heads, nodes, SlotAt(list[b], b, i)) == Link(list[b], i)
    ensures i < |list[b]| ==> NodeAt(nodes, list[b], i)
  {
    if i > 0 {
      assert NodeAt(nodes, list[b], i - 1);
    }
  }

  /** A bucket none of whose handles is written stays as it is. */
  lemma ChainFrame(first: Option<nat>, nodes: map<nat, Node>, nodes2: map<nat, Node>, chain: seq<Item>)
    requires IsChain(first, nodes, chain)
    requires forall i :: 0 <= i < |chain| && chain[i].handle in nodes ==>
               chain[i].handle in nodes2 && nodes2[chain[i].handle] == nodes[chain[i].handle]
    ensures IsChain(first, nodes2, chain)
  {
    forall i | 0 <= i < |chain| ensures NodeAt(nodes2, chain, i) {
      assert NodeAt(nodes, chain, i);
    }
  }

  /** Only the slot of item `i` of bucket `b`, and perhaps a handle in no other bucket, was written. */
  lemma OtherChains(heads: seq<Option<nat>>, nodes: map<nat, Node>, list: seq<seq<Item>>, contents: map<Name, nat>,
                    b: nat, i: nat, heads2: seq<Option<nat>>, nodes2: map<nat, Node>, chain: seq<Item>)
    requires Chained(heads, nodes, list) && Refines(list, contents) && b < |list| && i <= |list[b]|
    requires |heads2| == |heads| && forall c :: 0 <= c < |heads| && c != b ==> heads2[c] == heads[c]
    requires forall n :: n in contents && contents[n] in nodes && (i > 0 ==> contents[n] != list[b][i - 1].handle) ==>
               contents[n] in nodes2 && nodes2[contents[n]] == nodes[contents[n]]
    requires IsChain(heads2[b], nodes2, chain)
    ensures Chained(heads2, nodes2, list[b := chain])
  {
    forall c {:trigger list[b := chain][c]} | 0 <= c < |list| ensures IsChain(heads2[c], nodes2, list[b := chain][c]) {
      if c != b {
        OtherChain(nodes, list, contents, b, i, c);
        assert IsChain(heads[c], nodes, list[c]);
        ChainFrame(heads[c], nodes, nodes2, list[c]);
      }
    }
  }

  lemma OtherChain(nodes: map<nat, Node>, list: seq<seq<Item>>, contents: map<Name, nat>, b: nat, i: nat, c: nat)
    requires Refines(list, contents) && b < |list| && i <= |list[b]| && c < |list| && c != b
    requires (forall k {:trigger NodeAt(nodes, list[b], k)} :: 0 <= k < |list[b]| ==> NodeAt(nodes, list[b], k))
    requires (forall k {:trigger NodeAt(nodes, list[c], k)} :: 0 <= k < |list[c]| ==> NodeAt(nodes, list[c], k))
    ensures forall k :: 0 <= k < |list[c]| ==>
              && list[c][k].name in contents && contents[list[c][k].name] == list[c][k].handle
              && (i > 0 ==> list[c][k].handle != list[b][i - 1].handle)
  {
    assert BucketOk(list[c], c, |list|, contents) && BucketOk(list[b], b, |list|, contents);
    forall k | 0 <= k < |list[c]| && i > 0 ensures list[c][k].handle != list[b][i - 1].handle {
      assert NodeAt(nodes, list[c], k) && NodeAt(nodes, list[b], i - 1);
    }
  }

  /** The handle takes over the next_hash of the one it displaces, or null at the end. */
  function Displacing(nodes: map<nat, Node>, chain: seq<Item>, i: nat, name: Name, handle: nat): map<nat, Node>
    requires i <= |chain|
  {
    nodes[handle := Node(name, if i < |chain| then Link(chain, i + 1) else None)]
  }

  lemma PutChain(nodes: map<nat, Node>, chain: seq<Item>, b: nat, i: nat, name: Name, handle: nat)
    requires NoRepeats(chain) && i <= |chain|
    requires forall k {:trigger NodeAt(nodes, chain, k)} :: 0 <= k < |chain| ==>
               NodeAt(nodes, chain, k) && chain[k].handle != handle
    ensures var p, chain2 := SlotAt(chain, b, i), PutIn(chain, i, Item(name, handle));
            var nodes1 := Displacing(nodes, chain, i, name, handle);
            && (p.NextOf? ==> p.handle in nodes1)
            && IsChain(Link(chain2, 0), StoreNext(nodes1, p, Some(handle)), chain2)
  {
    var p, chain2 := SlotAt(chain, b, i), PutIn(chain, i, Item(name, handle));
    var nodes1 := Displacing(nodes, chain, i, name, handle);
    if i > 0 {
      assert NodeAt(nodes, chain, i - 1);
    }
    var nodes2 := StoreNext(nodes1, p, Some(handle));
    assert chain2[i] == Item(name, handle);
    assert forall k :: 0 <= k < |chain2| && k != i ==> k < |chain| && chain2[k] == chain[k];
    forall k | 0 <= k < |chain2| ensures NodeAt(nodes2, chain2, k) {
      if k != i {
        assert NodeAt(nodes, chain, k);
        assert i > 0 && k != i - 1 ==> chain[k].name != chain[i - 1].name;
      }
    }
  }

  /** Storing a handle where the pointer to the item at `i` was. */
  lemma StorePut(heads: seq<Option<nat>>, nodes: map<nat, Node>, list: seq<seq<Item>>, contents: map<Name, nat>, b: nat,
                 i: nat, name: Name, handle: nat)
    requires Chained(heads, nodes, list) && Refines(list, contents) && b < |list| && i <= |list[b]|
    requires forall n :: n in contents ==> contents[n] != handle
    ensures var p, nodes1 := SlotAt(list[b], b, i), Displacing(nodes, list[b], i, name, handle);
            && IsSlot(heads, nodes1, p)
            && Chained(StoreHead(heads, p, Some(handle)), StoreNext(nodes1, p, Some(handle)),
                       list[b := PutIn(list[b], i, Item(name, handle))])
  {
    var chain, p, nodes1 := list[b], SlotAt(list[b], b, i), Displacing(nodes, list[b], i, name, handle);
    assert BucketOk(chain, b, |list|, contents) && IsChain(heads[b], nodes, chain);
    forall k {:trigger NodeAt(nodes, chain, k)} | 0 <= k < |chain|
      ensures NodeAt(nodes, chain, k) && chain[k].handle != handle
    {
      assert chain[k].name in contents;
    }
    PutChain(nodes, chain, b, i, name, handle);
    OtherChains(heads, nodes, list, contents, b, i, StoreHead(heads, p, Some(handle)),
                StoreNext(nodes1, p, Some(handle)), PutIn(chain, i, Item(name, handle)));
  }

  lemma TakeChain(nodes: map<nat, Node>, chain: seq<Item>, b: nat, i: nat)
    requires NoRepeats(chain) && i < |chain|
    requires forall k {:trigger NodeAt(nodes, chain, k)} :: 0 <= k < |chain| ==> NodeAt(nodes, chain, k)
    ensures var p, chain2 := SlotAt(chain, b, i), TakeOut(chain, i);
            && (p.NextOf? ==> p.handle in nodes)
            && IsChain(Link(chain2, 0), StoreNext(nodes, p, Link(chain, i + 1)), chain2)
  {
    if i > 0 {
      assert NodeAt(nodes, chain, i - 1);
    }
    var nodes2, chain2 := StoreNext(nodes, SlotAt(chain, b, i), Link(chain, i + 1)), TakeOut(chain, i);
    assert forall k :: 0 <= k < |chain2| ==> chain2[k] == chain[if k < i then k else k + 1];
    forall k | 0 <= k < |chain2| ensures NodeAt(nodes2, chain2, k) {
      var o := if k < i then k else k + 1;
      assert NodeAt(nodes, chain, o);
      assert i > 0 && o != i - 1 ==> chain[o].name != chain[i - 1].name;
    }
  }

  /** Storing the next_hash of the item at `i` where the pointer to it was. */
  lemma StoreTake(heads: seq<Option<nat>>, nodes: map<nat, Node>, list: seq<seq<Item>>, contents: map<Name, nat>,
                  b: nat, i: nat)
    requires Chained(heads, nodes, list) && Refines(list, contents) && b < |list| && i < |list[b]|
    ensures var p, v := SlotAt(list[b], b, i), Link(list[b], i + 1);
            && IsSlot(heads, nodes, p)
            && Chained(StoreHead(heads, p, v), StoreNext(nodes, p, v), list[b := TakeOut(list[b], i)])
  {
    var chain, p, v := list[b], SlotAt(list[b], b, i), Link(list[b], i + 1);
    SlotLoads(heads, nodes, list, b, i);
    assert BucketOk(chain, b, |list|, contents) && IsChain(heads[b], nodes, chain);
    TakeChain(nodes, chain, b, i);
    OtherChains(heads, nodes, list, contents, b, i, StoreHead(heads, p, v), StoreNext(nodes, p, v), TakeOut(chain, i));
  }

  lemma PutRefines(list: seq<seq<Item>>, contents: map<Name, nat>, name: Name, handle: nat)
    requires Refines(list, contents)
    ensures var b := BucketOf(name, |list|);
            Refines(list[b := PutIn(list[b], Find(list[b], name), Item(name, handle))], contents[name := handle])
  {
    var b := BucketOf(name, |list|);
    PutBucket(list[b], b, |list|, contents, name, handle);
    OneBucketChanged(list, contents, b, PutIn(list[b], Find(list[b], name), Item(name, handle)),
        contents[name := handle], name);
  }

  lemma TakeRefines(list: seq<seq<Item>>, contents: map<Name, nat>, name: Name)
    requires Refines(list, contents) && Find(list[BucketOf(name, |list|)], name) < |list[BucketOf(name, |list|)]|
    ensures var b := BucketOf(name, |list|);
            Refines(list[b := TakeOut(list[b], Find(list[b], name))], contents - {name})
  {
    var b := BucketOf(name, |list|);
    TakeBucket(list[b], b, |list|, contents, Find(list[b], name));
    OneBucketChanged(list, contents, b, TakeOut(list[b], Find(list[b], name)), contents - {name}, name);
  }

  class HandleTable {
    var length: nat
    var elems: nat
    var heads: seq<Option<nat>>
    var nodes: map<nat, Node>
    ghost var list: seq<seq<Item>>
    ghost var contents: map<Name, nat>

    ghost predicate Valid()
      reads this
    {
      && length == |heads| && PowerOfTwo(length) && elems == |contents| <= length
      && Chained(heads, nodes, list) && Refines(list, contents)
    }

    constructor ()
      ensures Valid() && contents == map[]
    {
      length, elems, heads, nodes, list, contents := 0, 0, [], map[], [], map[];
      new;
      Resize(map[]);
    }

    /** The slot with the pointer to the handle of that name; the last slot of its bucket when there is none. */
    method FindPointer(name: Name) returns (p: Slot, ghost i: nat)
      requires Valid()
      ensures BucketOf(name, length) < |list| && i == Find(list[BucketOf(name, length)], name)
      ensures p == SlotAt(list[BucketOf(name, length)], BucketOf(name, length), i) && IsSlot(heads, nodes, p)
      ensures var q := Load(heads, nodes, p);
              && q == Link(list[BucketOf(name, length)], i)
              && q == (if name in contents then Some(contents[name]) else None)
              && (q.Some? ==> q.value in nodes && nodes[q.value].name == name
                              && nodes[q.value].next == Link(list[BucketOf(name, length)], i + 1))
    {
      var b := BucketOf(name, length);
      p, i := Head(b), 0;
      SlotLoads(heads, nodes, list, b, 0);
      while Load(heads, nodes, p).Some? && nodes[Load(heads, nodes, p).value].name != name
        invariant i <= |list[b]| && forall j :: 0 <= j < i ==> list[b][j].name != name
        invariant p == SlotAt(list[b], b, i) && IsSlot(heads, nodes, p) && Load(heads, nodes, p) == Link(list[b], i)
        invariant i < |list[b]| ==> NodeAt(nodes, list[b], i)
        decreases |list[b]| - i
      {
        p, i := NextOf(Load(heads, nodes, p).value), i + 1;
        SlotLoads(heads, nodes, list, b, i);
      }
      FindIsLookup(list, contents, name);
    }

    method Lookup(name: Name) returns (r: Option<nat>)
      requires Valid()
      ensures r == if name in contents then Some(contents[name]) else None
    {
      var p, _ := FindPointer(name);
      r := Load(heads, nodes, p);
    }

    /** Puts a handle that is not in the table there, and returns the one it takes the place of. */
    method Insert(name: Name, handle: nat) returns (displaced: Option<nat>)
      requires Valid() && forall n :: n in contents ==> contents[n] != handle
      modifies this
      ensures Valid() && contents == old(contents)[name := handle]
      ensures displaced == if name in old(contents) then Some(old(contents)[name]) else None
    {
      var p, i := FindPointer(name);
      ghost var b := BucketOf(name, length);
      StorePut(heads, nodes, list, contents, b, i, name, handle);
      PutRefines(list, contents, name, handle);
      displaced := Load(heads, nodes, p);
      nodes := nodes[handle := Node(name, if displaced.None? then None else nodes[displaced.value].next)];
      heads, nodes := StoreHead(heads, p, Some(handle)), StoreNext(nodes, p, Some(handle));
      list := list[b := PutIn(list[b], i, Item(name, handle))];
      InsertCount(contents, name, handle);
      contents := contents[name := handle];
      if displaced.None? {
        elems := elems + 1;
        if elems > length {
          Resize(contents);
        }
      }
    }

    method Remove(name: Name) returns (removed: Option<nat>)
      requires Valid()
      modifies this
      ensures Valid() && contents == old(contents) - {name}
      ensures removed == if name in old(contents) then Some(old(contents)[name]) else None
    {
      var p, i := FindPointer(name);
      ghost var b := BucketOf(name, length);
      removed := Load(heads, nodes, p);
      if removed.Some? {
        StoreTake(heads, nodes, list, contents, b, i);
        TakeRefines(list, contents, name);
        heads, nodes := StoreHead(heads, p, nodes[removed.value].next), StoreNext(nodes, p, nodes[removed.value].next);
        list := list[b := TakeOut(list[b], i)];
        RemoveCount(contents, name);
        contents := contents - {name};
        elems := elems - 1;
      } else {
        assert contents - {name} == contents;
      }
    }

    /** Moves every handle to the front of its new bucket; the table still holds the same. */
    method Resize(ghost all: map<Name, nat>)
      requires length == |heads| && contents == all && elems == |all| && Chained(heads, nodes, list)
      requires if length == 0 then all == map[] else Refines(list, all)
      modifies this
      ensures Valid() && contents == all && elems == old(elems) && elems <= length
    {
      var newLength := 4;
      while newLength < elems
        invariant newLength >= 4 && PowerOfTwo(newLength)
        decreases elems - newLength
      {
        newLength := newLength * 2;
      }
      heads, nodes, list := Rehash(heads, nodes, newLength, list, all);
      length := newLength;
    }
  }

  lemma InsertCount(m: map<Name, nat>, n: Name, h: nat)
    ensures |m[n := h]| == if n in m then |m| else |m| + 1
  {
    if n in m {
      assert m[n := h].Keys == m.Keys;
    } else {
      assert m[n := h].Keys == m.Keys + {n};
    }
  }

  lemma RemoveCount(m: map<Name, nat>, n: Name)
    requires n in m
    ensures |m - {n}| == |m| - 1
  {
    assert (m - {n}).Keys == m.Keys - {n};
  }

  /** The names of the first `i` buckets and of the first `j` items of the next one. */
  ghost predicate Moved(list: seq<seq<Item>>, i: nat, j: nat, n: Name)
    requires |list| > 0 && (i < |list| ==> j <= |list[i]|)
  {
    var b := BucketOf(n, |list|);
    b < i || (b == i && exists k :: 0 <= k < j && list[i][k].name == n)
  }

  /** New buckets holding what has been moved so far. */
  ghost predicate Moving(list: seq<seq<Item>>, all: map<Name, nat>, i: nat, j: nat, newList: seq<seq<Item>>)
    requires |list| > 0 && (i < |list| ==> j <= |list[i]|)
  {
    Refines(newList, map n | n in all && Moved(list, i, j, n) :: all[n])
  }

  lemma PushRefines(list: seq<seq<Item>>, contents: map<Name, nat>, it: Item)
    requires Refines(list, contents) && it.name !in contents
    ensures var b := BucketOf(it.name, |list|); Refines(list[b := [it] + list[b]], contents[it.name := it.handle])
  {
    var b := BucketOf(it.name, |list|);
    PushBucket(list[b], b, |list|, contents, it);
    OneBucketChanged(list, contents, b, [it] + list[b], contents[it.name := it.handle], it.name);
  }

  lemma MoveOne(list: seq<seq<Item>>, all: map<Name, nat>, i: nat, j: nat, newList: seq<seq<Item>>)
    requires Refines(list, all) && i < |list| && j < |list[i]| && Moving(list, all, i, j, newList)
    ensures var it := list[i][j]; var b := BucketOf(it.name, |newList|);
            Moving(list, all, i, j + 1, newList[b := [it] + newList[b]])
  {
    var it := list[i][j];
    var now := map n | n in all && Moved(list, i, j, n) :: all[n];
    assert BucketOk(list[i], i, |list|, all);
    assert it.name !in now;
    PushRefines(newList, now, it);
    var next := map n | n in all && Moved(list, i, j + 1, n) :: all[n];
    assert forall n :: Moved(list, i, j + 1, n) <==> Moved(list, i, j, n) || n == it.name;
    assert next == now[it.name := it.handle];
  }

  lemma NextBucket(list: seq<seq<Item>>, all: map<Name, nat>, i: nat, newList: seq<seq<Item>>)
    requires Refines(list, all) && i < |list| && Moving(list, all, i, |list[i]|, newList)
    ensures Moving(list, all, i + 1, 0, newList)
  {
    assert BucketOk(list[i], i, |list|, all);
    forall n | n in all ensures Moved(list, i, |list[i]|, n) <==> Moved(list, i + 1, 0, n) {
      if BucketOf(n, |list|) == i {
        var k :| 0 <= k < |list[i]| && list[i][k] == Item(n, all[n]);
      }
    }
    assert (map n | n in all && Moved(list, i, |list[i]|, n) :: all[n])
        == (map n | n in all && Moved(list, i + 1, 0, n) :: all[n]);
  }

  lemma NothingMoved(list: seq<seq<Item>>, all: map<Name, nat>)
    requires |list| > 0
    ensures (map n | n in all && Moved(list, 0, 0, n) :: all[n]) == map[]
  {
    assert forall n :: !Moved(list, 0, 0, n);
  }

  /** The chains not moved yet: what is left of bucket `i` from item `j` on, and the buckets after it. */
  ghost predicate Unmoved(heads: seq<Option<nat>>, nodes: map<nat, Node>, list: seq<seq<Item>>, i: nat, j: nat)
    requires |heads| == |list| && (i < |list| ==> j <= |list[i]|)
  {
    && (i < |list| ==> forall k {:trigger NodeAt(nodes, list[i], k)} :: j <= k < |list[i]| ==>
         NodeAt(nodes, list[i], k))
    && forall c {:trigger list[c]} :: i < c < |list| ==> IsChain(heads[c], nodes, list[c])
  }

  /** Pushing a handle on its new bucket does not touch what has not been moved. */
  lemma StillUnmoved(heads: seq<Option<nat>>, nodes: map<nat, Node>, list: seq<seq<Item>>, all: map<Name, nat>, i: nat,
                     j: nat, next: Option<nat>)
    requires Refines(list, all) && |heads| == |list| && i < |list| && j < |list[i]| && Unmoved(heads, nodes, list, i, j)
    ensures Unmoved(heads, nodes[list[i][j].handle := Node(list[i][j].name, next)], list, i, j + 1)
  {
    var it := list[i][j];
    var nodes2 := nodes[it.handle := Node(it.name, next)];
    assert NodeAt(nodes, list[i], j) && BucketOk(list[i], i, |list|, all);
    forall k | j + 1 <= k < |list[i]| ensures NodeAt(nodes2, list[i], k) {
      assert NodeAt(nodes, list[i], k) && list[i][k].name != it.name;
    }
    forall c {:trigger list[c]} | i < c < |list| ensures IsChain(heads[c], nodes2, list[c]) {
      assert BucketOk(list[c], c, |list|, all) && IsChain(heads[c], nodes, list[c]);
      forall k | 0 <= k < |list[c]| ensures list[c][k].handle != it.handle {
        assert NodeAt(nodes, list[c], k);
      }
      ChainFrame(heads[c], nodes, nodes2, list[c]);
    }
  }

  /** A handle that is in no bucket goes to the front of one. */
  lemma PushChained(heads: seq<Option<nat>>, nodes: map<nat, Node>, list: seq<seq<Item>>, it: Item, b: nat)
    requires Chained(heads, nodes, list) && b < |list| && it.handle in nodes && nodes[it.handle].name == it.name
    requires forall c, k :: 0 <= c < |list| && 0 <= k < |list[c]| ==> list[c][k].name != it.name
    ensures Chained(heads[b := Some(it.handle)], nodes[it.handle := Node(it.name, heads[b])], list[b := [it] + list[b]])
  {
    var heads2, nodes2 := heads[b := Some(it.handle)], nodes[it.handle := Node(it.name, heads[b])];
    forall c {:trigger list[b := [it] + list[b]][c]} | 0 <= c < |list|
      ensures IsChain(heads2[c], nodes2, list[b := [it] + list[b]][c])
    {
      assert IsChain(heads[c], nodes, list[c]);
      forall k | 0 <= k < |list[c]| ensures list[c][k].handle != it.handle {
        assert NodeAt(nodes, list[c], k);
      }
      ChainFrame(heads[c], nodes, nodes2, list[c]);
      if c == b {
        PushChain(heads[b], nodes2, list[b], it);
      }
    }
  }

  lemma PushChain(first: Option<nat>, nodes: map<nat, Node>, chain: seq<Item>, it: Item)
    requires IsChain(first, nodes, chain) && it.handle in nodes && nodes[it.handle] == Node(it.name, first)
    ensures IsChain(Some(it.handle), nodes, [it] + chain)
  {
    var chain2 := [it] + chain;
    assert forall k :: 1 <= k < |chain2| ==> chain2[k] == chain[k - 1];
    forall k | 0 <= k < |chain2| ensures NodeAt(nodes, chain2, k) {
      if k > 0 {
        assert NodeAt(nodes, chain, k - 1);
      }
    }
  }

  /** The name of an item that has not been moved is in no new bucket. */
  lemma NotMovedYet(list: seq<seq<Item>>, all: map<Name, nat>, i: nat, j: nat, newList: seq<seq<Item>>)
    requires Refines(list, all) && i < |list| && j < |list[i]| && Moving(list, all, i, j, newList)
    ensures forall c, k :: 0 <= c < |newList| && 0 <= k < |newList[c]| ==> newList[c][k].name != list[i][j].name
  {
    var now := map n | n in all && Moved(list, i, j, n) :: all[n];
    assert BucketOk(list[i], i, |list|, all) && list[i][j].name !in now;
    forall c, k | 0 <= c < |newList| && 0 <= k < |newList[c]| ensures newList[c][k].name in now {
      assert BucketOk(newList[c], c, |newList|, now);
    }
  }

  /** Every handle of the old buckets, walked along its next_hash, goes to the front of its new bucket. */
  method Rehash(heads: seq<Option<nat>>, nodes: map<nat, Node>, newLength: nat, ghost list: seq<seq<Item>>,
                ghost all: map<Name, nat>)
    returns (newHeads: seq<Option<nat>>, newNodes: map<nat, Node>, ghost newList: seq<seq<Item>>)
    requires newLength > 0 && Chained(heads, nodes, list)
    requires if heads == [] then all == map[] else Refines(list, all)
    ensures |newHeads| == newLength && Chained(newHeads, newNodes, newList) && Refines(newList, all)
  {
    newHeads, newNodes, newList := seq(newLength, _ => None), nodes, seq(newLength, _ => []);
    assert Refines(newList, map[]);
    if heads == [] {
      return;
    }
    NothingMoved(list, all);
    for i := 0 to |heads|
      invariant |newHeads| == newLength && Moving(list, all, i, 0, newList) && Chained(newHeads, newNodes, newList)
      invariant forall c {:trigger list[c]} :: i <= c < |list| ==> IsChain(heads[c], newNodes, list[c])
    {
      var h := heads[i];
      ghost var j := 0;
      assert IsChain(heads[i], newNodes, list[i]);
      while h.Some?
        invariant |newHeads| == newLength && j <= |list[i]| && h == Link(list[i], j)
        invariant Moving(list, all, i, j, newList) && Chained(newHeads, newNodes, newList)
        invariant Unmoved(heads, newNodes, list, i, j)
        decreases |list[i]| - j
      {
        assert NodeAt(newNodes, list[i], j);
        var next, name := newNodes[h.value].next, newNodes[h.value].name;
        var b := BucketOf(name, newLength);
        NotMovedYet(list, all, i, j, newList);
        MoveOne(list, all, i, j, newList);
        PushChained(newHeads, newNodes, newList, list[i][j], b);
        StillUnmoved(heads, newNodes, list, all, i, j, newHeads[b]);
        newList := newList[b := [list[i][j]] + newList[b]];
        newNodes := newNodes[h.value := Node(name, newHeads[b])];
        newHeads := newHeads[b := h];
        h, j := next, j + 1;
      }
      NextBucket(list, all, i, newList);
    }
    assert (map n | n in all && Moved(list, |list|, 0, n) :: all[n]) == all;
  }
}
