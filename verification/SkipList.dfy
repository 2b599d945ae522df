/** The memtable's skip list (db/skiplist.h): an inserter that publishes a node with one pointer store
    per level, and readers that run beside it without locks.  Loads and stores are sequentially
    consistent here. */
module SkipList {
  import opened Entries

  const MAX_HEIGHT := 12

  /** A node has one next pointer for each level it reaches.  Nodes are named by their place in the
      arena; node 0 is the head, whose key is never looked at. */
  datatype Node = Node(key: int, next: seq<Option<nat>>)

  function SetNext(nodes: seq<Node>, n: nat, level: nat, to: Option<nat>): seq<Node>
    requires n < |nodes| && level < |nodes[n].next|
  {
    nodes[n := nodes[n].(next := nodes[n].next[level := to])]
  }

  // ----- One level -----

  /** The node at place `i` of a level, the head being place 0. */
  function At(list: seq<nat>, i: nat): nat
    requires i <= |list|
  {
    if i == 0 then 0 else list[i - 1]
  }

  function After(list: seq<nat>, i: nat): Option<nat>
    requires i <= |list|
  {
    if i < |list| then Some(list[i]) else None
  }

  ghost predicate Reaches(nodes: seq<Node>, level: nat, n: nat) {
    n < |nodes| && level < |nodes[n].next|
  }

  /** Following the next pointers of a level from the head goes through exactly the nodes of `list`. */
  ghost predicate Linked(nodes: seq<Node>, level: nat, list: seq<nat>) {
    && (forall i :: 0 <= i <= |list| ==> Reaches(nodes, level, At(list, i)))
    && (forall i :: 0 <= i <= |list| ==> nodes[At(list, i)].next[level] == After(list, i))
    && (forall i :: 0 <= i < |list| ==> list[i] != 0)
  }

  ghost predicate KeysSorted(nodes: seq<Node>, list: seq<nat>) {
    && (forall i :: 0 <= i < |list| ==> list[i] < |nodes|)
    && (forall i, j :: 0 <= i < j < |list| ==> nodes[list[i]].key < nodes[list[j]].key)
  }

  ghost predicate LevelOk(nodes: seq<Node>, level: nat, list: seq<nat>) {
    Linked(nodes, level, list) && KeysSorted(nodes, list)
  }

  /** `n` is the last node of the level whose key is below `key`. */
  ghost predicate IsPrev(nodes: seq<Node>, level: nat, list: seq<nat>, key: int, n: nat)
    requires LevelOk(nodes, level, list)
  {
    exists i :: 0 <= i <= |list| && IsPlace(nodes, list, key, i) && n == At(list, i)
  }

  /** The nodes before place `i` are below the key, those from it on above. */
  ghost predicate IsPlace(nodes: seq<Node>, list: seq<nat>, key: int, i: nat)
    requires KeysSorted(nodes, list) && i <= |list|
  {
    && (i > 0 ==> nodes[list[i - 1]].key < key)
    && (i < |list| ==> key < nodes[list[i]].key)
  }

  function Spliced(list: seq<nat>, i: nat, x: nat): seq<nat>
    requires i <= |list|
  {
    list[..i] + [x] + list[i..]
  }

  lemma SplicedSorted(nodes: seq<Node>, list: seq<nat>, i: nat, x: nat)
    requires KeysSorted(nodes, list) && i <= |list| && x < |nodes| && IsPlace(nodes, list, nodes[x].key, i)
    ensures KeysSorted(nodes, Spliced(list, i, x))
  {
    var list2 := Spliced(list, i, x);
    forall k | 0 <= k < |list2| ensures list2[k] == if k < i then list[k] else if k == i then x else list[k - 1] {
    }
    forall k | 0 <= k < |list|
        ensures if k < i then nodes[list[k]].key < nodes[x].key else nodes[x].key < nodes[list[k]].key {
      assert 0 < i ==> nodes[list[i - 1]].key < nodes[x].key;
      assert i < |list| ==> nodes[x].key < nodes[list[i]].key;
    }
  }

  lemma SplicedLinked(nodes: seq<Node>, level: nat, list: seq<nat>, i: nat, x: nat)
    requires Linked(nodes, level, list) && i <= |list| && x != 0 && Reaches(nodes, level, x) && x !in list
    requires nodes[x].next[level] == After(list, i)
    requires forall k :: 0 <= k <= |list| && k != i ==> At(list, k) != At(list, i)
    ensures Linked(SetNext(nodes, At(list, i), level, Some(x)), level, Spliced(list, i, x))
  {
    var nodes2, list2 := SetNext(nodes, At(list, i), level, Some(x)), Spliced(list, i, x);
    forall k | 0 <= k <= |list2|
      ensures Reaches(nodes2, level, At(list2, k)) && nodes2[At(list2, k)].next[level] == After(list2, k)
    {
      var o := if k <= i then k else k - 1;
      assert k == i + 1 ==> At(list2, k) == x;
      assert k != i + 1 ==> At(list2, k) == At(list, o);
    }
  }

  /** Publishing a node: one store makes it part of the level. */
  lemma SpliceKeeps(nodes: seq<Node>, level: nat, list: seq<nat>, i: nat, x: nat)
    requires LevelOk(nodes, level, list) && i <= |list| && x != 0 && Reaches(nodes, level, x) && x !in list
    requires nodes[x].next[level] == After(list, i) && IsPlace(nodes, list, nodes[x].key, i)
    ensures LevelOk(SetNext(nodes, At(list, i), level, Some(x)), level, Spliced(list, i, x))
  {
    var nodes2 := SetNext(nodes, At(list, i), level, Some(x));
    SplicedLinked(nodes, level, list, i, x);
    SplicedSorted(nodes, list, i, x);
    assert |nodes2| == |nodes| && forall n :: 0 <= n < |nodes| ==> nodes2[n].key == nodes[n].key;
  }

  /** A store at one level leaves the others alone. */
  lemma OtherLevel(nodes: seq<Node>, n: nat, level: nat, to: Option<nat>, m: nat, list: seq<nat>)
    requires Reaches(nodes, level, n) && m != level && LevelOk(nodes, m, list)
    ensures LevelOk(SetNext(nodes, n, level, to), m, list)
  {
  }

  /** So does a store to a node the level has not been linked to. */
  lemma OtherNode(nodes: seq<Node>, n: nat, level: nat, to: Option<nat>, m: nat, list: seq<nat>)
    requires Reaches(nodes, level, n) && n != 0 && n !in list && LevelOk(nodes, m, list)
    ensures LevelOk(SetNext(nodes, n, level, to), m, list)
  {
    assert forall i :: 0 <= i <= |list| ==> At(list, i) != n;
  }

  lemma Allocated(nodes: seq<Node>, x: Node, m: nat, list: seq<nat>)
    requires LevelOk(nodes, m, list)
    ensures LevelOk(nodes + [x], m, list) && |nodes| !in list
  {
  }

  // ----- All levels -----

  /** `lists` names the nodes of every level; each level is linked, sorted and contained in the one below. */
  ghost predicate ListOk(nodes: seq<Node>, maxHeight: nat, lists: seq<seq<nat>>) {
    && |lists| == MAX_HEIGHT && 1 <= maxHeight <= MAX_HEIGHT
    && (forall l {:trigger lists[l]} :: 0 <= l < MAX_HEIGHT ==> LevelOk(nodes, l, lists[l]))
    && (forall l {:trigger Contained(lists, l)} :: 0 <= l < MAX_HEIGHT - 1 ==> Contained(lists, l))
    && (forall l {:trigger lists[l]} :: maxHeight <= l < MAX_HEIGHT ==> lists[l] == [])
  }

  ghost predicate Contained(lists: seq<seq<nat>>, l: nat)
    requires l + 1 < |lists|
  {
    forall n :: n in lists[l + 1] ==> n in lists[l]
  }

  ghost function KeysOf(nodes: seq<Node>, list: seq<nat>): set<int>
    requires KeysSorted(nodes, list)
  {
    set i | 0 <= i < |list| :: nodes[list[i]].key
  }

  // ----- What a search looks for -----

  /** FindGreaterOrEqual, FindLessThan and FindLast walk the same way and differ in when they move on
      and in which of the two nodes in hand they return. */
  datatype Query = Seek(target: int) | Before(target: int) | Last

  /** Does the search go past a node with this key? */
  predicate Passes(q: Query, key: int) {
    q.Last? || key < q.target
  }

  ghost predicate IsAnswer(q: Query, keys: set<int>, r: Option<int>) {
    if q.Seek? then
      && (r.Some? ==> r.value in keys && !Passes(q, r.value))
      && forall k :: k in keys && !Passes(q, k) ==> r.Some? && r.value <= k
    else
      && (r.Some? ==> r.value in keys && Passes(q, r.value))
      && forall k :: k in keys && Passes(q, k) ==> r.Some? && k <= r.value
  }

  /** On reaching the bottom level between `x` and its successor the search has its answer. */
  lemma AnswerFound(nodes: seq<Node>, list: seq<nat>, q: Query, i: nat)
    requires LevelOk(nodes, 0, list) && i <= |list|
    requires (i > 0 ==> Passes(q, nodes[list[i - 1]].key)) && (i < |list| ==> !Passes(q, nodes[list[i]].key))
    ensures IsAnswer(q, KeysOf(nodes, list), if q.Seek? then KeyAt(nodes, After(list, i)) else
                                              if i > 0 then Some(nodes[list[i - 1]].key) else None)
  {
    forall j | 0 <= j < |list|
      ensures (j < i ==> nodes[list[j]].key <= nodes[list[i - 1]].key)
                && (i < j ==> nodes[list[i]].key < nodes[list[j]].key)
    {
    }
  }

  function KeyAt(nodes: seq<Node>, n: Option<nat>): Option<int>
    requires n.Some? ==> n.value < |nodes|
  {
    if n.Some? then Some(nodes[n.value].key) else None
  }

  // ----- One inserter and many readers, store by store -----

  datatype Inserter =
    | Idle
    | Located(key: int, height: nat, prev: seq<nat>)
    | Raised(key: int, height: nat, prev: seq<nat>)
    | Linking(x: nat, height: nat, prev: seq<nat>, level: nat, ready: bool)

  /** `known`: the keys whose insertion had returned when the search began.  `seen`: the keys of the
      list at the last read of the bottom level. */
  datatype Reader =
    | Searching(query: Query, x: nat, level: nat, known: set<int>)
    | Done(query: Query, known: set<int>, seen: set<int>, result: Option<int>)

  /** Two history variables: `lists` names the nodes of each level, `inserted` the keys whose insertion has returned. */
  datatype State = State(
    nodes: seq<Node>, maxHeight: nat, inserter: Inserter, readers: seq<Reader>, lists: seq<seq<nat>>,
        inserted: set<int>)

  datatype Step =
    | Locate(key: int, height: nat, prev: seq<nat>)
    | Raise
    | Allocate
    | CopyNext
    | Publish
    | Begin(query: Query, height: nat)
    | Read(reader: nat)

  ghost predicate LocatedAt(nodes: seq<Node>, lists: seq<seq<nat>>, key: int, from: nat, height: nat, prev: seq<nat>) {
    && height <= MAX_HEIGHT <= |lists| && height <= |prev|
    && forall l {:trigger prev[l]} :: from <= l < height ==>
         LevelOk(nodes, l, lists[l]) && IsPrev(nodes, l, lists[l], key, prev[l])
  }

  ghost predicate Does(a: State, s: Step, b: State) {
    match s
    case Locate(key, height, prev) =>
      && a.inserter.Idle? && 1 <= height <= MAX_HEIGHT && key !in a.inserted
      && LocatedAt(a.nodes, a.lists, key, 0, height, prev)
      && b == a.(inserter := Located(key, height, prev))
    case Raise =>
      && a.inserter.Located?
      && var i := a.inserter;
         b == a.(maxHeight := if i.height > a.maxHeight then i.height else a.maxHeight,
                 inserter := Raised(i.key, i.height, i.prev))
    case Allocate =>
      && a.inserter.Raised?
      && var i := a.inserter;
         b == a.(nodes := a.nodes + [Node(i.key, seq(i.height, _ => None))],
                 inserter := Linking(|a.nodes|, i.height, i.prev, 0, false))
    case CopyNext =>
      && a.inserter.Linking? && !a.inserter.ready
      && var i := a.inserter;
         && i.level < |i.prev| && Reaches(a.nodes, i.level, i.prev[i.level]) && Reaches(a.nodes, i.level, i.x)
         && b == a.(nodes := SetNext(a.nodes, i.x, i.level, a.nodes[i.prev[i.level]].next[i.level]),
                    inserter := i.(ready := true))
    case Publish =>
      && a.inserter.Linking? && a.inserter.ready
      && var i := a.inserter;
         && i.level < |i.prev| && Reaches(a.nodes, i.level, i.prev[i.level]) && i.x < |a.nodes|
         && b == a.(nodes := SetNext(a.nodes, i.prev[i.level], i.level, Some(i.x)),
                    inserter := if i.level + 1 < i.height then i.(level := i.level + 1, ready := false) else Idle,
                    inserted := if i.level + 1 < i.height then a.inserted else a.inserted + {a.nodes[i.x].key},
                    lists := b.lists)
         && i.level < |a.lists|
         && exists p :: 0 <= p <= |a.lists[i.level]| && At(a.lists[i.level], p) == i.prev[i.level]
                        && b.lists == a.lists[i.level := Spliced(a.lists[i.level], p, i.x)]
    case Begin(q, height) =>
      && 1 <= height <= a.maxHeight
      && b == a.(readers := a.readers + [Searching(q, 0, height - 1, a.inserted)])
    case Read(r) =>
      && r < |a.readers| && a.readers[r].Searching? && Reaches(a.nodes, a.readers[r].level, a.readers[r].x)
      && |a.lists| > 0 && KeysSorted(a.nodes, a.lists[0])
      && var reader := a.readers[r];
         var next := a.nodes[reader.x].next[reader.level];
         && (next.Some? ==> next.value < |a.nodes|)
         && b == a.(readers := a.readers[r := AfterRead(a, reader, next)])
  }

  /** One turn of the search loop. */
  ghost function AfterRead(a: State, r: Reader, next: Option<nat>): Reader
    requires r.Searching? && r.x < |a.nodes| && (next.Some? ==> next.value < |a.nodes|)
    requires |a.lists| > 0 && KeysSorted(a.nodes, a.lists[0])
  {
    if next.Some? && Passes(r.query, a.nodes[next.value].key) then r.(x := next.value)
    else if r.level > 0 then r.(level := r.level - 1)
    else
      var here := if r.x == 0 then None else Some(a.nodes[r.x].key);
      Done(r.query, r.known, KeysOf(a.nodes, a.lists[0]), if r.query.Seek? then KeyAt(a.nodes, next) else here)
  }

  // ----- The invariant -----

  ghost predicate InserterOk(a: State)
    requires ListOk(a.nodes, a.maxHeight, a.lists)
  {
    var i := a.inserter;
    match i
    case Idle => true
    case Located(key, height, prev) =>
      1 <= height <= MAX_HEIGHT && key !in a.inserted && LocatedAt(a.nodes, a.lists, key, 0, height, prev)
    case Raised(key, height, prev) =>
      && 1 <= height <= a.maxHeight && key !in a.inserted && LocatedAt(a.nodes, a.lists, key, 0, height, prev)
    case Linking(x, height, prev, level, ready) =>
      && level < height <= a.maxHeight && 0 < x < |a.nodes| && |a.nodes[x].next| == height
      && LocatedAt(a.nodes, a.lists, a.nodes[x].key, level, height, prev)
      && (forall l {:trigger a.lists[l]} :: 0 <= l < MAX_HEIGHT ==> (x in a.lists[l] <==> l < level))
      && (ready ==> Reaches(a.nodes, level, prev[level]) && a.nodes[x].next[level] == a.nodes[prev[level]].next[level])
  }

  /** The keys a search of the bottom level can meet. */
  ghost function Keys(a: State): set<int>
    requires |a.lists| > 0 && KeysSorted(a.nodes, a.lists[0])
  {
    KeysOf(a.nodes, a.lists[0])
  }

  ghost predicate KeysOk(a: State)
    requires ListOk(a.nodes, a.maxHeight, a.lists)
  {
    var i := a.inserter;
    && (i.Linking? ==> i.x < |a.nodes|)
    && Keys(a) == a.inserted + if i.Linking? && i.level > 0 then {a.nodes[i.x].key} else {}
  }

  ghost predicate ReaderOk(nodes: seq<Node>, lists: seq<seq<nat>>, keys: set<int>, r: Reader)
    requires |lists| == MAX_HEIGHT
  {
    match r
    case Searching(q, x, level, known) =>
      && level < MAX_HEIGHT && known <= keys && x < |nodes|
      && (x != 0 ==> x in lists[level] && Passes(q, nodes[x].key))
    case Done(q, known, seen, result) => known <= seen && IsAnswer(q, seen, result)
  }

  ghost predicate Invariant(a: State) {
    && ListOk(a.nodes, a.maxHeight, a.lists) && InserterOk(a) && KeysOk(a)
    && forall r {:trigger a.readers[r]} :: 0 <= r < |a.readers| ==> ReaderOk(a.nodes, a.lists, Keys(a), a.readers[r])
  }

  ghost predicate Initial(a: State) {
    a == State([Node(0, seq(MAX_HEIGHT, _ => None))], 1, Idle, [], seq(MAX_HEIGHT, _ => []), {})
  }

  // ----- Every step keeps it -----

  lemma InitialOk(a: State)
    requires Initial(a)
    ensures Invariant(a)
  {
    assert forall l :: 0 <= l < MAX_HEIGHT ==> a.lists[l] == [];
  }

  lemma HeadReaches(nodes: seq<Node>, level: nat, list: seq<nat>)
    requires LevelOk(nodes, level, list)
    ensures Reaches(nodes, level, 0)
  {
    assert At(list, 0) == 0;
  }

  lemma LocateKeeps(a: State, s: Step, b: State)
    requires Invariant(a) && Does(a, s, b) && (s.Locate? || s.Raise? || s.Begin?)
    ensures Invariant(b)
  {
    HeadReaches(a.nodes, 0, a.lists[0]);
  }

  lemma AllocateKeeps(a: State, b: State)
    requires Invariant(a) && Does(a, Allocate, b)
    ensures Invariant(b)
  {
    HeadReaches(a.nodes, 0, a.lists[0]);
    var x := b.nodes[|a.nodes|];
    forall l | 0 <= l < MAX_HEIGHT ensures LevelOk(b.nodes, l, a.lists[l]) && |a.nodes| !in a.lists[l] {
      Allocated(a.nodes, x, l, a.lists[l]);
    }
    assert Keys(b) == Keys(a);
  }

  lemma CopyNextList(a: State, b: State)
    requires Invariant(a) && Does(a, CopyNext, b)
    ensures ListOk(b.nodes, b.maxHeight, b.lists) && Keys(b) == Keys(a)
  {
    var i := a.inserter;
    forall l | 0 <= l < MAX_HEIGHT ensures LevelOk(b.nodes, l, a.lists[l]) {
      if l == i.level {
        OtherNode(a.nodes, i.x, i.level, b.nodes[i.x].next[i.level], l, a.lists[l]);
      } else {
        OtherLevel(a.nodes, i.x, i.level, b.nodes[i.x].next[i.level], l, a.lists[l]);
      }
    }
    KeysFrame(a.nodes, b.nodes, a.lists[0]);
  }

  lemma CopyNextKeeps(a: State, b: State)
    requires Invariant(a) && Does(a, CopyNext, b)
    ensures Invariant(b)
  {
    CopyNextList(a, b);
    assert forall n :: 0 <= n < |a.nodes| ==> b.nodes[n].key == a.nodes[n].key;
  }

  /** Where the store publishes the node. */
  lemma PublishPlace(a: State, b: State) returns (p: nat)
    requires Invariant(a) && Does(a, Publish, b)
    ensures var i := a.inserter; var list := a.lists[i.level];
            && p <= |list| && At(list, p) == i.prev[i.level] && IsPlace(a.nodes, list, a.nodes[i.x].key, p)
            && b.lists == a.lists[i.level := Spliced(list, p, i.x)]
            && LevelOk(b.nodes, i.level, b.lists[i.level])
  {
    var i := a.inserter;
    var list := a.lists[i.level];
    p :| 0 <= p <= |list| && At(list, p) == i.prev[i.level] && b.lists == a.lists[i.level := Spliced(list, p, i.x)];
    assert i.prev[i.level] == i.prev[i.level];
    var q :| 0 <= q <= |list| && IsPlace(a.nodes, list, a.nodes[i.x].key, q) && i.prev[i.level] == At(list, q);
    SamePlace(a.nodes, i.level, list, p, q);
    SpliceKeeps(a.nodes, i.level, list, p, i.x);
  }

  lemma SamePlace(nodes: seq<Node>, level: nat, list: seq<nat>, p: nat, q: nat)
    requires LevelOk(nodes, level, list) && p <= |list| && q <= |list| && At(list, p) == At(list, q)
    ensures p == q
  {
  }

  lemma SplicedMembers(list: seq<nat>, p: nat, x: nat)
    requires p <= |list|
    ensures forall n :: n in Spliced(list, p, x) <==> n == x || n in list
  {
    assert list == list[..p] + list[p..];
  }

  lemma PublishList(a: State, b: State)
    requires Invariant(a) && Does(a, Publish, b)
    ensures ListOk(b.nodes, b.maxHeight, b.lists)
    ensures forall l, n :: 0 <= l < MAX_HEIGHT ==>
              (n in b.lists[l] <==> n in a.lists[l] || (l == a.inserter.level && n == a.inserter.x))
  {
    var i := a.inserter;
    var p := PublishPlace(a, b);
    SplicedMembers(a.lists[i.level], p, i.x);
    forall l | 0 <= l < MAX_HEIGHT ensures LevelOk(b.nodes, l, b.lists[l]) {
      if l != i.level {
        OtherLevel(a.nodes, i.prev[i.level], i.level, Some(i.x), l, a.lists[l]);
      }
    }
    PublishContained(a, b);
  }

  lemma PublishContained(a: State, b: State)
    requires Invariant(a) && Does(a, Publish, b) && |b.lists| == MAX_HEIGHT
    requires forall l, n :: 0 <= l < MAX_HEIGHT ==>
               (n in b.lists[l] <==> n in a.lists[l] || (l == a.inserter.level && n == a.inserter.x))
    ensures forall l {:trigger Contained(b.lists, l)} :: 0 <= l < MAX_HEIGHT - 1 ==> Contained(b.lists, l)
  {
    forall l | 0 <= l < MAX_HEIGHT - 1 ensures Contained(b.lists, l) {
      assert Contained(a.lists, l);
    }
  }

  lemma KeysFrame(nodes: seq<Node>, nodes2: seq<Node>, list: seq<nat>)
    requires |nodes| == |nodes2| && KeysSorted(nodes, list) && forall n :: 0 <= n < |nodes| ==>
               nodes2[n].key == nodes[n].key
    ensures KeysSorted(nodes2, list) && KeysOf(nodes2, list) == KeysOf(nodes, list)
  {
  }

  lemma PublishAdds(a: State, b: State)
    requires Invariant(a) && Does(a, Publish, b) && ListOk(b.nodes, b.maxHeight, b.lists)
    ensures Keys(b) == Keys(a) + if a.inserter.level == 0 then {a.nodes[a.inserter.x].key} else {}
  {
    var i := a.inserter;
    var p := PublishPlace(a, b);
    if i.level == 0 {
      SplicedKeys(a.nodes, b.nodes, a.lists[0], p, i.x);
    } else {
      KeysFrame(a.nodes, b.nodes, a.lists[0]);
    }
  }

  lemma PublishKeys(a: State, b: State)
    requires Invariant(a) && Does(a, Publish, b) && ListOk(b.nodes, b.maxHeight, b.lists)
    ensures KeysOk(b) && Keys(a) <= Keys(b)
  {
    PublishAdds(a, b);
  }

  lemma SplicedKeys(nodes: seq<Node>, nodes2: seq<Node>, list: seq<nat>, p: nat, x: nat)
    requires p <= |list| && x < |nodes| == |nodes2| && KeysSorted(nodes, list)
               && KeysSorted(nodes2, Spliced(list, p, x))
    requires forall n :: 0 <= n < |nodes| ==> nodes2[n].key == nodes[n].key
    ensures KeysOf(nodes2, Spliced(list, p, x)) == KeysOf(nodes, list) + {nodes[x].key}
  {
    var list2 := Spliced(list, p, x);
    assert list2[p] == x;
    forall k | 0 <= k < |list| ensures nodes[list[k]].key in KeysOf(nodes2, list2) {
      assert list2[if k < p then k else k + 1] == list[k];
    }
    forall k | 0 <= k < |list2| ensures nodes2[list2[k]].key in KeysOf(nodes, list) + {nodes[x].key} {
      assert k != p ==> list2[k] == list[if k < p then k else k - 1];
    }
  }

  /** The places found for the levels still to be linked stay right. */
  lemma PublishLocated(a: State, b: State, l: nat)
    requires Invariant(a) && Does(a, Publish, b) && ListOk(b.nodes, b.maxHeight, b.lists)
    requires a.inserter.level < l < a.inserter.height && b.lists[l] == a.lists[l]
    ensures IsPrev(b.nodes, l, b.lists[l], a.nodes[a.inserter.x].key, a.inserter.prev[l])
  {
    var i := a.inserter;
    assert i.prev[l] == i.prev[l];
    var q :| 0 <= q <= |a.lists[l]| && IsPlace(a.nodes, a.lists[l], a.nodes[i.x].key, q)
        && i.prev[l] == At(a.lists[l], q);
    assert IsPlace(b.nodes, b.lists[l], a.nodes[i.x].key, q);
  }

  lemma PublishInserter(a: State, b: State)
    requires Invariant(a) && Does(a, Publish, b) && ListOk(b.nodes, b.maxHeight, b.lists)
    requires forall l, n :: 0 <= l < MAX_HEIGHT ==>
               (n in b.lists[l] <==> n in a.lists[l] || (l == a.inserter.level && n == a.inserter.x))
    ensures InserterOk(b)
  {
    var i := a.inserter;
    if b.inserter.Linking? {
      forall l {:trigger i.prev[l]} | i.level < l < i.height
          ensures IsPrev(b.nodes, l, b.lists[l], a.nodes[i.x].key, i.prev[l]) {
        PublishLocated(a, b, l);
      }
    }
  }

  lemma PublishKeeps(a: State, b: State)
    requires Invariant(a) && Does(a, Publish, b)
    ensures Invariant(b)
  {
    PublishList(a, b);
    PublishKeys(a, b);
    PublishInserter(a, b);
    PublishReaders(a, b);
  }

  lemma PublishReaders(a: State, b: State)
    requires Invariant(a) && Does(a, Publish, b) && ListOk(b.nodes, b.maxHeight, b.lists) && Keys(a) <= Keys(b)
    requires forall l, n :: 0 <= l < MAX_HEIGHT ==>
               (n in b.lists[l] <==> n in a.lists[l] || (l == a.inserter.level && n == a.inserter.x))
    ensures forall r {:trigger b.readers[r]} :: 0 <= r < |b.readers| ==>
              ReaderOk(b.nodes, b.lists, Keys(b), b.readers[r])
  {
    assert forall n :: 0 <= n < |a.nodes| ==> b.nodes[n].key == a.nodes[n].key;
    forall r {:trigger b.readers[r]} | 0 <= r < |b.readers| ensures ReaderOk(b.nodes, b.lists, Keys(b), b.readers[r]) {
      assert ReaderOk(a.nodes, a.lists, Keys(a), a.readers[r]);
    }
  }

  lemma PlaceOf(nodes: seq<Node>, level: nat, list: seq<nat>, x: nat) returns (i: nat)
    requires LevelOk(nodes, level, list) && (x == 0 || x in list)
    ensures i <= |list| && At(list, i) == x && (x == 0 <==> i == 0)
    ensures Reaches(nodes, level, x) && nodes[x].next[level] == After(list, i)
  {
    if x == 0 {
      i := 0;
    } else {
      var k :| 0 <= k < |list| && list[k] == x;
      i := k + 1;
    }
    assert At(list, i) == x;
  }

  lemma ReadKeeps(a: State, r: nat, b: State)
    requires Invariant(a) && Does(a, Read(r), b)
    ensures Invariant(b)
  {
    var reader := a.readers[r];
    var list := a.lists[reader.level];
    var i := PlaceOf(a.nodes, reader.level, list, reader.x);
    var next := a.nodes[reader.x].next[reader.level];
    if next.Some? && Passes(reader.query, a.nodes[next.value].key) {
      assert next.value == list[i];
    } else if reader.level > 0 {
      assert Contained(a.lists, reader.level - 1);
    } else {
      AnswerFound(a.nodes, list, reader.query, i);
    }
    assert ReaderOk(a.nodes, a.lists, Keys(a), b.readers[r]);
    forall k {:trigger b.readers[k]} | 0 <= k < |b.readers| ensures ReaderOk(b.nodes, b.lists, Keys(b), b.readers[k]) {
    }
  }

  // ----- Whole runs -----

  lemma StepKeeps(a: State, s: Step, b: State)
    requires Invariant(a) && Does(a, s, b)
    ensures Invariant(b)
  {
    match s
    case Allocate => AllocateKeeps(a, b);
    case CopyNext => CopyNextKeeps(a, b);
    case Publish => PublishKeeps(a, b);
    case Read(r) => ReadKeeps(a, r, b);
    case _ => LocateKeeps(a, s, b);
  }

  ghost predicate Follows(states: seq<State>, steps: seq<Step>, i: nat)
    requires i < |steps| < |states|
  {
    Does(states[i], steps[i], states[i + 1])
  }

  ghost predicate IsRun(states: seq<State>, steps: seq<Step>) {
    && |states| == |steps| + 1 && Initial(states[0])
    && forall i {:trigger Follows(states, steps, i)} :: 0 <= i < |steps| ==> Follows(states, steps, i)
  }

  /** After every store, whatever the readers do, each level is linked, sorted and contained in the one below. */
  lemma {:induction false} RunKeeps(states: seq<State>, steps: seq<Step>, k: nat)
    requires IsRun(states, steps) && k < |states|
    ensures Invariant(states[k])
  {
    if k == 0 {
      InitialOk(states[0]);
    } else {
      RunKeeps(states, steps, k - 1);
      assert Follows(states, steps, k - 1);
      StepKeeps(states[k - 1], steps[k - 1], states[k]);
    }
  }

  /** A search that ends, in any run and from any maximum height it may have read, has the right answer for
      the keys in the list at its last read, and those include every key inserted before it began. */
  lemma SearchAnswers(states: seq<State>, steps: seq<Step>, k: nat, r: nat)
    requires IsRun(states, steps) && k < |steps| && steps[k] == Read(r)
    requires r < |states[k + 1].readers| && states[k + 1].readers[r].Done?
    ensures ListOk(states[k].nodes, states[k].maxHeight, states[k].lists)
    ensures states[k].inserted <= Keys(states[k])
    ensures var d := states[k + 1].readers[r];
            d.seen == Keys(states[k]) && d.known <= d.seen && IsAnswer(d.query, d.seen, d.result)
  {
    RunKeeps(states, steps, k);
    assert Follows(states, steps, k);
    RunKeeps(states, steps, k + 1);
  }

  /** Looking for a key that was in the list when the search began finds it. */
  lemma FindsInserted(states: seq<State>, steps: seq<Step>, k: nat, r: nat, key: int)
    requires IsRun(states, steps) && k < |states| && r < |states[k].readers| && states[k].readers[r].Done?
    requires states[k].readers[r].query == Seek(key) && key in states[k].readers[r].known
    ensures states[k].readers[r].result == Some(key)
  {
    RunKeeps(states, steps, k);
    assert !Passes(Seek(key), key);
  }

  // ----- The loops -----

  /** The nodes before place `i` are the ones the search goes past. */
  ghost predicate IsStop(nodes: seq<Node>, list: seq<nat>, q: Query, i: nat)
    requires KeysSorted(nodes, list)
  {
    && i <= |list|
    && (i > 0 ==> Passes(q, nodes[list[i - 1]].key))
    && (i < |list| ==> !Passes(q, nodes[list[i]].key))
  }

  /** Where a level stops the search. */
  ghost predicate StopsAt(nodes: seq<Node>, level: nat, list: seq<nat>, q: Query, n: nat)
    requires LevelOk(nodes, level, list)
  {
    exists i :: 0 <= i <= |list| && IsStop(nodes, list, q, i) && n == At(list, i)
  }

  class Table {
    var nodes: seq<Node>
    var maxHeight: nat
    ghost var lists: seq<seq<nat>>

    ghost predicate Valid()
      reads this
    {
      ListOk(nodes, maxHeight, lists)
    }

    ghost function Keys(): set<int>
      reads this
      requires Valid()
    {
      KeysOf(nodes, lists[0])
    }

    constructor ()
      ensures Valid() && Keys() == {}
    {
      nodes, maxHeight := [Node(0, seq(MAX_HEIGHT, _ => None))], 1;
      lists := seq(MAX_HEIGHT, _ => []);
      new;
      assert forall l :: 0 <= l < MAX_HEIGHT ==> lists[l] == [];
    }

    /** The common walk: right while the query passes the next node, else down; `prev` gets the last
        node passed on each level. */
    method Walk(q: Query) returns (x: nat, next: Option<nat>, prev: seq<nat>, ghost i: nat)
      requires Valid()
      ensures |prev| == MAX_HEIGHT && IsStop(nodes, lists[0], q, i) && x == At(lists[0], i)
                && next == After(lists[0], i)
      ensures forall l {:trigger prev[l]} :: 0 <= l < maxHeight ==> StopsAt(nodes, l, lists[l], q, prev[l])
    {
      x := 0;
      var level := maxHeight - 1;
      prev := seq(MAX_HEIGHT, _ => 0);
      i := 0;
      ghost var j: nat := PlaceOf(nodes, level, lists[level], x);
      while true
        invariant 0 <= level < maxHeight && |prev| == MAX_HEIGHT
        invariant j <= |lists[level]| && x == At(lists[level], j)
                    && (j > 0 ==> Passes(q, nodes[lists[level][j - 1]].key))
        invariant forall l {:trigger prev[l]} :: level < l < maxHeight ==> StopsAt(nodes, l, lists[l], q, prev[l])
        decreases level, |lists[level]| - j
      {
        j := PlaceOf(nodes, level, lists[level], x);
        next := nodes[x].next[level];
        if next.Some? && Passes(q, nodes[next.value].key) {
          x := next.value;
          j := j + 1;
        } else {
          assert IsStop(nodes, lists[level], q, j);
          prev := prev[level := x];
          if level == 0 {
            i := j;
            return;
          }
          level := level - 1;
          assert Contained(lists, level);
          j := PlaceOf(nodes, level, lists[level], x);
        }
      }
    }

    /** The first node at or after the key, and the last node before it on every level. */
    method FindGreaterOrEqual(key: int) returns (r: Option<nat>, prev: seq<nat>)
      requires Valid()
      ensures r.Some? ==> r.value in lists[0] && r.value < |nodes|
      ensures IsAnswer(Seek(key), Keys(), KeyAt(nodes, r))
      ensures |prev| == MAX_HEIGHT
      ensures forall l {:trigger prev[l]} :: 0 <= l < maxHeight ==> StopsAt(nodes, l, lists[l], Seek(key), prev[l])
    {
      var x;
      ghost var i;
      x, r, prev, i := Walk(Seek(key));
      AnswerFound(nodes, lists[0], Seek(key), i);
    }

    /** The last node before the key, and None for the head. */
    method FindLessThan(key: int) returns (r: Option<nat>)
      requires Valid()
      ensures r.Some? ==> r.value in lists[0] && r.value < |nodes|
      ensures IsAnswer(Before(key), Keys(), KeyAt(nodes, r))
    {
      var x, next, prev;
      ghost var i;
      x, next, prev, i := Walk(Before(key));
      AnswerFound(nodes, lists[0], Before(key), i);
      r := if x == 0 then None else Some(x);
    }

    method FindLast() returns (r: Option<nat>)
      requires Valid()
      ensures r.Some? ==> r.value in lists[0] && r.value < |nodes|
      ensures IsAnswer(Last, Keys(), KeyAt(nodes, r))
    {
      var x, next, prev;
      ghost var i;
      x, next, prev, i := Walk(Last);
      AnswerFound(nodes, lists[0], Last, i);
      r := if x == 0 then None else Some(x);
    }

    /** Links the new node into one level: two stores, each a step that readers may see. */
    method LinkLevel(x: nat, height: nat, prev: seq<nat>, i: nat, ghost s: State) returns (ghost t: State)
      requires Invariant(s) && s == State(nodes, maxHeight, Linking(x, height, prev, i, false), [], lists, s.inserted)
      modifies this`nodes, this`lists
      ensures Invariant(t) && |nodes| == |old(nodes)| && x < |nodes| && nodes[x].key == old(nodes)[x].key
      ensures t == State(nodes, maxHeight,
                         if i + 1 < height then Linking(x, height, prev, i + 1, false) else Idle, [], lists,
                         if i + 1 < height then s.inserted else s.inserted + {nodes[x].key})
    {
      ghost var p: nat := LinkPlace(s);
      nodes := SetNext(nodes, x, i, nodes[prev[i]].next[i]);
      t := Take(s, CopyNext, s.(nodes := nodes, inserter := s.inserter.(ready := true)));
      nodes := SetNext(nodes, prev[i], i, Some(x));
      lists := lists[i := Spliced(lists[i], p, x)];
      t := Take(t, Publish,
                State(nodes, maxHeight, if i + 1 < height then Linking(x, height, prev, i + 1, false) else Idle, [],
                      lists, if i + 1 < height then s.inserted else s.inserted + {nodes[x].key}));
    }

    /** Levels that are not in use yet will be linked from the head. */
    method RaisePrev(prev: seq<nat>, height: nat, ghost q: Query) returns (all: seq<nat>)
      requires Valid() && |prev| == MAX_HEIGHT && height <= MAX_HEIGHT
      requires forall l {:trigger prev[l]} :: 0 <= l < maxHeight ==> StopsAt(nodes, l, lists[l], q, prev[l])
      ensures |all| == MAX_HEIGHT
      ensures forall l {:trigger all[l]} :: 0 <= l < maxHeight ==> StopsAt(nodes, l, lists[l], q, all[l])
      ensures forall l {:trigger all[l]} :: maxHeight <= l < height ==> all[l] == 0
    {
      all := prev;
      var i := maxHeight;
      while i < height
        invariant maxHeight <= i && |all| == MAX_HEIGHT
        invariant forall l {:trigger all[l]} :: 0 <= l < maxHeight ==> all[l] == prev[l]
        invariant forall l {:trigger all[l]} :: maxHeight <= l < i && l < height ==> all[l] == 0
      {
        all := all[i := 0];
        i := i + 1;
      }
    }

    /** Inserts a key store by store. */
    method Insert(key: int, height: nat)
      requires Valid() && key !in Keys() && 1 <= height <= MAX_HEIGHT
      modifies this
      ensures Valid() && Keys() == old(Keys()) + {key}
    {
      var r, found := FindGreaterOrEqual(key);
      var prev := RaisePrev(found, height, Seek(key));
      ghost var inserted := Keys();
      ghost var s := State(nodes, maxHeight, Idle, [], lists, inserted);
      LocatedBy(s, key, height, prev);
      s := Take(s, Locate(key, height, prev), s.(inserter := Located(key, height, prev)));
      if height > maxHeight {
        maxHeight := height;
      }
      s := Take(s, Raise, s.(maxHeight := maxHeight, inserter := Raised(key, height, prev)));
      var x := |nodes|;
      nodes := nodes + [Node(key, seq(height, _ => None))];
      s := Take(s, Allocate, s.(nodes := nodes, inserter := Linking(x, height, prev, 0, false)));
      LinkAll(x, height, prev, s);
    }

    method LinkAll(x: nat, height: nat, prev: seq<nat>, ghost start: State)
      requires Invariant(start) && 1 <= height && x < |nodes|
      requires start == State(nodes, maxHeight, Linking(x, height, prev, 0, false), [], lists, start.inserted)
      modifies this`nodes, this`lists
      ensures Valid() && Keys() == start.inserted + {old(nodes)[x].key}
    {
      ghost var s, key := start, nodes[x].key;
      var i := 0;
      while i < height
        invariant 0 <= i <= height && x < |nodes| && nodes[x].key == key
        invariant Invariant(s)
        invariant s == State(nodes, maxHeight,
                             if i < height then Linking(x, height, prev, i, false) else Idle, [], lists,
                             if i < height then start.inserted else start.inserted + {key})
      {
        s := LinkLevel(x, height, prev, i, s);
        i := i + 1;
      }
    }
  }

  /** One step of the system. */
  lemma Take(a: State, s: Step, next: State) returns (b: State)
    requires Invariant(a) && Does(a, s, next)
    ensures b == next && Invariant(b)
  {
    StepKeeps(a, s, next);
    b := next;
  }

  lemma LocatedBy(s: State, key: int, height: nat, prev: seq<nat>)
    requires ListOk(s.nodes, s.maxHeight, s.lists) && s.inserter == Idle && s.readers == []
    requires s.inserted == Keys(s) && key !in s.inserted && 1 <= height <= MAX_HEIGHT == |prev|
    requires forall l {:trigger prev[l]} :: 0 <= l < s.maxHeight ==> StopsAt(s.nodes, l, s.lists[l], Seek(key), prev[l])
    requires forall l {:trigger prev[l]} :: s.maxHeight <= l < height ==> prev[l] == 0
    ensures Invariant(s) && LocatedAt(s.nodes, s.lists, key, 0, height, prev)
  {
    forall l {:trigger prev[l]} | 0 <= l < height ensures IsPrev(s.nodes, l, s.lists[l], key, prev[l]) {
      LocatedLevel(s.nodes, s.maxHeight, s.lists, key, prev[l], l);
    }
  }

  /** A key that is not in the list stops strictly between two nodes of each level. */
  lemma LocatedLevel(nodes: seq<Node>, maxHeight: nat, lists: seq<seq<nat>>, key: int, n: nat, l: nat)
    requires ListOk(nodes, maxHeight, lists) && l < MAX_HEIGHT && key !in KeysOf(nodes, lists[0])
    requires if l < maxHeight then StopsAt(nodes, l, lists[l], Seek(key), n) else n == 0
    ensures IsPrev(nodes, l, lists[l], key, n)
  {
    InBottom(nodes, maxHeight, lists, l);
    var i: nat := 0;
    if l < maxHeight {
      i :| 0 <= i <= |lists[l]| && IsStop(nodes, lists[l], Seek(key), i) && n == At(lists[l], i);
    }
    if i < |lists[l]| {
      assert lists[l][i] in lists[l];
      assert nodes[lists[l][i]].key in KeysOf(nodes, lists[0]);
    }
    assert IsPlace(nodes, lists[l], key, i) && n == At(lists[l], i);
  }

  lemma {:induction false} InBottom(nodes: seq<Node>, maxHeight: nat, lists: seq<seq<nat>>, l: nat)
    requires ListOk(nodes, maxHeight, lists) && l < MAX_HEIGHT
    ensures forall n :: n in lists[l] ==> n in lists[0]
  {
    if l > 0 {
      InBottom(nodes, maxHeight, lists, l - 1);
      assert Contained(lists, l - 1);
    }
  }

  lemma LinkPlace(s: State) returns (p: nat)
    requires Invariant(s) && s.inserter.Linking?
    ensures var i := s.inserter;
            && i.level < |i.prev| && p <= |s.lists[i.level]| && At(s.lists[i.level], p) == i.prev[i.level]
            && Reaches(s.nodes, i.level, i.prev[i.level]) && i.prev[i.level] != i.x && Reaches(s.nodes, i.level, i.x)
  {
    var i := s.inserter;
    var list := s.lists[i.level];
    assert i.prev[i.level] == i.prev[i.level];
    p :| 0 <= p <= |list| && IsPlace(s.nodes, list, s.nodes[i.x].key, p) && i.prev[i.level] == At(list, p);
  }
}
