/** The bytes of a version edit, the manifest's record (db/version_edit.cc). */
module VersionEdits {
  import opened Entries
  import opened Coding
  import Versions

  /** A table the edit adds: its keys are encoded internal keys. */
  datatype NewFile = NewFile(number: nat, size: nat, smallest: Bytes, largest: Bytes)

  /** One tagged item of the encoding. */
  datatype Item =
    | Comparator(name: Bytes)
    | LogNumber(number: nat)
    | NextFileNumber(number: nat)
    | LastSequence(number: nat)
    | CompactPointer(level: nat, key: Bytes)
    | DeletedFile(level: nat, file: nat)
    | AddedFile(level: nat, added: NewFile)
    | PrevLogNumber(number: nat)

  function TagOf(it: Item): (tag: nat)
    ensures tag < TWO_32
  {
    match it
    case Comparator(_) => 1
    case LogNumber(_) => 2
    case NextFileNumber(_) => 3
    case LastSequence(_) => 4
    case CompactPointer(_, _) => 5
    case DeletedFile(_, _) => 6
    case AddedFile(_, _) => 7
    case PrevLogNumber(_) => 9
  }

  // ----- Fields -----

  /** The fields behind a tag: a level (a 32-bit varint that names a level), a 64-bit varint, a string. */
  datatype Kind = Level | Number | String

  datatype Field = Num(n: nat) | Str(s: Bytes)

  predicate Fits(k: Kind, f: Field) {
    match k
    case Level => f.Num? && f.n < Versions.NUM_LEVELS
    case Number => f.Num? && f.n < TWO_64
    case String => f.Str? && |f.s| < TWO_32
  }

  function EncodeField(f: Field): Bytes {
    if f.Num? then EncodeVarint(f.n) else EncodeString(f.s)
  }

  function GetLevel(input: Bytes, p: nat): (r: Option<(nat, nat)>)
    requires p <= |input|
    ensures r.Some? ==> p < r.value.1 <= |input|
  {
    var v := GetVarint32(input, p);
    if v.Some? && v.value.0 < Versions.NUM_LEVELS then v else None
  }

  function GetField(k: Kind, input: Bytes, p: nat): (r: Option<(Field, nat)>)
    requires p <= |input|
    ensures r.Some? ==> p < r.value.1 <= |input|
  {
    if k.String? then
      var s := GetString(input, p);
      if s.Some? then Some((Str(s.value.0), s.value.1)) else None
    else
      var n := if k.Level? then GetLevel(input, p) else GetVarint64(input, p);
      if n.Some? then Some((Num(n.value.0), n.value.1)) else None
  }

  lemma FieldRoundTrip(k: Kind, input: Bytes, p: nat, f: Field)
    requires Holds(input, p, EncodeField(f)) && Fits(k, f)
    ensures GetField(k, input, p) == Some((f, p + |EncodeField(f)|))
  {
    match k
    case Level => Varint32RoundTrip(input, p, f.n);
    case Number => Varint64RoundTrip(input, p, f.n);
    case String => StringRoundTrip(input, p, f.s);
  }

  ghost predicate AllFit(kinds: seq<Kind>, fields: seq<Field>) {
    |kinds| == |fields| && forall i :: 0 <= i < |kinds| ==> Fits(kinds[i], fields[i])
  }

  /** The fields from the `i`th on, one after the other, up to the first that is not there. */
  function GetFields(kinds: seq<Kind>, i: nat, input: Bytes, p: nat): (r: Option<(seq<Field>, nat)>)
    requires p <= |input| && i <= |kinds|
    ensures r.Some? ==> p <= r.value.1 <= |input| && |r.value.0| == |kinds| - i
    decreases |kinds| - i
  {
    if i == |kinds| then Some(([], p))
    else
      var f := GetField(kinds[i], input, p);
      if f.None? then None
      else
        var rest := GetFields(kinds, i + 1, input, f.value.1);
        if rest.None? then None else Some(([f.value.0] + rest.value.0, rest.value.1))
  }

  lemma GetFieldsStep(kinds: seq<Kind>, i: nat, input: Bytes, p: nat, f: Field, p1: nat, rest: seq<Field>, end: nat)
    requires i < |kinds| && p <= |input| && GetField(kinds[i], input, p) == Some((f, p1))
    requires p1 <= |input| && GetFields(kinds, i + 1, input, p1) == Some((rest, end))
    ensures GetFields(kinds, i, input, p) == Some(([f] + rest, end))
  {
  }

  lemma NextField(kinds: seq<Kind>, i: nat, input: Bytes, p: nat, fields: seq<Field>) returns (p1: nat)
    requires i < |kinds| && AllFit(kinds, fields) && Holds(input, p, EncodeAll(EncodeField, fields, i))
    ensures p <= |input| && GetField(kinds[i], input, p) == Some((fields[i], p1))
    ensures Holds(input, p1, EncodeAll(EncodeField, fields, i + 1))
    ensures p + |EncodeAll(EncodeField, fields, i)| == p1 + |EncodeAll(EncodeField, fields, i + 1)|
  {
    p1 := p + |EncodeField(fields[i])|;
    HoldsParts(input, p, EncodeField(fields[i]), EncodeAll(EncodeField, fields, i + 1));
    FieldRoundTrip(kinds[i], input, p, fields[i]);
  }

  lemma {:induction false} FieldsRoundTrip(kinds: seq<Kind>, i: nat, input: Bytes, p: nat, fields: seq<Field>)
    returns (rest: seq<Field>)
    requires i <= |kinds| && AllFit(kinds, fields) && Holds(input, p, EncodeAll(EncodeField, fields, i))
    ensures p <= |input| && IsTail(rest, fields, i)
    ensures GetFields(kinds, i, input, p) == Some((rest, p + |EncodeAll(EncodeField, fields, i)|))
    decreases |kinds| - i
  {
    rest := [];
    if i < |kinds| {
      var p1 := NextField(kinds, i, input, p, fields);
      var more := FieldsRoundTrip(kinds, i + 1, input, p1, fields);
      GetFieldsStep(kinds, i, input, p, fields[i], p1, more, p1 + |EncodeAll(EncodeField, fields, i + 1)|);
      rest := [fields[i]] + more;
    }
  }

  // ----- Items -----

  /** What follows each tag; tags 0, 8 and those above 9 are not used. */
  function KindsOf(tag: nat): seq<Kind> {
    if tag == 1 then [String]
    else if tag == 2 || tag == 3 || tag == 4 || tag == 9 then [Number]
    else if tag == 5 then [Level, String]
    else if tag == 6 then [Level, Number]
    else if tag == 7 then [Level, Number, Number, String, String]
    else []
  }

  function FieldsOf(it: Item): seq<Field> {
    match it
    case Comparator(name) => [Str(name)]
    case CompactPointer(level, key) => [Num(level), Str(key)]
    case DeletedFile(level, file) => [Num(level), Num(file)]
    case AddedFile(level, f) => [Num(level), Num(f.number), Num(f.size), Str(f.smallest), Str(f.largest)]
    case _ => [Num(it.number)]
  }

  function N(f: Field): nat { if f.Num? then f.n else 0 }
  function S(f: Field): Bytes { if f.Str? then f.s else [] }

  function ItemOf(tag: nat, fields: seq<Field>): Item
    requires |fields| == |KindsOf(tag)| && KindsOf(tag) != []
  {
    if tag == 1 then Comparator(S(fields[0]))
    else if tag == 2 then LogNumber(N(fields[0]))
    else if tag == 3 then NextFileNumber(N(fields[0]))
    else if tag == 4 then LastSequence(N(fields[0]))
    else if tag == 5 then CompactPointer(N(fields[0]), S(fields[1]))
    else if tag == 6 then DeletedFile(N(fields[0]), N(fields[1]))
    else if tag == 7 then AddedFile(N(fields[0]), NewFile(N(fields[1]), N(fields[2]), S(fields[3]), S(fields[4])))
    else PrevLogNumber(N(fields[0]))
  }

  ghost predicate Encodable(it: Item) {
    AllFit(KindsOf(TagOf(it)), FieldsOf(it))
  }

  function EncodeItem(it: Item): (r: Bytes)
    ensures 0 < |r|
  {
    EncodeVarint(TagOf(it)) + EncodeAll(EncodeField, FieldsOf(it), 0)
  }

  /** A tag that is not there, a tag that is not known, or a known tag whose fields are not all there. */
  datatype Error = InvalidTag | UnknownTag | BadFields(tag: nat)

  function DecodeItem(input: Bytes, p: nat): (r: Found<Item, Error>)
    ensures r.Item? ==> p < r.next <= |input|
  {
    if p > |input| then Bad(InvalidTag)
    else
      var tag := GetVarint32(input, p);
      if tag.None? then Bad(InvalidTag)
      else if KindsOf(tag.value.0) == [] then Bad(UnknownTag)
      else
        var fields := GetFields(KindsOf(tag.value.0), 0, input, tag.value.1);
        if fields.None? then Bad(BadFields(tag.value.0))
        else Found.Item(ItemOf(tag.value.0, fields.value.0), fields.value.1)
  }

  lemma ItemOfFields(it: Item)
    ensures KindsOf(TagOf(it)) != [] && |FieldsOf(it)| == |KindsOf(TagOf(it))| && ItemOf(TagOf(it), FieldsOf(it)) == it
  {
  }

  /** An item reads back, whatever follows it. */
  lemma ItemRoundTrip(input: Bytes, p: nat, it: Item)
    requires Holds(input, p, EncodeItem(it)) && Encodable(it)
    ensures DecodeItem(input, p) == Found.Item(it, p + |EncodeItem(it)|)
  {
    var tag, fields := TagOf(it), FieldsOf(it);
    HoldsParts(input, p, EncodeVarint(tag), EncodeAll(EncodeField, fields, 0));
    Varint32RoundTrip(input, p, tag);
    var read := FieldsRoundTrip(KindsOf(tag), 0, input, p + |EncodeVarint(tag)|, fields);
    assert read == fields;
    ItemOfFields(it);
  }

  lemma ItemDecodes(input: Bytes, it: Item)
    requires Encodable(it)
    ensures Decodes(EncodeItem, DecodeItem, input, it)
  {
    forall p: nat | Holds(input, p, EncodeItem(it))
        ensures DecodeItem(input, p) == Found.Item(it, p + |EncodeItem(it)|) {
      ItemRoundTrip(input, p, it);
    }
  }

  lemma ItemsRoundTrip(input: Bytes, items: seq<Item>)
    requires input == EncodeAll(EncodeItem, items, 0) && forall it :: it in items ==> Encodable(it)
    ensures DecodeAll(DecodeItem, input, 0) == (items, None)
  {
    forall k {:trigger items[k]} | 0 <= k < |items| ensures Decodes(EncodeItem, DecodeItem, input, items[k]) {
      ItemDecodes(input, items[k]);
    }
    AllRoundTrip(EncodeItem, DecodeItem, input, 0, items, 0);
    assert DecodeAll(DecodeItem, input, 0).0 == items;
  }

  // ----- The edit itself -----

  datatype Edit = Edit(
    comparator: Option<Bytes>, logNumber: Option<nat>, prevLogNumber: Option<nat>, nextFileNumber: Option<nat>,
    lastSequence: Option<nat>, compactPointers: seq<(nat, Bytes)>, deletedFiles: set<(nat, nat)>,
    newFiles: seq<(nat, NewFile)>)

  const FRESH := Edit(None, None, None, None, None, [], {}, [])

  /** What one decoded item does: a scalar replaces an earlier one, a deleted file joins a set, the rest
      are added at the end of lists. */
  function Apply(e: Edit, it: Item): Edit {
    match it
    case Comparator(name) => e.(comparator := Some(name))
    case LogNumber(n) => e.(logNumber := Some(n))
    case PrevLogNumber(n) => e.(prevLogNumber := Some(n))
    case NextFileNumber(n) => e.(nextFileNumber := Some(n))
    case LastSequence(n) => e.(lastSequence := Some(n))
    case CompactPointer(level, key) => e.(compactPointers := e.compactPointers + [(level, key)])
    case DeletedFile(level, file) => e.(deletedFiles := e.deletedFiles + {(level, file)})
    case AddedFile(level, f) => e.(newFiles := e.newFiles + [(level, f)])
  }

  /** The first `k` items, applied in order. */
  function ApplyAll(e: Edit, items: seq<Item>, k: nat): Edit
    requires k <= |items|
  {
    if k == 0 then e else Apply(ApplyAll(e, items, k - 1), items[k - 1])
  }

  lemma {:induction false} ApplyPrefix(e: Edit, a: seq<Item>, b: seq<Item>, k: nat)
    requires k <= |a|
    ensures ApplyAll(e, a + b, k) == ApplyAll(e, a, k)
  {
    if k > 0 {
      ApplyPrefix(e, a, b, k - 1);
      assert (a + b)[k - 1] == a[k - 1];
    }
  }

  lemma {:induction false} ApplyConcat(e: Edit, a: seq<Item>, b: seq<Item>, k: nat)
    requires k <= |b|
    ensures ApplyAll(e, a + b, |a| + k) == ApplyAll(ApplyAll(e, a, |a|), b, k)
  {
    if k == 0 {
      ApplyPrefix(e, a, b, |a|);
    } else {
      ApplyConcat(e, a, b, k - 1);
      assert (a + b)[|a| + k - 1] == b[k - 1];
    }
  }

  // ----- Encoding an edit -----

  predicate Precedes(a: (nat, nat), b: (nat, nat)) {
    a.0 < b.0 || (a.0 == b.0 && a.1 < b.1)
  }

  /** The members of a set of deleted files, by level and then by number. */
  ghost predicate IsSetOrder(order: seq<(nat, nat)>, s: set<(nat, nat)>) {
    && (forall x :: x in order <==> x in s)
    && (forall i, j :: 0 <= i < j < |order| ==> Precedes(order[i], order[j]))
  }

  function PointerItems(ps: seq<(nat, Bytes)>): (r: seq<Item>)
    ensures |r| == |ps| && forall i :: 0 <= i < |r| ==> r[i] == CompactPointer(ps[i].0, ps[i].1)
  {
    seq(|ps|, i requires 0 <= i < |ps| => CompactPointer(ps[i].0, ps[i].1))
  }

  function DeletedItems(order: seq<(nat, nat)>): (r: seq<Item>)
    ensures |r| == |order| && forall i :: 0 <= i < |r| ==> r[i] == DeletedFile(order[i].0, order[i].1)
  {
    seq(|order|, i requires 0 <= i < |order| => DeletedFile(order[i].0, order[i].1))
  }

  function AddedItems(fs: seq<(nat, NewFile)>): (r: seq<Item>)
    ensures |r| == |fs| && forall i :: 0 <= i < |r| ==> r[i] == AddedFile(fs[i].0, fs[i].1)
  {
    seq(|fs|, i requires 0 <= i < |fs| => AddedFile(fs[i].0, fs[i].1))
  }

  /** The scalars that are set, in the order they are written. */
  function ScalarItems(e: Edit): seq<Item> {
    (if e.comparator.Some? then [Comparator(e.comparator.value)] else [])
    + (if e.logNumber.Some? then [LogNumber(e.logNumber.value)] else [])
    + (if e.prevLogNumber.Some? then [PrevLogNumber(e.prevLogNumber.value)] else [])
    + (if e.nextFileNumber.Some? then [NextFileNumber(e.nextFileNumber.value)] else [])
    + (if e.lastSequence.Some? then [LastSequence(e.lastSequence.value)] else [])
  }

  /** The items an edit is written as. */
  function Items(e: Edit, order: seq<(nat, nat)>): seq<Item> {
    ScalarItems(e) + (PointerItems(e.compactPointers) + (DeletedItems(order) + AddedItems(e.newFiles)))
  }

  lemma {:induction false} ApplyPointers(e: Edit, ps: seq<(nat, Bytes)>, k: nat)
    requires k <= |ps|
    ensures ApplyAll(e, PointerItems(ps), k) == e.(compactPointers := e.compactPointers + ps[..k])
  {
    if k > 0 {
      ApplyPointers(e, ps, k - 1);
      assert ps[..k] == ps[..k - 1] + [(ps[k - 1].0, ps[k - 1].1)];
    } else {
      Unit(e.compactPointers);
    }
  }

  lemma {:induction false} ApplyDeleted(e: Edit, order: seq<(nat, nat)>, k: nat)
    requires k <= |order|
    ensures ApplyAll(e, DeletedItems(order), k) == e.(deletedFiles := e.deletedFiles + set i | 0 <= i < k :: order[i])
  {
    if k > 0 {
      ApplyDeleted(e, order, k - 1);
    }
  }

  lemma {:induction false} ApplyAdded(e: Edit, fs: seq<(nat, NewFile)>, k: nat)
    requires k <= |fs|
    ensures ApplyAll(e, AddedItems(fs), k) == e.(newFiles := e.newFiles + fs[..k])
  {
    if k > 0 {
      ApplyAdded(e, fs, k - 1);
      assert fs[..k] == fs[..k - 1] + [(fs[k - 1].0, fs[k - 1].1)];
    } else {
      Unit(e.newFiles);
    }
  }

  /** Applying a whole list. */
  function Read(e: Edit, items: seq<Item>): Edit {
    ApplyAll(e, items, |items|)
  }

  lemma ReadConcat(e: Edit, a: seq<Item>, b: seq<Item>)
    ensures Read(e, a + b) == Read(Read(e, a), b)
  {
    ApplyConcat(e, a, b, |b|);
  }

  lemma ReadOne(e: Edit, a: seq<Item>)
    requires |a| <= 1
    ensures Read(e, a) == if a == [] then e else Apply(e, a[0])
  {
    assert ApplyAll(e, a, 0) == e;
  }

  /** Reading the scalars of `e` into an edit that has none. */
  lemma ReadScalars(e: Edit, ps: seq<(nat, Bytes)>)
    ensures Read(FRESH.(compactPointers := ps), ScalarItems(e)) ==
              e.(compactPointers := ps, deletedFiles := {}, newFiles := [])
  {
    var a := if e.comparator.Some? then [Comparator(e.comparator.value)] else [];
    var b := if e.logNumber.Some? then [LogNumber(e.logNumber.value)] else [];
    var c := if e.prevLogNumber.Some? then [PrevLogNumber(e.prevLogNumber.value)] else [];
    var d := if e.nextFileNumber.Some? then [NextFileNumber(e.nextFileNumber.value)] else [];
    var f := if e.lastSequence.Some? then [LastSequence(e.lastSequence.value)] else [];
    ReadFive(FRESH.(compactPointers := ps), a, b, c, d, f);
    var e1 := FRESH.(compactPointers := ps, comparator := e.comparator);
    ReadOne(FRESH.(compactPointers := ps), a);
    ReadOne(e1, b);
    ReadOne(e1.(logNumber := e.logNumber), c);
    ReadOne(e1.(logNumber := e.logNumber, prevLogNumber := e.prevLogNumber), d);
    ReadOne(e1.(logNumber := e.logNumber, prevLogNumber := e.prevLogNumber, nextFileNumber := e.nextFileNumber), f);
  }

  lemma ReadFive(e: Edit, a: seq<Item>, b: seq<Item>, c: seq<Item>, d: seq<Item>, f: seq<Item>)
    ensures Read(e, a + b + c + d + f) == Read(Read(Read(Read(Read(e, a), b), c), d), f)
  {
    ReadConcat(e, a + b + c + d, f);
    ReadConcat(e, a + b + c, d);
    ReadConcat(e, a + b, c);
    ReadConcat(e, a, b);
  }

  lemma ReadFour(e: Edit, a: seq<Item>, b: seq<Item>, c: seq<Item>, d: seq<Item>)
    ensures Read(e, a + (b + (c + d))) == Read(Read(Read(Read(e, a), b), c), d)
  {
    ReadConcat(e, a, b + (c + d));
    ReadConcat(Read(e, a), b, c + d);
    ReadConcat(Read(Read(e, a), b), c, d);
  }

  lemma ReadPointers(e: Edit, ps: seq<(nat, Bytes)>)
    ensures Read(e, PointerItems(ps)) == e.(compactPointers := e.compactPointers + ps)
  {
    ApplyPointers(e, ps, |ps|);
    assert ps[..|ps|] == ps;
  }

  lemma ReadDeleted(e: Edit, order: seq<(nat, nat)>, s: set<(nat, nat)>)
    requires IsSetOrder(order, s)
    ensures Read(e, DeletedItems(order)) == e.(deletedFiles := e.deletedFiles + s)
  {
    ApplyDeleted(e, order, |order|);
    AllOf(order, s);
  }

  lemma ReadAdded(e: Edit, fs: seq<(nat, NewFile)>)
    ensures Read(e, AddedItems(fs)) == e.(newFiles := e.newFiles + fs)
  {
    ApplyAdded(e, fs, |fs|);
    assert fs[..|fs|] == fs;
  }

  /** Reading an edit's items back into an object that already has compaction pointers `ps`. */
  lemma ReadItems(e: Edit, order: seq<(nat, nat)>, ps: seq<(nat, Bytes)>)
    requires IsSetOrder(order, e.deletedFiles)
    ensures Read(FRESH.(compactPointers := ps), Items(e, order)) == e.(compactPointers := ps + e.compactPointers)
  {
    ReadFour(FRESH.(compactPointers := ps), ScalarItems(e), PointerItems(e.compactPointers), DeletedItems(order),
             AddedItems(e.newFiles));
    ReadScalars(e, ps);
    var e1 := e.(compactPointers := ps, deletedFiles := {}, newFiles := []);
    var e2 := e1.(compactPointers := ps + e.compactPointers);
    ReadPointers(e1, e.compactPointers);
    ReadDeleted(e2, order, e.deletedFiles);
    ReadAdded(e2.(deletedFiles := {} + e.deletedFiles), e.newFiles);
    NothingBefore(e.newFiles);
  }

  lemma NothingBefore<T>(s: seq<T>)
    ensures [] + s == s
  {
  }

  lemma AllOf(order: seq<(nat, nat)>, s: set<(nat, nat)>)
    requires IsSetOrder(order, s)
    ensures (set i | 0 <= i < |order| :: order[i]) == s
  {
    forall x | x in s ensures x in set i | 0 <= i < |order| :: order[i] {
      assert x in order;
    }
  }

  /** An edit whose numbers, lengths and levels fit their fields. */
  ghost predicate Writable(e: Edit, order: seq<(nat, nat)>) {
    IsSetOrder(order, e.deletedFiles) && forall it :: it in Items(e, order) ==> Encodable(it)
  }

  /** Decoding an encoded edit into an object that holds compaction pointers `ps` gives the edit with those
      in front of its own: clearing an object leaves its compaction pointers.  It is the edit exactly when
      there were none. */
  lemma EditRoundTrip(e: Edit, order: seq<(nat, nat)>, ps: seq<(nat, Bytes)>)
    requires Writable(e, order)
    ensures var (items, error) := DecodeAll(DecodeItem, EncodeAll(EncodeItem, Items(e, order), 0), 0);
            && error == None
            && Read(FRESH.(compactPointers := ps), items) == e.(compactPointers := ps + e.compactPointers)
            && (Read(FRESH.(compactPointers := ps), items) == e <==> ps == [])
  {
    ItemsRoundTrip(EncodeAll(EncodeItem, Items(e, order), 0), Items(e, order));
    ReadItems(e, order, ps);
    SameOnlyIfEmpty(ps, e.compactPointers);
  }

  lemma SameOnlyIfEmpty<T>(a: seq<T>, b: seq<T>)
    ensures a + b == b <==> a == []
  {
    if a == [] {
      NothingBefore(b);
    } else {
      assert |a + b| > |b|;
    }
  }

  class VersionEdit {
    var edit: Edit

    constructor ()
      ensures edit == FRESH
    {
      edit := FRESH;
    }

    /** Clears everything but the compaction pointers. */
    method Clear()
      modifies this
      ensures edit == FRESH.(compactPointers := old(edit).compactPointers)
    {
      edit := FRESH.(compactPointers := edit.compactPointers);
    }

    /** Appends the encoding: scalars, compaction pointers, deleted files in set order, new files. */
    method EncodeTo(dst: Bytes) returns (r: Bytes, ghost order: seq<(nat, nat)>)
      ensures IsSetOrder(order, edit.deletedFiles)
      ensures r == dst + EncodeAll(EncodeItem, Items(edit, order), 0)
    {
      var scalars := Scalars();
      var files := SetOrder(edit.deletedFiles);
      order := files;
      r := PutItems(dst, scalars);
      r := PutItems(r, PointerItems(edit.compactPointers));
      r := PutItems(r, DeletedItems(files));
      r := PutItems(r, AddedItems(edit.newFiles));
      EncodeFour(dst, ScalarItems(edit), PointerItems(edit.compactPointers), DeletedItems(order),
          AddedItems(edit.newFiles));
    }

    method Scalars() returns (items: seq<Item>)
      ensures items == ScalarItems(edit)
    {
      items := [];
      if edit.comparator.Some? { items := items + [Comparator(edit.comparator.value)]; }
      if edit.logNumber.Some? { items := items + [LogNumber(edit.logNumber.value)]; }
      if edit.prevLogNumber.Some? { items := items + [PrevLogNumber(edit.prevLogNumber.value)]; }
      if edit.nextFileNumber.Some? { items := items + [NextFileNumber(edit.nextFileNumber.value)]; }
      if edit.lastSequence.Some? { items := items + [LastSequence(edit.lastSequence.value)]; }
    }

    /** Reads items to the end of the input or the first error, and applies each as it is read. */
    method DecodeFrom(src: Bytes) returns (error: Option<Error>)
      modifies this
      ensures var d := DecodeAll(DecodeItem, src, 0);
              error == d.1 && edit == Read(FRESH.(compactPointers := old(edit).compactPointers), d.0)
    {
      Clear();
      ghost var start, all := edit, DecodeAll(DecodeItem, src, 0);
      ghost var done: seq<Item> := [];
      NothingBefore(all.0);
      var p := 0;
      while p < |src|
        invariant p <= |src| && edit == Read(start, done)
        invariant all == (done + DecodeAll(DecodeItem, src, p).0, DecodeAll(DecodeItem, src, p).1)
      {
        DecodeOne(src, p, done, all);
        match DecodeItem(src, p)
        case Bad(e) =>
          return Some(e);
        case Item(it, next) =>
          ReadPush(start, done, it);
          edit, done, p := Apply(edit, it), done + [it], next;
      }
      Unit(done);
      error := None;
    }
  }

  lemma ReadPush(e: Edit, items: seq<Item>, it: Item)
    ensures Read(e, items + [it]) == Apply(Read(e, items), it)
  {
    ReadConcat(e, items, [it]);
    ReadOne(Read(e, items), [it]);
  }

  lemma DecodeOne(src: Bytes, p: nat, done: seq<Item>, all: (seq<Item>, Option<Error>))
    requires p < |src| && all == (done + DecodeAll(DecodeItem, src, p).0, DecodeAll(DecodeItem, src, p).1)
    ensures match DecodeItem(src, p)
            case Bad(e) => all == (done, Some(e))
            case Item(it, next) =>
              all == (done + [it] + DecodeAll(DecodeItem, src, next).0, DecodeAll(DecodeItem, src, next).1)
  {
    match DecodeItem(src, p)
    case Bad(e) => Unit(done);
    case Item(it, next) => Associates(done, [it], DecodeAll(DecodeItem, src, next).0);
  }

  method PutItems(dst: Bytes, items: seq<Item>) returns (r: Bytes)
    ensures r == dst + EncodeAll(EncodeItem, items, 0)
  {
    r := dst;
    for i := 0 to |items|
      invariant r + EncodeAll(EncodeItem, items, i) == dst + EncodeAll(EncodeItem, items, 0)
    {
      Associates(r, EncodeItem(items[i]), EncodeAll(EncodeItem, items, i + 1));
      r := r + EncodeItem(items[i]);
    }
    Unit(r);
  }

  lemma EncodeFour(dst: Bytes, a: seq<Item>, b: seq<Item>, c: seq<Item>, d: seq<Item>)
    ensures dst + EncodeAll(EncodeItem, a, 0) + EncodeAll(EncodeItem, b, 0) + EncodeAll(EncodeItem, c, 0) +
              EncodeAll(EncodeItem, d, 0)
            == dst + EncodeAll(EncodeItem, a + (b + (c + d)), 0)
  {
    EncodeAllConcat(EncodeItem, a, b + (c + d), 0);
    EncodeAllConcat(EncodeItem, b, c + d, 0);
    EncodeAllConcat(EncodeItem, c, d, 0);
    FiveParts(dst, EncodeAll(EncodeItem, a, 0), EncodeAll(EncodeItem, b, 0), EncodeAll(EncodeItem, c, 0),
        EncodeAll(EncodeItem, d, 0));
  }

  lemma FiveParts<T>(a: seq<T>, b: seq<T>, c: seq<T>, d: seq<T>, e: seq<T>)
    ensures a + b + c + d + e == a + (b + (c + (d + e)))
  {
  }

  /** The first member of a set, by level and then by number. */
  lemma {:induction false} FirstExists(s: set<(nat, nat)>) returns (x: (nat, nat))
    requires s != {}
    ensures x in s && forall y :: y in s && y != x ==> Precedes(x, y)
    decreases |s|
  {
    var a :| a in s;
    x := a;
    if s - {a} != {} {
      var b := FirstExists(s - {a});
      x := if Precedes(b, a) then b else a;
      forall y | y in s && y != x ensures Precedes(x, y) {
        assert y == a || y == b || (y in s - {a} && Precedes(b, y));
      }
    } else {
      assert forall y :: y in s && y != a ==> y in s - {a};
    }
  }

  /** The members of a set in the order its iterator visits them. */
  method SetOrder(s: set<(nat, nat)>) returns (order: seq<(nat, nat)>)
    ensures IsSetOrder(order, s)
  {
    order := [];
    var rest := s;
    while rest != {}
      invariant rest <= s && forall x :: x in order <==> x in s - rest
      invariant forall i, j :: 0 <= i < j < |order| ==> Precedes(order[i], order[j])
      invariant forall x, y :: x in order && y in rest ==> Precedes(x, y)
      decreases rest
    {
      ghost var f := FirstExists(rest);
      var x :| x in rest && forall y :: y in rest && y != x ==> Precedes(x, y);
      order, rest := order + [x], rest - {x};
    }
  }

  /** Encoding an edit and decoding it into a fresh object gives the edit back. */
  method RoundTrip(e: VersionEdit) returns (copy: VersionEdit)
    requires forall order :: IsSetOrder(order, e.edit.deletedFiles) ==> Writable(e.edit, order)
    ensures copy.edit == e.edit
  {
    var bytes;
    ghost var order;
    bytes, order := e.EncodeTo([]);
    NothingBefore(EncodeAll(EncodeItem, Items(e.edit, order), 0));
    EditRoundTrip(e.edit, order, []);
    copy := new VersionEdit();
    var error := copy.DecodeFrom(bytes);
  }
}
