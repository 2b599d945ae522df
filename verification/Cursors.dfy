/** The plain object every iterator of the storage engine stands for: an index into a list. */
module Cursors {
  import opened Entries

  datatype Op<+K> = SeekToFirst | SeekToLast | Seek(target: K) | Next | Prev

  /** The first index whose element is at or above the target; the length when there is none. */
  function FirstAtOrAbove<T, K>(us: seq<T>, atOrAbove: (T, K) -> bool, target: K): (r: nat)
    ensures r <= |us|
  {
    if us == [] || atOrAbove(us[0], target) then 0 else 1 + FirstAtOrAbove(us[1..], atOrAbove, target)
  }

  /** A cursor is an index into the list; the length of the list means "not valid".
      Next and Prev are only allowed on a valid cursor and are ignored otherwise. */
  function Move<T, K>(us: seq<T>, atOrAbove: (T, K) -> bool, c: nat, op: Op<K>): (r: nat)
    requires c <= |us|
    ensures r <= |us|
  {
    match op
    case SeekToFirst => 0
    case SeekToLast => if us == [] then 0 else |us| - 1
    case Seek(t) => FirstAtOrAbove(us, atOrAbove, t)
    case Next => if c < |us| then c + 1 else c
    case Prev => if c == |us| then c else if c == 0 then |us| else c - 1
  }

  function Shown<T>(us: seq<T>, c: nat): Option<T>
    requires c <= |us|
  {
    if c < |us| then Some(us[c]) else None
  }

  /** Where a sequence of moves leaves the cursor. */
  ghost function Final<T, K>(us: seq<T>, atOrAbove: (T, K) -> bool, c: nat, ops: seq<Op<K>>): (r: nat)
    requires c <= |us|
    ensures r <= |us|
    decreases |ops|
  {
    if ops == [] then c else Final(us, atOrAbove, Move(us, atOrAbove, c, ops[0]), ops[1..])
  }

  /** What a client of the cursor sees after each of a sequence of moves. */
  function Transcript<T, K>(us: seq<T>, atOrAbove: (T, K) -> bool, c: nat, ops: seq<Op<K>>): seq<Option<T>>
    requires c <= |us|
    decreases |ops|
  {
    if ops == [] then []
    else
      var next := Move(us, atOrAbove, c, ops[0]);
      [Shown(us, next)] + Transcript(us, atOrAbove, next, ops[1..])
  }

  lemma {:induction false} FirstAtOrAboveIs<T, K>(us: seq<T>, atOrAbove: (T, K) -> bool, target: K, r: nat)
    requires r <= |us|
    requires forall a :: 0 <= a < r ==> !atOrAbove(us[a], target)
    requires r < |us| ==> atOrAbove(us[r], target)
    ensures FirstAtOrAbove(us, atOrAbove, target) == r
  {
    if us != [] && !atOrAbove(us[0], target) {
      FirstAtOrAboveIs(us[1..], atOrAbove, target, r - 1);
    }
  }

  lemma {:induction false} FirstAtOrAboveHolds<T, K>(us: seq<T>, atOrAbove: (T, K) -> bool, target: K)
    ensures var r := FirstAtOrAbove(us, atOrAbove, target);
            && (forall a :: 0 <= a < r ==> !atOrAbove(us[a], target))
            && (r < |us| ==> atOrAbove(us[r], target))
  {
    if us != [] && !atOrAbove(us[0], target) {
      FirstAtOrAboveHolds(us[1..], atOrAbove, target);
    }
  }

  lemma {:induction false} TranscriptStep<T, K>(us: seq<T>, atOrAbove: (T, K) -> bool, c: nat, ops: seq<Op<K>>,
                                                op: Op<K>)
    requires c <= |us|
    ensures Final(us, atOrAbove, c, ops + [op]) == Move(us, atOrAbove, Final(us, atOrAbove, c, ops), op)
    ensures Transcript(us, atOrAbove, c, ops + [op])
         == Transcript(us, atOrAbove, c, ops) + [Shown(us, Final(us, atOrAbove, c, ops + [op]))]
    decreases |ops|
  {
    if ops == [] {
      assert ops + [op] == [op];
      assert [op][1..] == [];
    } else {
      assert (ops + [op])[1..] == ops[1..] + [op];
      TranscriptStep(us, atOrAbove, Move(us, atOrAbove, c, ops[0]), ops[1..], op);
    }
  }
}
