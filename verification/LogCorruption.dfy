/** What the log reader returns of any file at all, however corrupted (db/log_reader.cc): only records put together
    from fragments that follow one another and whose checksums match. */
module LogCorruption {
  import opened Entries
  import opened LogFormat

  datatype Piece = Piece(start: nat, kind: int, payload: Bytes) {
    function End(): nat {
      start + HEADER_SIZE + |payload|
    }
  }

  /** The file has this fragment, inside one block, under a checksum that matches. */
  ghost predicate Intact(c: Checksum, file: Bytes, f: Piece) {
    && f.End() <= |file| && InBlock(f.start) + HEADER_SIZE + |f.payload| <= BLOCK_SIZE
    && file[f.start + 4] + 256 * (file[f.start + 5] as int) == |f.payload| && file[f.start + 6] == f.kind
    && file[f.start + HEADER_SIZE..f.End()] == f.payload
    && c.matches(file[f.start..f.start + 4], file[f.start + 6..f.End()])
  }

  /** Nothing is between two fragments but the trailer of a block. */
  predicate Next(f: Piece, g: Piece) {
    g.start == f.End() + Trailer(InBlock(f.End()))
  }

  ghost predicate Linked(c: Checksum, file: Bytes, fs: seq<Piece>) {
    && (forall i :: 0 <= i < |fs| ==> Intact(c, file, fs[i]))
    && forall i :: 0 < i < |fs| ==> Next(fs[i - 1], fs[i])
  }

  /** The first fragments of a record, up to position `p`. */
  ghost predicate Open(c: Checksum, file: Bytes, fs: seq<Piece>, p: nat) {
    && fs != [] && Linked(c, file, fs) && fs[|fs| - 1].End() == p
    && fs[0].kind == FIRST && forall i :: 0 < i < |fs| ==> fs[i].kind == MIDDLE
  }

  /** All fragments of a record. */
  ghost predicate Whole(c: Checksum, file: Bytes, fs: seq<Piece>) {
    && fs != [] && Linked(c, file, fs)
    && if |fs| == 1 then fs[0].kind == FULL
       else fs[0].kind == FIRST && fs[|fs| - 1].kind == LAST && forall i :: 0 < i < |fs| - 1 ==> fs[i].kind == MIDDLE
  }

  function Payload(fs: seq<Piece>): Bytes {
    if fs == [] then [] else Payload(fs[..|fs| - 1]) + fs[|fs| - 1].payload
  }

  lemma PayloadPush(fs: seq<Piece>, f: Piece)
    ensures Payload(fs + [f]) == Payload(fs) + f.payload
  {
    assert (fs + [f])[..|fs|] == fs;
  }

  /** A fragment that is read is there. */
  lemma ReadIsIntact(c: Checksum, file: Bytes, p: nat) returns (f: Piece)
    requires p <= |file|
    ensures var ph := ReadAt(c, file, p);
            ph.kind in {FULL, FIRST, MIDDLE, LAST} ==>
              && f == Piece(p + Trailer(InBlock(p)), ph.kind, ph.fragment) && Intact(c, file, f) && f.End() == ph.next
  {
    var ph := ReadAt(c, file, p);
    f := Piece(p + Trailer(InBlock(p)), ph.kind, ph.fragment);
    InBlockAdd(p, Trailer(InBlock(p)));
    if f.start + HEADER_SIZE <= |file| {
      InBlockAdd(f.start, HEADER_SIZE + |ph.fragment|);
    }
  }

  lemma OneMore(c: Checksum, file: Bytes, fs: seq<Piece>, f: Piece)
    requires fs != [] && Linked(c, file, fs) && Intact(c, file, f) && Next(fs[|fs| - 1], f)
    ensures Linked(c, file, fs + [f])
  {
  }

  /** Whatever the file holds, a record that is returned is whole, intact, and ends where reading stopped. */
  lemma {:induction false} ReturnedIsWhole(c: Checksum, file: Bytes, p: nat, scratch: Option<Bytes>, fs: seq<Piece>)
    returns (whole: seq<Piece>)
    requires p <= |file| && (scratch.Some? ==> Open(c, file, fs, p) && Payload(fs) == scratch.value)
    ensures var r := ReadRecordAt(c, file, p, scratch);
            r.record.Some? ==>
              && Whole(c, file, whole) && Payload(whole) == r.record.value && whole[|whole| - 1].End() == r.next
              && (whole[0].start >= p || (scratch.Some? && whole[0] == fs[0]))
    decreases |file| - p
  {
    var ph := ReadAt(c, file, p);
    var f := ReadIsIntact(c, file, p);
    var more := if scratch.Some? && ph.kind == MIDDLE then fs + [f] else [f];
    match TurnOf(ph.kind, ph.fragment, scratch)
    case Return(record, _) =>
      whole := if ph.kind == LAST then fs + [f] else [f];
      if record.Some? {
        LastPiece(c, file, fs, p, f);
      }
    case Continue(s, _) =>
      if s.Some? {
        StillOpen(c, file, fs, scratch.Some?, f, p);
      }
      whole := ReturnedIsWhole(c, file, ph.next, s, more);
  }

  lemma LastPiece(c: Checksum, file: Bytes, fs: seq<Piece>, p: nat, f: Piece)
    requires Intact(c, file, f) && f.start == p + Trailer(InBlock(p))
    requires f.kind == FULL || (f.kind == LAST && Open(c, file, fs, p))
    ensures var whole := if f.kind == LAST then fs + [f] else [f];
            && Whole(c, file, whole) && whole[|whole| - 1] == f
            && Payload(whole) == if f.kind == LAST then Payload(fs) + f.payload else f.payload
  {
    if f.kind == LAST {
      OneMore(c, file, fs, f);
      PayloadPush(fs, f);
    } else {
      assert Payload([f]) == [] + f.payload;
    }
  }

  lemma StillOpen(c: Checksum, file: Bytes, fs: seq<Piece>, some: bool, f: Piece, p: nat)
    requires Intact(c, file, f) && (f.kind == FIRST || (f.kind == MIDDLE && some)) && f.start == p + Trailer(InBlock(p))
    requires some ==> Open(c, file, fs, p)
    ensures var more := if f.kind == MIDDLE then fs + [f] else [f];
            && Open(c, file, more, f.End())
            && Payload(more) == if f.kind == MIDDLE then Payload(fs) + f.payload else f.payload
  {
    if f.kind == MIDDLE {
      OneMore(c, file, fs, f);
      PayloadPush(fs, f);
    } else {
      assert Payload([f]) == [] + f.payload;
    }
  }

  function EndOf(fs: seq<Piece>): nat {
    if fs == [] then 0 else fs[|fs| - 1].End()
  }

  /** The record is made of the fragments, which lie behind `from`. */
  ghost predicate IsMade(c: Checksum, file: Bytes, record: Bytes, whole: seq<Piece>, from: nat) {
    Whole(c, file, whole) && Payload(whole) == record && from <= whole[0].start
  }

  /** Record `k` is made of the fragments `wholes[k]`, after those of the record before. */
  ghost predicate MadeOf(c: Checksum, file: Bytes, p: nat, records: seq<Bytes>, wholes: seq<seq<Piece>>, k: nat)
    requires k < |records| == |wholes|
  {
    IsMade(c, file, records[k], wholes[k], if k == 0 then p else EndOf(wholes[k - 1]))
  }

  lemma OneBefore(c: Checksum, file: Bytes, p: nat, record: Bytes, first: seq<Piece>, later: seq<Bytes>,
                  rest: seq<seq<Piece>>)
    requires IsMade(c, file, record, first, p) && |rest| == |later|
    requires forall k :: 0 <= k < |later| ==> MadeOf(c, file, EndOf(first), later, rest, k)
    ensures forall k :: 0 <= k < |later| + 1 ==> MadeOf(c, file, p, [record] + later, [first] + rest, k)
  {
    forall k | 0 <= k < |later| + 1 ensures MadeOf(c, file, p, [record] + later, [first] + rest, k) {
      if k > 0 {
        assert MadeOf(c, file, EndOf(first), later, rest, k - 1);
        assert ([record] + later)[k] == later[k - 1] && ([first] + rest)[k] == rest[k - 1];
        assert ([first] + rest)[k - 1] == if k == 1 then first else rest[k - 2];
      }
    }
  }

  /** All records read of any file are whole and intact, and lie one after the other. */
  lemma {:induction false} AllReturnedAreWhole(c: Checksum, file: Bytes, p: nat) returns (wholes: seq<seq<Piece>>)
    requires p <= |file|
    ensures var records := ReadFrom(c, file, p).0;
            |wholes| == |records| && forall k :: 0 <= k < |records| ==> MadeOf(c, file, p, records, wholes, k)
    decreases |file| - p
  {
    var r := ReadRecordAt(c, file, p, None);
    if r.record.None? {
      wholes := [];
    } else {
      var first := ReturnedIsWhole(c, file, p, None, []);
      var rest := AllReturnedAreWhole(c, file, r.next);
      wholes := [first] + rest;
      OneBefore(c, file, p, r.record.value, first, ReadFrom(c, file, r.next).0, rest);
    }
  }
}
