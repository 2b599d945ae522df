/** The log file format (db/log_format.h, db/log_writer.cc, db/log_reader.cc): records cut into
    checksummed fragments that never straddle a 32 KiB block, and the reader that puts them together. */
module LogFormat {
  import opened Entries

  const BLOCK_SIZE := 32768
  const HEADER_SIZE := 7

  const FULL := 1
  const FIRST := 2
  const MIDDLE := 3
  const LAST := 4
  const END_OF_FILE := 5
  const BAD_RECORD := 6

  /** The checksum stored for some bytes, and the reader's test of a stored checksum. */
  datatype Checksum = Checksum(store: Bytes -> Bytes, matches: (Bytes, Bytes) -> bool)

  ghost predicate Sound(c: Checksum) {
    forall d: Bytes :: |c.store(d)| == 4 && c.matches(c.store(d), d)
  }

  // ----- Places in a block -----

  /** The offset of a file position in its block. */
  function InBlock(p: nat): (r: nat)
    ensures r < BLOCK_SIZE && r <= p
    ensures p < BLOCK_SIZE ==> r == p
  {
    if p < BLOCK_SIZE then p else InBlock(p - BLOCK_SIZE)
  }

  lemma {:induction false} InBlockIs(p: nat)
    ensures InBlock(p) == p % BLOCK_SIZE
  {
    if p >= BLOCK_SIZE {
      InBlockIs(p - BLOCK_SIZE);
    }
  }

  lemma {:induction false} InBlockAdd(p: nat, n: nat)
    ensures InBlock(p) + n < BLOCK_SIZE ==> InBlock(p + n) == InBlock(p) + n
    ensures InBlock(p) + n == BLOCK_SIZE ==> InBlock(p + n) == 0
  {
    if p >= BLOCK_SIZE {
      InBlockAdd(p - BLOCK_SIZE, n);
    }
  }

  /** Offsets add up. */
  lemma {:induction false} ModAdd(a: nat, b: nat)
    ensures InBlock(InBlock(a) + b) == InBlock(a + b)
  {
    if a >= BLOCK_SIZE {
      ModAdd(a - BLOCK_SIZE, b);
    }
  }

  // ----- What the writer emits -----

  /** The two bytes of a length; recursion keeps division out of the proofs. */
  function HighByte(n: nat): (h: Byte)
    requires n <= 0xffff
    ensures 0 <= n - 256 * h < 256
  {
    if n < 256 then 0 else
      var h: int := HighByte(n - 256);
      h + 1
  }

  function LowByte(n: nat): Byte
    requires n <= 0xffff
  {
    var h: int := HighByte(n);
    n - 256 * h
  }

  /** They are the length shifted and masked. */
  lemma {:induction false} LengthBytes(n: nat)
    requires n <= 0xffff
    ensures HighByte(n) == n / 256 && LowByte(n) == n % 256
  {
    if n >= 256 {
      LengthBytes(n - 256);
    }
  }

  function PhysicalRecord(c: Checksum, kind: Byte, payload: Bytes): (r: Bytes)
    requires |payload| <= 0xffff && |c.store([kind] + payload)| == 4
    ensures |r| == HEADER_SIZE + |payload|
  {
    c.store([kind] + payload) + [LowByte(|payload|), HighByte(|payload|), kind] + payload
  }

  /** The bytes left at the end of a block that cannot hold a header. */
  function Trailer(offset: nat): (r: nat)
    requires offset < BLOCK_SIZE
  {
    if BLOCK_SIZE - offset < HEADER_SIZE then BLOCK_SIZE - offset else 0
  }

  function Zeros(n: nat): Bytes {
    seq(n, _ => 0)
  }

  function FragmentLength(offset: nat, left: nat): nat
    requires offset < BLOCK_SIZE
  {
    var start := if Trailer(offset) > 0 then 0 else offset;
    var avail := BLOCK_SIZE - start - HEADER_SIZE;
    if left < avail then left else avail
  }

  function KindOf(begin: bool, end: bool): Byte {
    if begin && end then FULL else if begin then FIRST else if end then LAST else MIDDLE
  }

  /** The first fragment of what is left of a record, and the trailer it may have to skip. */
  function FirstChunk(c: Checksum, offset: nat, data: Bytes, begin: bool): (r: Bytes)
    requires Sound(c) && offset < BLOCK_SIZE
    ensures |r| == Trailer(offset) + HEADER_SIZE + FragmentLength(offset, |data|)
  {
    var n := FragmentLength(offset, |data|);
    Zeros(Trailer(offset)) + PhysicalRecord(c, KindOf(begin, n == |data|), data[..n])
  }

  /** All fragments of what is left of a record, written from this offset in a block on. */
  function Emitted(c: Checksum, offset: nat, data: Bytes, begin: bool): (r: Bytes)
    requires Sound(c) && offset < BLOCK_SIZE
    decreases |data|, offset
  {
    var n := FragmentLength(offset, |data|);
    var chunk := FirstChunk(c, offset, data, begin);
    if n == |data| then chunk
    else chunk + Emitted(c, InBlock(offset + |chunk|), data[n..], false)
  }

  /** A log file of the first `k` records. */
  function Written(c: Checksum, records: seq<Bytes>, k: nat): Bytes
    requires Sound(c) && k <= |records|
  {
    if k == 0 then []
    else
      var before := Written(c, records, k - 1);
      before + Emitted(c, InBlock(|before|), records[k - 1], true)
  }

  class Writer {
    const sum: Checksum
    var dest: Bytes
    var blockOffset: nat

    ghost predicate Valid()
      reads this
    {
      Sound(sum) && blockOffset <= BLOCK_SIZE && InBlock(blockOffset) == InBlock(|dest|)
    }

    /** Goes on with a file that already has some contents. */
    constructor (sum: Checksum, contents: Bytes)
      requires Sound(sum)
      ensures Valid() && dest == contents && this.sum == sum
    {
      this.sum := sum;
      dest, blockOffset := contents, |contents| % BLOCK_SIZE;
      InBlockIs(|contents|);
      InBlockIs(|contents| % BLOCK_SIZE);
    }

    method EmitPhysicalRecord(kind: Byte, payload: Bytes)
      requires Valid() && blockOffset + HEADER_SIZE + |payload| <= BLOCK_SIZE
      modifies this`dest, this`blockOffset
      ensures Valid() && dest == old(dest) + PhysicalRecord(sum, kind, payload)
      ensures blockOffset == old(blockOffset) + HEADER_SIZE + |payload|
    {
      LengthBytes(|payload|);
      var header := sum.store([kind] + payload) + [|payload| % 256, |payload| / 256, kind];
      dest := dest + header;
      dest := dest + payload;
      ModAdd(|old(dest)|, HEADER_SIZE + |payload|);
      ModAdd(blockOffset, HEADER_SIZE + |payload|);
      blockOffset := blockOffset + HEADER_SIZE + |payload|;
      assert dest == old(dest) + PhysicalRecord(sum, kind, payload);
    }

    /** Skips to a new block when there is no room for a header in this one. */
    method SkipTrailer()
      requires Valid()
      modifies this`dest, this`blockOffset
      ensures Valid() && dest == old(dest) + Zeros(Trailer(InBlock(|old(dest)|)))
      ensures blockOffset == if Trailer(InBlock(|old(dest)|)) > 0 then 0 else InBlock(|old(dest)|)
    {
      var leftover := BLOCK_SIZE - blockOffset;
      InBlockAdd(|dest|, leftover);
      if leftover < HEADER_SIZE {
        if leftover > 0 {
          dest := dest + Zeros(leftover);
        }
        blockOffset := 0;
      }
      assert dest == old(dest) + Zeros(Trailer(InBlock(|old(dest)|)));
    }

    /** Emits one fragment of what is left of a record; returns its length. */
    method EmitFragment(left: Bytes, begin: bool) returns (n: nat)
      requires Valid()
      modifies this`dest, this`blockOffset
      ensures Valid() && n == FragmentLength(InBlock(|old(dest)|), |left|) && n <= |left|
      ensures dest == old(dest) + FirstChunk(sum, InBlock(|old(dest)|), left, begin)
    {
      SkipTrailer();
      var avail := BLOCK_SIZE - blockOffset - HEADER_SIZE;
      n := if |left| < avail then |left| else avail;
      var end := |left| == n;
      var kind := if begin && end then FULL else if begin then FIRST else if end then LAST else MIDDLE;
      EmitPhysicalRecord(kind, left[..n]);
    }

    /** Appends one record, fragment by fragment; an empty one still gets a fragment. */
    method AddRecord(data: Bytes)
      requires Valid()
      modifies this`dest, this`blockOffset
      ensures Valid() && dest == old(dest) + Emitted(sum, InBlock(|old(dest)|), data, true)
    {
      ghost var all := dest + Rest(sum, |dest|, data, true);
      var left, begin := data, true;
      while begin || left != []
        invariant Valid() && dest + Rest(sum, |dest|, left, begin) == all
        decreases begin, |left|, InBlock(|dest|)
      {
        ghost var was := dest;
        RestStep(sum, dest, left, begin);
        var n := EmitFragment(left, begin);
        left, begin := left[n..], false;
      }
    }
  }

  /** What is still to be emitted into a file of this length. */
  function Rest(c: Checksum, length: nat, left: Bytes, begin: bool): Bytes
    requires Sound(c)
  {
    if begin || left != [] then Emitted(c, InBlock(length), left, begin) else []
  }

  lemma RestStep(c: Checksum, dest: Bytes, left: Bytes, begin: bool)
    requires Sound(c) && (begin || left != [])
    ensures var n := FragmentLength(InBlock(|dest|), |left|);
            var chunk := FirstChunk(c, InBlock(|dest|), left, begin);
            && n <= |left|
            && dest + Rest(c, |dest|, left, begin) == dest + chunk + Rest(c, |dest + chunk|, left[n..], false)
            && (n == 0 && left != [] ==> InBlock(|dest + chunk|) < InBlock(|dest|))
  {
    var offset := InBlock(|dest|);
    var n, chunk := FragmentLength(offset, |left|), FirstChunk(c, offset, left, begin);
    ModAdd(|dest|, |chunk|);
    if n == |left| {
      assert left[n..] == [];
      assert dest + chunk + [] == dest + chunk;
    } else {
      var rest := Emitted(c, InBlock(offset + |chunk|), left[n..], false);
      assert dest + (chunk + rest) == dest + chunk + rest;
    }
  }

  // ----- What the reader does -----

  datatype Reason =
    | BadLength | ChecksumMismatch | PartialRecord | MissingStart | ErrorInMiddle | UnknownType

  /** Bytes reported as dropped, and why. */
  datatype Report = Report(bytes: nat, reason: Reason)

  /** A fragment (or the end of the file, or a bad one), and the offset the next is looked for at. */
  datatype Physical = Physical(kind: int, fragment: Bytes, reports: seq<Report>, next: nat)

  function BlockEnd(p: nat): (r: nat)
    ensures p < r
  {
    p - InBlock(p) + BLOCK_SIZE
  }

  /** The end of the part of the block at `p` that is in the file. */
  function BufferEnd(file: Bytes, p: nat): nat {
    if BlockEnd(p) <= |file| then BlockEnd(p) else |file|
  }

  /** Reading the fragment at offset `p`. */
  function ReadAt(c: Checksum, file: Bytes, p: nat): (r: Physical)
    requires p <= |file|
    ensures r.next <= |file| && (r.next > p || r.kind == END_OF_FILE)
  {
    var start := p + Trailer(InBlock(p));
    InBlockAdd(p, Trailer(InBlock(p)));
    if start + HEADER_SIZE > |file| then Physical(END_OF_FILE, [], [], |file|)
    else ParseAt(c, file, start)
  }

  function LengthOf(low: Byte, high: Byte): nat {
    var l: int, h: int := low, high;
    l + 256 * h
  }

  /** Parsing a header and its payload at an offset with room for the header. */
  function ParseAt(c: Checksum, file: Bytes, start: nat): (r: Physical)
    requires InBlock(start) + HEADER_SIZE <= BLOCK_SIZE && start + HEADER_SIZE <= |file|
    ensures r.next <= |file| && (r.next > start || r.kind == END_OF_FILE)
  {
    var end := BufferEnd(file, start);
    var length, kind := LengthOf(file[start + 4], file[start + 5]), file[start + 6];
    if start + HEADER_SIZE + length > end then
      if end == BlockEnd(start) then Physical(BAD_RECORD, [], [Report(end - start, BadLength)], end)
      else Physical(END_OF_FILE, [], [], end)
    else if kind == 0 && length == 0 then Physical(BAD_RECORD, [], [], end)
    else if !c.matches(file[start..start + 4], file[start + 6..start + HEADER_SIZE + length]) then
      Physical(BAD_RECORD, [], [Report(end - start, ChecksumMismatch)], end)
    else Physical(kind, file[start + HEADER_SIZE..start + HEADER_SIZE + length], [], start + HEADER_SIZE + length)
  }

  datatype Logical = Logical(record: Option<Bytes>, reports: seq<Report>, next: nat)

  function Lost(scratch: Option<Bytes>): seq<Report> {
    if scratch.Some? && scratch.value != [] then [Report(|scratch.value|, PartialRecord)] else []
  }

  /** How one fragment changes the record being put together: the record it completes or the end of
      the file, or the new scratch contents. */
  datatype Turn =
    | Return(record: Option<Bytes>, reports: seq<Report>)
    | Continue(scratch: Option<Bytes>, reports: seq<Report>)

  function TurnOf(kind: int, fragment: Bytes, scratch: Option<Bytes>): (t: Turn)
    ensures t.Continue? ==> kind != END_OF_FILE
  {
    if kind == FULL then Return(Some(fragment), Lost(scratch))
    else if kind == FIRST then Continue(Some(fragment), Lost(scratch))
    else if kind == MIDDLE then
      if scratch.None? then Continue(None, [Report(|fragment|, MissingStart)])
      else Continue(Some(scratch.value + fragment), [])
    else if kind == LAST then
      if scratch.None? then Continue(None, [Report(|fragment|, MissingStart)])
      else Return(Some(scratch.value + fragment), [])
    else if kind == END_OF_FILE then Return(None, [])
    else if kind == BAD_RECORD then
      Continue(None, if scratch.Some? then [Report(|scratch.value|, ErrorInMiddle)] else [])
    else
      Continue(None, [Report(|fragment| + (if scratch.Some? then |scratch.value| else 0), UnknownType)])
  }

  /** Reading fragments from offset `p` until a record is whole or the file ends; `scratch` is the
      part of a record read so far. */
  function ReadRecordAt(c: Checksum, file: Bytes, p: nat, scratch: Option<Bytes>): (r: Logical)
    requires p <= |file|
    ensures r.next <= |file| && (r.record.Some? ==> r.next > p)
    decreases |file| - p
  {
    var ph := ReadAt(c, file, p);
    match TurnOf(ph.kind, ph.fragment, scratch)
    case Return(record, reports) => Logical(record, ph.reports + reports, ph.next)
    case Continue(more, reports) =>
      var r := ReadRecordAt(c, file, ph.next, more);
      r.(reports := ph.reports + reports + r.reports)
  }

  /** Reading on from here, with these reports made so far, ends up there. */
  ghost predicate Leads(c: Checksum, file: Bytes, p: nat, scratch: Option<Bytes>, before: seq<Report>, to: Logical) {
    && p <= |file|
    && var r := ReadRecordAt(c, file, p, scratch);
       r.record == to.record && r.next == to.next && before + r.reports == to.reports
  }

  lemma LeadsOn(c: Checksum, file: Bytes, p: nat, scratch: Option<Bytes>, before: seq<Report>, to: Logical)
    requires Leads(c, file, p, scratch, before, to)
    ensures var ph := ReadAt(c, file, p);
            match TurnOf(ph.kind, ph.fragment, scratch)
            case Return(r, more) => to == Logical(r, before + ph.reports + more, ph.next)
            case Continue(s, more) => Leads(c, file, ph.next, s, before + ph.reports + more, to) && ph.next > p
  {
    var ph := ReadAt(c, file, p);
    match TurnOf(ph.kind, ph.fragment, scratch)
    case Return(r, more) =>
    case Continue(s, more) =>
      Regroup(before, ph.reports, more, ReadRecordAt(c, file, ph.next, s).reports);
  }

  lemma Regroup<T>(a: seq<T>, b: seq<T>, c: seq<T>, d: seq<T>)
    ensures a + b + c + d == a + (b + c + d)
  {
  }

  /** All records of a file, and everything reported on the way. */
  function ReadFrom(c: Checksum, file: Bytes, p: nat): (seq<Bytes>, seq<Report>)
    requires p <= |file|
    decreases |file| - p
  {
    var r := ReadRecordAt(c, file, p, None);
    if r.record.None? then ([], r.reports)
    else
      var rest := ReadFrom(c, file, r.next);
      ([r.record.value] + rest.0, r.reports + rest.1)
  }

  ghost predicate Gathers(c: Checksum, file: Bytes, p: nat, records: seq<Bytes>, before: seq<Report>,
                          all: (seq<Bytes>, seq<Report>)) {
    p <= |file| && records + ReadFrom(c, file, p).0 == all.0 && before + ReadFrom(c, file, p).1 == all.1
  }

  lemma GathersOn(c: Checksum, file: Bytes, p: nat, records: seq<Bytes>, before: seq<Report>,
                  all: (seq<Bytes>, seq<Report>))
    requires Gathers(c, file, p, records, before, all)
    ensures var r := ReadRecordAt(c, file, p, None);
            if r.record.None? then all == (records, before + r.reports)
            else r.next > p && Gathers(c, file, r.next, records + [r.record.value], before + r.reports, all)
  {
    var r := ReadRecordAt(c, file, p, None);
    if r.record.Some? {
      var rest := ReadFrom(c, file, r.next);
      assert records + ([r.record.value] + rest.0) == records + [r.record.value] + rest.0;
      assert before + (r.reports + rest.1) == before + r.reports + rest.1;
    } else {
      assert records + [] == records;
    }
  }

  /** The buffer is what has been read of the current block and not looked at yet. */
  ghost predicate BufferOk(file: Bytes, position: nat, buffer: Bytes, eof: bool) {
    && |buffer| <= position <= |file| && (forall i :: 0 <= i < |buffer| ==> buffer[i] == file[position - |buffer| + i])
    && (buffer != [] ==> position == BufferEnd(file, position - |buffer|))
    && if eof then position == |file| && (buffer != [] ==> position < BlockEnd(position - |buffer|))
       else InBlock(position) == 0
  }

  lemma StartOk(file: Bytes)
    ensures BufferOk(file, 0, [], false)
  {
  }

  class Reader {
    const file: Bytes
    const sum: Checksum
    var position: nat            // how much of the file has been read
    var buffer: Bytes            // what has been read and not yet looked at
    var eof: bool                // the last read came up short
    var reports: seq<Report>

    /** The offset of the next fragment. */
    ghost function At(): int
      reads this
    {
      position - |buffer|
    }

    ghost predicate Valid()
      reads this
    {
      BufferOk(file, position, buffer, eof)
    }

    constructor (file: Bytes, sum: Checksum)
      ensures Valid() && At() == 0 && reports == [] && this.file == file && this.sum == sum
    {
      this.file, this.sum := file, sum;
      position, buffer, eof, reports := 0, [], false, [];
      StartOk(file);
    }

    /** Reads the next block, or what there is of it. */
    method ReadBlock()
      requires Valid() && !eof
      modifies this`buffer, this`position, this`eof
      ensures Valid() && At() == old(position) && position == BufferEnd(file, old(position))
      ensures |buffer| < HEADER_SIZE ==> eof
      decreases 0
    {
      var end := if position + BLOCK_SIZE <= |file| then position + BLOCK_SIZE else |file|;
      buffer := file[position..end];
      position := end;
      if |buffer| < BLOCK_SIZE {
        eof := true;
      }
    }

    /** Reads on while there is no whole header in the buffer, skipping the trailer of a block. */
    method Fill()
      requires Valid()
      modifies this`buffer, this`position, this`eof
      ensures Valid() && old(At()) >= 0
      ensures var start := old(At()) + Trailer(InBlock(old(At())));
              if start + HEADER_SIZE > |file| then eof && |buffer| < HEADER_SIZE
              else |buffer| >= HEADER_SIZE && At() == start
    {
      ghost var at := At();
      ghost var start := at + Trailer(InBlock(at));
      if |buffer| >= HEADER_SIZE {
        HeaderFits(file, at, position, eof);
      }
      while |buffer| < HEADER_SIZE && !eof
        invariant Valid()
        invariant (At() == at && (|buffer| >= HEADER_SIZE ==> start == at))
                    || (At() == start && (|buffer| < HEADER_SIZE ==> eof))
        decreases !eof, HEADER_SIZE - |buffer|
      {
        SkipsTrailer(file, at, position, |buffer|);
        ReadBlock();
      }
    }

    method ReadPhysicalRecord() returns (kind: int, fragment: Bytes)
      requires Valid()
      modifies this`buffer, this`position, this`eof, this`reports
      ensures Valid() && old(At()) >= 0
      ensures var r := ReadAt(sum, file, old(At()));
              kind == r.kind && fragment == r.fragment && reports == old(reports) + r.reports && At() == r.next
    {
      Fill();
      if |buffer| < HEADER_SIZE {
        buffer := [];
        return END_OF_FILE, [];
      }
      kind, fragment := ParseHeader();
    }

    /** The next record, or None at the end of the file. */
    method ReadRecord() returns (record: Option<Bytes>)
      requires Valid()
      modifies this`buffer, this`position, this`eof, this`reports
      ensures Valid() && old(At()) >= 0
      ensures var r := ReadRecordAt(sum, file, old(At()), None);
              record == r.record && reports == old(reports) + r.reports && At() == r.next
    {
      var scratch: Option<Bytes> := None;
      ghost var r := ReadRecordAt(sum, file, At(), None);
      ghost var to := r.(reports := reports + r.reports);
      while true
        invariant Valid() && Leads(sum, file, At(), scratch, reports, to)
        decreases |file| - At()
      {
        LeadsOn(sum, file, At(), scratch, reports, to);
        var kind, fragment := ReadPhysicalRecord();
        var done;
        done, record, scratch := Handle(kind, fragment, scratch);
        if done {
          return;
        }
      }
    }

    /** Adds a fragment to the record being put together, or reports why it cannot. */
    method Handle(kind: int, fragment: Bytes, scratch: Option<Bytes>)
      returns (done: bool, record: Option<Bytes>, scratch2: Option<Bytes>)
      modifies this`reports
      ensures match TurnOf(kind, fragment, scratch)
              case Return(r, more) => done && record == r && reports == old(reports) + more
              case Continue(s, more) => !done && scratch2 == s && reports == old(reports) + more
    {
      done, record, scratch2 := false, None, scratch;
      if kind == FULL || kind == FIRST {
        if scratch.Some? && scratch.value != [] {
          reports := reports + [Report(|scratch.value|, PartialRecord)];
        }
        if kind == FULL {
          done, record := true, Some(fragment);
        } else {
          scratch2 := Some(fragment);
        }
      } else if kind == MIDDLE || kind == LAST {
        if scratch.None? {
          reports := reports + [Report(|fragment|, MissingStart)];
        } else if kind == MIDDLE {
          scratch2 := Some(scratch.value + fragment);
        } else {
          done, record := true, Some(scratch.value + fragment);
        }
      } else if kind == END_OF_FILE {
        done := true;
      } else if kind == BAD_RECORD {
        if scratch.Some? {
          reports := reports + [Report(|scratch.value|, ErrorInMiddle)];
        }
        scratch2 := None;
      } else {
        reports := reports + [Report(|fragment| + (if scratch.Some? then |scratch.value| else 0), UnknownType)];
        scratch2 := None;
      }
    }

    /** Every record to the end of the file. */
    method ReadAll() returns (records: seq<Bytes>)
      requires Valid()
      modifies this`buffer, this`position, this`eof, this`reports
      ensures Valid() && old(At()) >= 0
      ensures records == ReadFrom(sum, file, old(At())).0
      ensures reports == old(reports) + ReadFrom(sum, file, old(At())).1
    {
      records := [];
      ghost var r := ReadFrom(sum, file, At());
      ghost var all := (r.0, reports + r.1);
      assert [] + r.0 == r.0;
      while true
        invariant Valid() && Gathers(sum, file, At(), records, reports, all)
        decreases |file| - At()
      {
        GathersOn(sum, file, At(), records, reports, all);
        var record := ReadRecord();
        if record.None? {
          return;
        }
        records := records + [record.value];
      }
    }

    /** Takes `n` bytes off the front of the buffer. */
    method RemovePrefix(n: nat)
      requires Valid() && buffer != [] && n <= |buffer|
      modifies this`buffer
      ensures Valid() && At() == old(At()) + n && At() <= position
    {
      ghost var at := At();
      buffer := buffer[n..];
      RestOfBlock(file, at, position, n);
    }

    method DropBuffer(reason: Option<Reason>)
      requires Valid()
      modifies this`buffer, this`reports
      ensures Valid() && At() == position && buffer == []
      ensures reports == old(reports) + if reason.Some? then [Report(|old(buffer)|, reason.value)] else []
    {
      var dropSize := |buffer|;
      buffer := [];
      if reason.Some? {
        reports := reports + [Report(dropSize, reason.value)];
      }
    }

    /** Parses the header at the front of the buffer, and its payload. */
    method ParseHeader() returns (kind: int, fragment: Bytes)
      requires Valid() && |buffer| >= HEADER_SIZE
      modifies this`buffer, this`reports
      ensures Valid() && old(At()) >= 0 && InBlock(old(At())) + HEADER_SIZE <= BLOCK_SIZE
      ensures var r := ParseAt(sum, file, old(At()));
              kind == r.kind && fragment == r.fragment && reports == old(reports) + r.reports && At() == r.next
    {
      ghost var at := At();
      HeaderFits(file, at, position, eof);
      ParseBuffer(sum, file, buffer, at, position, eof);
      var length, t := LengthOf(buffer[4], buffer[5]), buffer[6];
      if HEADER_SIZE + length > |buffer| {
        DropBuffer(if eof then None else Some(BadLength));
        return if eof then END_OF_FILE else BAD_RECORD, [];
      }
      if t == 0 && length == 0 {
        DropBuffer(None);
        return BAD_RECORD, [];
      }
      if !sum.matches(buffer[..4], buffer[6..HEADER_SIZE + length]) {
        DropBuffer(Some(ChecksumMismatch));
        return BAD_RECORD, [];
      }
      kind, fragment := t, buffer[HEADER_SIZE..HEADER_SIZE + length];
      RemovePrefix(HEADER_SIZE + length);
    }
  }

  /** What is left of a whole block once it cannot hold a header is its trailer. */
  lemma SkipsTrailer(file: Bytes, at: nat, end: nat, left: nat)
    requires at + left == end <= |file| && left < HEADER_SIZE && InBlock(end) == 0
    requires left > 0 ==> end == BufferEnd(file, at)
    ensures end == at + Trailer(InBlock(at))
  {
    InBlockAdd(at, left);
  }

  lemma HeaderFits(file: Bytes, at: nat, end: nat, eof: bool)
    requires at + HEADER_SIZE <= end <= |file| && end == BufferEnd(file, at)
    requires if eof then end == |file| && end < BlockEnd(at) else InBlock(end) == 0
    ensures InBlock(at) + HEADER_SIZE <= BLOCK_SIZE && (end == BlockEnd(at) <==> !eof)
  {
    InBlockAdd(at, end - at);
  }

  lemma BufferHas(file: Bytes, buffer: Bytes, at: nat, n: nat)
    requires at + |buffer| <= |file| && (forall i :: 0 <= i < |buffer| ==> buffer[i] == file[at + i])
               && HEADER_SIZE <= n <= |buffer|
    ensures buffer[..4] == file[at..at + 4] && buffer[6..n] == file[at + 6..at + n]
    ensures buffer[HEADER_SIZE..n] == file[at + HEADER_SIZE..at + n]
  {
  }

  /** What is at `at`, in terms of the buffer. */
  lemma ParseBuffer(c: Checksum, file: Bytes, buffer: Bytes, at: nat, end: nat, eof: bool)
    requires HEADER_SIZE <= |buffer| && at + |buffer| == end <= |file| && end == BufferEnd(file, at)
    requires forall i :: 0 <= i < |buffer| ==> buffer[i] == file[at + i]
    requires InBlock(at) + HEADER_SIZE <= BLOCK_SIZE && (end == BlockEnd(at) <==> !eof)
    ensures var length, t, r := LengthOf(buffer[4], buffer[5]), buffer[6], ParseAt(c, file, at);
            if HEADER_SIZE + length > |buffer| then
              r == if eof then Physical(END_OF_FILE, [], [], end)
                   else Physical(BAD_RECORD, [], [Report(|buffer|, BadLength)], end)
            else if t == 0 && length == 0 then r == Physical(BAD_RECORD, [], [], end)
            else if !c.matches(buffer[..4], buffer[6..HEADER_SIZE + length]) then
              r == Physical(BAD_RECORD, [], [Report(|buffer|, ChecksumMismatch)], end)
            else r == Physical(t, buffer[HEADER_SIZE..HEADER_SIZE + length], [], at + HEADER_SIZE + length)
  {
    var length := LengthOf(buffer[4], buffer[5]);
    if HEADER_SIZE + length <= |buffer| {
      BufferHas(file, buffer, at, HEADER_SIZE + length);
    }
  }

  lemma RestOfBlock(file: Bytes, at: nat, end: nat, n: nat)
    requires at + n <= end && end == BufferEnd(file, at) && at + n <= |file|
    ensures at + n < end ==> end == BufferEnd(file, at + n) && BlockEnd(at + n) == BlockEnd(at)
  {
    InBlockAdd(at, n);
  }

  // ----- Writing, losing the tail, and reading back -----

  /** Writing records to a new file one by one. */
  method WriteAll(sum: Checksum, records: seq<Bytes>) returns (file: Bytes)
    requires Sound(sum)
    ensures file == Written(sum, records, |records|)
  {
    var w := new Writer(sum, []);
    for i := 0 to |records|
      invariant w.Valid() && w.sum == sum && w.dest == Written(sum, records, i)
    {
      w.AddRecord(records[i]);
    }
    file := w.dest;
  }

  lemma LengthRoundTrip(n: nat)
    requires n <= 0xffff
    ensures LengthOf(LowByte(n), HighByte(n)) == n
  {
  }

  /** A fragment that is whole in the file is read back; a cut one reads as the end of the file. */
  lemma ParseFragment(c: Checksum, file: Bytes, start: nat, kind: Byte, payload: Bytes)
    requires Sound(c) && kind != 0 && InBlock(start) + HEADER_SIZE + |payload| <= BLOCK_SIZE
               && start + HEADER_SIZE <= |file|
    requires var r := PhysicalRecord(c, kind, payload);
             forall i :: 0 <= i < |r| && start + i < |file| ==> file[start + i] == r[i]
    ensures var r := ParseAt(c, file, start);
            if start + HEADER_SIZE + |payload| <= |file|
            then r == Physical(kind, payload, [], start + HEADER_SIZE + |payload|)
            else r.kind == END_OF_FILE && r.reports == []
  {
    var n, r, stored := |payload|, PhysicalRecord(c, kind, payload), c.store([kind] + payload);
    assert r[4] == LowByte(n) && r[5] == HighByte(n) && r[6] == kind;
    assert file[start + 4] == LowByte(n) && file[start + 5] == HighByte(n) && file[start + 6] == kind;
    LengthRoundTrip(n);
    if start + HEADER_SIZE + n <= |file| {
      assert r[..4] == stored && r[6..] == [kind] + payload && r[HEADER_SIZE..] == payload;
      assert file[start..start + 4] == stored;
      assert file[start + 6..start + HEADER_SIZE + n] == [kind] + payload;
      assert file[start + HEADER_SIZE..start + HEADER_SIZE + n] == payload;
    }
  }

  /** `e` is in the file at `p`, as far as the file goes. */
  ghost predicate Holds(file: Bytes, p: nat, e: Bytes) {
    p <= |file| && forall i :: 0 <= i < |e| && p + i < |file| ==> file[p + i] == e[i]
  }

  lemma HoldsPart(file: Bytes, p: nat, a: Bytes, b: Bytes)
    requires Holds(file, p, a + b)
    ensures Holds(file, p, a) && (p + |a| <= |file| ==> Holds(file, p + |a|, b))
  {
    forall i | 0 <= i < |a| && p + i < |file| ensures file[p + i] == a[i] {
      assert (a + b)[i] == a[i];
    }
    forall i | 0 <= i < |b| && p + |a| + i < |file| ensures file[p + |a| + i] == b[i] {
      assert (a + b)[|a| + i] == b[i];
    }
  }

  /** The first fragment starts where there is room for a header, and stays in its block. */
  lemma FragmentFits(p: nat, left: nat)
    ensures var start := p + Trailer(InBlock(p));
            InBlock(start) + HEADER_SIZE + FragmentLength(InBlock(p), left) <= BLOCK_SIZE
  {
    InBlockAdd(p, Trailer(InBlock(p)));
  }

  lemma ReadFragment(c: Checksum, file: Bytes, p: nat, data: Bytes, begin: bool)
    requires Sound(c) && Holds(file, p, FirstChunk(c, InBlock(p), data, begin))
    ensures var n := FragmentLength(InBlock(p), |data|);
            var after := p + Trailer(InBlock(p)) + HEADER_SIZE + n;
            var r := ReadAt(c, file, p);
            if after <= |file| then r == Physical(KindOf(begin, n == |data|), data[..n], [], after)
            else r.kind == END_OF_FILE && r.reports == []
  {
    var skip, n := Trailer(InBlock(p)), FragmentLength(InBlock(p), |data|);
    FragmentFits(p, |data|);
    HoldsPart(file, p, Zeros(skip), PhysicalRecord(c, KindOf(begin, n == |data|), data[..n]));
    ReadPayload(c, file, p, KindOf(begin, n == |data|), data[..n]);
  }

  lemma ReadPayload(c: Checksum, file: Bytes, p: nat, kind: Byte, payload: Bytes)
    requires Sound(c) && p <= |file| && kind != 0
    requires InBlock(p + Trailer(InBlock(p))) + HEADER_SIZE + |payload| <= BLOCK_SIZE
    requires p + Trailer(InBlock(p)) <= |file| ==>
               Holds(file, p + Trailer(InBlock(p)), PhysicalRecord(c, kind, payload))
    ensures var after := p + Trailer(InBlock(p)) + HEADER_SIZE + |payload|;
            var r := ReadAt(c, file, p);
            if after <= |file| then r == Physical(kind, payload, [], after)
                else r.kind == END_OF_FILE && r.reports == []
  {
    var start := p + Trailer(InBlock(p));
    if start + HEADER_SIZE <= |file| {
      ParseFragment(c, file, start, kind, payload);
    }
  }

  function Joined(scratch: Option<Bytes>, fragment: Bytes): Bytes {
    if scratch.Some? then scratch.value + fragment else fragment
  }

  /** The fragments of a record arrive as they were emitted: the last completes it, another adds to it. */
  lemma TurnRead(c: Checksum, file: Bytes, p: nat, scratch: Option<Bytes>, fragment: Bytes, end: bool, after: nat)
    requires p < after <= |file| && ReadAt(c, file, p) == Physical(KindOf(scratch.None?, end), fragment, [], after)
    ensures ReadRecordAt(c, file, p, scratch) ==
            if end then Logical(Some(Joined(scratch, fragment)), [], after)
            else ReadRecordAt(c, file, after, Some(Joined(scratch, fragment)))
  {
    if !end {
      var r := ReadRecordAt(c, file, after, Some(Joined(scratch, fragment)));
      assert [] + [] + r.reports == r.reports;
    }
  }

  lemma CutRead(c: Checksum, file: Bytes, p: nat, scratch: Option<Bytes>)
    requires p <= |file| && ReadAt(c, file, p).kind == END_OF_FILE && ReadAt(c, file, p).reports == []
    ensures ReadRecordAt(c, file, p, scratch).record.None? && ReadRecordAt(c, file, p, scratch).reports == []
  {
  }

  /** The file holds the first fragment, and what follows it if it is whole. */
  lemma HoldsFragments(c: Checksum, file: Bytes, p: nat, data: Bytes, begin: bool)
    requires Sound(c) && Holds(file, p, Emitted(c, InBlock(p), data, begin))
    ensures var n := FragmentLength(InBlock(p), |data|);
            var chunk := FirstChunk(c, InBlock(p), data, begin);
            && Holds(file, p, chunk)
            && if n == |data| then |Emitted(c, InBlock(p), data, begin)| == |chunk|
               else
                 && (p + |chunk| <= |file| ==>
                      Holds(file, p + |chunk|, Emitted(c, InBlock(p + |chunk|), data[n..], false)))
                 && |Emitted(c, InBlock(p), data, begin)| ==
                      |chunk| + |Emitted(c, InBlock(p + |chunk|), data[n..], false)|
                 && (n == 0 ==> InBlock(p + |chunk|) < InBlock(p))
  {
    var n, chunk := FragmentLength(InBlock(p), |data|), FirstChunk(c, InBlock(p), data, begin);
    ModAdd(p, |chunk|);
    if n < |data| {
      HoldsPart(file, p, chunk, Emitted(c, InBlock(InBlock(p) + |chunk|), data[n..], false));
    }
  }

  /** Where the fragments of what is left of a record end, if they start at `p`. */
  function EndOf(c: Checksum, p: nat, data: Bytes, begin: bool): nat
    requires Sound(c)
  {
    p + |Emitted(c, InBlock(p), data, begin)|
  }

  ghost predicate HoldsRest(c: Checksum, file: Bytes, p: nat, data: Bytes, begin: bool)
    requires Sound(c)
  {
    Holds(file, p, Emitted(c, InBlock(p), data, begin))
  }

  /** One fragment of a record: the reader takes it if it is whole, and goes on with what is left. */
  lemma FragmentStep(c: Checksum, file: Bytes, p: nat, data: Bytes, scratch: Option<Bytes>) returns (n: nat, after: nat)
    requires Sound(c) && HoldsRest(c, file, p, data, scratch.None?)
    ensures n <= |data| && p < after
    ensures n == |data| ==> EndOf(c, p, data, scratch.None?) == after
    ensures n < |data| ==> EndOf(c, p, data, scratch.None?) == EndOf(c, after, data[n..], false)
                           && (n == 0 ==> InBlock(after) < InBlock(p))
    ensures p <= |file|
    ensures after > |file| ==>
              ReadRecordAt(c, file, p, scratch).record.None? && ReadRecordAt(c, file, p, scratch).reports == []
    ensures after <= |file| && n == |data| ==>
              ReadRecordAt(c, file, p, scratch) == Logical(Some(Joined(scratch, data)), [], after)
    ensures after <= |file| && n < |data| ==>
              && HoldsRest(c, file, after, data[n..], false)
              && ReadRecordAt(c, file, p, scratch) == ReadRecordAt(c, file, after, Some(Joined(scratch, data[..n])))
  {
    n := FragmentLength(InBlock(p), |data|);
    after := p + |FirstChunk(c, InBlock(p), data, scratch.None?)|;
    HoldsFragments(c, file, p, data, scratch.None?);
    ReadFragment(c, file, p, data, scratch.None?);
    if after > |file| {
      CutRead(c, file, p, scratch);
    } else {
      TurnRead(c, file, p, scratch, data[..n], n == |data|, after);
      if n == |data| {
        assert data[..n] == data;
      }
    }
  }

  /** A record that is whole in the file is put together again; of a cut one nothing is returned, and
      nothing is reported. */
  lemma {:induction false} ReadRecordBack(c: Checksum, file: Bytes, p: nat, data: Bytes, scratch: Option<Bytes>)
    requires Sound(c) && HoldsRest(c, file, p, data, scratch.None?)
    ensures p <= |file|
    ensures var end := EndOf(c, p, data, scratch.None?);
            var r := ReadRecordAt(c, file, p, scratch);
            if end <= |file| then r == Logical(Some(Joined(scratch, data)), [], end)
                else r.record.None? && r.reports == []
    decreases |data|, InBlock(p)
  {
    var n, after := FragmentStep(c, file, p, data, scratch);
    if n < |data| {
      if after <= |file| {
        ReadRecordBack(c, file, after, data[n..], Some(Joined(scratch, data[..n])));
        JoinedSplit(scratch, data, n);
      }
    }
  }

  lemma JoinedSplit(scratch: Option<Bytes>, data: Bytes, n: nat)
    requires n <= |data|
    ensures Joined(Some(Joined(scratch, data[..n])), data[n..]) == Joined(scratch, data)
  {
    assert data[..n] + data[n..] == data;
  }

  lemma {:induction false} HoldsRecord(c: Checksum, file: Bytes, records: seq<Bytes>, j: nat, k: nat)
    requires Sound(c) && j < k <= |records| && Holds(file, 0, Written(c, records, k))
    ensures |Written(c, records, j)| <= |file| ==> HoldsRest(c, file, |Written(c, records, j)|, records[j], true)
  {
    HoldsLast(c, file, records, k - 1);
    if j < k - 1 {
      HoldsRecord(c, file, records, j, k - 1);
    }
  }

  lemma HoldsLast(c: Checksum, file: Bytes, records: seq<Bytes>, k: nat)
    requires Sound(c) && k < |records| && Holds(file, 0, Written(c, records, k + 1))
    ensures Holds(file, 0, Written(c, records, k))
    ensures |Written(c, records, k)| <= |file| ==> HoldsRest(c, file, |Written(c, records, k)|, records[k], true)
  {
    var before := Written(c, records, k);
    HoldsPart(file, 0, before, Emitted(c, InBlock(|before|), records[k], true));
  }

  /** Where record `j` starts in a log file. */
  function StartOf(c: Checksum, records: seq<Bytes>, j: nat): nat
    requires Sound(c) && j <= |records|
  {
    if j == 0 then 0 else EndOf(c, StartOf(c, records, j - 1), records[j - 1], true)
  }

  lemma {:induction false} StartIs(c: Checksum, records: seq<Bytes>, j: nat)
    requires Sound(c) && j <= |records|
    ensures StartOf(c, records, j) == |Written(c, records, j)|
  {
    if j > 0 {
      StartIs(c, records, j - 1);
    }
  }

  /** The file holds record `j`, as far as it goes. */
  ghost predicate HoldsAt(c: Checksum, file: Bytes, records: seq<Bytes>, j: nat)
    requires Sound(c) && j < |records|
  {
    var p := StartOf(c, records, j);
    p <= |file| ==> HoldsRest(c, file, p, records[j], true)
  }

  /** `file` is a log file of the records, or the start of one. */
  ghost predicate IsLog(c: Checksum, file: Bytes, records: seq<Bytes>)
    requires Sound(c)
  {
    && (forall j {:trigger HoldsAt(c, file, records, j)} :: 0 <= j < |records| ==> HoldsAt(c, file, records, j))
    && |file| <= StartOf(c, records, |records|)
  }

  lemma StartOfLog(c: Checksum, records: seq<Bytes>, cut: nat)
    requires Sound(c) && cut <= |Written(c, records, |records|)|
    ensures IsLog(c, Written(c, records, |records|)[..cut], records)
  {
    var file := Written(c, records, |records|)[..cut];
    StartIs(c, records, |records|);
    forall j | 0 <= j < |records| ensures HoldsAt(c, file, records, j) {
      StartIs(c, records, j);
      HoldsRecord(c, file, records, j, |records|);
    }
  }

  /** Reading one more record, or finding that it is not whole. */
  lemma ReadOne(c: Checksum, file: Bytes, p: nat, data: Bytes)
    requires Sound(c) && HoldsRest(c, file, p, data, true)
    ensures p <= |file| && p < EndOf(c, p, data, true)
    ensures var end := EndOf(c, p, data, true);
            ReadFrom(c, file, p) ==
                if end <= |file| then ([data] + ReadFrom(c, file, end).0, ReadFrom(c, file, end).1) else ([], [])
  {
    ReadRecordBack(c, file, p, data, None);
    if EndOf(c, p, data, true) <= |file| {
      var rest := ReadFrom(c, file, EndOf(c, p, data, true));
      assert [] + rest.1 == rest.1;
    }
  }

  /** Reading from where record `i` starts gives that record and what follows, as long as they are whole. */
  ghost predicate ChainAt(records: seq<Bytes>, start: seq<nat>, read: seq<(seq<Bytes>, seq<Report>)>, length: nat,
                          i: nat)
    requires |start| == |read| == |records| + 1 && i < |records|
  {
    start[i] <= length ==>
      read[i] == if start[i + 1] <= length then ([records[i]] + read[i + 1].0, read[i + 1].1) else ([], [])
  }

  ghost predicate Chained(records: seq<Bytes>, start: seq<nat>, read: seq<(seq<Bytes>, seq<Report>)>, length: nat) {
    && |start| == |read| == |records| + 1
    && (start[|records|] <= length ==> read[|records|] == ([], []))
    && forall i {:trigger ChainAt(records, start, read, length, i)} :: 0 <= i < |records| ==>
         ChainAt(records, start, read, length, i)
  }

  lemma {:induction false} FollowChain(records: seq<Bytes>, start: seq<nat>, read: seq<(seq<Bytes>, seq<Report>)>,
                                       length: nat, j: nat)
    returns (k: nat)
    requires Chained(records, start, read, length) && j <= |records| && start[j] <= length
    ensures j <= k <= |records| && read[j] == (records[j..k], [])
    ensures start[k] <= length && (k < |records| ==> length < start[k + 1])
    decreases |records| - j
  {
    k := j;
    assert records[j..k] == [];
    assert j < |records| ==> ChainAt(records, start, read, length, j);
    if j < |records| && start[j + 1] <= length {
      k := FollowChain(records, start, read, length, j + 1);
      assert [records[j]] + records[j + 1..k] == records[j..k];
    }
  }

  lemma ReadStep(c: Checksum, file: Bytes, records: seq<Bytes>, j: nat)
    requires Sound(c) && j < |records| && HoldsAt(c, file, records, j) && StartOf(c, records, j) <= |file|
    ensures var end := StartOf(c, records, j + 1);
            ReadFrom(c, file, StartOf(c, records, j)) ==
            if end <= |file| then ([records[j]] + ReadFrom(c, file, end).0, ReadFrom(c, file, end).1) else ([], [])
  {
    ReadOne(c, file, StartOf(c, records, j), records[j]);
  }

  function Starts(c: Checksum, records: seq<Bytes>): (r: seq<nat>)
    requires Sound(c)
    ensures |r| == |records| + 1 && forall i :: 0 <= i <= |records| ==> r[i] == StartOf(c, records, i)
  {
    seq(|records| + 1, i requires 0 <= i <= |records| => StartOf(c, records, i))
  }

  /** What the reader finds from where each record starts. */
  function Reads(c: Checksum, file: Bytes, start: seq<nat>): (r: seq<(seq<Bytes>, seq<Report>)>)
    ensures |r| == |start| && forall i :: 0 <= i < |start| && start[i] <= |file| ==> r[i] == ReadFrom(c, file, start[i])
  {
    seq(|start|, i requires 0 <= i < |start| => if start[i] <= |file| then ReadFrom(c, file, start[i]) else ([], []))
  }

  lemma Link(c: Checksum, file: Bytes, records: seq<Bytes>, i: nat, p: nat, end: nat,
             read: (seq<Bytes>, seq<Report>), next: (seq<Bytes>, seq<Report>))
    requires Sound(c) && i < |records| && HoldsAt(c, file, records, i)
    requires p == StartOf(c, records, i) <= |file| && end == StartOf(c, records, i + 1)
    requires read == ReadFrom(c, file, p) && (end <= |file| ==> next == ReadFrom(c, file, end))
    ensures read == if end <= |file| then ([records[i]] + next.0, next.1) else ([], [])
  {
    ReadStep(c, file, records, i);
  }

  lemma LinkAt(c: Checksum, file: Bytes, records: seq<Bytes>, start: seq<nat>, read: seq<(seq<Bytes>, seq<Report>)>,
               i: nat)
    requires Sound(c) && IsLog(c, file, records) && i < |records|
    requires start == Starts(c, records) && read == Reads(c, file, start) && start[i] <= |file|
    ensures read[i] == if start[i + 1] <= |file| then ([records[i]] + read[i + 1].0, read[i + 1].1) else ([], [])
  {
    assert HoldsAt(c, file, records, i);
    Link(c, file, records, i, start[i], start[i + 1], read[i], read[i + 1]);
  }

  lemma ChainedLog(c: Checksum, file: Bytes, records: seq<Bytes>, start: seq<nat>, read: seq<(seq<Bytes>, seq<Report>)>)
    requires Sound(c) && IsLog(c, file, records) && start == Starts(c, records) && read == Reads(c, file, start)
    ensures Chained(records, start, read, |file|)
  {
    forall i | 0 <= i < |records| ensures ChainAt(records, start, read, |file|, i) {
      if start[i] <= |file| {
        LinkAt(c, file, records, start, read, i);
      }
    }
    LastRead(c, file, records, start, read);
  }

  lemma LastRead(c: Checksum, file: Bytes, records: seq<Bytes>, start: seq<nat>, read: seq<(seq<Bytes>, seq<Report>)>)
    requires Sound(c) && IsLog(c, file, records) && start == Starts(c, records) && read == Reads(c, file, start)
    ensures start[|records|] <= |file| ==> read[|records|] == ([], [])
  {
    if start[|records|] <= |file| {
      ReadAtEnd(c, file);
    }
  }

  /** The reader finds the records that are whole, and reports nothing. */
  lemma ReadBack(c: Checksum, file: Bytes, records: seq<Bytes>) returns (k: nat)
    requires Sound(c) && IsLog(c, file, records)
    ensures k <= |records| && ReadFrom(c, file, 0) == (records[0..k], [])
    ensures StartOf(c, records, k) <= |file| && (k < |records| ==> |file| < StartOf(c, records, k + 1))
  {
    var start := Starts(c, records);
    ChainedLog(c, file, records, start, Reads(c, file, start));
    assert start[0] == StartOf(c, records, 0) == 0;
    k := FollowChain(records, start, Reads(c, file, start), |file|, 0);
  }

  lemma ReadAtEnd(c: Checksum, file: Bytes)
    ensures ReadFrom(c, file, |file|) == ([], [])
  {
    CutRead(c, file, |file|, None);
  }

  /** Any list of records written to a new file reads back the same; and when the file is cut at any
      byte, exactly the records wholly before the cut are read, with nothing reported. */
  lemma CutLogReadsBack(c: Checksum, records: seq<Bytes>, cut: nat) returns (k: nat)
    requires Sound(c) && cut <= |Written(c, records, |records|)|
    ensures k <= |records| && ReadFrom(c, Written(c, records, |records|)[..cut], 0) == (records[..k], [])
    ensures StartOf(c, records, k) <= cut && (k < |records| ==> cut < StartOf(c, records, k + 1))
    ensures cut == |Written(c, records, |records|)| ==> k == |records|
  {
    StartOfLog(c, records, cut);
    k := ReadBack(c, Written(c, records, |records|)[..cut], records);
    assert records[0..k] == records[..k];
    StartGrows(c, records, if k < |records| then k + 1 else k, |records|);
    StartIs(c, records, |records|);
  }

  lemma {:induction false} StartGrows(c: Checksum, records: seq<Bytes>, j: nat, k: nat)
    requires Sound(c) && j <= k <= |records|
    ensures StartOf(c, records, j) <= StartOf(c, records, k)
  {
    if j < k {
      StartGrows(c, records, j, k - 1);
    }
  }

  lemma {:induction false} AllWhole(c: Checksum, records: seq<Bytes>, cut: nat)
    requires Sound(c) && StartOf(c, records, |records|) <= cut <= |Written(c, records, |records|)|
    ensures cut == |Written(c, records, |records|)|
  {
    StartIs(c, records, |records|);
  }

  lemma {:induction false} LastCut(c: Checksum, records: seq<Bytes>, cut: nat)
    requires Sound(c) && cut < StartOf(c, records, |records|)
    ensures cut < |Written(c, records, |records|)|
  {
    StartIs(c, records, |records|);
  }

  lemma {:induction false} NotEarlier(c: Checksum, records: seq<Bytes>, cut: nat, k: nat)
    requires Sound(c) && k + 1 < |records| && cut < StartOf(c, records, k + 1)
    ensures cut < StartOf(c, records, |records| - 1)
  {
    StartGrows(c, records, k + 1, |records| - 1);
  }

  /** A cut in the last record loses that record; one at the end loses nothing. */
  lemma {:induction false} LastOrAll(c: Checksum, records: seq<Bytes>, cut: nat, k: nat)
    requires Sound(c) && k <= |records| && cut <= |Written(c, records, |records|)|
    requires StartOf(c, records, k) <= cut && (k < |records| ==> cut < StartOf(c, records, k + 1))
    requires records != [] && StartOf(c, records, |records| - 1) <= cut
    ensures k == if cut == |Written(c, records, |records|)| then |records| else |records| - 1
  {
    if k == |records| {
      AllWhole(c, records, cut);
    } else if k == |records| - 1 {
      LastCut(c, records, cut);
    } else {
      NotEarlier(c, records, cut, k);
    }
  }

  lemma {:induction false} CutInLast(c: Checksum, records: seq<Bytes>, cut: nat) returns (k: nat)
    requires Sound(c) && records != [] && StartOf(c, records, |records| - 1) <= cut
    requires cut <= |Written(c, records, |records|)|
    ensures k == if cut == |Written(c, records, |records|)| then |records| else |records| - 1
    ensures ReadFrom(c, Written(c, records, |records|)[..cut], 0) == (records[..k], [])
  {
    k := CutLogReadsBack(c, records, cut);
    LastOrAll(c, records, cut, k);
  }
}
