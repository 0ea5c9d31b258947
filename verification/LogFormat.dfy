/** The write-ahead log on bytes (db/log_writer.cc, db/log_reader.cc): records are cut into
    fragments that never cross a block, and put together again by the reader.

    The checksum is a parameter: four bytes that depend on the type and the payload
    (EncodeFixed32 of the masked CRC, see Crc32c.dfy). */
module LogFormat {
  import opened Dbformat

  const BLOCK := 32768
  const HEADER := 7

  type Checksum = seq<byte> -> (byte, byte, byte, byte)

  const FULL: byte := 1
  const FIRST: byte := 2
  const MIDDLE: byte := 3
  const LAST: byte := 4

  // ---- the format -----------------------------------------------------------------------

  /** Where the next header goes: fewer than seven bytes at the end of a block stay unused. */
  function HeaderAt(off: nat): (h: nat)
    ensures off <= h < off + HEADER && h % BLOCK <= BLOCK - HEADER
  {
    var leftover := BLOCK - off % BLOCK;
    if leftover < HEADER then off + leftover else off
  }

  function Avail(off: nat): nat { BLOCK - HeaderAt(off) % BLOCK - HEADER }

  function Zeros(n: nat): (z: seq<byte>)
    ensures |z| == n
  {
    seq(n, _ => 0)
  }

  function Header(crc: Checksum, kind: byte, data: seq<byte>): (h: seq<byte>)
    requires |data| < BLOCK
    ensures |h| == HEADER
  {
    var c := crc([kind] + data);
    [c.0, c.1, c.2, c.3, |data| % 256, |data| / 256, kind]
  }

  /** One physical record, with the unused bytes before it. */
  function Emit(crc: Checksum, off: nat, kind: byte, data: seq<byte>): (e: seq<byte>)
    requires |data| < BLOCK
    ensures |e| == HeaderAt(off) - off + HEADER + |data|
  {
    Zeros(HeaderAt(off) - off) + Header(crc, kind, data) + data
  }

  function KindOf(begin: bool, end: bool): byte {
    if begin && end then FULL else if begin then FIRST else if end then LAST else MIDDLE
  }

  function FragmentLength(off: nat, data: seq<byte>): (n: nat)
    ensures n <= |data| && n <= Avail(off) && n < BLOCK && (n == |data| || n == Avail(off))
  {
    if |data| < Avail(off) then |data| else Avail(off)
  }

  /** The bytes that AddRecord writes at an offset. */
  function Encode(crc: Checksum, off: nat, data: seq<byte>, begin: bool): seq<byte>
    decreases |data|, if Avail(off) == 0 then 1 else 0
  {
    var n := FragmentLength(off, data);
    var e := Emit(crc, off, KindOf(begin, n == |data|), data[..n]);
    if n == |data| then e
    else
      FullBlockThen(off);
      e + Encode(crc, off + |e|, data[n..], false)
  }

  /** A fragment that is cut ends its block. */
  lemma FullBlockThen(off: nat)
    ensures (HeaderAt(off) + HEADER + Avail(off)) % BLOCK == 0
    ensures Avail(HeaderAt(off) + HEADER + Avail(off)) == BLOCK - HEADER
  {
    var h := HeaderAt(off);
    assert h + HEADER + Avail(off) == BLOCK * (h / BLOCK) + BLOCK;
    BlockMultiple(h / BLOCK + 1);
  }

  lemma BlockMultiple(k: nat)
    ensures (BLOCK * k) % BLOCK == 0
  {}

  lemma EncodeUnfold(crc: Checksum, off: nat, data: seq<byte>, begin: bool)
    ensures var n := FragmentLength(off, data);
      var e := Emit(crc, off, KindOf(begin, n == |data|), data[..n]);
      && (n == |data| ==> Encode(crc, off, data, begin) == e)
      && (n < |data| ==> Encode(crc, off, data, begin) == e + Encode(crc, off + |e|, data[n..], false)
                         && n == Avail(off) && Avail(off + |e|) == BLOCK - HEADER)
  {
    if FragmentLength(off, data) < |data| { FullBlockThen(off); }
  }

  lemma EmitIs(was: seq<byte>, crc: Checksum, off: nat, kind: byte, data: seq<byte>)
    requires |data| < BLOCK
    ensures was + Zeros(HeaderAt(off) - off) + Header(crc, kind, data) + data == was + Emit(crc, off, kind, data)
  {}

  lemma AppendIsAssociative(a: seq<byte>, b: seq<byte>, c: seq<byte>)
    ensures (a + b) + c == a + (b + c)
  {}

  // ---- writing ----------------------------------------------------------------------------

  class Writer {
    const crc: Checksum
    var dest: seq<byte>
    var blockOffset: nat

    ghost predicate Valid()
      reads this
    {
      InBlock(|dest|, blockOffset)
    }

    constructor (crc: Checksum)
      ensures Valid() && dest == [] && this.crc == crc
    {
      this.crc, dest, blockOffset := crc, [], 0;
    }

    method EmitPhysicalRecord(kind: byte, data: seq<byte>)
      requires |data| < BLOCK
      modifies this
      ensures dest == old(dest) + Header(crc, kind, data) + data
      ensures blockOffset == old(blockOffset) + HEADER + |data|
    {
      dest := dest + Header(crc, kind, data);
      dest := dest + data;
      blockOffset := blockOffset + HEADER + |data|;
    }

    /** AddRecord appends the encoding of the record. */
    method AddRecord(slice: seq<byte>)
      requires Valid()
      modifies this
      ensures Valid() && dest == old(dest) + Encode(crc, |old(dest)|, slice, true)
    {
      hide Encode, Emit, InBlock, HeaderAt, Avail;
      var left := slice;
      var begin := true;
      ghost var start := dest;
      ghost var all := Encode(crc, |dest|, slice, true);
      while true
        invariant Valid()
        invariant start + all == dest + Encode(crc, |dest|, left, begin)
        decreases |left|, if Avail(|dest|) == 0 then 1 else 0
      {
        ghost var was, off := dest, |dest|;
        OffsetInBlock(off, blockOffset);
        var leftover := BLOCK - blockOffset;
        if leftover < HEADER {
          if leftover > 0 { dest := dest + Zeros(leftover); }
          blockOffset := 0;
        }
        assert dest == was + Zeros(HeaderAt(off) - off);
        var avail := BLOCK - blockOffset - HEADER;
        var n := if |left| < avail then |left| else avail;
        var end := |left| == n;
        Advance(|dest|, blockOffset, HEADER + n);
        EmitPhysicalRecord(KindOf(begin, end), left[..n]);
        EncodeUnfold(crc, off, left, begin);
        EmitIs(was, crc, off, KindOf(begin, end), left[..n]);
        if end { return; }
        AppendIsAssociative(was, Emit(crc, off, KindOf(begin, end), left[..n]), Encode(crc, |dest|, left[n..], false));
        left := left[n..];
        begin := false;
      }
    }
  }

  /** The offset within the block, `BLOCK` standing for the end of a full one. */
  ghost predicate InBlock(len: nat, blockOffset: nat) {
    blockOffset <= BLOCK && blockOffset <= len && (len - blockOffset) % BLOCK == 0
  }

  lemma OffsetInBlock(len: nat, blockOffset: nat)
    requires InBlock(len, blockOffset)
    ensures blockOffset <= BLOCK
    ensures var leftover := BLOCK - blockOffset;
      if leftover < HEADER then HeaderAt(len) == len + leftover && Avail(len) == BLOCK - HEADER && InBlock(len + leftover, 0)
      else HeaderAt(len) == len && Avail(len) == leftover - HEADER
  {}

  lemma Advance(len: nat, blockOffset: nat, n: nat)
    requires InBlock(len, blockOffset) && blockOffset + n <= BLOCK
    ensures InBlock(len + n, blockOffset + n)
  {}

  // ---- reading ----------------------------------------------------------------------------

  datatype Physical = Eof | Bad(next: nat, reported: bool) | Piece(kind: byte, data: seq<byte>, next: nat)

  function Min(a: nat, b: nat): nat { if a < b then a else b }

  ghost predicate Boundary(n: nat) { n % BLOCK == 0 }

  /** Where the block that holds `h` ends, in the file as far as it goes. */
  function BlockEnd(file: seq<byte>, h: nat): nat { Min((h / BLOCK + 1) * BLOCK, |file|) }

  predicate BlockIsWhole(file: seq<byte>, h: nat) { (h / BLOCK + 1) * BLOCK <= |file| }

  /** The physical record that the reader finds from an offset on. */
  function NextPhysical(crc: Checksum, file: seq<byte>, at: nat): (r: Physical)
    ensures r.Bad? ==> at < r.next <= |file|
    ensures r.Piece? ==> at < r.next <= |file|
  {
    var h := HeaderAt(at);
    if |file| < h + HEADER then Eof
    else
      BlockHolds(file, h);
      var length: nat := (file[h + 4] as int) + 256 * (file[h + 5] as int);
      var kind: byte := file[h + 6];
      var end := BlockEnd(file, h);
      if h + HEADER + length > end then if BlockIsWhole(file, h) then Bad(end, true) else Eof
      else if kind == 0 && length == 0 then Bad(end, false)
      else
        var data := file[h + HEADER..h + HEADER + length];
        if crc([kind] + data) != (file[h], file[h + 1], file[h + 2], file[h + 3]) then Bad(end, true)
        else Piece(kind, data, h + HEADER + length)
  }

  /** A fragment given to the caller stands in one block, right before where reading goes on, with
      its kind, its length and a checksum that matches; after a bad one the rest of the block is dropped. */
  lemma PieceIsGenuine(crc: Checksum, file: seq<byte>, at: nat)
    ensures match NextPhysical(crc, file, at)
      case Eof => true
      case Bad(next, _) => next % BLOCK == 0 || next == |file|
      case Piece(kind, data, next) =>
        && at + HEADER + |data| <= next <= |file| && data == file[next - |data|..next]
        && file[next - |data| - HEADER..next - |data|] == Header(crc, kind, data)
        && (next - |data| - HEADER) / BLOCK == (next - 1) / BLOCK
  {
    var h := HeaderAt(at);
    if h + HEADER <= |file| {
      BlockHolds(file, h);
      BlockMultiple(h / BLOCK + 1);
    }
  }

  lemma BlockHolds(file: seq<byte>, h: nat)
    requires h % BLOCK <= BLOCK - HEADER && h + HEADER <= |file|
    ensures h + HEADER <= BlockEnd(file, h) <= |file|
  {}

  /** ReadRecord from an offset: the record, where reading goes on, and how many drops
      were reported on the way. */
  datatype Logical = Logical(record: Option<seq<byte>>, next: nat, drops: nat)

  function Dropped(r: Logical, n: nat): Logical { r.(drops := r.drops + n) }

  /** `part` is what has been put together of a fragmented record. */
  function NextLogical(crc: Checksum, file: seq<byte>, at: nat, part: Option<seq<byte>>): (r: Logical)
    requires at <= |file|
    ensures r.record.Some? ==> at < r.next <= |file|
    decreases |file| - at
  {
    match NextPhysical(crc, file, at)
    case Eof => Logical(None, |file|, 0)
    case Bad(next, reported) =>
      Dropped(NextLogical(crc, file, next, None), (if reported then 1 else 0) + if part.Some? then 1 else 0)
    case Piece(kind, data, next) =>
      if kind == FULL then
        Logical(Some(data), next, if part.Some? && part.value != [] then 1 else 0)
      else if kind == FIRST then
        Dropped(NextLogical(crc, file, next, Some(data)), if part.Some? && part.value != [] then 1 else 0)
      else if kind == MIDDLE then
        if part.None? then Dropped(NextLogical(crc, file, next, None), 1)
        else NextLogical(crc, file, next, Some(part.value + data))
      else if kind == LAST then
        if part.None? then Dropped(NextLogical(crc, file, next, None), 1)
        else Logical(Some(part.value + data), next, 0)
      else Dropped(NextLogical(crc, file, next, None), 1)
  }

  class Reader {
    const crc: Checksum
    const file: seq<byte>
    var readTo: nat          // how much of the file has been read
    var buffer: seq<byte>    // what is left of the last read
    var eof: bool
    var drops: nat           // calls of the reporter

    ghost function At(): nat
      reads this
      requires |buffer| <= readTo
    {
      readTo - |buffer|
    }

    /** The buffer is the unread rest of one block, or of the short last one. */
    ghost predicate Valid()
      reads this
    {
      && |buffer| <= readTo <= |file| && buffer == file[readTo - |buffer|..readTo]
      && (if eof then readTo == |file| else Boundary(readTo))
      && (|buffer| > 0 ==> readTo == BlockEnd(file, At()) && (!eof ==> BlockIsWhole(file, At())) && (eof ==> !BlockIsWhole(file, At())))
      && (eof && buffer == [] ==> At() == |file|)
    }

    constructor (crc: Checksum, file: seq<byte>)
      ensures Valid() && At() == 0 && drops == 0 && this.file == file && this.crc == crc
    {
      hide BlockEnd, BlockIsWhole;
      this.crc, this.file := crc, file;
      readTo, buffer, eof, drops := 0, [], false, 0;
    }

    /** Read one block, or what is left of the file. */
    method Fill()
      requires Valid() && |buffer| < HEADER && !eof
      modifies this`readTo, this`buffer, this`eof
      ensures Valid() && readTo == Min(old(readTo) + BLOCK, |file|)
      ensures At() == old(readTo) && (eof <==> |buffer| < BLOCK)
    {
      hide Boundary, BlockEnd, BlockIsWhole;
      BlockOf(file, readTo);
      var n := Min(readTo + BLOCK, |file|);
      buffer := file[readTo..n];
      readTo := n;
      if |buffer| < BLOCK { eof := true; }
    }

    /** Read on until a header is there; false at the end of the file. */
    method HaveHeader() returns (found: bool)
      requires Valid()
      modifies this`readTo, this`buffer, this`eof
      ensures Valid() && NextPhysical(crc, file, At()) == NextPhysical(crc, file, old(At()))
      ensures if found then |buffer| >= HEADER else At() == |file| && NextPhysical(crc, file, old(At())) == Eof
    {
      hide NextPhysical, Boundary, BlockEnd, BlockIsWhole;
      while |buffer| < HEADER && !eof
        invariant Valid()
        invariant NextPhysical(crc, file, At()) == NextPhysical(crc, file, old(At()))
        decreases if eof then 0 else |file| + BLOCK - readTo
      {
        SkipTrailer(crc, file, At(), readTo);
        Fill();
      }
      found := |buffer| >= HEADER;
      if !found {
        TruncatedHeader(crc, file, At());
        TruncatedHeader(crc, file, |file|);
        buffer := [];
      }
    }

    method ReadPhysicalRecord() returns (r: Physical)
      requires Valid()
      modifies this
      ensures Valid() && r == NextPhysical(crc, file, old(At()))
      ensures At() == if r.Eof? then |file| else r.next
      ensures drops == old(drops) + if r.Bad? && r.reported then 1 else 0
    {
      hide NextPhysical, Boundary, BlockEnd, BlockIsWhole;
      var found := HaveHeader();
      if !found { return Eof; }
      HeaderInBuffer(crc, file, readTo - |buffer|, readTo, buffer);
      var length: nat := (buffer[4] as int) + 256 * (buffer[5] as int);
      var kind: byte := buffer[6];
      if HEADER + length > |buffer| {
        buffer := [];
        if !eof {
          drops := drops + 1;
          return Bad(readTo, true);
        }
        return Eof;
      }
      if kind == 0 && length == 0 {
        buffer := [];
        return Bad(readTo, false);
      }
      var data := buffer[HEADER..HEADER + length];
      if crc([kind] + data) != (buffer[0], buffer[1], buffer[2], buffer[3]) {
        buffer := [];
        drops := drops + 1;
        return Bad(readTo, true);
      }
      RestOfBlock(file, readTo - |buffer|, readTo, buffer, HEADER + length);
      buffer := buffer[HEADER + length..];
      return Piece(kind, data, readTo - |buffer|);
    }

    /** ReadRecord: the next record, put together from its fragments. */
    method ReadRecord() returns (record: Option<seq<byte>>)
      requires Valid()
      modifies this
      ensures Valid()
      ensures var l := NextLogical(crc, file, old(At()), None);
        record == l.record && At() == l.next && drops == old(drops) + l.drops
    {
      hide NextPhysical, NextLogical, Boundary, BlockEnd, BlockIsWhole;
      var scratch: seq<byte> := [];
      var inFragmentedRecord := false;
      ghost var all := NextLogical(crc, file, At(), None);
      ghost var extra: nat := 0;
      while true
        invariant Valid() && drops == old(drops) + extra
        invariant all == Dropped(NextLogical(crc, file, At(), if inFragmentedRecord then Some(scratch) else None), extra)
        decreases |file| - At()
      {
        ghost var was := drops;
        LogicalStep(crc, file, At(), if inFragmentedRecord then Some(scratch) else None);
        var r := ReadPhysicalRecord();
        match r {
          case Eof =>
            return None;
          case Bad(_, _) =>
            if inFragmentedRecord { drops := drops + 1; }
            scratch, inFragmentedRecord := [], false;
          case Piece(kind, data, _) =>
            if kind == FULL {
              if inFragmentedRecord && scratch != [] { drops := drops + 1; }
              return Some(data);
            } else if kind == FIRST {
              if inFragmentedRecord && scratch != [] { drops := drops + 1; }
              scratch, inFragmentedRecord := data, true;
            } else if kind == MIDDLE {
              if !inFragmentedRecord { drops := drops + 1; } else { scratch := scratch + data; }
            } else if kind == LAST {
              if !inFragmentedRecord {
                drops := drops + 1;
              } else {
                return Some(scratch + data);
              }
            } else {
              drops := drops + 1;
              scratch, inFragmentedRecord := [], false;
            }
        }
        extra := extra + (drops - was);
      }
    }
  }

  /** One round of ReadRecord's loop. */
  lemma LogicalStep(crc: Checksum, file: seq<byte>, at: nat, part: Option<seq<byte>>)
    requires at <= |file|
    ensures var l := NextLogical(crc, file, at, part);
      match NextPhysical(crc, file, at)
      case Eof => l == Logical(None, |file|, 0)
      case Bad(next, reported) =>
        l == Dropped(NextLogical(crc, file, next, None), (if reported then 1 else 0) + if part.Some? then 1 else 0)
      case Piece(kind, data, next) =>
        var lost := if part.Some? && part.value != [] then 1 else 0;
        && (kind == FULL ==> l == Logical(Some(data), next, lost))
        && (kind == FIRST ==> l == Dropped(NextLogical(crc, file, next, Some(data)), lost))
        && (kind == MIDDLE && part.Some? ==> l == NextLogical(crc, file, next, Some(part.value + data)))
        && (kind == LAST && part.Some? ==> l == Logical(Some(part.value + data), next, 0))
        && ((kind == MIDDLE || kind == LAST) && part.None? ==> l == Dropped(NextLogical(crc, file, next, None), 1))
        && (kind != FULL && kind != FIRST && kind != MIDDLE && kind != LAST ==>
              l == Dropped(NextLogical(crc, file, next, None), 1))
  {
    hide NextPhysical;
  }

  lemma TruncatedHeader(crc: Checksum, file: seq<byte>, at: nat)
    requires |file| < at + HEADER
    ensures NextPhysical(crc, file, at) == Eof
  {}

  /** The unused bytes at the end of a block lead to the next one. */
  lemma SkipTrailer(crc: Checksum, file: seq<byte>, at: nat, end: nat)
    requires at <= end < at + HEADER && Boundary(end)
    ensures NextPhysical(crc, file, at) == NextPhysical(crc, file, end)
  {
    assert HeaderAt(at) == end && HeaderAt(end) == end;
  }

  lemma HeaderFits(file: seq<byte>, at: nat)
    requires at + HEADER <= BlockEnd(file, at)
    ensures HeaderAt(at) == at
  {}

  lemma HeaderInBuffer(crc: Checksum, file: seq<byte>, at: nat, end: nat, buffer: seq<byte>)
    requires at + HEADER <= end <= |file| && end == BlockEnd(file, at) && buffer == file[at..end]
    ensures var length: nat, kind: byte := (buffer[4] as int) + 256 * (buffer[5] as int), buffer[6];
      NextPhysical(crc, file, at)
      == (if HEADER + length > |buffer| then if BlockIsWhole(file, at) then Bad(end, true) else Eof
          else if kind == 0 && length == 0 then Bad(end, false)
          else if crc([kind] + buffer[HEADER..HEADER + length]) != (buffer[0], buffer[1], buffer[2], buffer[3]) then Bad(end, true)
          else Piece(kind, buffer[HEADER..HEADER + length], at + HEADER + length))
  {
    HeaderFits(file, at);
    hide BlockEnd, BlockIsWhole, HeaderAt;
    assert buffer[0] == file[at] && buffer[1] == file[at + 1] && buffer[2] == file[at + 2] && buffer[3] == file[at + 3];
    assert buffer[4] == file[at + 4] && buffer[5] == file[at + 5] && buffer[6] == file[at + 6];
    var length: nat := (buffer[4] as int) + 256 * (buffer[5] as int);
    if HEADER + length <= |buffer| {
      assert buffer[HEADER..HEADER + length] == file[at + HEADER..at + HEADER + length];
    }
  }

  lemma RestOfBlock(file: seq<byte>, at: nat, end: nat, buffer: seq<byte>, used: nat)
    requires at <= end <= |file| && end == BlockEnd(file, at) && buffer == file[at..end] && used <= |buffer|
    ensures buffer[used..] == file[at + used..end]
    ensures at + used < end ==> BlockEnd(file, at + used) == end && (BlockIsWhole(file, at + used) <==> BlockIsWhole(file, at))
  {}

  lemma BlockOf(file: seq<byte>, at: nat)
    requires Boundary(at)
    ensures BlockEnd(file, at) == Min(at + BLOCK, |file|) && (BlockIsWhole(file, at) <==> at + BLOCK <= |file|)
    ensures Boundary(at + BLOCK)
  {}

  // ---- reading back what was written, or a prefix of it --------------------------------------

  /** From `at` on the file agrees with `e`, as far as the file goes. */
  ghost predicate Under(file: seq<byte>, at: nat, e: seq<byte>) {
    at <= |file| && forall i :: 0 <= i < |e| && at + i < |file| ==> file[at + i] == e[i]
  }

  lemma UnderParts(file: seq<byte>, at: nat, a: seq<byte>, b: seq<byte>)
    requires Under(file, at, a + b)
    ensures Under(file, at, a)
    ensures at + |a| <= |file| ==> Under(file, at + |a|, b)
  {
    forall i | 0 <= i < |a| ensures (a + b)[i] == a[i] {}
    forall i | 0 <= i < |b| ensures (a + b)[|a| + i] == b[i] {}
  }

  lemma LengthBytes(n: nat)
    requires n < BLOCK
    ensures n % 256 + 256 * (n / 256) == n
  {}

  lemma EmitBytes(crc: Checksum, off: nat, kind: byte, data: seq<byte>)
    requires |data| < BLOCK
    ensures var e, z, c := Emit(crc, off, kind, data), HeaderAt(off) - off, crc([kind] + data);
      && e[z] == c.0 && e[z + 1] == c.1 && e[z + 2] == c.2 && e[z + 3] == c.3
      && (e[z + 4] as int) + 256 * (e[z + 5] as int) == |data| && e[z + 6] == kind
      && e[z + HEADER..] == data
  {
    LengthBytes(|data|);
  }

  lemma FragmentFits(file: seq<byte>, at: nat, n: nat)
    requires n <= Avail(at) && HeaderAt(at) + HEADER <= |file|
    ensures HeaderAt(at) + HEADER + n <= |file| ==> HeaderAt(at) + HEADER + n <= BlockEnd(file, HeaderAt(at))
    ensures HeaderAt(at) + HEADER + n > |file| ==>
              !BlockIsWhole(file, HeaderAt(at)) && HeaderAt(at) + HEADER + n > BlockEnd(file, HeaderAt(at))
  {}

  /** A physical record is read back when it is all there; a cut one reads as the end. */
  lemma PhysicalRoundTrip(crc: Checksum, file: seq<byte>, at: nat, kind: byte, data: seq<byte>)
    requires |data| < BLOCK && |data| <= Avail(at) && kind != 0 && Under(file, at, Emit(crc, at, kind, data))
    ensures var end := at + |Emit(crc, at, kind, data)|;
      NextPhysical(crc, file, at) == if end <= |file| then Piece(kind, data, end) else Eof
  {
    var h, e := HeaderAt(at), Emit(crc, at, kind, data);
    EmitBytes(crc, at, kind, data);
    hide Emit, HeaderAt, Avail, BlockEnd, BlockIsWhole;
    if h + HEADER <= |file| {
      FragmentFits(file, at, |data|);
      var z := h - at;
      forall i | z <= i < z + HEADER ensures file[at + i] == e[i] {}
      assert file[h] == e[z] && file[h + 1] == e[z + 1] && file[h + 2] == e[z + 2] && file[h + 3] == e[z + 3];
      assert file[h + 4] == e[z + 4] && file[h + 5] == e[z + 5] && file[h + 6] == e[z + 6];
      if h + HEADER + |data| <= |file| {
        forall i | 0 <= i < |data| ensures file[h + HEADER + i] == data[i] { assert e[z + HEADER..][i] == e[z + HEADER + i]; }
        assert file[h + HEADER..h + HEADER + |data|] == data;
      }
    }
  }

  function Whole(part: Option<seq<byte>>, data: seq<byte>): seq<byte> {
    if part.Some? then part.value + data else data
  }

  /** A record comes back whole, with nothing reported, when all its fragments are there;
      otherwise the reader reports the end of the file and nothing else. */
  lemma {:induction false} LogicalRoundTrip(crc: Checksum, file: seq<byte>, at: nat, data: seq<byte>, part: Option<seq<byte>>)
    requires Under(file, at, Encode(crc, at, data, part.None?))
    ensures var end := at + |Encode(crc, at, data, part.None?)|;
      NextLogical(crc, file, at, part)
      == if end <= |file| then Logical(Some(Whole(part, data)), end, 0) else Logical(None, |file|, 0)
    decreases |data|, if Avail(at) == 0 then 1 else 0
  {
    hide NextPhysical, NextLogical, Emit, Encode, Avail;
    var n := FragmentLength(at, data);
    var kind := KindOf(part.None?, n == |data|);
    var e := Emit(crc, at, kind, data[..n]);
    EncodeUnfold(crc, at, data, part.None?);
    assert Under(file, at, e) by {
      if n < |data| { UnderParts(file, at, e, Encode(crc, at + |e|, data[n..], false)); }
    }
    PhysicalRoundTrip(crc, file, at, kind, data[..n]);
    LogicalStep(crc, file, at, part);
    if n == |data| {
      assert data[..n] == data;
    } else if at + |e| <= |file| {
      UnderParts(file, at, e, Encode(crc, at + |e|, data[n..], false));
      var part' := Some(Whole(part, data[..n]));
      assert Whole(part, data[..n]) + data[n..] == Whole(part, data);
      LogicalRoundTrip(crc, file, at + |e|, data[n..], part');
    }
  }

  /** The bytes of a log that starts at an offset. */
  function LogBytes(crc: Checksum, off: nat, records: seq<seq<byte>>): seq<byte>
    decreases |records|
  {
    if records == [] then []
    else
      var e := Encode(crc, off, records[0], true);
      e + LogBytes(crc, off + |e|, records[1..])
  }

  /** How many of the records end within the first `len` bytes. */
  function Complete(crc: Checksum, off: nat, records: seq<seq<byte>>, len: nat): (n: nat)
    ensures n <= |records|
    decreases |records|
  {
    if records == [] then 0
    else
      var end := off + |Encode(crc, off, records[0], true)|;
      if end <= len then 1 + Complete(crc, end, records[1..], len) else 0
  }

  /** Every record that can be read from an offset on, and the number of reported drops. */
  function ReadAll(crc: Checksum, file: seq<byte>, at: nat): (seq<seq<byte>>, nat)
    requires at <= |file|
    decreases |file| - at
  {
    var l := NextLogical(crc, file, at, None);
    if l.record.None? then ([], l.drops)
    else
      var rest := ReadAll(crc, file, l.next);
      ([l.record.value] + rest.0, l.drops + rest.1)
  }

  lemma {:induction false} CutLogReads(crc: Checksum, file: seq<byte>, at: nat, records: seq<seq<byte>>)
    requires Under(file, at, LogBytes(crc, at, records)) && |file| <= at + |LogBytes(crc, at, records)|
    ensures ReadAll(crc, file, at) == (records[..Complete(crc, at, records, |file|)], 0)
    decreases |records|
  {
    hide NextPhysical, NextLogical, Encode;
    if records == [] {
      AtTheEnd(crc, file, at);
    } else {
      var e := Encode(crc, at, records[0], true);
      var rest := LogBytes(crc, at + |e|, records[1..]);
      UnderParts(file, at, e, rest);
      LogicalRoundTrip(crc, file, at, records[0], None);
      if at + |e| <= |file| {
        CutLogReads(crc, file, at + |e|, records[1..]);
        var k := Complete(crc, at + |e|, records[1..], |file|);
        assert [records[0]] + records[1..][..k] == records[..k + 1];
      }
    }
  }

  lemma AtTheEnd(crc: Checksum, file: seq<byte>, at: nat)
    requires at == |file|
    ensures NextLogical(crc, file, at, None) == Logical(None, at, 0)
  {
    TruncatedHeader(crc, file, at);
  }

  /** Crash prefix: of a log cut anywhere, exactly the records that are wholly there are
      read, and nothing is reported as corrupt. */
  lemma CrashPrefix(crc: Checksum, records: seq<seq<byte>>, n: nat)
    requires n <= |LogBytes(crc, 0, records)|
    ensures ReadAll(crc, LogBytes(crc, 0, records)[..n], 0) == (records[..Complete(crc, 0, records, n)], 0)
  {
    CutLogReads(crc, LogBytes(crc, 0, records)[..n], 0, records);
  }

  lemma {:induction false} AllComplete(crc: Checksum, off: nat, records: seq<seq<byte>>)
    ensures Complete(crc, off, records, off + |LogBytes(crc, off, records)|) == |records|
    decreases |records|
  {
    hide Encode;
    if records != [] { AllComplete(crc, off + |Encode(crc, off, records[0], true)|, records[1..]); }
  }

  /** Round trip: a whole log reads back as the records that were written. */
  lemma RoundTrip(crc: Checksum, records: seq<seq<byte>>)
    ensures ReadAll(crc, LogBytes(crc, 0, records), 0) == (records, 0)
  {
    hide LogBytes, Complete, ReadAll;
    var all := LogBytes(crc, 0, records);
    AllComplete(crc, 0, records);
    CrashPrefix(crc, records, |all|);
    assert all[..|all|] == all && records[..|records|] == records;
  }

  // ---- the two ends together -----------------------------------------------------------------

  lemma {:induction false} LogBytesAppend(crc: Checksum, off: nat, records: seq<seq<byte>>, r: seq<byte>)
    ensures LogBytes(crc, off, records + [r])
         == LogBytes(crc, off, records) + Encode(crc, off + |LogBytes(crc, off, records)|, r, true)
    decreases |records|
  {
    hide Encode;
    if records == [] {
      assert (records + [r])[1..] == [];
    } else {
      var e := Encode(crc, off, records[0], true);
      assert (records + [r])[1..] == records[1..] + [r];
      LogBytesAppend(crc, off + |e|, records[1..], r);
    }
  }

  method WriteLog(crc: Checksum, records: seq<seq<byte>>) returns (file: seq<byte>)
    ensures file == LogBytes(crc, 0, records)
  {
    hide Encode;
    var w := new Writer(crc);
    for i := 0 to |records|
      invariant w.Valid() && fresh(w) && w.crc == crc && w.dest == LogBytes(crc, 0, records[..i])
    {
      LogBytesAppend(crc, 0, records[..i], records[i]);
      assert records[..i + 1] == records[..i] + [records[i]];
      w.AddRecord(records[i]);
    }
    assert records[..|records|] == records;
    file := w.dest;
  }

  lemma ReadAllStep(crc: Checksum, file: seq<byte>, at: nat)
    requires at <= |file|
    ensures var l := NextLogical(crc, file, at, None);
      if l.record.None? then ReadAll(crc, file, at) == ([], l.drops)
      else ReadAll(crc, file, at) == ([l.record.value] + ReadAll(crc, file, l.next).0, l.drops + ReadAll(crc, file, l.next).1)
  {
    hide NextLogical;
  }

  method ReadLog(crc: Checksum, file: seq<byte>) returns (records: seq<seq<byte>>, drops: nat)
    ensures records == ReadAll(crc, file, 0).0 && drops == ReadAll(crc, file, 0).1
  {
    hide NextLogical, NextPhysical, ReadAll;
    var reader := new Reader(crc, file);
    records := [];
    ghost var rest := ReadAll(crc, file, 0);
    while true
      invariant reader.Valid() && fresh(reader) && reader.file == file && reader.crc == crc
      invariant rest == ReadAll(crc, file, reader.At())
      invariant ReadAll(crc, file, 0).0 == records + rest.0 && ReadAll(crc, file, 0).1 == reader.drops + rest.1
      decreases |file| - reader.At()
    {
      ReadAllStep(crc, file, reader.At());
      var r := reader.ReadRecord();
      if r.None? {
        assert rest.0 == [] && records + [] == records;
        return records, reader.drops;
      }
      ghost var was := rest;
      rest := ReadAll(crc, file, reader.At());
      assert records + was.0 == (records + [r.value]) + rest.0;
      records := records + [r.value];
    }
  }

  /** What the reader makes of a written log that lost its tail in a crash. */
  method WriteCrashRead(crc: Checksum, records: seq<seq<byte>>, n: nat) returns (read: seq<seq<byte>>, drops: nat)
    requires n <= |LogBytes(crc, 0, records)|
    ensures read == records[..Complete(crc, 0, records, n)] && drops == 0
  {
    var file := WriteLog(crc, records);
    read, drops := ReadLog(crc, file[..n]);
    CrashPrefix(crc, records, n);
  }
}
