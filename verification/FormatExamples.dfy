/** The formats as bytes, so that writer and reader cannot err together: the layouts that
    files and messages in the field have. */
module FormatExamples {
  import opened Dbformat
  import opened Coding
  import B = Block
  import L = LogFormat
  import N = Nanopb
  import V = VersionEditCodec
  import W = WriteBatchRep

  lemma Small(n: nat)
    requires n < 128
    ensures Varint(n) == [n]
  {}

  // ---- the log (db/log_format.h, db/log_writer.cc) -----------------------------------------

  /** Checksum, length in two bytes with the low one first, kind, data. */
  function LogRecord(crc: L.Checksum, kind: byte, data: seq<byte>): seq<byte>
    requires |data| <= 32761
  {
    var c := crc([kind] + data);
    [c.0, c.1, c.2, c.3, |data| % 256, |data| / 256, kind] + data
  }

  /** At the start of a block of 32768 bytes: what fits is one fragment, of kind 1 or, at the end
      of a longer record, 4; what does not fills the block, with kind 2 at first and then 3. */
  lemma LogBytes(crc: L.Checksum, off: nat, data: seq<byte>, begin: bool)
    requires off % 32768 == 0
    ensures |data| <= 32761 ==> L.Encode(crc, off, data, begin) == LogRecord(crc, if begin then 1 else 4, data)
    ensures |data| > 32761 ==>
              L.Encode(crc, off, data, begin)
                == LogRecord(crc, if begin then 2 else 3, data[..32761]) + L.Encode(crc, off + 32768, data[32761..], false)
  {
    hide L.Encode, L.Emit, LogRecord;
    L.EncodeUnfold(crc, off, data, begin);
    assert L.Avail(off) == 32761;
    var n := L.FragmentLength(off, data);
    Fragment(crc, off, L.KindOf(begin, n == |data|), data[..n]);
    assert n == |data| ==> data[..n] == data;
    assert |L.Emit(crc, off, L.KindOf(begin, n == |data|), data[..n])| == 7 + n;
  }

  lemma Fragment(crc: L.Checksum, off: nat, kind: byte, data: seq<byte>)
    requires off % 32768 == 0 && |data| <= 32761
    ensures L.Emit(crc, off, kind, data) == LogRecord(crc, kind, data)
  {
    assert L.Zeros(0) == [];
    assert [] + L.Header(crc, kind, data) == L.Header(crc, kind, data);
  }

  // ---- tables (table/block_builder.cc) -------------------------------------------------------

  /** Two entries of a block, the second without the byte its key shares, one restart and their number. */
  lemma BlockBytes(a: byte, b: byte, x: byte, y: byte)
    ensures B.Built(16, [B.KV([a], [x]), B.KV([a, b], [y])])
      == [0, 1, 1, a, x, 1, 1, 1, b, y, 0, 0, 0, 0, 1, 0, 0, 0]
  {
    hide Varint, B.Packed, B.EntryBytes, B.RestartsOf, B.Common, Fixed32;
    var e, f := B.KV([a], [x]), B.KV([a, b], [y]);
    B.PackedOn(16, [], e);
    B.PackedOn(16, [e], f);
    assert [] + [e] == [e] && [e] + [f] == [e, f];
    B.CommonIs([a], [a, b], 1);
    assert B.Packed(16, []) == [] by { Nothing(); }
    EntriesAre(a, b, x, y);
    OneRestart();
  }

  lemma Nothing()
    ensures B.Packed(16, []) == []
  {}

  lemma EntriesAre(a: byte, b: byte, x: byte, y: byte)
    ensures B.EntryBytes(0, B.KV([a], [x])) == [0, 1, 1, a, x] && B.EntryBytes(1, B.KV([a, b], [y])) == [1, 1, 1, b, y]
  {
    hide Varint;
    Small(0);
    Small(1);
    assert [a, b][1..] == [b] && [a][0..] == [a];
  }

  lemma OneRestart()
    ensures B.Fixed32s([0]) == [0, 0, 0, 0] && Fixed32(1) == [1, 0, 0, 0]
  {
    assert [0][..0] == [];
    assert B.Fixed32s([]) == [];
  }

  // ---- the manifest (db/version_edit.cc) ---------------------------------------------------------

  /** The tags of the manifest's fields. */
  lemma EditBytes(level: nat, n: nat, k: byte)
    requires level < 128 && n < 128
    ensures V.Bytes(V.Comparator([k])) == [1, 1, k] && V.Bytes(V.LogNumber(n)) == [2, n]
    ensures V.Bytes(V.NextFileNumber(n)) == [3, n] && V.Bytes(V.LastSequence(n)) == [4, n]
    ensures V.Bytes(V.CompactPointer(level, [k])) == [5, level, 1, k] && V.Bytes(V.DeletedFile(level, n)) == [6, level, n]
    ensures V.Bytes(V.PrevLogNumber(n)) == [9, n]
  {
    hide Varint;
    Digits();
    Small(n);
    Small(level);
  }

  lemma NewFileBytes(level: nat, n: nat, z: nat, k: byte, l: byte)
    requires level < 128 && n < 128 && z < 128
    ensures V.Bytes(V.NewFile(level, V.Meta(n, z, [k], [l]))) == [7, level, n, z, 1, k, 1, l]
  {
    hide Varint;
    Small(1);
    Small(7);
    Small(level);
    Small(n);
    Small(z);
  }

  lemma Digits()
    ensures Varint(1) == [1] && Varint(2) == [2] && Varint(3) == [3] && Varint(4) == [4] && Varint(5) == [5]
    ensures Varint(6) == [6] && Varint(9) == [9]
  {}

  // ---- write batches (db/write_batch.cc) -----------------------------------------------------------

  /** Sequence number, count, a put and a deletion. */
  lemma BatchBytes(k: byte, v: byte, d: byte)
    ensures W.Header(0x0203, 2) + W.Data([W.PutItem([k], [v]), W.DeleteItem([d])])
      == [3, 2, 0, 0, 0, 0, 0, 0, 2, 0, 0, 0] + [1, 1, k, 1, v, 0, 1, d]
  {
    hide LittleEndian, Varint, W.ItemBytes;
    Places(0x0203);
    Places(2);
    Small(1);
    var put, delete := W.PutItem([k], [v]), W.DeleteItem([d]);
    assert [put, delete][1..] == [delete] && [delete][1..] == [];
    assert W.Data([]) == [];
    assert W.Data([delete]) == W.ItemBytes(delete) + W.Data([]);
    ItemsAre(k, v, d);
  }

  lemma ItemsAre(k: byte, v: byte, d: byte)
    ensures W.ItemBytes(W.PutItem([k], [v])) == [1, 1, k, 1, v] && W.ItemBytes(W.DeleteItem([d])) == [0, 1, d]
  {
    hide Varint;
    Small(1);
  }

  lemma Places(v: nat)
    requires v < 65536
    ensures LittleEndian(v, 8) == [v % 256, v / 256, 0, 0, 0, 0, 0, 0]
    ensures v < 256 ==> LittleEndian(v, 4) == [v, 0, 0, 0]
  {
    assert LittleEndian(0, 1) == [0] + LittleEndian(0, 0);
    assert LittleEndian(0, 2) == [0] + LittleEndian(0, 1);
    assert LittleEndian(0, 3) == [0] + LittleEndian(0, 2);
    assert LittleEndian(0, 4) == [0] + LittleEndian(0, 3);
    assert LittleEndian(0, 5) == [0] + LittleEndian(0, 4);
    assert LittleEndian(0, 6) == [0] + LittleEndian(0, 5);
    assert LittleEndian(v / 256, 7) == [v / 256] + LittleEndian(0, 6);
  }

  // ---- nanopb (nanopb/pb_encode.c, with the wire types of nanopb/pb.h) ------------------------------

  function OfType(tag: nat, l: N.LType, v: N.Data): seq<byte> { N.FieldBytes(N.Field(tag, N.Required, l, v), N.One(v)) }

  /** One field of each wire type: varints, zig-zag varints, eight bytes, bytes with a length, four bytes. */
  lemma FieldBytes(tag: nat, n: nat, s: seq<byte>)
    requires 0 < tag < 16 && n < 64 && |s| < 128
    ensures OfType(tag, N.VarInt(4), N.Num(n)) == [8 * tag, n] && OfType(tag, N.Bool, N.Num(1)) == [8 * tag, 1]
    ensures OfType(tag, N.SVarInt(4), N.Num(n)) == [8 * tag, 2 * n]
    ensures n > 0 ==> OfType(tag, N.SVarInt(4), N.Num(0 - n)) == [8 * tag, 2 * n - 1]
    ensures OfType(tag, N.Fix64, N.Num(n)) == [8 * tag + 1, n, 0, 0, 0, 0, 0, 0, 0]
    ensures OfType(tag, N.Bytes(128), N.Blob(s)) == [8 * tag + 2, |s|] + s
    ensures OfType(tag, N.Fix32, N.Num(n)) == [8 * tag + 5, n, 0, 0, 0]
  {
    hide Varint, LittleEndian;
    Small(8 * tag);
    Small(8 * tag + 1);
    Small(8 * tag + 2);
    Small(8 * tag + 5);
    Small(1);
    Small(n);
    Small(2 * n);
    Small(|s|);
    assert N.ZigZag(n) == 2 * n && (n > 0 ==> N.ZigZag(0 - n) == 2 * n - 1);
    if n > 0 { Small(2 * n - 1); }
    Places(n);
    assert N.Body(N.VarInt(4), N.Num(n)) == [n] && N.Body(N.Bool, N.Num(1)) == [1];
    assert N.Body(N.SVarInt(4), N.Num(n)) == [2 * n] && (n > 0 ==> N.Body(N.SVarInt(4), N.Num(0 - n)) == [2 * n - 1]);
    assert N.Body(N.Fix64, N.Num(n)) == [n, 0, 0, 0, 0, 0, 0, 0] && N.Body(N.Fix32, N.Num(n)) == [n, 0, 0, 0];
    assert N.Body(N.Bytes(128), N.Blob(s)) == [|s|] + s;
  }

  /** Minus one as an int32 takes ten bytes; a packed array has one key and one length. */
  lemma MinusOneAndPacked(tag: nat)
    requires 0 < tag < 16
    ensures OfType(tag, N.VarInt(4), N.Num(-1)) == [8 * tag, 255, 255, 255, 255, 255, 255, 255, 255, 255, 1]
    ensures N.FieldBytes(N.Field(tag, N.Repeated(4), N.UVarInt(4), N.Num(0)), N.Many([N.Num(3), N.Num(270)]))
      == [8 * tag + 2, 3, 3, 0x8E, 0x02]
  {
    hide Varint;
    Small(8 * tag);
    Small(8 * tag + 2);
    Small(3);
    MinusOne();
    assert N.Body(N.VarInt(4), N.Num(-1)) == Varint(0xFFFF_FFFF_FFFF_FFFF);
    VarintUnfold(270);
    Small(2);
    var vs := [N.Num(3), N.Num(270)];
    assert vs[1..] == [N.Num(270)] && vs[1..][1..] == [];
    assert N.Body(N.UVarInt(4), N.Num(3)) == [3] && N.Body(N.UVarInt(4), N.Num(270)) == [0x8E, 0x02];
    assert N.PackedBytes(N.UVarInt(4), []) == [];
    assert N.PackedBytes(N.UVarInt(4), [N.Num(270)]) == [0x8E, 0x02];
    assert N.PackedBytes(N.UVarInt(4), vs) == [3, 0x8E, 0x02];
  }

  lemma MinusOne()
    ensures -1 % TWO64 == 0xFFFF_FFFF_FFFF_FFFF
    ensures Varint(0xFFFF_FFFF_FFFF_FFFF) == [255, 255, 255, 255, 255, 255, 255, 255, 255, 1]
  {
    hide Varint;
    VarintUnfold(0xFFFF_FFFF_FFFF_FFFF);
    VarintUnfold(0x1FF_FFFF_FFFF_FFFF);
    VarintUnfold(0x3_FFFF_FFFF_FFFF);
    VarintUnfold(0x7FF_FFFF_FFFF);
    VarintUnfold(0xF_FFFF_FFFF);
    VarintUnfold(0x1FFF_FFFF);
    VarintUnfold(0x3F_FFFF);
    VarintUnfold(0x7FFF);
    VarintUnfold(0xFF);
    VarintUnfold(1);
  }
}
