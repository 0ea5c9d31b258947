/** The encoder's two passes over one stream type (nanopb/pb_encode.c). */
module NanopbEncode {
  import opened Dbformat
  import opened Coding
  import opened Nanopb
  import opened NanopbFields

  datatype Status = Ok | StreamFull | ArrayTooLong | BytesTooLong | InvalidDataSize | SubmessageSizeChanged

  /** pb_ostream_t.  A stream without a callback only counts; `buffer` is what the callback of
      the others has been given. */
  class OStream {
    const sizing: bool
    const maxSize: nat
    var bytesWritten: nat
    var buffer: seq<byte>

    constructor (sizing: bool, maxSize: nat, buffer: seq<byte>)
      ensures this.sizing == sizing && this.maxSize == maxSize && this.buffer == buffer && bytesWritten == 0
    {
      this.sizing, this.maxSize, this.buffer := sizing, maxSize, buffer;
      bytesWritten := 0;
    }

    ghost predicate Valid()
      reads this
    {
      sizing || bytesWritten <= maxSize
    }

    ghost predicate Fits(s: seq<byte>)
      reads this
    {
      sizing || bytesWritten + |s| <= maxSize
    }

    /** `s` has gone out since the old state. */
    twostate predicate Wrote(s: seq<byte>)
      reads this
    {
      bytesWritten == old(bytesWritten) + |s| && buffer == if sizing then old(buffer) else old(buffer) + s
    }

    ghost function Out(): (nat, seq<byte>)
      reads this
    {
      (bytesWritten, buffer)
    }

    /** pb_write. */
    method Write(buf: seq<byte>) returns (r: Status)
      requires Valid()
      modifies this
      ensures Valid()
      ensures r.Ok? <==> old(Fits(buf))
      ensures r.Ok? ==> Wrote(buf)
      ensures r.Ok? || r.StreamFull?
    {
      if |buf| > 0 && !sizing {
        if bytesWritten + |buf| > maxSize { return StreamFull; }
        buffer := buffer + buf;
      }
      bytesWritten := bytesWritten + |buf|;
      return Ok;
    }

    /** pb_write of `count` bytes that a sizing stream does not look at. */
    method Count(count: nat)
      requires sizing
      modifies this
      ensures bytesWritten == old(bytesWritten) + count && buffer == old(buffer)
    {
      bytesWritten := bytesWritten + count;
    }
  }

  // ---- basic encoders ------------------------------------------------------------------------

  /** pb_encode_varint: the top bit goes on every byte, and comes off the last. */
  method EncodeVarint(stream: OStream, value: nat) returns (r: Status)
    requires stream.Valid()
    modifies stream
    ensures stream.Valid()
    ensures r.Ok? <==> old(stream.Fits(Varint(value)))
    ensures r.Ok? ==> stream.Wrote(Varint(value))
    ensures r.Ok? || r.StreamFull?
  {
    hide Varint;
    VarintUnfold(value);
    if value <= 0x7F {
      r := stream.Write([value]);
      return;
    }
    var buffer: seq<byte>, rest := [], value;
    var last: byte := 0;
    while rest != 0
      modifies {}
      invariant rest == value || |buffer| > 0
      invariant rest != 0 ==> buffer + Varint(rest) == Varint(value)
      invariant rest == 0 ==> |buffer| > 0 && buffer[|buffer| - 1] >= 128
      invariant rest == 0 ==> buffer[..|buffer| - 1] + [buffer[|buffer| - 1] - 128] == Varint(value)
    {
      VarintUnfold(rest);
      var b: byte := rest % 128 + 128;
      ghost var before := buffer;
      buffer := buffer + [b];
      assert buffer[..|buffer| - 1] == before;
      if rest >= 128 { assert buffer + Varint(rest / 128) == before + Varint(rest); }
      rest := rest / 128;
    }
    var top: byte := buffer[|buffer| - 1] - 128;
    r := stream.Write(buffer[..|buffer| - 1] + [top]);
  }

  /** pb_encode_string. */
  method EncodeString(stream: OStream, buf: seq<byte>) returns (r: Status)
    requires stream.Valid()
    modifies stream
    ensures stream.Valid()
    ensures r.Ok? <==> old(stream.Fits(Prefixed(buf)))
    ensures r.Ok? ==> stream.Wrote(Prefixed(buf))
    ensures r.Ok? || r.StreamFull?
  {
    hide Varint;
    r := EncodeVarint(stream, |buf|);
    if !r.Ok? { return; }
    assert stream.buffer + buf == if stream.sizing then old(stream.buffer) + buf else old(stream.buffer) + Prefixed(buf);
    r := stream.Write(buf);
  }

  /** pb_encode_fixed32 and pb_encode_fixed64: `n` bytes, the lowest first. */
  method EncodeFixed(stream: OStream, value: nat, n: nat) returns (r: Status)
    requires stream.Valid()
    modifies stream
    ensures stream.Valid()
    ensures r.Ok? <==> old(stream.Fits(LittleEndian(value, n)))
    ensures r.Ok? ==> stream.Wrote(LittleEndian(value, n))
    ensures r.Ok? && !stream.sizing ==>
              var start := |old(stream.buffer)|;
              && |stream.buffer| == start + n && stream.buffer[..start] == old(stream.buffer)
              && forall i: nat | i < n :: stream.buffer[start + i] == value / Pow256(i) % 256
    ensures r.Ok? || r.StreamFull?
  {
    hide LittleEndian, Pow256;
    forall i: nat | i < n ensures LittleEndian(value, n)[i] == value / Pow256(i) % 256 { LittleEndianAt(value, n, i); }
    r := stream.Write(LittleEndian(value, n));
  }

  /** pb_encode_tag_for_field. */
  method EncodeTagForField(stream: OStream, f: Field) returns (r: Status)
    requires stream.Valid()
    modifies stream
    ensures stream.Valid()
    ensures r.Ok? <==> old(stream.Fits(Key(f.tag, WireOf(f.ltype))))
    ensures r.Ok? ==> stream.Wrote(Key(f.tag, WireOf(f.ltype)))
    ensures r.Ok? || r.StreamFull?
  {
    r := EncodeVarint(stream, 8 * f.tag + WireOf(f.ltype));
  }

  // ---- fields and messages -----------------------------------------------------------------------

  /** The PB_ENCODERS of all types. */
  method EncodeBody(stream: OStream, l: LType, v: Data) returns (r: Status)
    requires stream.Valid()
    modifies stream
    ensures stream.Valid()
    ensures r.Ok? <==> CanEncode(l, v) && old(stream.Fits(Body(l, v)))
    ensures r.Ok? ==> stream.Wrote(Body(l, v))
    ensures !r.SubmessageSizeChanged? && (r.StreamFull? ==> !stream.sizing)
    decreases l, 0, 0
  {
    hide Varint, LittleEndian;
    match l {
      case Bool => r := EncodeVarint(stream, if NumOf(v) != 0 then 1 else 0);
      case VarInt(w) =>
        if !Width(w) { return InvalidDataSize; }
        r := EncodeVarint(stream, NumOf(v) % TWO64);
      case UVarInt(w) =>
        if !Width(w) { return InvalidDataSize; }
        r := EncodeVarint(stream, NumOf(v) % TWO64);
      case SVarInt(w) =>
        if !Width(w) { return InvalidDataSize; }
        r := EncodeVarint(stream, ZigZag(NumOf(v)) % TWO64);
      case Fix32 => r := EncodeFixed(stream, NumOf(v) % TWO32, 4);
      case Fix64 => r := EncodeFixed(stream, NumOf(v) % TWO64, 8);
      case Bytes(room) =>
        if |BlobOf(v)| > room { return BytesTooLong; }
        r := EncodeString(stream, BlobOf(v));
      case Text(_) => r := EncodeString(stream, BlobOf(v));
      case FixedBytes(_) => r := EncodeString(stream, BlobOf(v));
      case Sub(d) => r := EncodeSubmessage(stream, d, SlotsOf(v));
    }
  }

  /** pb_encode_submessage: the message is gone through once to count it, and once more, into a
      stream with room for just that many bytes, to write it. */
  method EncodeSubmessage(stream: OStream, d: Desc, slots: seq<Slot>) returns (r: Status)
    requires stream.Valid()
    modifies stream
    ensures stream.Valid()
    ensures r.Ok? <==> CanEncodeMessage(d, slots) && old(stream.Fits(Prefixed(MessageBytes(d, slots, 0))))
    ensures r.Ok? ==> stream.Wrote(Prefixed(MessageBytes(d, slots, 0)))
    ensures !r.SubmessageSizeChanged? && (r.StreamFull? ==> !stream.sizing)
    decreases d, 2, 0
  {
    hide Varint, MessageBytes, CanEncodeMessage;
    ghost var whole := MessageBytes(d, slots, 0);
    var substream := new OStream(true, 0, []);
    r := Encode(substream, d, slots);
    if !r.Ok? { return; }
    var size := substream.bytesWritten;
    r := EncodeVarint(stream, size);
    if !r.Ok? { return; }
    if stream.sizing {
      stream.Count(size);
      return;
    }
    if stream.bytesWritten + size > stream.maxSize { return StreamFull; }
    substream := new OStream(false, size, stream.buffer);
    r := Encode(substream, d, slots);
    assert r.Ok?;
    stream.bytesWritten := stream.bytesWritten + substream.bytesWritten;
    stream.buffer := substream.buffer;
    assert stream.buffer == old(stream.buffer) + Prefixed(whole);
    if substream.bytesWritten != size { return SubmessageSizeChanged; }
  }

  /** pb_encode. */
  method Encode(stream: OStream, d: Desc, slots: seq<Slot>) returns (r: Status)
    requires stream.Valid()
    modifies stream
    ensures stream.Valid()
    ensures r.Ok? <==> CanEncodeMessage(d, slots) && old(stream.Fits(MessageBytes(d, slots, 0)))
    ensures r.Ok? ==> stream.Wrote(MessageBytes(d, slots, 0))
    ensures !r.SubmessageSizeChanged? && (r.StreamFull? ==> !stream.sizing)
    decreases d, 1, 0
  {
    hide MessageBytes, FieldBytes, CanEncodeField, SlotOf, Remains;
    MessageUnfold(d, slots, 0);
    if d.fields == [] { return Ok; }
    var iter := new FieldIter(d);
    ghost var whole := MessageBytes(d, slots, 0);
    ghost var from := stream.Out();
    NothingWritten(stream.sizing, from, whole);
    var more := true;
    while more
      invariant fresh(iter) && iter.Valid() && iter.desc == d && stream.Valid()
      invariant more || iter.pos == 0
      invariant var i := if more then iter.pos else |d.fields|;
        && (forall j | 0 <= j < i :: CanEncodeField(d.fields[j], At(d, slots, j)))
        && Remains(stream.sizing, from, whole, stream.Out(), MessageBytes(d, slots, i))
      decreases if more then |d.fields| - iter.pos else 0
    {
      var i := iter.pos;
      MessageUnfold(d, slots, i);
      ghost var mine := FieldBytes(d.fields[i], At(d, slots, i));
      ghost var left := MessageBytes(d, slots, i + 1);
      ghost var before := stream.Out();
      StillFits(stream.sizing, from, whole, before, mine, left);
      r := EncodeField(stream, d.fields[i], At(d, slots, i));
      if !r.Ok? { return; }
      RemainsOn(stream.sizing, from, whole, before, mine, left, stream.Out());
      more := iter.Next();
    }
    MessageUnfold(d, slots, |d.fields|);
    AllWritten(stream.sizing, from, whole, stream.Out());
    return Ok;
  }

  lemma MessageUnfold(d: Desc, slots: seq<Slot>, i: nat)
    requires i <= |d.fields|
    ensures MessageBytes(d, slots, i)
      == if i == |d.fields| then [] else FieldBytes(d.fields[i], At(d, slots, i)) + MessageBytes(d, slots, i + 1)
  {}

  /** encode_basic_field. */
  method EncodeField(stream: OStream, f: Field, s: Slot) returns (r: Status)
    requires stream.Valid()
    modifies stream
    ensures stream.Valid()
    ensures r.Ok? <==> CanEncodeField(f, s) && old(stream.Fits(FieldBytes(f, s)))
    ensures r.Ok? ==> stream.Wrote(FieldBytes(f, s))
    ensures !r.SubmessageSizeChanged? && (r.StreamFull? ==> !stream.sizing)
    decreases f, 2, 0
  {
    hide Body, CanEncode, Key, PackedBytes, UnpackedBytes, IsZero;
    match f.htype {
      case Required => r := EncodeOne(stream, f, ValueOf(s));
      case Optional => if s.Maybe? && s.has { r := EncodeOne(stream, f, ValueOf(s)); } else { r := Ok; }
      case Singular => if !IsZero(f, s) { r := EncodeOne(stream, f, ValueOf(s)); } else { r := Ok; }
      case OneOf(_) => if s.Which? && s.tag == f.tag { r := EncodeOne(stream, f, ValueOf(s)); } else { r := Ok; }
      case Repeated(most) => r := EncodeArray(stream, f, most, ItemsOf(s));
    }
  }

  method EncodeOne(stream: OStream, f: Field, v: Data) returns (r: Status)
    requires stream.Valid()
    modifies stream
    ensures stream.Valid()
    ensures r.Ok? <==> CanEncode(f.ltype, v) && old(stream.Fits(Key(f.tag, WireOf(f.ltype)) + Body(f.ltype, v)))
    ensures r.Ok? ==> stream.Wrote(Key(f.tag, WireOf(f.ltype)) + Body(f.ltype, v))
    ensures !r.SubmessageSizeChanged? && (r.StreamFull? ==> !stream.sizing)
    decreases f, 0, 0
  {
    hide Body, CanEncode, Key;
    r := EncodeTagForField(stream, f);
    if !r.Ok? { return; }
    ghost var key := stream.buffer;
    r := EncodeBody(stream, f.ltype, v);
    assert old(stream.buffer) + Key(f.tag, WireOf(f.ltype)) + Body(f.ltype, v)
      == old(stream.buffer) + (Key(f.tag, WireOf(f.ltype)) + Body(f.ltype, v));
  }

  /** encode_array. */
  method EncodeArray(stream: OStream, f: Field, most: nat, vs: seq<Data>) returns (r: Status)
    requires stream.Valid() && f.htype == Repeated(most)
    modifies stream
    ensures stream.Valid()
    ensures r.Ok? <==> CanEncodeField(f, Many(vs)) && old(stream.Fits(FieldBytes(f, Many(vs))))
    ensures r.Ok? ==> stream.Wrote(FieldBytes(f, Many(vs)))
    ensures !r.SubmessageSizeChanged? && (r.StreamFull? ==> !stream.sizing)
    decreases f, 1, 0
  {
    hide Body, CanEncode, PackedBytes, UnpackedBytes, Varint;
    if |vs| == 0 { return Ok; }
    if |vs| > most { return ArrayTooLong; }
    ghost var can := forall v | v in vs :: CanEncode(f.ltype, v);
    if Packable(f.ltype) {
      r := EncodePacked(stream, f.tag, f.ltype, vs);
    } else {
      r := EncodeEntries(stream, f, vs);
    }
  }

  /** The part of encode_array for types that pack: the size is worked out first, by a shortcut
      or by a sizing pass over the entries. */
  method EncodePacked(stream: OStream, tag: nat, l: LType, vs: seq<Data>) returns (r: Status)
    requires stream.Valid() && Packable(l)
    modifies stream
    ensures stream.Valid()
    ensures r.Ok? <==> (forall v | v in vs :: CanEncode(l, v)) && old(stream.Fits(Key(tag, 2) + Prefixed(PackedBytes(l, vs))))
    ensures r.Ok? ==> stream.Wrote(Key(tag, 2) + Prefixed(PackedBytes(l, vs)))
    ensures !r.SubmessageSizeChanged? && (r.StreamFull? ==> !stream.sizing)
    decreases l, 2, 0
  {
    hide Body, CanEncode, PackedBytes, Varint, Packable;
    r := EncodeVarint(stream, 8 * tag + 2);
    if !r.Ok? { return; }
    var size;
    r, size := PackedSize(l, vs);
    if !r.Ok? { return; }
    ghost var packed := PackedBytes(l, vs);
    r := EncodeVarint(stream, size);
    if !r.Ok? { return; }
    if stream.sizing {
      stream.Count(size);
      return;
    }
    r := EncodeItems(stream, l, vs);
    assert old(stream.buffer) + Key(tag, 2) + Varint(size) + packed == old(stream.buffer) + (Key(tag, 2) + Prefixed(packed));
  }

  /** The total size of a packed array. */
  method PackedSize(l: LType, vs: seq<Data>) returns (r: Status, size: nat)
    requires Packable(l)
    ensures r.Ok? <==> forall v | v in vs :: CanEncode(l, v)
    ensures r.Ok? ==> size == |PackedBytes(l, vs)|
    ensures !r.SubmessageSizeChanged? && !r.StreamFull?
    decreases l, 1, 1
  {
    hide CanEncode, PackedBytes, Packable;
    if l.Fix32? {
      PackedFixed(l, vs, 4);
      return Ok, 4 * |vs|;
    }
    if l.Fix64? {
      PackedFixed(l, vs, 8);
      return Ok, 8 * |vs|;
    }
    var sizestream := new OStream(true, 0, []);
    r := EncodeItems(sizestream, l, vs);
    size := sizestream.bytesWritten;
  }

  lemma Regroup(a: seq<byte>, b: seq<byte>, c: seq<byte>)
    ensures (a + b) + c == a + (b + c)
  {}

  /** Of `whole`, all but `left` has gone out. */
  ghost predicate Remains(sizing: bool, from: (nat, seq<byte>), whole: seq<byte>, now: (nat, seq<byte>), left: seq<byte>) {
    now.0 + |left| == from.0 + |whole| && if sizing then now.1 == from.1 else now.1 + left == from.1 + whole
  }

  lemma NothingWritten(sizing: bool, from: (nat, seq<byte>), whole: seq<byte>)
    ensures Remains(sizing, from, whole, from, whole)
  {}

  lemma StillFits(sizing: bool, from: (nat, seq<byte>), whole: seq<byte>, now: (nat, seq<byte>), mine: seq<byte>, left: seq<byte>)
    requires Remains(sizing, from, whole, now, mine + left)
    ensures now.0 + |mine| <= from.0 + |whole|
  {}

  lemma RemainsOn(sizing: bool, from: (nat, seq<byte>), whole: seq<byte>, now: (nat, seq<byte>), mine: seq<byte>, left: seq<byte>,
                  next: (nat, seq<byte>))
    requires Remains(sizing, from, whole, now, mine + left)
    requires next.0 == now.0 + |mine| && next.1 == if sizing then now.1 else now.1 + mine
    ensures Remains(sizing, from, whole, next, left)
  {
    Regroup(now.1, mine, left);
  }

  lemma AllWritten(sizing: bool, from: (nat, seq<byte>), whole: seq<byte>, now: (nat, seq<byte>))
    requires Remains(sizing, from, whole, now, [])
    ensures now.0 == from.0 + |whole| && now.1 == if sizing then from.1 else from.1 + whole
  {
    assert now.1 + [] == now.1;
  }

  lemma PackedUnfold(l: LType, vs: seq<Data>, i: nat)
    requires i <= |vs|
    ensures PackedBytes(l, vs[i..]) == if i == |vs| then [] else Body(l, vs[i]) + PackedBytes(l, vs[i + 1..])
  {
    if i < |vs| { assert vs[i..][1..] == vs[i + 1..]; }
  }

  lemma UnpackedUnfold(f: Field, vs: seq<Data>, i: nat)
    requires i <= |vs|
    ensures UnpackedBytes(f, vs[i..])
      == if i == |vs| then [] else Key(f.tag, WireOf(f.ltype)) + Body(f.ltype, vs[i]) + UnpackedBytes(f, vs[i + 1..])
  {
    if i < |vs| { assert vs[i..][1..] == vs[i + 1..]; }
  }

  /** The shortcuts for arrays of fixed-size numbers count right. */
  lemma {:induction false} PackedFixed(l: LType, vs: seq<Data>, n: nat)
    requires (l.Fix32? && n == 4) || (l.Fix64? && n == 8)
    ensures |PackedBytes(l, vs)| == n * |vs| && forall v | v in vs :: CanEncode(l, v)
  {
    if vs != [] { PackedFixed(l, vs[1..], n); }
  }

  /** The loop over the entries of a packed array. */
  method EncodeItems(stream: OStream, l: LType, vs: seq<Data>) returns (r: Status)
    requires stream.Valid()
    modifies stream
    ensures stream.Valid()
    ensures r.Ok? <==> (forall v | v in vs :: CanEncode(l, v)) && old(stream.Fits(PackedBytes(l, vs)))
    ensures r.Ok? ==> stream.Wrote(PackedBytes(l, vs))
    ensures !r.SubmessageSizeChanged? && (r.StreamFull? ==> !stream.sizing)
    decreases l, 1, 0
  {
    hide Body, CanEncode, PackedBytes, Remains;
    ghost var whole := PackedBytes(l, vs);
    ghost var from := stream.Out();
    NothingWritten(stream.sizing, from, whole);
    assert vs[0..] == vs;
    var i := 0;
    while i < |vs|
      invariant i <= |vs| && stream.Valid()
      invariant forall v | v in vs[..i] :: CanEncode(l, v)
      invariant Remains(stream.sizing, from, whole, stream.Out(), PackedBytes(l, vs[i..]))
    {
      PackedUnfold(l, vs, i);
      ghost var before := stream.Out();
      assert vs[i] in vs;
      StillFits(stream.sizing, from, whole, before, Body(l, vs[i]), PackedBytes(l, vs[i + 1..]));
      r := EncodeBody(stream, l, vs[i]);
      if !r.Ok? { return; }
      RemainsOn(stream.sizing, from, whole, before, Body(l, vs[i]), PackedBytes(l, vs[i + 1..]), stream.Out());
      assert vs[..i + 1] == vs[..i] + [vs[i]];
      i := i + 1;
    }
    PackedUnfold(l, vs, i);
    assert vs[..i] == vs;
    AllWritten(stream.sizing, from, whole, stream.Out());
    return Ok;
  }

  /** The loop over the entries of an array that is not packed. */
  method EncodeEntries(stream: OStream, f: Field, vs: seq<Data>) returns (r: Status)
    requires stream.Valid()
    modifies stream
    ensures stream.Valid()
    ensures r.Ok? <==> (forall v | v in vs :: CanEncode(f.ltype, v)) && old(stream.Fits(UnpackedBytes(f, vs)))
    ensures r.Ok? ==> stream.Wrote(UnpackedBytes(f, vs))
    ensures !r.SubmessageSizeChanged? && (r.StreamFull? ==> !stream.sizing)
    decreases f, 0, 1
  {
    hide Body, CanEncode, UnpackedBytes, Key, Remains;
    ghost var whole := UnpackedBytes(f, vs);
    ghost var from := stream.Out();
    NothingWritten(stream.sizing, from, whole);
    assert vs[0..] == vs;
    var i := 0;
    while i < |vs|
      invariant i <= |vs| && stream.Valid()
      invariant forall v | v in vs[..i] :: CanEncode(f.ltype, v)
      invariant Remains(stream.sizing, from, whole, stream.Out(), UnpackedBytes(f, vs[i..]))
    {
      UnpackedUnfold(f, vs, i);
      ghost var before := stream.Out();
      ghost var mine := Key(f.tag, WireOf(f.ltype)) + Body(f.ltype, vs[i]);
      assert vs[i] in vs;
      StillFits(stream.sizing, from, whole, before, mine, UnpackedBytes(f, vs[i + 1..]));
      r := EncodeOne(stream, f, vs[i]);
      if !r.Ok? { return; }
      RemainsOn(stream.sizing, from, whole, before, mine, UnpackedBytes(f, vs[i + 1..]), stream.Out());
      assert vs[..i + 1] == vs[..i] + [vs[i]];
      i := i + 1;
    }
    UnpackedUnfold(f, vs, i);
    assert vs[..i] == vs;
    AllWritten(stream.sizing, from, whole, stream.Out());
    return Ok;
  }

  /** pb_get_encoded_size. */
  method GetEncodedSize(d: Desc, slots: seq<Slot>) returns (r: Status, size: nat)
    ensures r.Ok? <==> CanEncodeMessage(d, slots)
    ensures r.Ok? ==> size == |MessageBytes(d, slots, 0)|
  {
    var stream := new OStream(true, 0, []);
    r := Encode(stream, d, slots);
    size := stream.bytesWritten;
  }
}
