/** The decoder (nanopb/pb_decode.c): each routine against what NanopbWire makes of the bytes. */
module NanopbDecode {
  import opened Dbformat
  import opened Coding
  import opened Nanopb
  import opened NanopbFields
  import opened NanopbWire

  /** pb_istream_t over a buffer; `pos` stands for the state pointer. */
  class IStream {
    const source: seq<byte>
    var pos: nat
    var bytesLeft: nat

    constructor (source: seq<byte>, pos: nat, bytesLeft: nat)
      ensures this.source == source && this.pos == pos && this.bytesLeft == bytesLeft
    {
      this.source, this.pos, this.bytesLeft := source, pos, bytesLeft;
    }

    ghost predicate Valid()
      reads this
    {
      pos + bytesLeft <= |source|
    }

    ghost function Left(): seq<byte>
      requires Valid()
      reads this
    {
      source[pos..pos + bytesLeft]
    }

    /** The stream still ends where it did, and `rest` is left of it. */
    twostate predicate Took(rest: seq<byte>)
      requires old(Valid())
      reads this
    {
      Valid() && pos + bytesLeft == old(pos + bytesLeft) && Left() == rest
    }

    /** pb_read into a buffer, or past the bytes. */
    method Read(count: nat) returns (ok: bool, buf: seq<byte>)
      requires Valid()
      modifies this
      ensures Valid()
      ensures var r := Take(old(Left()), count);
              ok == r.Some? && (ok ==> buf == r.value.0 && Took(r.value.1))
    {
      if bytesLeft < count { return false, []; }
      buf := source[pos..pos + count];
      pos, bytesLeft := pos + count, bytesLeft - count;
      return true, buf;
    }

    /** pb_readbyte. */
    method ReadByte() returns (ok: bool, b: byte)
      requires Valid()
      modifies this
      ensures Valid()
      ensures ok <==> old(Left()) != []
      ensures ok ==> b == old(Left())[0] && Took(old(Left())[1..])
    {
      if bytesLeft == 0 { return false, 0; }
      b := source[pos];
      pos, bytesLeft := pos + 1, bytesLeft - 1;
      return true, b;
    }
  }

  /** pb_decode_varint32_eof; `k` is bitpos / 7.  The bits put in are above those already there. */
  method DecodeVarint32(stream: IStream) returns (ok: bool, dest: nat)
    requires stream.Valid()
    modifies stream
    ensures stream.Valid()
    ensures var r := Read32(old(stream.Left()), 0, 0);
            ok == r.Some? && (ok ==> dest == r.value.0 && stream.Took(r.value.1))
  {
    hide Read32, Pow128, IsSuffix;
    ghost var all := Read32(stream.Left(), 0, 0);
    ghost var end := stream.pos + stream.bytesLeft;
    Read32Unfold(stream.Left(), 0, 0);
    Pow128Zero();
    dest := 0;
    var b: byte;
    ok, b := stream.ReadByte();
    if !ok { return; }
    if b < 128 {
      return true, b;
    }
    var k: nat, result: nat := 1, b % 128;
    while true
      invariant stream.Valid() && stream.pos + stream.bytesLeft == end
      invariant k >= 1 && result < TWO32 && all == Read32(stream.Left(), k, result)
      decreases stream.bytesLeft
    {
      Read32Unfold(stream.Left(), k, result);
      ok, b := stream.ReadByte();
      if !ok { return; }
      if k >= 5 {
        if b % 128 != 0 && (result < 0x8000_0000 || b != SignByte(k)) { return false, 0; }
      } else {
        result := (result + b % 128 * Pow128(k)) % TWO32;
      }
      k := k + 1;
      if b < 128 { break; }
    }
    if k == 5 && b % 128 >= 16 { return false, 0; }
    return true, result;
  }

  lemma Pow128Zero()
    ensures Pow128(0) == 1
  {}

  lemma VarintStep(s: seq<byte>, k: nat, low: nat, whole: nat, scale: nat)
    requires s != [] && k < 10 && low == s[0] % 128
    ensures Scaled(ReadVarint(s, 10 - k), whole, scale)
      == if s[0] < 128 then Some((whole + low * scale, s[1..]))
         else Scaled(ReadVarint(s[1..], 10 - (k + 1)), whole + low * scale, scale * 128)
  {
    hide ReadVarint;
    ReadVarintUnfold(s, 10 - k);
    if s[0] >= 128 { ScaledOn(ReadVarint(s[1..], 10 - (k + 1)), low, whole, scale); }
  }

  lemma NoVarint(s: seq<byte>, k: nat, whole: nat, scale: nat)
    requires k <= 10 && (s == [] || k == 10)
    ensures Scaled(ReadVarint(s, 10 - k), whole, scale) == None
  {}

  lemma ScaledOnce(r: Option<(nat, seq<byte>)>)
    ensures Scaled(r, 0, 1) == r
  {}

  lemma SumMod(a: nat, b: nat)
    ensures (a % TWO64 + b) % TWO64 == (a + b) % TWO64
  {
    var q := a / TWO64;
    assert a % TWO64 + b == a + b + (0 - q) * TWO64;
    SameMod(a + b, 0 - q);
  }

  lemma SameMod(x: int, q: int)
    ensures (x + q * TWO64) % TWO64 == x % TWO64
  {}

  /** pb_decode_varint; bits shifted past the 64th are lost. */
  method DecodeVarint(stream: IStream) returns (ok: bool, dest: nat)
    requires stream.Valid()
    modifies stream
    ensures stream.Valid()
    ensures var r := GetVarint64(old(stream.Left()));
            ok == r.Some? && (ok ==> dest == r.value.0 && stream.Took(r.value.1))
  {
    hide ReadVarint, Scaled;
    ghost var all := ReadVarint(stream.Left(), 10);
    ScaledOnce(all);
    ghost var end := stream.pos + stream.bytesLeft;
    ghost var whole: nat := 0;
    var k: nat, result: nat, scale: nat := 0, 0, 1;
    while true
      invariant stream.Valid() && stream.pos + stream.bytesLeft == end
      invariant k <= 10 && result == whole % TWO64
      invariant all == Scaled(ReadVarint(stream.Left(), 10 - k), whole, scale)
      decreases stream.bytesLeft
    {
      ghost var left := stream.Left();
      if k >= 10 || left == [] { NoVarint(left, k, whole, scale); }
      if k >= 10 { return false, 0; }
      var b: byte;
      ok, b := stream.ReadByte();
      if !ok { return false, 0; }
      var low := b % 128;
      VarintStep(left, k, low, whole, scale);
      SumMod(whole, low * scale);
      result := (result + low * scale) % TWO64;
      whole := whole + low * scale;
      scale := scale * 128;
      k := k + 1;
      if b < 128 { break; }
    }
    return true, result;
  }

  // ---- skipping -----------------------------------------------------------------------------------

  /** pb_skip_varint. */
  method DecodeSkipVarint(stream: IStream) returns (ok: bool)
    requires stream.Valid()
    modifies stream
    ensures stream.Valid()
    ensures var r := SkipVarint(old(stream.Left()));
            ok == r.Some? && (ok ==> stream.Took(r.value))
  {
    ghost var all := SkipVarint(stream.Left());
    ghost var end := stream.pos + stream.bytesLeft;
    while true
      invariant stream.Valid() && stream.pos + stream.bytesLeft == end && all == SkipVarint(stream.Left())
      decreases stream.bytesLeft
    {
      var b: byte;
      ok, b := stream.ReadByte();
      if !ok || b < 128 { return; }
    }
  }

  /** A length and as many bytes: pb_skip_string, and the strings of the field decoders. */
  method DecodeString(stream: IStream, most: nat, bounded: bool) returns (ok: bool, str: seq<byte>)
    requires stream.Valid()
    modifies stream
    ensures stream.Valid()
    ensures var r := TakeString(old(stream.Left()));
            ok == (r.Some? && (bounded ==> |r.value.0| <= most)) && (ok ==> str == r.value.0 && stream.Took(r.value.1))
  {
    hide Read32, IsSuffix;
    var len;
    str := [];
    ok, len := DecodeVarint32(stream);
    if !ok { return; }
    if bounded && len > most { return false, []; }
    ok, str := stream.Read(len);
  }

  /** pb_skip_field. */
  method SkipField(stream: IStream, wire: nat) returns (ok: bool)
    requires stream.Valid()
    modifies stream
    ensures stream.Valid()
    ensures var r := Skip(old(stream.Left()), wire);
            ok == r.Some? && (ok ==> stream.Took(r.value))
    ensures ok && (wire == 1 || wire == 5) ==> stream.pos == old(stream.pos) + if wire == 1 then 8 else 4
    ensures ok ==> wire == 0 || wire == 1 || wire == 2 || wire == 5
  {
    hide TakeString, SkipVarint, IsSuffix;
    var skipped: seq<byte>;
    if wire == 0 {
      ok := DecodeSkipVarint(stream);
    } else if wire == 1 {
      ok, skipped := stream.Read(8);
    } else if wire == 2 {
      ok, skipped := DecodeString(stream, 0, false);
    } else if wire == 5 {
      ok, skipped := stream.Read(4);
    } else {
      ok := false;
    }
  }

  /** pb_decode_tag; `eof` is set by a zero key. */
  method DecodeTag(stream: IStream) returns (ok: bool, eof: bool, tag: nat, wire: nat)
    requires stream.Valid()
    modifies stream
    ensures stream.Valid()
    ensures var r := ReadKey(old(stream.Left()));
      && (ok <==> r.GoodKey?) && (!ok ==> (eof <==> r.EndKey?))
      && (ok ==> r == GoodKey(tag, wire, r.rest) && stream.Took(r.rest))
      && (!ok && eof ==> stream.Took(AfterZero(old(stream.Left()))))
  {
    hide Read32, IsSuffix;
    var temp;
    eof, tag, wire := false, 0, 0;
    ok, temp := DecodeVarint32(stream);
    if !ok { return; }
    if temp == 0 { return false, true, 0, 0; }
    tag, wire := temp / 8, temp % 8;
  }

  // ---- substreams -----------------------------------------------------------------------------------

  /** pb_make_string_substream: the parent keeps its place, and counts only what comes after. */
  method MakeStringSubstream(stream: IStream) returns (ok: bool, substream: IStream)
    requires stream.Valid()
    modifies stream
    ensures stream.Valid()
    ensures var r := TakeString(old(stream.Left()));
      && ok == r.Some?
      && (ok ==>
          && fresh(substream) && substream.Valid() && substream.source == stream.source
          && substream.Left() == r.value.0 && stream.bytesLeft == |r.value.1|
          && substream.pos + substream.bytesLeft + stream.bytesLeft == old(stream.pos + stream.bytesLeft)
          && stream.source[substream.pos + substream.bytesLeft..old(stream.pos + stream.bytesLeft)] == r.value.1)
  {
    hide Read32, IsSuffix;
    var size;
    substream := stream;
    ok, size := DecodeVarint32(stream);
    if !ok { return; }
    if stream.bytesLeft < size { return false, stream; }
    substream := new IStream(stream.source, stream.pos, size);
    stream.bytesLeft := stream.bytesLeft - size;
  }

  /** pb_close_string_substream: what is left of the substream is passed over. */
  method CloseStringSubstream(stream: IStream, substream: IStream)
    requires substream != stream && substream.Valid() && substream.source == stream.source
    requires substream.pos + substream.bytesLeft + stream.bytesLeft <= |stream.source|
    modifies stream, substream
    ensures stream.pos == old(substream.pos + substream.bytesLeft) && stream.bytesLeft == old(stream.bytesLeft)
  {
    if substream.bytesLeft != 0 {
      var _, _ := substream.Read(substream.bytesLeft);
    }
    stream.pos := substream.pos;
  }

  // ---- values, fields and messages -------------------------------------------------------------------

  /** The PB_DECODERS of the types without structure. */
  method DecodeScalarField(stream: IStream, l: LType) returns (ok: bool, v: Data)
    requires stream.Valid() && !l.Sub?
    modifies stream
    ensures stream.Valid()
    ensures var r := DecodeScalar(l, old(stream.Left()));
            ok == r.Some? && (ok ==> v == r.value.0 && stream.Took(r.value.1))
  {
    hide Read32, IsSuffix, GetVarint64, TakeString, CString, Signed, FromLittleEndian;
    v := Num(0);
    var n: nat, buf: seq<byte>;
    match l {
      case Bool =>
        ok, n := DecodeVarint32(stream);
        v := Num(if n != 0 then 1 else 0);
      case VarInt(w) =>
        ok, n := DecodeVarint(stream);
        var svalue := Signed(n, if w == 8 then 8 else 4);
        v := Num(svalue);
        ok := ok && Width(w) && Signed(svalue, w) == svalue;
      case UVarInt(w) =>
        ok, n := DecodeVarint(stream);
        v := Num(n);
        ok := ok && Width(w) && n < 2 * Half(w);
      case SVarInt(w) =>
        ok, n := DecodeVarint(stream);
        v := Num(UnZigZag(n));
        ok := ok && Width(w) && Signed(v.n, w) == v.n;
      case Fix32 =>
        ok, buf := stream.Read(4);
        v := Num(FromLittleEndian(buf));
      case Fix64 =>
        ok, buf := stream.Read(8);
        v := Num(FromLittleEndian(buf));
      case Bytes(room) =>
        ok, buf := DecodeString(stream, room, true);
        v := Blob(buf);
      case Text(room) =>
        if room == 0 { return false, v; }
        ok, buf := DecodeString(stream, room - 1, true);
        v := Blob(CString(buf));
      case FixedBytes(length) =>
        ok, buf := DecodeString(stream, length, true);
        if buf == [] {
          v := Blob(Zeros(length));
        } else {
          ok, v := ok && |buf| == length, Blob(buf);
        }
    }
  }

  method DecodeBodyField(stream: IStream, l: LType, dest: Data) returns (ok: bool, v: Data)
    requires stream.Valid()
    modifies stream
    ensures stream.Valid()
    ensures var r := DecodeBody(l, old(stream.Left()), dest);
            ok == r.Some? && (ok ==> v == r.value.0 && stream.Took(r.value.1))
    decreases l, 0, 0
  {
    hide DecodeScalar;
    if l.Sub? {
      var slots;
      ok, slots := DecodeSubmessage(stream, l.desc, SlotsOf(dest));
      v := Message(slots);
    } else {
      ok, v := DecodeScalarField(stream, l);
    }
  }

  /** pb_dec_submessage. */
  method DecodeSubmessage(stream: IStream, d: Desc, dest: seq<Slot>) returns (ok: bool, slots: seq<Slot>)
    requires stream.Valid()
    modifies stream
    ensures stream.Valid()
    ensures var r := DecodeBody(Sub(d), old(stream.Left()), Message(dest));
            ok == r.Some? && (ok ==> Message(slots) == r.value.0 && stream.Took(r.value.1))
    decreases d, 2, 0
  {
    hide TakeString, DecodeNoInit;
    var substream;
    slots := [];
    ok, substream := MakeStringSubstream(stream);
    if !ok { return; }
    ok, slots := DecodeNoInitMessage(substream, d, dest);
    if !ok { return; }
    CloseStringSubstream(stream, substream);
  }

  /** The loop over a packed array. */
  method DecodePackedField(stream: IStream, l: LType, before: seq<Data>, most: nat) returns (ok: bool, vs: seq<Data>)
    requires stream.Valid()
    modifies stream
    ensures stream.Valid()
    ensures var r := DecodePacked(l, old(stream.Left()), before, most);
            ok == r.Some? && (ok ==> vs == r.value && stream.Took([]))
    decreases l, 1, 0
  {
    hide DecodeBody, IsSuffix;
    vs := before;
    ghost var all := DecodePacked(l, stream.Left(), before, most);
    ghost var end := stream.pos + stream.bytesLeft;
    while stream.bytesLeft > 0 && |vs| < most
      invariant stream.Valid() && stream.pos + stream.bytesLeft == end && all == DecodePacked(l, stream.Left(), vs, most)
      decreases stream.bytesLeft
    {
      var v;
      ok, v := DecodeBodyField(stream, l, Num(0));
      if !ok { return; }
      vs := vs + [v];
    }
    ok := stream.bytesLeft == 0;
  }

  /** decode_static_field. */
  method DecodeStaticField(stream: IStream, wire: nat, f: Field, t: Slot) returns (ok: bool, s: Slot)
    requires stream.Valid()
    modifies stream
    ensures stream.Valid()
    ensures var r := DecodeField(f, wire, old(stream.Left()), t);
            ok == r.Some? && (ok ==> s == r.value.0 && stream.Took(r.value.1))
    decreases f, 1, 0
  {
    hide DecodeBody, TakeString, DecodePacked, IsSuffix;
    var v: Data;
    s := t;
    match f.htype {
      case Required =>
        ok, v := DecodeBodyField(stream, f.ltype, ValueOf(t));
        s := One(v);
      case Singular =>
        ok, v := DecodeBodyField(stream, f.ltype, ValueOf(t));
        s := One(v);
      case Optional =>
        ok, v := DecodeBodyField(stream, f.ltype, ValueOf(t));
        s := Maybe(true, v);
      case Repeated(most) =>
        if wire == 2 && Packable(f.ltype) {
          var substream, vs;
          ok, substream := MakeStringSubstream(stream);
          if !ok { return; }
          ok, vs := DecodePackedField(substream, f.ltype, ItemsOf(t), most);
          if !ok { return; }
          CloseStringSubstream(stream, substream);
          s := Many(vs);
        } else {
          if |ItemsOf(t)| >= most { return false, t; }
          ok, v := DecodeBodyField(stream, f.ltype, Fresh(f.ltype));
          s := Many(ItemsOf(t) + [v]);
        }
      case OneOf(_) =>
        ok, v := DecodeBodyField(stream, f.ltype, Fresh(f.ltype));
        s := Which(f.tag, v);
    }
  }

  /** The check at the end of pb_decode_noinit; the iterator goes on to the last field to learn
      how many are required. */
  method RequiredSeen(iter: FieldIter, seen: set<nat>) returns (ok: bool)
    requires iter.Valid()
    modifies iter
    ensures ok == AllSeen(iter.desc, seen)
  {
    var d, count, more := iter.desc, 0, iter.desc.fields != [];
    while more
      invariant iter.Valid() && (more || count == RequiredBefore(d, |d.fields|))
      invariant more ==> iter.pos < |d.fields|
      decreases if more then |d.fields| - iter.pos else 0
    {
      count := iter.requiredIndex + if d.fields[iter.pos].htype.Required? then 1 else 0;
      more := iter.Next();
    }
    var limit := if count > MAX_REQUIRED_FIELDS then MAX_REQUIRED_FIELDS else count;
    ok := forall k: nat :: k < limit ==> k in seen;
  }

  /** pb_decode_noinit. */
  method DecodeNoInitMessage(stream: IStream, d: Desc, dest: seq<Slot>) returns (ok: bool, slots: seq<Slot>)
    requires stream.Valid()
    modifies stream
    ensures stream.Valid()
    ensures var r := DecodeNoInit(d, old(stream.Left()), dest);
            ok == r.Some? && (ok ==> slots == r.value.0 && stream.Took(r.value.1))
    decreases d, 1, 0
  {
    hide ReadKey, Skip, DecodeField, At, Fill, IsSuffix, AllSeen, Search, RequiredBefore;
    slots := dest;
    var seen: set<nat> := {};
    ghost var all := DecodeFields(d, stream.Left(), dest, {}, 0);
    ghost var end := stream.pos + stream.bytesLeft;
    var iter := new FieldIter(d);
    while stream.bytesLeft > 0
      invariant fresh(iter) && iter.Valid() && iter.desc == d && stream.Valid() && stream.pos + stream.bytesLeft == end
      invariant all == DecodeFields(d, stream.Left(), slots, seen, iter.pos)
      decreases stream.bytesLeft
    {
      var eof, tag, wire;
      ok, eof, tag, wire := DecodeTag(stream);
      if !ok {
        if eof { break; }
        return;
      }
      var found := iter.Find(tag);
      if !found {
        ok := SkipField(stream, wire);
        if !ok { return; }
      } else {
        var f := d.fields[iter.pos];
        if f.htype.Required? && iter.requiredIndex < MAX_REQUIRED_FIELDS { seen := seen + {iter.requiredIndex}; }
        var s;
        ok, s := DecodeStaticField(stream, wire, f, At(d, slots, iter.pos));
        if !ok { return; }
        slots := Fill(d, slots, iter.pos, s);
      }
    }
    ok := RequiredSeen(iter, seen);
  }

  /** pb_decode. */
  method DecodeMessage(stream: IStream, d: Desc) returns (ok: bool, slots: seq<Slot>)
    requires stream.Valid()
    modifies stream
    ensures stream.Valid()
    ensures var r := Decode(d, old(stream.Left()));
            ok == r.Some? && (ok ==> slots == r.value.0 && stream.Took(r.value.1))
  {
    ok, slots := DecodeNoInitMessage(stream, d, Defaults(d));
  }
}
