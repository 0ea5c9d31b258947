/** What the decoder makes of bytes (nanopb/pb_decode.c).  None is a decoding error; otherwise a
    value comes with the bytes that follow it. */
module NanopbWire {
  import opened Dbformat
  import opened Coding
  import opened Nanopb
  import opened NanopbFields

  const MAX_REQUIRED_FIELDS: nat := 64

  // ---- varints of 32 bits ----------------------------------------------------------------------

  /** What a byte past the 32nd bit must be when the value is negative. */
  function SignByte(k: nat): byte { if k < 9 then 0xFF else 0x01 }

  /** The result with the low bits of the `k`th byte put in above those already there. */
  function Next(low: nat, k: nat, result: nat): (r: nat)
    requires result < TWO32
    ensures r < TWO32
  {
    if k >= 5 then result else (result + low * Pow128(k)) % TWO32
  }

  /** pb_decode_varint32_eof at the `k`th byte, with `result` from the ones before. */
  function Read32(s: seq<byte>, k: nat, result: nat): (r: Option<(nat, seq<byte>)>)
    requires result < TWO32
    ensures r.Some? ==> |r.value.1| < |s| && IsSuffix(r.value.1, s) && r.value.0 < TWO32
    decreases |s|
  {
    if s == [] then None
    else
      var low := s[0] % 128;
      if k >= 5 && low != 0 && (result < 0x8000_0000 || s[0] != SignByte(k)) then None
      else
        var next := Next(low, k, result);
        if s[0] >= 128 then
          SuffixOn(s);
          Read32(s[1..], k + 1, next)
        else if k == 4 && low >= 16 then None
        else Some((next, s[1..]))
  }

  lemma Read32Unfold(s: seq<byte>, k: nat, result: nat)
    requires result < TWO32
    ensures s == [] ==> Read32(s, k, result) == None
    ensures s != [] ==>
      var low := s[0] % 128;
      var next := Next(low, k, result);
      Read32(s, k, result)
        == if k >= 5 && low != 0 && (result < 0x8000_0000 || s[0] != SignByte(k)) then None
           else if s[0] >= 128 then Read32(s[1..], k + 1, next)
           else if k == 4 && low >= 16 then None
           else Some((next, s[1..]))
  {}

  lemma ReadVarintUnfold(s: seq<byte>, n: nat)
    ensures n == 0 || s == [] ==> ReadVarint(s, n) == None
    ensures n > 0 && s != [] && s[0] < 128 ==> ReadVarint(s, n) == Some((s[0], s[1..]))
    ensures n > 0 && s != [] && s[0] >= 128 ==>
      var r := ReadVarint(s[1..], n - 1);
      ReadVarint(s, n) == if r.None? then None else Some((s[0] - 128 + 128 * r.value.0, r.value.1))
  {}

  predicate IsSuffix(t: seq<byte>, s: seq<byte>) { |t| <= |s| && s[|s| - |t|..] == t }

  lemma SuffixOn(s: seq<byte>)
    requires s != []
    ensures forall t :: IsSuffix(t, s[1..]) ==> IsSuffix(t, s)
  {
    forall t | IsSuffix(t, s[1..]) ensures IsSuffix(t, s) {
      assert s[1..][|s| - 1 - |t|..] == s[|s| - |t|..];
    }
  }

  lemma SuffixTrans(a: seq<byte>, b: seq<byte>, c: seq<byte>)
    requires IsSuffix(a, b) && IsSuffix(b, c)
    ensures IsSuffix(a, c)
  {
    assert c[|c| - |b|..][|b| - |a|..] == c[|c| - |a|..];
  }

  lemma SuffixOfVarint64(s: seq<byte>)
    ensures GetVarint64(s).Some? ==> IsSuffix(GetVarint64(s).value.1, s)
  {
    SuffixOfVarint(s, 10);
  }

  lemma {:induction false} SuffixOfVarint(s: seq<byte>, n: nat)
    ensures ReadVarint(s, n).Some? ==> IsSuffix(ReadVarint(s, n).value.1, s)
    decreases n
  {
    if n > 0 && s != [] && s[0] >= 128 {
      SuffixOfVarint(s[1..], n - 1);
      SuffixOn(s);
    }
  }

  // ---- strings -----------------------------------------------------------------------------------

  /** `n` bytes, and what follows them. */
  function Take(s: seq<byte>, n: nat): (r: Option<(seq<byte>, seq<byte>)>)
    ensures r.Some? ==> IsSuffix(r.value.1, s) && r.value.0 + r.value.1 == s && |r.value.0| == n
  {
    if |s| < n then None else Some((s[..n], s[n..]))
  }

  /** A length and as many bytes (pb_make_string_substream). */
  function TakeString(s: seq<byte>): (r: Option<(seq<byte>, seq<byte>)>)
    ensures r.Some? ==> IsSuffix(r.value.1, s) && |r.value.0| + |r.value.1| < |s|
  {
    var len := Read32(s, 0, 0);
    if len.None? then None
    else
      var r := Take(len.value.1, len.value.0);
      if r.None? then None
      else
        SuffixTrans(r.value.1, len.value.1, s);
        r
  }

  /** A C string: what comes before the first NUL. */
  function CString(s: seq<byte>): (r: seq<byte>)
    ensures |r| <= |s|
  {
    if s == [] || s[0] == 0 then [] else [s[0]] + CString(s[1..])
  }

  lemma {:induction false} CStringWhole(s: seq<byte>)
    requires 0 !in s
    ensures CString(s) == s
  {
    if s != [] {
      assert s[0] != 0;
      CStringWhole(s[1..]);
    }
  }

  function Zeros(n: nat): seq<byte> { if n == 0 then [] else [0] + Zeros(n - 1) }

  // ---- keys -----------------------------------------------------------------------------------------

  datatype KeyRead = BadKey | EndKey | GoodKey(tag: nat, wire: nat, rest: seq<byte>)

  /** pb_decode_tag; a zero key ends the message. */
  function ReadKey(s: seq<byte>): (r: KeyRead)
    ensures r.GoodKey? ==> |r.rest| < |s| && IsSuffix(r.rest, s)
  {
    var k := Read32(s, 0, 0);
    if k.None? then BadKey
    else if k.value.0 == 0 then EndKey
    else GoodKey(k.value.0 / 8, k.value.0 % 8, k.value.1)
  }

  function AfterZero(s: seq<byte>): seq<byte> {
    var k := Read32(s, 0, 0);
    if k.Some? then k.value.1 else s
  }

  function SkipVarint(s: seq<byte>): (r: Option<seq<byte>>)
    ensures r.Some? ==> IsSuffix(r.value, s)
  {
    if s == [] then None
    else if s[0] >= 128 then
      SuffixOn(s);
      SkipVarint(s[1..])
    else Some(s[1..])
  }

  /** pb_skip_field. */
  function Skip(s: seq<byte>, wire: nat): (r: Option<seq<byte>>)
    ensures r.Some? ==> |r.value| <= |s| && IsSuffix(r.value, s)
  {
    if wire == 0 then SkipVarint(s)
    else if wire == 1 || wire == 5 then
      var r := Take(s, if wire == 1 then 8 else 4);
      if r.None? then None else Some(r.value.1)
    else if wire == 2 then
      var r := TakeString(s);
      if r.None? then None else Some(r.value.1)
    else None
  }

  // ---- defaults --------------------------------------------------------------------------------------

  function Default(f: Field): Data
    decreases f, 0
  {
    match f.ltype
    case Sub(d) => Message(DefaultsUpTo(d, |d.fields|))
    case _ => f.dflt
  }

  /** pb_field_set_to_default; what an empty union or array holds is not looked at. */
  function DefaultSlot(f: Field): Slot
    decreases f, 1
  {
    match f.htype
    case Required => One(Default(f))
    case Singular => One(Default(f))
    case Optional => Maybe(false, Default(f))
    case Repeated(_) => Many([])
    case OneOf(_) => Which(0, Num(0))
  }

  function DefaultsUpTo(d: Desc, i: nat): (s: seq<Slot>)
    requires i <= |d.fields|
    ensures |s| == Opened(d, i)
    decreases d, i
  {
    if i == 0 then []
    else if Joins(d, i - 1) then DefaultsUpTo(d, i - 1)
    else DefaultsUpTo(d, i - 1) + [DefaultSlot(d.fields[i - 1])]
  }

  /** pb_message_set_to_defaults. */
  function Defaults(d: Desc): (s: seq<Slot>)
    ensures |s| == SlotCount(d)
  {
    DefaultsUpTo(d, |d.fields|)
  }

  // ---- values, fields and messages -----------------------------------------------------------------

  /** A number that a field `w` bytes wide can hold unchanged. */
  function Clamped(n: int, ok: bool, rest: seq<byte>): Option<(Data, seq<byte>)> {
    if ok then Some((Num(n), rest)) else None
  }

  /** The PB_DECODERS of the types without structure. */
  function DecodeScalar(l: LType, s: seq<byte>): (r: Option<(Data, seq<byte>)>)
    requires !l.Sub?
    ensures r.Some? ==> |r.value.1| < |s| && IsSuffix(r.value.1, s)
  {
    match l
    case Bool =>
      var r := Read32(s, 0, 0);
      if r.None? then None else Some((Num(if r.value.0 != 0 then 1 else 0), r.value.1))
    case VarInt(w) =>
      SuffixOfVarint64(s);
      var r := GetVarint64(s);
      if r.None? then None
      else
        var n := Signed(r.value.0, if w == 8 then 8 else 4);
        Clamped(n, Width(w) && Signed(n, w) == n, r.value.1)
    case UVarInt(w) =>
      SuffixOfVarint64(s);
      var r := GetVarint64(s);
      if r.None? then None else Clamped(r.value.0, Width(w) && r.value.0 < 2 * Half(w), r.value.1)
    case SVarInt(w) =>
      SuffixOfVarint64(s);
      var r := GetVarint64(s);
      if r.None? then None
      else
        var n := UnZigZag(r.value.0);
        Clamped(n, Width(w) && Signed(n, w) == n, r.value.1)
    case Fix32 =>
      var r := Take(s, 4);
      if r.None? then None else Some((Num(FromLittleEndian(r.value.0)), r.value.1))
    case Fix64 =>
      var r := Take(s, 8);
      if r.None? then None else Some((Num(FromLittleEndian(r.value.0)), r.value.1))
    case Bytes(room) =>
      var r := TakeString(s);
      if r.None? || |r.value.0| > room then None else Some((Blob(r.value.0), r.value.1))
    case Text(room) =>
      var r := TakeString(s);
      if r.None? || |r.value.0| + 1 > room then None else Some((Blob(CString(r.value.0)), r.value.1))
    case FixedBytes(n) =>
      var r := TakeString(s);
      if r.None? then None
      else if r.value.0 == [] then Some((Blob(Zeros(n)), r.value.1))
      else if |r.value.0| != n then None
      else Some((Blob(r.value.0), r.value.1))
  }

  /** The PB_DECODERS; a submessage is merged into what `dest` holds. */
  function DecodeBody(l: LType, s: seq<byte>, dest: Data): (r: Option<(Data, seq<byte>)>)
    ensures r.Some? ==> |r.value.1| < |s| && IsSuffix(r.value.1, s)
    decreases l, 0, |s|
  {
    match l
    case Sub(d) =>
      (var r := TakeString(s);
       if r.None? then None
       else
         var m := DecodeNoInit(d, r.value.0, SlotsOf(dest));
         if m.None? then None else Some((Message(m.value.0), r.value.1)))
    case _ => DecodeScalar(l, s)
  }

  /** The loop over a packed array. */
  function DecodePacked(l: LType, s: seq<byte>, vs: seq<Data>, most: nat): Option<seq<Data>>
    decreases l, 1, |s|
  {
    if s == [] then Some(vs)
    else if |vs| >= most then None
    else
      var r := DecodeBody(l, s, Num(0));
      if r.None? then None else DecodePacked(l, r.value.1, vs + [r.value.0], most)
  }

  /** decode_static_field. */
  function DecodeField(f: Field, wire: nat, s: seq<byte>, t: Slot): (r: Option<(Slot, seq<byte>)>)
    ensures r.Some? ==> |r.value.1| < |s| && IsSuffix(r.value.1, s)
    decreases f, 0, |s|
  {
    match f.htype
    case Repeated(most) =>
      if wire == 2 && Packable(f.ltype) then
        (var r := TakeString(s);
         if r.None? then None
         else
           var vs := DecodePacked(f.ltype, r.value.0, ItemsOf(t), most);
           if vs.None? then None else Some((Many(vs.value), r.value.1)))
      else if |ItemsOf(t)| >= most then None
      else
        var r := DecodeBody(f.ltype, s, Fresh(f.ltype));
        if r.None? then None else Some((Many(ItemsOf(t) + [r.value.0]), r.value.1))
    case OneOf(_) =>
      var r := DecodeBody(f.ltype, s, Fresh(f.ltype));
      if r.None? then None else Some((Which(f.tag, r.value.0), r.value.1))
    case Optional =>
      var r := DecodeBody(f.ltype, s, ValueOf(t));
      if r.None? then None else Some((Maybe(true, r.value.0), r.value.1))
    case _ =>
      var r := DecodeBody(f.ltype, s, ValueOf(t));
      if r.None? then None else Some((One(r.value.0), r.value.1))
  }

  /** Array entries and members of a union are put to their defaults before they are read. */
  function Fresh(l: LType): Data {
    match l
    case Sub(d) => Message(Defaults(d))
    case _ => Num(0)
  }

  /** The required fields that count towards the check at the end of a message. */
  function Seen(d: Desc, i: nat, seen: set<nat>): set<nat>
    requires i < |d.fields|
  {
    if d.fields[i].htype.Required? && RequiredBefore(d, i) < MAX_REQUIRED_FIELDS then seen + {RequiredBefore(d, i)} else seen
  }

  predicate AllSeen(d: Desc, seen: set<nat>) {
    forall k | 0 <= k < MAX_REQUIRED_FIELDS && k < RequiredBefore(d, |d.fields|) :: k in seen
  }

  function Fill(d: Desc, slots: seq<Slot>, i: nat, t: Slot): seq<Slot>
    requires i < |d.fields|
  {
    var k := SlotOf(d, i);
    if k < |slots| then slots[k := t] else slots
  }

  /** The loop of pb_decode_noinit, with the iterator at `pos`. */
  function DecodeFields(d: Desc, s: seq<byte>, slots: seq<Slot>, seen: set<nat>, pos: nat): (r: Option<(seq<Slot>, set<nat>, seq<byte>)>)
    ensures r.Some? ==> IsSuffix(r.value.2, s)
    decreases d, 0, |s|
  {
    if s == [] then Some((slots, seen, s))
    else
      var k := ReadKey(s);
      match k
      case BadKey => None
      case EndKey => Some((slots, seen, AfterZero(s)))
      case GoodKey(tag, wire, rest) =>
        var i := Search(d, pos, tag, |d.fields|);
        if i.None? then
          (var after := Skip(rest, wire);
           if after.None? then None
           else
             SuffixTrans(after.value, rest, s);
             var r := DecodeFields(d, after.value, slots, seen, pos);
             if r.Some? then SuffixTrans(r.value.2, after.value, s); r else r)
        else
          var t := DecodeField(d.fields[i.value], wire, rest, At(d, slots, i.value));
          if t.None? then None
          else
            SuffixTrans(t.value.1, rest, s);
            var r := DecodeFields(d, t.value.1, Fill(d, slots, i.value, t.value.0), Seen(d, i.value, seen), i.value);
            if r.Some? then SuffixTrans(r.value.2, t.value.1, s); r else r
  }

  /** pb_decode_noinit. */
  function DecodeNoInit(d: Desc, s: seq<byte>, slots: seq<Slot>): (r: Option<(seq<Slot>, seq<byte>)>)
    ensures r.Some? ==> IsSuffix(r.value.1, s)
    decreases d, 1, |s|
  {
    var r := DecodeFields(d, s, slots, {}, 0);
    if r.None? || !AllSeen(d, r.value.1) then None else Some((r.value.0, r.value.2))
  }

  /** pb_decode. */
  function Decode(d: Desc, s: seq<byte>): (r: Option<(seq<Slot>, seq<byte>)>)
    ensures r.Some? ==> IsSuffix(r.value.1, s)
  {
    DecodeNoInit(d, s, Defaults(d))
  }
}
