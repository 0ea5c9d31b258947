/** What was written is read back, or passed over when the descriptor has no field for it
    (nanopb/pb_decode.c). */
module NanopbReading {
  import opened Dbformat
  import opened Coding
  import opened Nanopb
  import opened NanopbFields
  import opened NanopbWire

  predicate InRange(n: int, w: nat) { Width(w) && 0 - Half(w) <= n < Half(w) }

  // ---- numbers and strings ------------------------------------------------------------------------------

  /** A byte's share of the value is the same whether it is counted before or after the step. */
  lemma Shift(w: nat, k: nat, result: nat)
    requires k < 4 && result < Pow128(k) && result + w * Pow128(k) < TWO32
    ensures var next := result + w % 128 * Pow128(k);
      && next < Pow128(k + 1) && next < TWO32
      && next + w / 128 * Pow128(k + 1) == result + w * Pow128(k)
  {
    hide Pow128;
    Pow128On(k);
    assert w == 128 * (w / 128) + w % 128;
    ShiftParts(w / 128, w % 128, Pow128(k), result);
  }

  lemma ShiftParts(high: nat, low: nat, p: nat, result: nat)
    requires low < 128 && result < p && result + (128 * high + low) * p < TWO32
    ensures result + low * p < 128 * p && result + low * p < TWO32
    ensures result + low * p + high * (128 * p) == result + (128 * high + low) * p
  {
    Distribute(high, low, p);
    AtMost(low, 127, p);
    AtMost(0, high, 128 * p);
  }

  lemma AtMost(a: nat, b: nat, p: nat)
    requires a <= b
    ensures a * p <= b * p
  {
    assert b * p == a * p + (b - a) * p;
  }

  lemma Distribute(high: nat, low: nat, p: nat)
    ensures (128 * high + low) * p == high * (128 * p) + low * p
  {
    assert high * (128 * p) == 128 * high * p;
  }

  lemma Pow128On(k: nat)
    ensures Pow128(k + 1) == 128 * Pow128(k)
  {}

  /** The four low bits are all that fits of a fifth byte. */
  lemma LastByte(w: nat, k: nat, result: nat)
    requires w < 128 && k <= 4 && result + w * Pow128(k) < TWO32
    ensures k == 4 ==> w < 16
  {
    if k == 4 { Widths(); }
  }

  /** A number that ends within 32 bits does so by the fifth byte. */
  lemma FifthIsLast(w: nat, k: nat, result: nat)
    requires w >= 128 && k <= 4 && result + w * Pow128(k) < TWO32
    ensures k < 4
  {
    if k == 4 { Widths(); }
  }

  lemma Read32Step(s: seq<byte>, k: nat, result: nat, low: nat)
    requires s != [] && low == s[0] % 128 && k <= 4 && result < TWO32
    requires result + low * Pow128(k) < TWO32
    ensures s[0] >= 128 ==> Read32(s, k, result) == Read32(s[1..], k + 1, result + low * Pow128(k))
    ensures s[0] < 128 && (k == 4 ==> low < 16) ==> Read32(s, k, result) == Some((result + low * Pow128(k), s[1..]))
  {
    hide Pow128, IsSuffix;
    SmallMod(result + low * Pow128(k));
  }

  lemma SmallMod(x: nat)
    requires x < TWO32
    ensures x % TWO32 == x
  {}

  lemma {:induction false} Read32At(w: nat, rest: seq<byte>, k: nat, result: nat)
    requires k <= 4 && result < TWO32 && result < Pow128(k) && result + w * Pow128(k) < TWO32
    ensures Read32(Varint(w) + rest, k, result) == Some((result + w * Pow128(k), rest))
    decreases w
  {
    hide Pow128, IsSuffix, Read32, Varint;
    var s := Varint(w) + rest;
    VarintUnfold(w);
    if w < 128 {
      assert s[0] == w && s[1..] == rest;
      LastByte(w, k, result);
      Read32Step(s, k, result, w);
    } else {
      assert s[0] == w % 128 + 128 && s[1..] == Varint(w / 128) + rest;
      FifthIsLast(w, k, result);
      Shift(w, k, result);
      Read32Step(s, k, result, w % 128);
      Read32At(w / 128, rest, k + 1, result + w % 128 * Pow128(k));
    }
  }

  lemma Read32UndoesPut(v: nat, rest: seq<byte>)
    requires v < TWO32
    ensures Read32(Varint(v) + rest, 0, 0) == Some((v, rest))
  {
    assert Pow128(0) == 1;
    Read32At(v, rest, 0, 0);
  }

  lemma TakeStringUndoesPut(str: seq<byte>, rest: seq<byte>)
    requires |str| < TWO32
    ensures TakeString(Prefixed(str) + rest) == Some((str, rest))
  {
    hide Read32, Varint;
    assert Prefixed(str) + rest == Varint(|str|) + (str + rest);
    Read32UndoesPut(|str|, str + rest);
    assert (str + rest)[..|str|] == str && (str + rest)[|str|..] == rest;
  }

  lemma ReadKeyUndoesPut(tag: nat, wire: nat, rest: seq<byte>)
    requires 0 < tag < 0x2000_0000 && wire < 8
    ensures ReadKey(Key(tag, wire) + rest) == GoodKey(tag, wire, rest)
  {
    hide Read32, Varint;
    Read32UndoesPut(8 * tag + wire, rest);
  }

  lemma SignedBack(n: int, w: nat)
    requires InRange(n, w)
    ensures Signed(n % TWO64, if w == 8 then 8 else 4) == n && Signed(n, w) == n
  {
    if n < 0 {
      ModIs(n, -1, TWO64, n + TWO64);
      if w == 8 {
        ModIs(n, -1, TWO64, n + TWO64);
      } else {
        ModIs(n + TWO64, TWO32 - 1, TWO32, n + TWO32);
        ModIs(n, -1, 2 * Half(w), n + 2 * Half(w));
      }
    }
  }

  lemma ModIs(a: int, q: int, m: nat, r: nat)
    requires a == q * m + r && r < m
    ensures a % m == r
  {
    var k := a / m - q;
    assert a == (a / m) * m + a % m;
    assert (a / m) * m - q * m == k * m;
    assert k >= 1 ==> k * m >= m;
    assert k <= -1 ==> k * m <= 0 - m;
  }

  lemma ZigZagBack(n: int, w: nat)
    requires InRange(n, w)
    ensures ZigZag(n) < TWO64 && UnZigZag(ZigZag(n)) == n && Signed(n, w) == n
  {}

  lemma TakeBack(s: seq<byte>, rest: seq<byte>)
    ensures Take(s + rest, |s|) == Some((s, rest))
  {
    assert (s + rest)[..|s|] == s && (s + rest)[|s|..] == rest;
  }

  // ---- fields the descriptor does not have --------------------------------------------------------------

  lemma {:induction false} SkipVarintUndoesPut(v: nat, rest: seq<byte>)
    ensures SkipVarint(Varint(v) + rest) == Some(rest)
    decreases v
  {
    hide IsSuffix;
    var s := Varint(v) + rest;
    if v < 128 {
      assert s[1..] == rest;
    } else {
      assert s[1..] == Varint(v / 128) + rest;
      SkipVarintUndoesPut(v / 128, rest);
    }
  }

  lemma SkipPrefixed(str: seq<byte>, rest: seq<byte>)
    requires |str| < TWO32
    ensures Skip(Prefixed(str) + rest, 2) == Some(rest)
  {
    hide TakeString, IsSuffix;
    TakeStringUndoesPut(str, rest);
  }

  /** A value of any type is passed over whole by its wire type alone. */
  lemma SkipUndoesPut(l: LType, v: Data, rest: seq<byte>)
    requires |Body(l, v)| < TWO32
    ensures Skip(Body(l, v) + rest, WireOf(l)) == Some(rest)
  {
    hide SkipVarint, TakeString, IsSuffix, LittleEndian, Varint, MessageBytes;
    match l {
      case Bool => SkipVarintUndoesPut(if NumOf(v) != 0 then 1 else 0, rest);
      case VarInt(_) => SkipVarintUndoesPut(NumOf(v) % TWO64, rest);
      case UVarInt(_) => SkipVarintUndoesPut(NumOf(v) % TWO64, rest);
      case SVarInt(_) => SkipVarintUndoesPut(ZigZag(NumOf(v)) % TWO64, rest);
      case Fix32 => TakeBack(LittleEndian(NumOf(v) % TWO32, 4), rest);
      case Fix64 => TakeBack(LittleEndian(NumOf(v) % TWO64, 8), rest);
      case Sub(d) => SkipPrefixed(MessageBytes(d, SlotsOf(v), 0), rest);
      case _ => SkipPrefixed(BlobOf(v), rest);
    }
  }

  ghost predicate Unknown(d: Desc, tag: nat) { forall j: nat | j < |d.fields| :: d.fields[j].tag != tag }

  lemma {:induction false} SearchMisses(d: Desc, pos: nat, tag: nat, left: nat)
    requires Unknown(d, tag)
    ensures Search(d, pos, tag, left) == None
    decreases left
  {
    if left > 0 && pos < |d.fields| { SearchMisses(d, Following(d, pos), tag, left - 1); }
  }

  lemma UnknownStep(d: Desc, s: seq<byte>, tag: nat, wire: nat, body: seq<byte>, rest: seq<byte>, t: seq<Slot>, seen: set<nat>, pos: nat)
    requires Unknown(d, tag) && 0 < tag < 0x2000_0000 && wire < 8
    requires s == Key(tag, wire) + body + rest && Skip(body + rest, wire) == Some(rest)
    ensures DecodeFields(d, s, t, seen, pos) == DecodeFields(d, rest, t, seen, pos)
  {
    hide ReadKey, Skip, DecodeField, At, Fill, Seen, IsSuffix, Search, Key;
    assert s == Key(tag, wire) + (body + rest);
    ReadKeyUndoesPut(tag, wire, body + rest);
    assert s != [] by { hide *; KeyIsSome(tag, wire); }
    SearchMisses(d, pos, tag, |d.fields|);
  }

  lemma KeyIsSome(tag: nat, wire: nat)
    ensures Key(tag, wire) != []
  {}

  lemma {:induction false} UnknownItems(d: Desc, f: Field, vs: seq<Data>, rest: seq<byte>, t: seq<Slot>, seen: set<nat>, pos: nat)
    requires Unknown(d, f.tag) && 0 < f.tag < 0x2000_0000 && |UnpackedBytes(f, vs)| < TWO32
    ensures DecodeFields(d, UnpackedBytes(f, vs) + rest, t, seen, pos) == DecodeFields(d, rest, t, seen, pos)
    decreases |vs|
  {
    hide Unknown, Key, Body, Skip, DecodeFields;
    if vs == [] {
      assert UnpackedBytes(f, vs) + rest == rest;
    } else {
      var key, body, others := Key(f.tag, WireOf(f.ltype)), Body(f.ltype, vs[0]), UnpackedBytes(f, vs[1..]);
      assert UnpackedBytes(f, vs) == key + body + others;
      assert UnpackedBytes(f, vs) + rest == key + body + (others + rest);
      SkipUndoesPut(f.ltype, vs[0], others + rest);
      UnknownStep(d, UnpackedBytes(f, vs) + rest, f.tag, WireOf(f.ltype), body, others + rest, t, seen, pos);
      UnknownItems(d, f, vs[1..], rest, t, seen, pos);
    }
  }

  /** Whatever a field puts out, a descriptor without its tag reads as if it were not there. */
  lemma UnknownFieldIsSkipped(d: Desc, f: Field, s: Slot, rest: seq<byte>, t: seq<Slot>, seen: set<nat>, pos: nat)
    requires Unknown(d, f.tag) && 0 < f.tag < 0x2000_0000 && |FieldBytes(f, s)| < TWO32
    ensures DecodeFields(d, FieldBytes(f, s) + rest, t, seen, pos) == DecodeFields(d, rest, t, seen, pos)
  {
    hide Unknown, Key, Body, Skip, DecodeFields, PackedBytes, UnpackedBytes, IsZero;
    assert [] + rest == rest;
    var bytes := FieldBytes(f, s);
    if f.htype.Repeated? {
      if ItemsOf(s) != [] && Packable(f.ltype) {
        var packed := PackedBytes(f.ltype, ItemsOf(s));
        SkipPrefixed(packed, rest);
        UnknownStep(d, bytes + rest, f.tag, 2, Prefixed(packed), rest, t, seen, pos);
      } else if ItemsOf(s) != [] {
        UnknownItems(d, f, ItemsOf(s), rest, t, seen, pos);
      }
    } else if bytes != [] {
      SkipUndoesPut(f.ltype, ValueOf(s), rest);
      UnknownStep(d, bytes + rest, f.tag, WireOf(f.ltype), Body(f.ltype, ValueOf(s)), rest, t, seen, pos);
    }
  }
}
