/** Variable-length and fixed-length integers (util/coding.cc). */
module Coding {
  import opened Dbformat

  const TWO32: nat := 0x1_0000_0000
  const TWO64: nat := 0x1_0000_0000_0000_0000

  // ---- varints -------------------------------------------------------------------------

  /** Seven bits a byte, low bits first, with the high bit set on all but the last. */
  function Varint(v: nat): (s: seq<byte>)
    ensures |s| > 0
  {
    if v < 128 then [v] else [v % 128 + 128] + Varint(v / 128)
  }

  function Pow128(n: nat): nat { if n == 0 then 1 else 128 * Pow128(n - 1) }

  lemma {:induction false} VarintFits(v: nat, n: nat)
    requires n > 0 && v < Pow128(n)
    ensures |Varint(v)| <= n
  {
    if v >= 128 { VarintFits(v / 128, n - 1); }
  }

  lemma QuotientIs(v: nat, q: nat, m: nat, r: nat)
    requires v == q * m + r && r < m
    ensures v / m == q
  {
    var k := v / m - q;
    assert v == (v / m) * m + v % m;
    assert (v / m) * m - q * m == k * m;
    assert k >= 1 ==> k * m >= m;
    assert k <= -1 ==> k * m <= 0 - m;
  }

  /** Dividing twice is dividing by the product. */
  lemma DivideTwice(v: nat, a: nat, b: nat)
    requires a > 0 && b > 0
    ensures a * b > 0 && v / (a * b) == v / a / b
  {
    var q, r := v / a, v % a;
    var p, t := q / b, q % b;
    assert v == q * a + r && q == p * b + t;
    Combine(v, q, r, p, t, a, b);
    QuotientIs(v, p, a * b, t * a + r);
  }

  lemma Combine(v: nat, q: nat, r: nat, p: nat, t: nat, a: nat, b: nat)
    requires v == q * a + r && r < a && q == p * b + t && t < b
    ensures a * b > 0 && v == p * (a * b) + (t * a + r) && t * a + r < a * b
  {
    assert (p * b + t) * a == p * (a * b) + t * a;
    assert a * b == t * a + (b - t) * a;
    AtLeastOnce(b - t, a);
  }

  lemma AtLeastOnce(n: nat, a: nat)
    requires n > 0
    ensures n * a >= a
  {}

  /** The byte at each place of a varint, and that there are no more of them than needed. */
  lemma {:induction false} VarintAt(v: nat, i: nat)
    requires i < |Varint(v)|
    ensures Pow128(i) > 0 && Varint(v)[i] == v / Pow128(i) % 128 + if i + 1 < |Varint(v)| then 128 else 0
    ensures i + 1 < |Varint(v)| <==> v / Pow128(i) >= 128
  {
    if i > 0 {
      VarintAt(v / 128, i - 1);
      DivideTwice(v, 128, Pow128(i - 1));
    }
  }

  lemma Widths()
    ensures Pow128(5) >= TWO32 && Pow128(10) >= TWO64 && Pow128(1) == 128 && Pow128(2) == 16384
    ensures Pow128(3) == 2097152 && Pow128(4) == 268435456
  {
    assert Pow128(1) == 128 * Pow128(0) && Pow128(0) == 1;
    assert Pow128(2) == 128 * Pow128(1);
    assert Pow128(3) == 128 * Pow128(2);
    assert Pow128(4) == 128 * Pow128(3);
    assert Pow128(5) == 128 * Pow128(4);
    assert Pow128(6) == 128 * Pow128(5);
    assert Pow128(7) == 128 * Pow128(6);
    assert Pow128(8) == 128 * Pow128(7);
    assert Pow128(9) == 128 * Pow128(8);
    assert Pow128(10) == 128 * Pow128(9);
  }

  /** At most `n` bytes of a varint: its value and what follows it. */
  function ReadVarint(s: seq<byte>, n: nat): (r: Option<(nat, seq<byte>)>)
    ensures r.Some? ==> |r.value.1| < |s|
    decreases n
  {
    if n == 0 || s == [] then None
    else if s[0] < 128 then Some((s[0], s[1..]))
    else
      var r := ReadVarint(s[1..], n - 1);
      if r.None? then None else Some((s[0] - 128 + 128 * r.value.0, r.value.1))
  }

  lemma {:induction false} VarintRoundTrip(v: nat, rest: seq<byte>, n: nat)
    requires |Varint(v)| <= n
    ensures ReadVarint(Varint(v) + rest, n) == Some((v, rest))
    decreases n
  {
    var s := Varint(v) + rest;
    if v < 128 {
      assert s[1..] == rest;
    } else {
      assert s[1..] == Varint(v / 128) + rest;
      VarintRoundTrip(v / 128, rest, n - 1);
    }
  }

  /** GetVarint32 and GetVarint64: shifts past the width are lost. */
  function GetVarint32(s: seq<byte>): (r: Option<(nat, seq<byte>)>)
    ensures r.Some? ==> |r.value.1| < |s| && r.value.0 < TWO32
  {
    var r := ReadVarint(s, 5);
    if r.None? then None else Some((r.value.0 % TWO32, r.value.1))
  }

  function GetVarint64(s: seq<byte>): (r: Option<(nat, seq<byte>)>)
    ensures r.Some? ==> |r.value.1| < |s| && r.value.0 < TWO64
  {
    var r := ReadVarint(s, 10);
    if r.None? then None else Some((r.value.0 % TWO64, r.value.1))
  }

  lemma Get32UndoesPut(v: nat, rest: seq<byte>)
    requires v < TWO32
    ensures GetVarint32(Varint(v) + rest) == Some((v, rest)) && |Varint(v)| <= 5
  {
    hide Varint, ReadVarint, Pow128;
    Widths();
    VarintFits(v, 5);
    VarintRoundTrip(v, rest, 5);
  }

  lemma Get64UndoesPut(v: nat, rest: seq<byte>)
    requires v < TWO64
    ensures GetVarint64(Varint(v) + rest) == Some((v, rest)) && |Varint(v)| <= 10
  {
    hide Varint, ReadVarint, Pow128;
    Widths();
    VarintFits(v, 10);
    VarintRoundTrip(v, rest, 10);
  }

  lemma VarintUnfold(v: nat)
    ensures v < 128 ==> Varint(v) == [v]
    ensures v >= 128 ==> Varint(v) == [v % 128 + 128] + Varint(v / 128)
  {}

  /** PutVarint32, written out by size. */
  method PutVarint32(dst: seq<byte>, v: nat) returns (r: seq<byte>)
    requires v < TWO32
    ensures r == dst + Varint(v)
  {
    hide Varint;
    VarintUnfold(v);
    VarintUnfold(v / 128);
    VarintUnfold(v / 16384);
    VarintUnfold(v / 2097152);
    VarintUnfold(v / 268435456);
    var b0: byte, b1: byte := v % 128 + 128, v / 128 % 128 + 128;
    var b2: byte, b3: byte := v / 16384 % 128 + 128, v / 2097152 % 128 + 128;
    if v < 128 {
      r := dst + [v];
    } else if v < 16384 {
      r := dst + [b0, v / 128];
    } else if v < 2097152 {
      r := dst + [b0, b1, v / 16384];
    } else if v < 268435456 {
      r := dst + [b0, b1, b2, v / 2097152];
    } else {
      r := dst + [b0, b1, b2, b3, v / 268435456];
    }
  }

  method PutVarint64(dst: seq<byte>, value: nat) returns (r: seq<byte>)
    requires value < TWO64
    ensures r == dst + Varint(value)
  {
    var v := value;
    r := dst;
    while v >= 128
      invariant r + Varint(v) == dst + Varint(value)
    {
      var b: byte := v % 128 + 128;
      assert (r + [b]) + Varint(v / 128) == r + Varint(v);
      r := r + [b];
      v := v / 128;
    }
    r := r + [v];
  }

  lemma ReadStep(s: seq<byte>, p: nat, limit: nat)
    requires p <= |s| && p <= limit
    ensures p == |s| || p == limit ==> ReadVarint(s[p..], limit - p) == None
    ensures p < |s| && p < limit && s[p] < 128 ==> ReadVarint(s[p..], limit - p) == Some((s[p], s[p + 1..]))
    ensures p < |s| && p < limit && s[p] >= 128 ==>
              var r := ReadVarint(s[p + 1..], limit - p - 1);
              ReadVarint(s[p..], limit - p) == if r.None? then None else Some((s[p] - 128 + 128 * r.value.0, r.value.1))
  {
    if p < |s| { assert s[p..][1..] == s[p + 1..]; }
  }

  /** A varint being read: what it is worth when `scale` says how far it has come. */
  function Scaled(r: Option<(nat, seq<byte>)>, result: nat, scale: nat): Option<(nat, seq<byte>)> {
    if r.None? then None else Some((result + scale * r.value.0, r.value.1))
  }

  lemma ScaledOn(r: Option<(nat, seq<byte>)>, b: nat, result: nat, scale: nat)
    ensures r.Some? ==> Scaled(Some((b + 128 * r.value.0, r.value.1)), result, scale) == Scaled(r, result + b * scale, scale * 128)
  {
    if r.Some? {
      assert scale * (b + 128 * r.value.0) == b * scale + (scale * 128) * r.value.0;
    }
  }

  /** GetVarint64Ptr's loop: each byte is shifted to its place and added in. */
  method ReadVarintLoop(s: seq<byte>, limit: nat) returns (r: Option<(nat, seq<byte>)>)
    ensures r == ReadVarint(s, limit)
  {
    hide ReadVarint;
    var p, result: nat, scale: nat := 0, 0, 1;
    assert s[0..] == s;
    ghost var all := ReadVarint(s, limit);
    assert Scaled(all, 0, 1) == all;
    while p < limit && p < |s|
      invariant p <= |s| && p <= limit
      invariant all == Scaled(ReadVarint(s[p..], limit - p), result, scale)
    {
      ReadStep(s, p, limit);
      if s[p] < 128 {
        return Some((result + scale * s[p], s[p + 1..]));
      }
      var b: nat := s[p] - 128;
      ScaledOn(ReadVarint(s[p + 1..], limit - p - 1), b, result, scale);
      result := result + b * scale;
      scale := scale * 128;
      p := p + 1;
    }
    ReadStep(s, p, limit);
    return None;
  }

  // ---- length-prefixed strings ------------------------------------------------------------

  function Prefixed(str: seq<byte>): seq<byte> { Varint(|str|) + str }

  function GetPrefixed(s: seq<byte>): (r: Option<(seq<byte>, seq<byte>)>)
    ensures r.Some? ==> |r.value.1| < |s|
  {
    var len := GetVarint32(s);
    if len.None? || |len.value.1| < len.value.0 then None
    else Some((len.value.1[..len.value.0], len.value.1[len.value.0..]))
  }

  lemma GetPrefixedUndoesPut(str: seq<byte>, rest: seq<byte>)
    requires |str| < TWO32
    ensures GetPrefixed(Prefixed(str) + rest) == Some((str, rest))
  {
    hide GetVarint32;
    assert Prefixed(str) + rest == Varint(|str|) + (str + rest);
    Get32UndoesPut(|str|, str + rest);
    assert (str + rest)[..|str|] == str && (str + rest)[|str|..] == rest;
  }

  // ---- fixed32 -------------------------------------------------------------------------------

  function Fixed32(v: nat): (s: seq<byte>)
    requires v < TWO32
    ensures |s| == 4
  {
    [v % 256, v / 256 % 256, v / 65536 % 256, v / 16777216]
  }

  function DecodeFixed32(s: seq<byte>): (v: nat)
    requires |s| == 4
    ensures v < TWO32
  {
    (s[0] as int) + 256 * (s[1] as int) + 65536 * (s[2] as int) + 16777216 * (s[3] as int)
  }

  lemma Fixed32RoundTrip(v: nat)
    requires v < TWO32
    ensures DecodeFixed32(Fixed32(v)) == v
  {
    hide Fixed32, DecodeFixed32, LittleEndian, FromLittleEndian, Pow256;
    Fixed32IsLittleEndian(v);
    DecodeFixed32IsLittleEndian(Fixed32(v));
    Pow256s();
    LittleEndianRoundTrip(v, 4);
  }

  // ---- numbers of any fixed width -------------------------------------------------------------

  function LittleEndian(v: nat, n: nat): (s: seq<byte>)
    ensures |s| == n
  {
    if n == 0 then [] else [v % 256] + LittleEndian(v / 256, n - 1)
  }

  function FromLittleEndian(s: seq<byte>): nat {
    if s == [] then 0 else s[0] + 256 * FromLittleEndian(s[1..])
  }

  function Pow256(n: nat): (p: nat)
    ensures p > 0
  {
    if n == 0 then 1 else 256 * Pow256(n - 1)
  }

  lemma {:induction false} LittleEndianRoundTrip(v: nat, n: nat)
    requires v < Pow256(n)
    ensures FromLittleEndian(LittleEndian(v, n)) == v
  {
    if n > 0 {
      LittleEndianRoundTrip(v / 256, n - 1);
      assert LittleEndian(v, n)[1..] == LittleEndian(v / 256, n - 1);
    }
  }

  /** The lowest byte comes first. */
  lemma {:induction false} LittleEndianAt(v: nat, n: nat, i: nat)
    requires i < n
    ensures LittleEndian(v, n)[i] == v / Pow256(i) % 256
  {
    if i > 0 {
      LittleEndianAt(v / 256, n - 1, i - 1);
      DivideTwice(v, 256, Pow256(i - 1));
    }
  }

  /** The first `i` bytes, each times the weight of its place. */
  function PlaceSum(s: seq<byte>, i: nat): nat
    requires i <= |s|
  {
    if i == 0 then 0 else PlaceSum(s, i - 1) + s[i - 1] * Pow256(i - 1)
  }

  lemma {:induction false} PlaceSumOn(s: seq<byte>, i: nat)
    requires i < |s|
    ensures PlaceSum(s, i + 1) == s[0] + 256 * PlaceSum(s[1..], i)
  {
    if i > 0 {
      PlaceSumOn(s, i - 1);
      assert s[1..][i - 1] == s[i];
      assert s[i] * Pow256(i) == 256 * (s[i] * Pow256(i - 1));
    } else {
      assert PlaceSum(s, 1) == PlaceSum(s, 0) + s[0] * Pow256(0);
    }
  }

  /** What is read from any bytes is the sum of each byte times the weight of its place. */
  lemma {:induction false} FromLittleEndianIsSum(s: seq<byte>)
    ensures FromLittleEndian(s) == PlaceSum(s, |s|)
  {
    if s != [] {
      FromLittleEndianIsSum(s[1..]);
      PlaceSumOn(s, |s| - 1);
    }
  }

  /** The four bytes written out by EncodeFixed32 are the same. */
  lemma Fixed32IsLittleEndian(v: nat)
    requires v < TWO32
    ensures Fixed32(v) == LittleEndian(v, 4)
  {
    assert LittleEndian(v / 16777216, 1) == [v / 16777216 % 256] + LittleEndian(v / 16777216 / 256, 0);
    assert LittleEndian(v / 65536, 2) == [v / 65536 % 256] + LittleEndian(v / 65536 / 256, 1);
    assert LittleEndian(v / 256, 3) == [v / 256 % 256] + LittleEndian(v / 256 / 256, 2);
  }

  lemma DecodeFixed32IsLittleEndian(s: seq<byte>)
    requires |s| == 4
    ensures DecodeFixed32(s) == FromLittleEndian(s)
  {
    assert s[1..][1..] == s[2..] && s[2..][1..] == s[3..] && s[3..][1..] == [];
    assert FromLittleEndian(s[3..]) == s[3] + 256 * FromLittleEndian([]);
    assert FromLittleEndian(s[2..]) == s[2] + 256 * FromLittleEndian(s[3..]);
    assert FromLittleEndian(s[1..]) == s[1] + 256 * FromLittleEndian(s[2..]);
  }

  lemma Pow256s()
    ensures Pow256(4) == TWO32 && Pow256(8) == TWO64
  {
    assert Pow256(1) == 256 * Pow256(0) && Pow256(0) == 1;
    assert Pow256(2) == 256 * Pow256(1);
    assert Pow256(3) == 256 * Pow256(2);
    assert Pow256(4) == 256 * Pow256(3);
    assert Pow256(5) == 256 * Pow256(4);
    assert Pow256(6) == 256 * Pow256(5);
    assert Pow256(7) == 256 * Pow256(6);
  }
}
