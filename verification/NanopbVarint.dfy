/** What the 32-bit varint reader makes of longer varints (nanopb/pb_decode.c). */
module NanopbVarint {
  import opened Dbformat
  import opened Coding
  import opened Nanopb
  import opened NanopbWire

  lemma SameMod32(x: int, q: int)
    ensures (x + q * TWO32) % TWO32 == x % TWO32
  {}

  /** A step's reduction does not show in the end. */
  lemma ModOn(a: nat, b: nat)
    ensures (a % TWO32 + b) % TWO32 == (a + b) % TWO32
  {
    var q := a / TWO32;
    SameMod32(a + b, 0 - q);
  }

  lemma Pow128On(k: nat)
    ensures Pow128(k + 1) == 128 * Pow128(k)
  {}

  /** From the sixth byte on a varint is a multiple of 2^32. */
  lemma {:induction false} Pow128High(k: nat) returns (q: nat)
    requires k >= 5
    ensures Pow128(k) == q * TWO32
  {
    if k == 5 {
      Pow128On(4);
      Widths();
      q := 8;
    } else {
      var p := Pow128High(k - 1);
      q := 128 * p;
    }
  }

  /** The part of a varint a byte stands for, and the part of those after it. */
  lemma Split(low: nat, high: nat, p: nat)
    ensures (low + 128 * high) * p == low * p + high * (128 * p)
  {
    assert high * (128 * p) == 128 * high * p;
  }

  lemma NextIs(low: nat, k: nat, result: nat)
    requires result < TWO32
    ensures Next(low, k, result) == (result + low * Pow128(k)) % TWO32
  {
    hide Pow128;
    if k >= 5 {
      var q := Pow128High(k);
      assert low * (q * TWO32) == (low * q) * TWO32;
      SameMod32(result, low * q);
    }
  }

  /** A byte counts the same whether it is put in before the rest is read or with it. */
  lemma NextThen(low: nat, high: nat, k: nat, result: nat)
    requires result < TWO32
    ensures (Next(low, k, result) + high * Pow128(k + 1)) % TWO32 == (result + (low + 128 * high) * Pow128(k)) % TWO32
  {
    hide Pow128, Next;
    NextIs(low, k, result);
    Pow128On(k);
    ModOn(result + low * Pow128(k), high * Pow128(k + 1));
    Split(low, high, Pow128(k));
  }

  /** pb_decode_varint32_eof never invents: what it accepts is the low half of the whole number,
      and it stops where the varint does. */
  lemma {:induction false} AcceptedIsLow(s: seq<byte>, k: nat, result: nat)
    requires result < TWO32
    ensures var r := Read32(s, k, result);
      r.Some? ==>
        var whole := ReadVarint(s, |s|);
        whole.Some? && whole.value.1 == r.value.1 && r.value.0 == (result + whole.value.0 * Pow128(k)) % TWO32
    decreases |s|
  {
    hide Pow128, IsSuffix, Read32, ReadVarint, Next;
    Read32Unfold(s, k, result);
    ReadVarintUnfold(s, |s|);
    if Read32(s, k, result).Some? {
      var low := s[0] % 128;
      if s[0] >= 128 {
        AcceptedIsLow(s[1..], k + 1, Next(low, k, result));
        NextThen(low, ReadVarint(s[1..], |s| - 1).value.0, k, result);
      } else {
        NextIs(low, k, result);
      }
    }
  }

  // ---- negative numbers -------------------------------------------------------------------------

  /** The five bytes of a long varint that carry bits of the result. */
  lemma {:induction false} FirstFive(w: nat, rest: seq<byte>, k: nat, result: nat, v: nat)
    requires k <= 5 && result < TWO32 && w >= v * Pow128(5 - k) && v > 0 && w < (v + 1) * Pow128(5 - k)
    ensures var r := (result + w * Pow128(k)) % TWO32;
            Read32(Varint(w) + rest, k, result) == Read32(Varint(v) + rest, 5, r)
    decreases 5 - k
  {
    hide Pow128, IsSuffix, Read32, Varint, Next;
    Pow128Zero();
    if k == 5 {
      NextIs(w, k, result);
      NextHigh(w, k, result);
    } else {
      Pow128On(5 - k - 1);
      Shrink(w, v, Pow128(5 - k - 1));
      VarintUnfold(w);
      var s := Varint(w) + rest;
      assert s[0] == w % 128 + 128 && s[1..] == Varint(w / 128) + rest;
      Read32Unfold(s, k, result);
      FirstFive(w / 128, rest, k + 1, Next(w % 128, k, result), v);
      NextThen(w % 128, w / 128, k, result);
      assert w % 128 + 128 * (w / 128) == w;
    }
  }

  lemma NextHigh(low: nat, k: nat, result: nat)
    requires result < TWO32 && k >= 5
    ensures Next(low, k, result) == result
  {}

  lemma Pow128Zero()
    ensures Pow128(0) == 1
  {}

  lemma Shrink(w: nat, v: nat, p: nat)
    requires v > 0 && v * (128 * p) <= w < (v + 1) * (128 * p) && p > 0
    ensures w >= 128 && v * p <= w / 128 < (v + 1) * p
  {
    assert v * (128 * p) == 128 * (v * p);
    assert (v + 1) * (128 * p) == 128 * ((v + 1) * p);
    assert v * p >= 1 * p;
  }

  /** A byte of a negative number's sign. */
  lemma SignStep(w: nat, rest: seq<byte>, k: nat, result: nat)
    requires 0x8000_0000 <= result < TWO32 && 5 <= k < 9 && w >= 128 && w % 128 == 127
    ensures Read32(Varint(w) + rest, k, result) == Read32(Varint(w / 128) + rest, k + 1, result)
  {
    hide Read32, Varint, IsSuffix;
    VarintUnfold(w);
    var s := Varint(w) + rest;
    assert s[0] == 255 && s[1..] == Varint(w / 128) + rest;
    Read32Unfold(s, k, result);
  }

  /** The upper half of a negative number, all of it sign. */
  lemma SignEnds(rest: seq<byte>, result: nat)
    requires 0x8000_0000 <= result < TWO32
    ensures Read32(Varint(0x1FFF_FFFF) + rest, 5, result) == Some((result, rest))
  {
    hide Read32, Varint, IsSuffix;
    SignStep(0x1FFF_FFFF, rest, 5, result);
    SignStep(0x3F_FFFF, rest, 6, result);
    SignStep(0x7FFF, rest, 7, result);
    SignStep(0xFF, rest, 8, result);
    VarintUnfold(1);
    var s := Varint(1) + rest;
    assert s[0] == 1 && s[1..] == rest;
    Read32Unfold(s, 9, result);
  }

  /** A negative 32-bit number, which goes out as ten bytes, comes back as itself. */
  lemma NegativeReads(x: nat, rest: seq<byte>)
    requires 0 < x <= 0x8000_0000
    ensures Read32(Varint(TWO64 - x) + rest, 0, 0) == Some((TWO32 - x, rest))
  {
    hide Read32, Varint, IsSuffix, Pow128;
    var w := TWO64 - x;
    Pow128Zero();
    Pow128Five();
    FirstFive(w, rest, 0, 0, 0x1FFF_FFFF);
    SameMod32(TWO32 - x, TWO32 - 1);
    SignEnds(rest, TWO32 - x);
  }

  lemma Pow128Five()
    ensures Pow128(5) == 0x8_0000_0000
  {
    Widths();
    Pow128On(4);
  }
}
