/** CRC-32C (util/crc32c.h, util/crc32c.cc): the portable implementation, which keeps four
    interleaved partial results, computes the byte-at-a-time CRC of section 12.1 of RFC 3720.

    A register is its 32 bits, a byte its 8 bits, low bit first.  The tables are defined by
    what their entries are, not by their constants: a byte table entry advances a register
    by eight zero bits, a stride table entry advances its byte, in its place in the
    register, by sixteen zero bytes. */
module Crc32c {

  const NO_BITS := [false, false, false, false, false, false, false, false]

  type Word = w: seq<bool> | |w| == 32 witness NO_BITS + NO_BITS + NO_BITS + NO_BITS
  type Octet = o: seq<bool> | |o| == 8 witness NO_BITS

  function Falses(n: nat): (f: seq<bool>)
    ensures |f| == n && forall i :: 0 <= i < n ==> !f[i]
  {
    seq(n, _ => false)
  }

  const ZERO: Word := NO_BITS + NO_BITS + NO_BITS + NO_BITS

  function Not(w: Word): Word { seq(32, i requires 0 <= i < 32 => !w[i]) }

  const ONES: Word := Not(ZERO)

  // 0x82F63B78, the reversed polynomial.
  const POLYNOMIAL: Word :=
    [false, false, false, true, true, true, true, false, true, true, false, true, true, true, false, false,
     false, true, true, false, true, true, true, true, false, true, false, false, false, false, false, true]

  function Xor(a: Word, b: Word): Word { seq(32, i requires 0 <= i < 32 => a[i] != b[i]) }

  /** l >> n. */
  function Down(l: Word, n: nat): Word
    requires n <= 32
  {
    l[n..] + Falses(n)
  }

  /** The byte at 8 * i, in the low byte of a register. */
  function ByteAt(l: Word, i: nat): Word
    requires i < 4
  {
    l[8 * i..8 * i + 8] + Falses(24)
  }

  function Low(o: Octet): Word { o + Falses(24) }

  /** ReadUint32LE. */
  function Little(a: Octet, b: Octet, c: Octet, d: Octet): Word { a + b + c + d }

  /** One zero bit, low bit first. */
  function Bit(l: Word): Word { if l[0] then Xor(Down(l, 1), POLYNOMIAL) else Down(l, 1) }

  function Bits(l: Word, n: nat): Word
    decreases n
  {
    if n == 0 then l else Bits(Bit(l), n - 1)
  }

  /** kByteExtensionTable. */
  function ByteTable(c: Word): Word { Bits(c, 8) }

  /** One zero byte, by the table. */
  function Zero(l: Word): Word { Xor(ByteTable(ByteAt(l, 0)), Down(l, 8)) }

  function Zero4(l: Word): Word { Zero(Zero(Zero(Zero(l)))) }

  function Zero16(l: Word): Word { Zero4(Zero4(Zero4(Zero4(l)))) }

  /** kStrideExtensionTable0 to 3: the byte goes to the top of the register for table 0. */
  function StrideTable(i: nat, c: Word): Word
    requires i < 4
  {
    Zero16(Falses(8 * (3 - i)) + c[..8] + Falses(8 * i))
  }

  /** The register after the bytes, one at a time. */
  function Register(l: Word, data: seq<Octet>): Word {
    if data == [] then l else Zero(Xor(Register(l, data[..|data| - 1]), Low(data[|data| - 1])))
  }

  /** The CRC of a string whose beginning has CRC `crc`. */
  function Crc(crc: Word, data: seq<Octet>): Word { Xor(Register(Xor(crc, ONES), data), ONES) }

  // ---- linearity -----------------------------------------------------------------------

  lemma XorSwap(a: Word, b: Word, c: Word, d: Word)
    ensures Xor(Xor(a, b), Xor(c, d)) == Xor(Xor(a, c), Xor(b, d))
  {}

  lemma XorLaws(a: Word, b: Word, c: Word)
    ensures Xor(Xor(a, b), c) == Xor(a, Xor(b, c))
    ensures Xor(a, b) == Xor(b, a)
    ensures Xor(a, ZERO) == a && Xor(ZERO, a) == a && Xor(a, a) == ZERO
  {}

  lemma DownLinear(a: Word, b: Word, n: nat)
    requires n <= 32
    ensures Down(Xor(a, b), n) == Xor(Down(a, n), Down(b, n))
  {}

  lemma ByteAtLinear(a: Word, b: Word, i: nat)
    requires i < 4
    ensures ByteAt(Xor(a, b), i) == Xor(ByteAt(a, i), ByteAt(b, i))
  {}

  lemma BitLinear(a: Word, b: Word)
    ensures Bit(Xor(a, b)) == Xor(Bit(a), Bit(b))
  {
    DownLinear(a, b, 1);
    var x, y, p := Down(a, 1), Down(b, 1), POLYNOMIAL;
    assert Xor(Xor(x, p), Xor(y, p)) == Xor(x, y);
    assert Xor(Xor(x, p), y) == Xor(Xor(x, y), p);
    assert Xor(x, Xor(y, p)) == Xor(Xor(x, y), p);
  }

  lemma {:induction false} BitsLinear(a: Word, b: Word, n: nat)
    ensures Bits(Xor(a, b), n) == Xor(Bits(a, n), Bits(b, n))
    decreases n
  {
    hide Bit, Xor;
    if n > 0 {
      BitLinear(a, b);
      BitsLinear(Bit(a), Bit(b), n - 1);
    }
  }

  lemma ZeroLinear(a: Word, b: Word)
    ensures Zero(Xor(a, b)) == Xor(Zero(a), Zero(b))
  {
    hide Bits, Xor, ByteAt, Down;
    DownLinear(a, b, 8);
    ByteAtLinear(a, b, 0);
    BitsLinear(ByteAt(a, 0), ByteAt(b, 0), 8);
    XorSwap(ByteTable(ByteAt(a, 0)), ByteTable(ByteAt(b, 0)), Down(a, 8), Down(b, 8));
  }

  lemma Zero4Linear(a: Word, b: Word)
    ensures Zero4(Xor(a, b)) == Xor(Zero4(a), Zero4(b))
  {
    hide Zero, Xor;
    ZeroLinear(a, b);
    ZeroLinear(Zero(a), Zero(b));
    ZeroLinear(Zero(Zero(a)), Zero(Zero(b)));
    ZeroLinear(Zero(Zero(Zero(a))), Zero(Zero(Zero(b))));
  }

  lemma Zero16Linear(a: Word, b: Word)
    ensures Zero16(Xor(a, b)) == Xor(Zero16(a), Zero16(b))
  {
    hide Zero4, Xor;
    Zero4Linear(a, b);
    Zero4Linear(Zero4(a), Zero4(b));
    Zero4Linear(Zero4(Zero4(a)), Zero4(Zero4(b)));
    Zero4Linear(Zero4(Zero4(Zero4(a))), Zero4(Zero4(Zero4(b))));
  }

  // ---- a zero byte is eight zero bits --------------------------------------------------------

  lemma {:induction false} BitsOfHigh(l: Word, n: nat)
    requires n <= 8 && forall i :: 0 <= i < n ==> !l[i]
    ensures Bits(l, n) == Down(l, n)
    decreases n
  {
    hide Xor;
    if n == 0 {
      assert Down(l, 0) == l;
    } else {
      assert Bit(l) == Down(l, 1);
      BitsOfHigh(Bit(l), n - 1);
      assert Down(Down(l, 1), n - 1) == Down(l, n);
    }
  }

  /** The byte table does what eight rounds of the shift register do. */
  lemma ZeroIsEightBits(l: Word)
    ensures Zero(l) == Bits(l, 8)
  {
    hide Bits;
    var high: Word := Falses(8) + l[8..];
    assert l == Xor(ByteAt(l, 0), high);
    BitsLinear(ByteAt(l, 0), high, 8);
    BitsOfHigh(high, 8);
    assert Down(high, 8) == Down(l, 8);
  }

  // ---- four bytes at a time --------------------------------------------------------------------

  /** A byte at place `i` of a register that is otherwise zero. */
  function Placed(o: Octet, i: nat): Word
    requires i < 4
  {
    Falses(8 * i) + o + Falses(8 * (3 - i))
  }

  lemma {:induction false} BitsOfZero(n: nat)
    ensures Bits(ZERO, n) == ZERO
    decreases n
  {
    if n > 0 {
      assert Bit(ZERO) == ZERO;
      BitsOfZero(n - 1);
    }
  }

  /** Below its place a byte only moves down. */
  lemma ZeroOfPlaced(o: Octet, i: nat)
    requires 0 < i < 4
    ensures Zero(Placed(o, i)) == Placed(o, i - 1)
  {
    hide Bits;
    BitsOfZero(8);
    assert ByteAt(Placed(o, i), 0) == ZERO;
    assert Down(Placed(o, i), 8) == Placed(o, i - 1);
    XorLaws(Placed(o, i - 1), ZERO, ZERO);
  }

  lemma LittleIsPlaced(a: Octet, b: Octet, c: Octet, d: Octet)
    ensures Little(a, b, c, d) == Xor(Xor(Xor(Placed(a, 0), Placed(b, 1)), Placed(c, 2)), Placed(d, 3))
    ensures Low(a) == Placed(a, 0)
  {}

  /** One byte after a zero advance is a byte one place up before it. */
  lemma AbsorbByte(l: Word, o: Octet, i: nat)
    requires 0 < i < 4
    ensures Xor(Zero(l), Placed(o, i - 1)) == Zero(Xor(l, Placed(o, i)))
  {
    hide Zero, Xor, Placed;
    ZeroOfPlaced(o, i);
    ZeroLinear(l, Placed(o, i));
  }

  /** Four bytes one at a time are one word. */
  lemma FourBytes(l: Word, a: Octet, b: Octet, c: Octet, d: Octet)
    ensures Zero(Xor(Zero(Xor(Zero(Xor(Zero(Xor(l, Low(a))), Low(b))), Low(c))), Low(d))) == Zero4(Xor(l, Little(a, b, c, d)))
  {
    hide Zero, Xor, Placed;
    LittleIsPlaced(a, b, c, d);
    LittleIsPlaced(b, b, c, d);
    LittleIsPlaced(c, b, c, d);
    LittleIsPlaced(d, b, c, d);
    var x := Xor(l, Placed(a, 0));
    AbsorbByte(x, b, 1);
    var y := Xor(x, Placed(b, 1));
    AbsorbByte(Zero(y), c, 1);
    AbsorbByte(y, c, 2);
    var z := Xor(y, Placed(c, 2));
    AbsorbByte(Zero(Zero(z)), d, 1);
    AbsorbByte(Zero(z), d, 2);
    AbsorbByte(z, d, 3);
    XorLaws(l, Placed(a, 0), Placed(b, 1));
    XorLaws(l, Xor(Placed(a, 0), Placed(b, 1)), Placed(c, 2));
    XorLaws(l, Xor(Xor(Placed(a, 0), Placed(b, 1)), Placed(c, 2)), Placed(d, 3));
  }

  lemma RegisterByte(l: Word, data: seq<Octet>, o: Octet)
    ensures Register(l, data + [o]) == Zero(Xor(Register(l, data), Low(o)))
  {
    assert (data + [o])[..|data|] == data;
  }

  lemma RegisterWord(l: Word, data: seq<Octet>, i: nat)
    requires i + 4 <= |data|
    ensures Register(l, data[..i + 4]) == Zero4(Xor(Register(l, data[..i]), WordAt(data, i)))
  {
    hide Zero, Xor, Low, Register;
    assert data[..i + 1] == data[..i] + [data[i]];
    assert data[..i + 2] == data[..i + 1] + [data[i + 1]];
    assert data[..i + 3] == data[..i + 2] + [data[i + 2]];
    assert data[..i + 4] == data[..i + 3] + [data[i + 3]];
    RegisterByte(l, data[..i], data[i]);
    RegisterByte(l, data[..i + 1], data[i + 1]);
    RegisterByte(l, data[..i + 2], data[i + 2]);
    RegisterByte(l, data[..i + 3], data[i + 3]);
    FourBytes(Register(l, data[..i]), data[i], data[i + 1], data[i + 2], data[i + 3]);
  }

  // ---- four strides ------------------------------------------------------------------------------

  function WordAt(data: seq<Octet>, i: nat): Word
    requires i + 4 <= |data|
  {
    Little(data[i], data[i + 1], data[i + 2], data[i + 3])
  }

  /** STEP4: the stride's register advanced by sixteen bytes, and its next word. */
  function Step4(crc: Word, w: Word): Word {
    Xor(Xor(Xor(Xor(w, StrideTable(3, ByteAt(crc, 0))), StrideTable(2, ByteAt(crc, 1))), StrideTable(1, ByteAt(crc, 2))),
        StrideTable(0, ByteAt(crc, 3)))
  }

  lemma WordIsBytes(crc: Word)
    ensures crc == Xor(Xor(Xor(Placed(ByteAt(crc, 0)[..8], 0), Placed(ByteAt(crc, 1)[..8], 1)), Placed(ByteAt(crc, 2)[..8], 2)),
                       Placed(ByteAt(crc, 3)[..8], 3))
  {}

  lemma StrideEntry(i: nat, c: Word)
    requires i < 4
    ensures StrideTable(3 - i, c) == Zero16(Placed(c[..8], i))
  {
    hide Zero4;
  }

  lemma Step4Is(crc: Word, w: Word)
    ensures Step4(crc, w) == Xor(w, Zero16(crc))
  {
    hide Zero16, Xor, Placed, ByteAt, StrideTable;
    var p0, p1, p2, p3 := Placed(ByteAt(crc, 0)[..8], 0), Placed(ByteAt(crc, 1)[..8], 1), Placed(ByteAt(crc, 2)[..8], 2),
                          Placed(ByteAt(crc, 3)[..8], 3);
    WordIsBytes(crc);
    StrideEntry(0, ByteAt(crc, 0));
    StrideEntry(1, ByteAt(crc, 1));
    StrideEntry(2, ByteAt(crc, 2));
    StrideEntry(3, ByteAt(crc, 3));
    Zero16Linear(p0, p1);
    Zero16Linear(Xor(p0, p1), p2);
    Zero16Linear(Xor(Xor(p0, p1), p2), p3);
    var z0, z1, z2, z3 := Zero16(p0), Zero16(p1), Zero16(p2), Zero16(p3);
    XorLaws(w, z0, z1);
    XorLaws(w, Xor(z0, z1), z2);
    XorLaws(w, Xor(Xor(z0, z1), z2), z3);
  }

  /** The register that the four partial results stand for. */
  function Combine(c0: Word, c1: Word, c2: Word, c3: Word): Word {
    Zero4(Xor(Zero4(Xor(Zero4(Xor(Zero4(c0), c1)), c2)), c3))
  }

  /** The first partial result, taken out. */
  lemma TakeFirst(c0: Word, c1: Word, c2: Word, c3: Word)
    ensures Combine(c0, c1, c2, c3) == Xor(Zero16(c0), Zero4(Xor(Zero4(Xor(Zero4(c1), c2)), c3)))
  {
    hide Zero4, Xor;
    Zero4Linear(Zero4(c0), c1);
    XorLaws(Zero4(Zero4(c0)), Zero4(c1), c2);
    Zero4Linear(Zero4(Zero4(c0)), Xor(Zero4(c1), c2));
    XorLaws(Zero4(Zero4(Zero4(c0))), Zero4(Xor(Zero4(c1), c2)), c3);
    Zero4Linear(Zero4(Zero4(Zero4(c0))), Xor(Zero4(Xor(Zero4(c1), c2)), c3));
  }

  /** One more word goes to the oldest stride, which becomes the youngest. */
  lemma Rotate(c0: Word, c1: Word, c2: Word, c3: Word, w: Word)
    ensures Zero4(Xor(Combine(c0, c1, c2, c3), w)) == Combine(c1, c2, c3, Step4(c0, w))
  {
    hide Zero4, Zero16, Xor, Step4;
    TakeFirst(c0, c1, c2, c3);
    Step4Is(c0, w);
    var rest := Zero4(Xor(Zero4(Xor(Zero4(c1), c2)), c3));
    XorLaws(Zero16(c0), rest, w);
    XorLaws(rest, Zero16(c0), w);
    XorLaws(rest, w, Zero16(c0));
    XorLaws(w, Zero16(c0), w);
  }

  /** STEP16 is four rotations. */
  lemma Swath(l: Word, data: seq<Octet>, i: nat, c0: Word, c1: Word, c2: Word, c3: Word, w0: Word, w1: Word, w2: Word, w3: Word)
    requires i + 16 <= |data| && Register(l, data[..i]) == Combine(c0, c1, c2, c3)
    requires w0 == WordAt(data, i) && w1 == WordAt(data, i + 4) && w2 == WordAt(data, i + 8) && w3 == WordAt(data, i + 12)
    ensures Register(l, data[..i + 16]) == Combine(Step4(c0, w0), Step4(c1, w1), Step4(c2, w2), Step4(c3, w3))
  {
    hide Zero4, Xor, Step4, Combine, Register, WordAt;
    var d0, d1, d2 := Step4(c0, w0), Step4(c1, w1), Step4(c2, w2);
    RegisterWord(l, data, i);
    Rotate(c0, c1, c2, c3, w0);
    RegisterWord(l, data, i + 4);
    Rotate(c1, c2, c3, d0, w1);
    RegisterWord(l, data, i + 8);
    Rotate(c2, c3, d0, d1, w2);
    RegisterWord(l, data, i + 12);
    Rotate(c3, d0, d1, d2, w3);
  }

  /** The first sixteen bytes, loaded into the four strides. */
  lemma FirstSwath(l: Word, data: seq<Octet>, i: nat)
    requires i + 16 <= |data|
    ensures Register(l, data[..i + 16])
         == Combine(Xor(WordAt(data, i), Register(l, data[..i])), WordAt(data, i + 4), WordAt(data, i + 8), WordAt(data, i + 12))
  {
    hide Zero4, Xor, Register, WordAt;
    RegisterWord(l, data, i);
    RegisterWord(l, data, i + 4);
    RegisterWord(l, data, i + 8);
    RegisterWord(l, data, i + 12);
    XorLaws(WordAt(data, i), Register(l, data[..i]), ZERO);
  }

  // ---- Extend ------------------------------------------------------------------------------------

  method Step1(l: Word, o: Octet) returns (r: Word)
    ensures r == Zero(Xor(l, Low(o)))
  {
    hide Bits;
    var c := Xor(ByteAt(l, 0), Low(o));
    r := Xor(ByteTable(c), Down(l, 8));
    assert ByteAt(Xor(l, Low(o)), 0) == c;
    assert Down(Xor(l, Low(o)), 8) == Down(l, 8);
  }

  method Step4W(w: Word, l: Word) returns (r: Word)
    ensures r == Zero4(Xor(w, l))
  {
    hide Zero, Xor;
    var x := Xor(w, l);
    r := x;
    r := Zero(r);
    r := Zero(r);
    r := Zero(r);
    r := Zero(r);
  }

  /** Extend, for data at any address: the strided form computes the byte-at-a-time CRC. */
  method Extend(crc: Word, data: seq<Octet>, address: nat) returns (r: Word)
    ensures r == Crc(crc, data)
  {
    hide Zero, Zero4, Zero16, Register, Combine, Step4, WordAt, Xor, Low;
    var n := |data|;
    var l := Xor(crc, ONES);
    ghost var start := l;
    var p := 0;
    var x := (4 - address % 4) % 4;
    RegisterEmpty(l, data);
    if x <= n {
      while p != x
        invariant 0 <= p <= x && l == Register(start, data[..p])
      {
        RegisterByte(start, data[..p], data[p]);
        assert data[..p + 1] == data[..p] + [data[p]];
        l := Step1(l, data[p]);
        p := p + 1;
      }
    }
    if n - p >= 16 {
      FirstSwath(start, data, p);
      var c0 := Xor(WordAt(data, p), l);
      var c1, c2, c3 := WordAt(data, p + 4), WordAt(data, p + 8), WordAt(data, p + 12);
      p := p + 16;
      while n - p >= 16
        invariant p <= n && Register(start, data[..p]) == Combine(c0, c1, c2, c3)
      {
        var w0, w1, w2, w3 := WordAt(data, p), WordAt(data, p + 4), WordAt(data, p + 8), WordAt(data, p + 12);
        Swath(start, data, p, c0, c1, c2, c3, w0, w1, w2, w3);
        c0 := Step4(c0, w0);
        c1 := Step4(c1, w1);
        c2 := Step4(c2, w2);
        c3 := Step4(c3, w3);
        p := p + 16;
      }
      while n - p >= 4
        invariant p <= n && Register(start, data[..p]) == Combine(c0, c1, c2, c3)
      {
        RegisterWord(start, data, p);
        Rotate(c0, c1, c2, c3, WordAt(data, p));
        c0 := Step4(c0, WordAt(data, p));
        c0, c1, c2, c3 := c1, c2, c3, c0;
        p := p + 4;
      }
      l := ZERO;
      l := Step4W(c0, l);
      l := Step4W(c1, l);
      l := Step4W(c2, l);
      l := Step4W(c3, l);
      CombineIs(c0, c1, c2, c3);
    }
    while p != n
      invariant p <= n && l == Register(start, data[..p])
    {
      RegisterByte(start, data[..p], data[p]);
      assert data[..p + 1] == data[..p] + [data[p]];
      l := Step1(l, data[p]);
      p := p + 1;
    }
    assert data[..n] == data;
    r := Xor(l, ONES);
  }

  lemma RegisterEmpty(l: Word, data: seq<Octet>)
    ensures Register(l, data[..0]) == l
  {}

  lemma CombineIs(c0: Word, c1: Word, c2: Word, c3: Word)
    ensures Zero4(Xor(c3, Zero4(Xor(c2, Zero4(Xor(c1, Zero4(Xor(c0, ZERO)))))))) == Combine(c0, c1, c2, c3)
  {
    hide Zero4, Xor;
    XorLaws(c0, ZERO, ZERO);
    XorLaws(Zero4(c0), c1, ZERO);
    XorLaws(Zero4(Xor(Zero4(c0), c1)), c2, ZERO);
    XorLaws(Zero4(Xor(Zero4(Xor(Zero4(c0), c1)), c2)), c3, ZERO);
  }

  // ---- crc32c.h ------------------------------------------------------------------------------------

  lemma {:induction false} RegisterAppend(l: Word, a: seq<Octet>, b: seq<Octet>)
    ensures Register(l, a + b) == Register(Register(l, a), b)
  {
    hide Zero, Xor, Low;
    if b == [] {
      assert a + b == a;
    } else {
      var n := |b| - 1;
      assert a + b == (a + b[..n]) + [b[n]];
      RegisterAppend(l, a, b[..n]);
      RegisterByte(l, a + b[..n], b[n]);
    }
  }

  /** The contract of Extend: the CRC of a concatenation, piece by piece. */
  lemma ExtendComposes(crc: Word, a: seq<Octet>, b: seq<Octet>)
    ensures Crc(Crc(crc, a), b) == Crc(crc, a + b)
  {
    hide Zero, Register, Xor;
    var r := Register(Xor(crc, ONES), a);
    XorLaws(r, ONES, ONES);
    XorLaws(ONES, ONES, ZERO);
    RegisterAppend(Xor(crc, ONES), a, b);
    XorLaws(r, ZERO, ZERO);
  }

  const MASK_DELTA: bv32 := 0xA282_EAD8

  /** Mask, on the register as a 32-bit number: rotate right by 15 and add. */
  function Mask(crc: bv32): bv32 { ((crc >> 15) | (crc << 17)) + MASK_DELTA }

  function Unmask(masked: bv32): bv32 {
    var rot := masked - MASK_DELTA;
    (rot >> 17) | (rot << 15)
  }

  lemma RotationUndone(c: bv32)
    ensures (((c >> 15) | (c << 17)) >> 17) | (((c >> 15) | (c << 17)) << 15) == c
  {}

  lemma AdditionUndone(x: bv32, d: bv32)
    ensures (x + d) - d == x
  {}

  /** The mask turns right by fifteen and adds. */
  lemma MaskExample()
    ensures Mask(0) == 0xA282_EAD8 && Mask(0x0000_8001) == 0xA284_EAD9
  {}

  /** A stored CRC comes back. */
  lemma UnmaskUndoesMask(c: bv32)
    ensures Unmask(Mask(c)) == c
  {
    AdditionUndone((c >> 15) | (c << 17), MASK_DELTA);
    RotationUndone(c);
  }

  // ---- known values --------------------------------------------------------------------------------

  predicate On(v: bv32, mask: bv32) { v & mask != 0 }

  function BitMask(i: nat): bv32 { if i == 0 then 1 else BitMask(i - 1) << 1 }

  /** The register of a machine word. */
  function FromWord(v: bv32): Word { seq(32, i requires 0 <= i < 32 => On(v, BitMask(i))) }

  function FromByte(v: bv32): Octet { FromWord(v)[..8] }

  /** The bit step on machine words, with the polynomial as a number. */
  function WordBit(l: bv32): bv32 { if On(l, 1) then (l >> 1) ^ 0x82F63B78 else l >> 1 }

  function WordByte(l: bv32): bv32 { WordBit(WordBit(WordBit(WordBit(WordBit(WordBit(WordBit(WordBit(l)))))))) }

  lemma HalfOn(l: bv32, mask: bv32)
    ensures On(l >> 1, mask) == On(l, mask << 1)
  {}

  lemma BitMasks()
    ensures BitMask(0) == 0x1 && BitMask(1) == 0x2 && BitMask(2) == 0x4 && BitMask(3) == 0x8
    ensures BitMask(4) == 0x10 && BitMask(5) == 0x20 && BitMask(6) == 0x40 && BitMask(7) == 0x80
    ensures BitMask(8) == 0x100 && BitMask(9) == 0x200 && BitMask(10) == 0x400 && BitMask(11) == 0x800
    ensures BitMask(12) == 0x1000 && BitMask(13) == 0x2000 && BitMask(14) == 0x4000 && BitMask(15) == 0x8000
    ensures BitMask(16) == 0x10000 && BitMask(17) == 0x20000 && BitMask(18) == 0x40000 && BitMask(19) == 0x80000
    ensures BitMask(20) == 0x100000 && BitMask(21) == 0x200000 && BitMask(22) == 0x400000 && BitMask(23) == 0x800000
    ensures BitMask(24) == 0x1000000 && BitMask(25) == 0x2000000 && BitMask(26) == 0x4000000 && BitMask(27) == 0x8000000
    ensures BitMask(28) == 0x10000000 && BitMask(29) == 0x20000000 && BitMask(30) == 0x40000000 && BitMask(31) == 0x80000000
    ensures BitMask(32) == 0
  {}

  lemma HalfIs(l: bv32)
    ensures Down(FromWord(l), 1) == FromWord(l >> 1)
  {
    hide On;
    BitMasks();
    NoneOn(l);
    forall i | 0 <= i < 32 ensures On(l >> 1, BitMask(i)) == On(l, BitMask(i + 1)) { HalfOn(l, BitMask(i)); }
  }

  lemma NoneOn(l: bv32)
    ensures !On(l, 0)
  {}

  lemma XorOn(a: bv32, b: bv32, mask: bv32)
    requires mask & (mask - 1) == 0
    ensures On(a ^ b, mask) == (On(a, mask) != On(b, mask))
  {}

  lemma {:induction false} OneBit(i: nat)
    ensures BitMask(i) & (BitMask(i) - 1) == 0
  {
    if i > 0 {
      OneBit(i - 1);
      OneBitOn(BitMask(i - 1));
    }
  }

  lemma OneBitOn(mask: bv32)
    requires mask & (mask - 1) == 0
    ensures (mask << 1) & ((mask << 1) - 1) == 0
  {}

  lemma XorIs(a: bv32, b: bv32)
    ensures Xor(FromWord(a), FromWord(b)) == FromWord(a ^ b)
  {
    hide On, BitMask;
    forall i | 0 <= i < 32 ensures On(a ^ b, BitMask(i)) == (On(a, BitMask(i)) != On(b, BitMask(i))) {
      OneBit(i);
      XorOn(a, b, BitMask(i));
    }
  }

  lemma PolynomialIs()
    ensures POLYNOMIAL == FromWord(0x82F63B78)
  {
    BitMasks();
  }

  lemma BitIs(l: bv32)
    ensures Bit(FromWord(l)) == FromWord(WordBit(l))
  {
    hide Down, Xor;
    HalfIs(l);
    PolynomialIs();
    XorIs(l >> 1, 0x82F63B78);
  }

  lemma BitsOn(l: bv32, n: nat)
    requires n > 0
    ensures Bits(FromWord(l), n) == Bits(FromWord(WordBit(l)), n - 1)
  {
    hide Bit, WordBit, FromWord;
    BitIs(l);
  }

  lemma ByteIs(l: bv32)
    ensures Bits(FromWord(l), 8) == FromWord(WordByte(l))
  {
    hide Bit, WordBit, FromWord, Bits;
    var l1 := WordBit(l);
    var l2 := WordBit(l1);
    var l3 := WordBit(l2);
    var l4 := WordBit(l3);
    var l5 := WordBit(l4);
    var l6 := WordBit(l5);
    var l7 := WordBit(l6);
    BitsOn(l, 8);
    BitsOn(l1, 7);
    BitsOn(l2, 6);
    BitsOn(l3, 5);
    BitsOn(l4, 4);
    BitsOn(l5, 3);
    BitsOn(l6, 2);
    BitsOn(l7, 1);
    NoBits(FromWord(WordBit(l7)));
  }

  lemma NoBits(l: Word)
    ensures Bits(l, 0) == l
  {}

  /** The entries of kByteExtensionTable for the single bits; all others are sums of these. */
  lemma TableEntries()
    ensures ByteTable(FromWord(1)) == FromWord(0xF26B8303) && ByteTable(FromWord(2)) == FromWord(0xE13B70F7)
    ensures ByteTable(FromWord(4)) == FromWord(0xC79A971F) && ByteTable(FromWord(8)) == FromWord(0x8AD958CF)
    ensures ByteTable(FromWord(16)) == FromWord(0x105EC76F) && ByteTable(FromWord(32)) == FromWord(0x20BD8EDE)
    ensures ByteTable(FromWord(64)) == FromWord(0x417B1DBC) && ByteTable(FromWord(128)) == FromWord(0x82F63B78)
  {
    hide Bits, FromWord;
    ByteIs(1);
    ByteIs(2);
    ByteIs(4);
    ByteIs(8);
    ByteIs(16);
    ByteIs(32);
    ByteIs(64);
    ByteIs(128);
  }

  lemma LowIs(v: bv32)
    requires v < 256
    ensures Low(FromByte(v)) == FromWord(v)
  {}

  lemma ByteOn(l: Word, data: seq<Octet>, c: bv32, before: bv32, after: bv32)
    requires c < 256 && Register(l, data) == FromWord(before) && after == WordByte(before ^ c)
    ensures Register(l, data + [FromByte(c)]) == FromWord(after)
  {
    hide FromWord, FromByte, Xor, Zero, Low, Bits, WordByte;
    RegisterByte(l, data, FromByte(c));
    LowIs(c);
    XorIs(before, c);
    ZeroIsEightBits(FromWord(before ^ c));
    ByteIs(before ^ c);
  }

  /** "TestCRCBuffer". */
  function TestBytes(): seq<Octet> {
    [FromByte(0x54), FromByte(0x65), FromByte(0x73), FromByte(0x74), FromByte(0x43), FromByte(0x52), FromByte(0x43),
     FromByte(0x42), FromByte(0x75), FromByte(0x66), FromByte(0x66), FromByte(0x65), FromByte(0x72)]
  }

  /** The string by which CanAccelerateCRC32C tells a working CRC-32C, and its CRC. */
  lemma TestBuffer()
    ensures Crc(ZERO, TestBytes()) == FromWord(0xDCBC59FA)
  {
    hide FromWord, FromByte, Register, Xor;
    var d: seq<Octet> := [];
    assert Xor(ZERO, ONES) == ONES && ONES == FromWord(0xFFFF_FFFF) by { OnesIs(); }
    assert Register(ONES, d) == ONES by { RegisterEmpty(ONES, d); }
    ByteOn(ONES, d, 0x54, 0xFFFFFFFF, 0x3B3DE162);
    d := d + [FromByte(0x54)];
    ByteOn(ONES, d, 0x65, 0x3B3DE162, 0xD4F1590A);
    d := d + [FromByte(0x65)];
    ByteOn(ONES, d, 0x73, 0xD4F1590A, 0x09FE7E98);
    d := d + [FromByte(0x73)];
    ByteOn(ONES, d, 0x74, 0x09FE7E98, 0xAE7A99B4);
    d := d + [FromByte(0x74)];
    ByteOn(ONES, d, 0x43, 0xAE7A99B4, 0x270A7107);
    d := d + [FromByte(0x43)];
    ByteOn(ONES, d, 0x52, 0x270A7107, 0x64F3C4BE);
    d := d + [FromByte(0x52)];
    ByteOn(ONES, d, 0x43, 0x64F3C4BE, 0x4C22D062);
    d := d + [FromByte(0x43)];
    ByteOn(ONES, d, 0x42, 0x4C22D062, 0x20F1AC0E);
    d := d + [FromByte(0x42)];
    ByteOn(ONES, d, 0x75, 0x20F1AC0E, 0xE8310E9A);
    d := d + [FromByte(0x75)];
    ByteOn(ONES, d, 0x66, 0xE8310E9A, 0xBEC591AB);
    d := d + [FromByte(0x66)];
    ByteOn(ONES, d, 0x66, 0xBEC591AB, 0x7C1BAF86);
    d := d + [FromByte(0x66)];
    ByteOn(ONES, d, 0x65, 0x7C1BAF86, 0xF01C4041);
    d := d + [FromByte(0x65)];
    ByteOn(ONES, d, 0x72, 0xF01C4041, 0x2343A605);
    d := d + [FromByte(0x72)];
    assert d == TestBytes();
    XorIs(0x2343_A605, 0xFFFF_FFFF);
  }

  lemma OnesIs()
    ensures Xor(ZERO, ONES) == ONES == FromWord(0xFFFF_FFFF)
  {
    BitMasks();
  }
}
