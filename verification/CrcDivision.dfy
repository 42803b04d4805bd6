/** The CRC-32 of the package writer against polynomial long division over the
    two-element field, with the generator given by its exponents. */
module CrcDivision {
  import opened Bytes
  import opened Crc32

  // ----- Polynomials: coefficients from the highest power down -----

  function Plus(a: seq<bool>, b: seq<bool>): (r: seq<bool>)
    requires |a| == |b|
    ensures |r| == |a|
  {
    seq(|a|, i requires 0 <= i < |a| => a[i] != b[i])
  }

  function Constant(bit: bool, n: nat): (r: seq<bool>)
    ensures |r| == n
  {
    seq(n, _ => bit)
  }

  function Zeros32(): (r: seq<bool>)
    ensures |r| == 32
  {
    Constant(false, 32)
  }

  /** x^32 + x^26 + x^23 + x^22 + x^16 + x^12 + x^11 + x^10 + x^8 + x^7 + x^5 + x^4 + x^2 + x + 1. */
  function Generator(): (g: seq<bool>)
    ensures |g| == 33 && g[0]
  {
    seq(33, i => 32 - i in {32, 26, 23, 22, 16, 12, 11, 10, 8, 7, 5, 4, 2, 1, 0})
  }

  /** One step of the division: cancel the leading term. */
  function Reduce(m: seq<bool>): (r: seq<bool>)
    requires |m| > 32
    ensures |r| == |m| - 1
  {
    (if m[0] then Plus(m, Generator() + Constant(false, |m| - 33)) else m)[1..]
  }

  function Remainder(m: seq<bool>): (r: seq<bool>)
    requires |m| >= 32
    ensures |r| == 32
    decreases |m|
  {
    if |m| == 32 then m else Remainder(Reduce(m))
  }

  lemma ReducePlus(a: seq<bool>, b: seq<bool>)
    requires |a| == |b| > 32
    ensures Reduce(Plus(a, b)) == Plus(Reduce(a), Reduce(b))
  {
    hide Generator;
  }

  lemma {:induction false} RemainderPlus(a: seq<bool>, b: seq<bool>)
    requires |a| == |b| >= 32
    ensures Remainder(Plus(a, b)) == Plus(Remainder(a), Remainder(b))
    decreases |a|
  {
    hide Reduce;
    hide Plus;
    if |a| > 32 {
      ReducePlus(a, b);
      RemainderPlus(Reduce(a), Reduce(b));
    }
  }

  lemma ReduceConcat(a: seq<bool>, b: seq<bool>)
    requires |a| > 32
    ensures Reduce(a + b) == Reduce(a) + b
  {
    hide Generator;
  }

  lemma {:induction false} RemainderConcat(a: seq<bool>, b: seq<bool>)
    requires |a| >= 32
    ensures Remainder(a + b) == Remainder(Remainder(a) + b)
    decreases |a|
  {
    hide Reduce;
    if |a| > 32 {
      ReduceConcat(a, b);
      RemainderConcat(Reduce(a), b);
    }
  }

  lemma {:induction false} LeadingZeros(n: nat, m: seq<bool>)
    requires |m| >= 32
    ensures Remainder(Constant(false, n) + m) == Remainder(m)
  {
    if n == 0 {
      assert Constant(false, 0) + m == m;
    } else {
      assert Reduce(Constant(false, n) + m) == Constant(false, n - 1) + m;
      LeadingZeros(n - 1, m);
    }
  }

  // ----- Registers: the low bit is the coefficient of the highest power -----

  function RegisterBits(c: bv32, k: nat): (r: seq<bool>)
    ensures |r| == k
    decreases k
  {
    if k == 0 then [] else [c & 1 == 1] + RegisterBits(Half(c), k - 1)
  }

  function Register(c: bv32): (r: seq<bool>)
    ensures |r| == 32
  {
    RegisterBits(c, 32)
  }

  lemma {:induction false} BitsXor(c: bv32, d: bv32, k: nat)
    ensures RegisterBits(Xor(c, d), k) == Plus(RegisterBits(c, k), RegisterBits(d, k))
    decreases k
  {
    hide Xor;
    hide Half;
    if k > 0 {
      XorHalf(c, d);
      ParityXor(c, d);
      BitsXor(Half(c), Half(d), k - 1);
    }
  }

  lemma ParityXor(c: bv32, d: bv32)
    ensures (Xor(c, d) & 1 == 1) == ((c & 1 == 1) != (d & 1 == 1))
  {
  }

  function Halved(c: bv32, k: nat): bv32 {
    if k == 0 then c else Halved(Half(c), k - 1)
  }

  lemma {:induction false} BitsSnoc(c: bv32, k: nat)
    ensures RegisterBits(c, k + 1) == RegisterBits(c, k) + [Halved(c, k) & 1 == 1]
    decreases k
  {
    hide Half;
    if k == 0 {
      assert RegisterBits(c, 1) == [c & 1 == 1] + RegisterBits(Half(c), 0);
    } else {
      BitsSnoc(Half(c), k - 1);
    }
  }

  lemma HalvedEight(c: bv32, k: nat)
    requires k >= 8
    ensures Halved(c, k) == Halved(High(c), k - 8)
  {
    hide Half;
    var d := Half(Half(Half(Half(c))));
    assert Halved(c, k) == Halved(Half(Half(c)), k - 2);
    assert Halved(Half(Half(c)), k - 2) == Halved(d, k - 4);
    assert Halved(d, k - 4) == Halved(Half(Half(d)), k - 6);
    assert Halved(Half(Half(d)), k - 6) == Halved(Half(Half(Half(Half(d)))), k - 8);
    EightHalves(c);
  }

  lemma EightHalves(c: bv32)
    ensures Half(Half(Half(Half(Half(Half(Half(Half(c)))))))) == High(c)
  {
  }

  lemma FourHighs(c: bv32)
    ensures High(High(High(High(c)))) == 0
  {
  }

  lemma HalvedAway(c: bv32)
    ensures Halved(c, 32) == 0
  {
    hide Half;
    hide High;
    HalvedEight(c, 32);
    HalvedEight(High(c), 24);
    HalvedEight(High(High(c)), 16);
    HalvedEight(High(High(High(c))), 8);
    FourHighs(c);
  }

  /** Halving a register multiplies its polynomial by x, the top term aside. */
  lemma RegisterHalf(c: bv32)
    ensures Register(c) == [c & 1 == 1] + RegisterBits(Half(c), 31)
    ensures Register(Half(c)) == RegisterBits(Half(c), 31) + [false]
  {
    hide Half;
    BitsSnoc(Half(c), 31);
    assert Halved(c, 32) == Halved(Half(c), 31);
    HalvedAway(c);
  }

  function LowBits(c: bv32): seq<bool> {
    [c & 1 == 1, (c >> 1) & 1 == 1, (c >> 2) & 1 == 1, (c >> 3) & 1 == 1]
  }

  lemma FourHalves(c: bv32)
    ensures Half(c) == c >> 1 && Half(Half(c)) == c >> 2
    ensures Half(Half(Half(c))) == c >> 3 && Half(Half(Half(Half(c)))) == c >> 4
  {
  }

  lemma FourBits(c: bv32, k: nat)
    requires k >= 4
    ensures RegisterBits(c, k) == LowBits(c) + RegisterBits(c >> 4, k - 4)
  {
    hide Half;
    FourHalves(c);
    var d := Half(Half(c));
    assert RegisterBits(c, k) == [c & 1 == 1, Half(c) & 1 == 1] + RegisterBits(d, k - 2);
    assert RegisterBits(d, k - 2) == [d & 1 == 1, Half(d) & 1 == 1] + RegisterBits(Half(Half(d)), k - 4);
  }

  lemma EightBits(c: bv32, k: nat)
    requires k >= 8
    ensures RegisterBits(c, k) == LowBits(c) + LowBits(c >> 4) + RegisterBits(High(c), k - 8)
  {
    hide LowBits;
    FourBits(c, k);
    FourBits(c >> 4, k - 4);
    ShiftFourTwice(c);
    var rest := RegisterBits(High(c), k - 8);
    assert LowBits(c) + (LowBits(c >> 4) + rest) == LowBits(c) + LowBits(c >> 4) + rest;
  }

  lemma ShiftFourTwice(c: bv32)
    ensures (c >> 4) >> 4 == High(c)
  {
  }

  lemma PolynomialNibbles()
    ensures var p := POLYNOMIAL;
            && LowBits(p) == [false, false, false, false] && LowBits(p >> 4) == [false, true, false, false]
            && High(p) == 0xED_B883 && High(0xED_B883) == 0xEDB8 && High(0xEDB8) == 0xED
  {
  }

  lemma MiddleNibbles()
    ensures LowBits(0xED_B883) == [true, true, false, false] && LowBits(0xED_B883 >> 4) == [false, false, false, true]
    ensures LowBits(0xEDB8) == [false, false, false, true] && LowBits(0xEDB8 >> 4) == [true, true, false, true]
    ensures LowBits(0xED) == [true, false, true, true] && LowBits(0xED >> 4) == [false, true, true, true]
  {
  }

  /** The bits of the register that a round adds. */
  lemma PolynomialBits()
    ensures Register(POLYNOMIAL)
            == [false, false, false, false, false, true, false, false,
                true, true, false, false, false, false, false, true,
                false, false, false, true, true, true, false, true,
                true, false, true, true, false, true, true, true]
  {
    hide RegisterBits;
    hide LowBits;
    hide High;
    PolynomialNibbles();
    MiddleNibbles();
    EightBits(POLYNOMIAL, 32);
    EightBits(0xED_B883, 24);
    EightBits(0xEDB8, 16);
    EightBits(0xED, 8);
    NoBitsLeft(High(0xED));
  }

  lemma NoBitsLeft(c: bv32)
    ensures RegisterBits(c, 0) == []
  {
  }

  lemma GeneratorBits()
    ensures Generator()[1..]
            == [false, false, false, false, false, true, false, false,
                true, true, false, false, false, false, false, true,
                false, false, false, true, true, true, false, true,
                true, false, true, true, false, true, true, true]
  {
  }

  /** A round multiplies the register's polynomial by x and reduces it once. */
  lemma RoundReduces(c: bv32)
    ensures Reduce(Register(c) + [false]) == Register(Round(c))
  {
    hide Half;
    hide Xor;
    hide Generator;
    hide RegisterBits;
    RoundForm(c);
    RegisterHalf(c);
    var m := Register(c) + [false];
    assert m[1..] == Register(Half(c));
    if c & 1 == 1 {
      PolynomialBits();
      GeneratorBits();
      BitsXor(POLYNOMIAL, Half(c), 32);
      assert Generator() + Constant(false, 0) == Generator();
      PlusTail(m, Generator());
      PlusSymmetric(m[1..], Generator()[1..]);
    } else {
      XorSymmetric(0, Half(c));
      XorZero(Half(c));
    }
  }

  lemma PlusTail(a: seq<bool>, b: seq<bool>)
    requires |a| == |b| > 0
    ensures Plus(a, b)[1..] == Plus(a[1..], b[1..])
  {
  }

  lemma PlusSymmetric(a: seq<bool>, b: seq<bool>)
    requires |a| == |b|
    ensures Plus(a, b) == Plus(b, a)
  {
  }

  lemma {:induction false} RoundsAreRemainder(c: bv32, k: nat)
    ensures Remainder(Register(c) + Constant(false, k)) == Register(Rounds(c, k))
  {
    hide Register;
    hide Reduce;
    hide Round;
    if k == 0 {
      assert Register(c) + Constant(false, 0) == Register(c);
    } else {
      var m := Register(c) + Constant(false, k - 1);
      assert Register(c) + Constant(false, k) == m + [false];
      RemainderConcat(m, [false]);
      RoundsAreRemainder(c, k - 1);
      RoundReduces(Rounds(c, k - 1));
    }
  }

  // ----- Messages: each byte from its low bit up -----

  function ByteBits(n: nat, k: nat): (r: seq<bool>)
    ensures |r| == k
    decreases k
  {
    if k == 0 then [] else [n % 2 == 1] + ByteBits(n / 2, k - 1)
  }

  function MessageBits(data: seq<byte>): (r: seq<bool>)
    ensures |r| == 8 * |data|
    decreases |data|
  {
    if data == [] then [] else ByteBits(data[0], 8) + MessageBits(data[1..])
  }

  lemma AppendedBit(bits: bv32, bit: bool)
    requires bits <= 0x7F
    ensures (Append(bits, bit) & 1 == 1) == bit && Half(Append(bits, bit)) == bits
  {
  }

  lemma {:induction false} ZeroBits(k: nat)
    ensures RegisterBits(0, k) == Constant(false, k)
  {
    if k > 0 {
      ZeroBits(k - 1);
    }
  }

  lemma {:induction false} BitsOfByte(n: nat, j: nat, k: nat)
    requires j <= 8
    ensures RegisterBits(Bits(n, j), j + k) == ByteBits(n, j) + Constant(false, k)
    decreases j
  {
    hide Append;
    hide Half;
    if j == 0 {
      ZeroBits(k);
    } else {
      BitsAtMost(n / 2, j - 1);
      AppendedBit(Bits(n / 2, j - 1), n % 2 == 1);
      BitsOfByte(n / 2, j - 1, k);
    }
  }

  /** Adding a byte to the register adds its bits to the highest powers. */
  lemma RegisterOfByte(c: bv32, b: byte)
    ensures Register(Xor(c, Widen(b))) == Plus(Register(c), ByteBits(b, 8) + Constant(false, 24))
  {
    hide RegisterBits;
    hide Xor;
    hide Bits;
    BitsXor(c, Widen(b), 32);
    BitsOfByte(b, 8, 24);
  }

  /** What is divided: the message followed by 32 zeros, with a register's
      polynomial added to its highest powers. */
  function Dividend(first: seq<bool>, data: seq<byte>): (r: seq<bool>)
    requires |first| == 32
    ensures |r| == 32 + 8 * |data|
  {
    Plus(first + Constant(false, 8 * |data|), MessageBits(data) + Zeros32())
  }

  lemma DividendStep(first: seq<bool>, data: seq<byte>)
    requires |first| == 32 && data != []
    ensures var n := 8 * |data| - 8;
            Dividend(first, data)
            == Plus(Plus(first, ByteBits(data[0], 8) + Constant(false, 24)) + Constant(false, 8) + Constant(false, n),
                    Constant(false, 8) + (MessageBits(data[1..]) + Zeros32()))
  {
    hide ByteBits;
    var n := 8 * |data| - 8;
    var head, rest := ByteBits(data[0], 8), MessageBits(data[1..]) + Zeros32();
    assert MessageBits(data) + Zeros32() == head + rest;
    HeadAndRest(first, head, rest, n);
  }

  lemma HeadAndRest(first: seq<bool>, head: seq<bool>, rest: seq<bool>, n: nat)
    requires |first| == 32 && |head| == 8 && |rest| == n + 32
    ensures Plus(first + Constant(false, n + 8), head + rest)
            == Plus(Plus(first, head + Constant(false, 24)) + Constant(false, 8) + Constant(false, n),
                    Constant(false, 8) + rest)
  {
  }

  lemma {:induction false} UpdateIsRemainder(c: bv32, data: seq<byte>)
    ensures Register(Update(c, data)) == Remainder(Dividend(Register(c), data))
    decreases |data|
  {
    hide Register;
    hide Lookup;
    hide Widen;
    hide Xor;
    hide ByteBits;
    if data == [] {
      PlusZero(Register(c));
      assert Register(c) + Constant(false, 0) == Register(c);
      assert MessageBits([]) + Zeros32() == Zeros32();
    } else {
      StepIsRemainder(c, data);
      UpdateIsRemainder(Lookup(c, data[0]), data[1..]);
    }
  }

  lemma PlusZero(a: seq<bool>)
    ensures Plus(a, Constant(false, |a|)) == a
  {
  }

  lemma StepIsRemainder(c: bv32, data: seq<byte>)
    requires data != []
    ensures Remainder(Dividend(Register(c), data)) == Remainder(Dividend(Register(Lookup(c, data[0])), data[1..]))
  {
    hide Remainder;
    hide Register;
    hide Lookup;
    hide Widen;
    hide Xor;
    hide ByteBits;
    hide MessageBits;
    hide Plus;
    hide Constant;
    var n := 8 * |data| - 8;
    var x := Register(Xor(c, Widen(data[0])));
    var next := Register(Lookup(c, data[0]));
    var zeros, rest := Constant(false, n), MessageBits(data[1..]) + Zeros32();
    DividendStep(Register(c), data);
    RegisterOfByte(c, data[0]);
    LookupIsRounds(c, data[0]);
    RoundsAreRemainder(Xor(c, Widen(data[0])), 8);
    RemainderPlus(x + Constant(false, 8) + zeros, Constant(false, 8) + rest);
    RemainderConcat(x + Constant(false, 8), zeros);
    SameRemainder(next, zeros);
    LeadingZeros(8, rest);
    RemainderPlus(next + zeros, rest);
  }

  lemma SameRemainder(next: seq<bool>, zeros: seq<bool>)
    requires |next| == 32
    ensures Remainder(next) == next
  {
  }

  // ----- The theorem -----

  function Flip(a: seq<bool>): (r: seq<bool>)
    ensures |r| == |a|
  {
    seq(|a|, i requires 0 <= i < |a| => !a[i])
  }

  lemma OnesBits()
    ensures Register(ONES) == Constant(true, 32)
  {
    hide RegisterBits;
    EightBits(ONES, 32);
    EightBits(High(ONES), 24);
    EightBits(High(High(ONES)), 16);
    EightBits(High(High(High(ONES))), 8);
    NoBitsLeft(High(High(High(High(ONES)))));
  }

  lemma FlipIsPlus(a: seq<bool>)
    ensures Flip(a) == Plus(a, Constant(true, |a|))
  {
  }

  /** The checksum is the complement of what remains when the message, followed
      by 32 zeros and with its first 32 bits complemented, is divided by the
      generator. */
  lemma CrcIsRemainder(data: seq<byte>)
    ensures Register(Crc(data)) == Flip(Remainder(Dividend(Constant(true, 32), data)))
  {
    hide Register;
    hide Update;
    hide Dividend;
    hide Xor;
    OnesBits();
    UpdateIsRemainder(ONES, data);
    RegisterXor(Update(ONES, data), ONES);
    FlipIsPlus(Register(Update(ONES, data)));
  }

  lemma RegisterXor(c: bv32, d: bv32)
    ensures Register(Xor(c, d)) == Plus(Register(c), Register(d))
  {
    hide RegisterBits;
    BitsXor(c, d, 32);
  }
}
