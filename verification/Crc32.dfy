/** The bit-by-bit CRC-32 of the package writer against the table-driven
    algorithm of section 8 of RFC 1952. */
module Crc32 {
  import opened Basics
  import opened Bytes

  const POLYNOMIAL: bv32 := 0xEDB8_8320

  /** The low `k` bits of a number, as a register. */
  function Bits(n: nat, k: nat): bv32
    decreases k
  {
    if k == 0 then 0 else Append(Bits(n / 2, k - 1), n % 2 == 1)
  }

  function Append(bits: bv32, bit: bool): bv32 {
    (bits << 1) | (if bit then 1 else 0)
  }

  /** `byte as u32`. */
  function Widen(b: byte): bv32 {
    Bits(b, 8)
  }

  function Xor(a: bv32, b: bv32): bv32 {
    a ^ b
  }

  /** `crc >> 8`. */
  function High(crc: bv32): bv32 {
    crc >> 8
  }

  /** `crc & 0xff`. */
  function Low(crc: bv32): bv32 {
    crc & 0xFF
  }

  function Raise(crc: bv32): bv32 {
    crc << 8
  }

  function Half(crc: bv32): bv32 {
    crc >> 1
  }

  // ----- RFC 1952, section 8 -----

  /** One of the eight rounds that build a table entry. */
  function Round(c: bv32): bv32 {
    if c & 1 == 1 then Xor(POLYNOMIAL, Half(c)) else Half(c)
  }

  function Rounds(c: bv32, k: nat): bv32 {
    if k == 0 then c else Round(Rounds(c, k - 1))
  }

  /** `crc_table[n]`. */
  function TableEntry(n: bv32): bv32 {
    Rounds(n, 8)
  }

  /** The body of `update_crc`: one table lookup. */
  function Lookup(crc: bv32, b: byte): bv32 {
    Xor(TableEntry(Low(Xor(crc, Widen(b)))), High(crc))
  }

  /** `update_crc`. */
  function Update(crc: bv32, buf: seq<byte>): bv32
    decreases |buf|
  {
    if buf == [] then crc else Update(Lookup(crc, buf[0]), buf[1..])
  }

  const ONES: bv32 := 0xFFFF_FFFF

  function Crc(buf: seq<byte>): bv32 {
    Xor(Update(ONES, buf), ONES)
  }

  // ----- Rounds are linear and reversible -----

  lemma LowBit(c: bv32)
    ensures c & 1 == 0 || c & 1 == 1
  {
  }

  lemma XorHalf(x: bv32, y: bv32)
    ensures Half(Xor(x, y)) == Xor(Half(x), Half(y))
  {
  }

  lemma XorParity(x: bv32, y: bv32)
    ensures Xor(x, y) & 1 == Xor(x & 1, y & 1)
  {
  }

  lemma XorAssociative(a: bv32, b: bv32, c: bv32)
    ensures Xor(Xor(a, b), c) == Xor(a, Xor(b, c))
  {
  }

  lemma XorSymmetric(a: bv32, b: bv32)
    ensures Xor(a, b) == Xor(b, a)
  {
  }

  lemma XorSelf(a: bv32)
    ensures Xor(a, a) == 0
  {
  }

  lemma XorZero(a: bv32)
    ensures Xor(a, 0) == a
  {
  }

  lemma XorSwap(a: bv32, b: bv32, c: bv32, d: bv32)
    ensures Xor(Xor(a, b), Xor(c, d)) == Xor(Xor(a, c), Xor(b, d))
  {
    hide Xor;
    XorAssociative(Xor(a, b), c, d);
    XorAssociative(a, b, c);
    XorSymmetric(b, c);
    XorAssociative(a, c, b);
    XorAssociative(Xor(a, c), b, d);
  }

  lemma XorUnits()
    ensures Xor(0, 0) == 0 && Xor(0, 1) == 1 && Xor(1, 0) == 1 && Xor(1, 1) == 0
  {
  }

  /** A round is half the register, plus the polynomial when the low bit is set. */
  lemma RoundForm(c: bv32)
    ensures Round(c) == Xor(if c & 1 == 1 then POLYNOMIAL else 0, Half(c))
  {
    hide Xor;
    hide Half;
    XorSymmetric(0, Half(c));
    XorZero(Half(c));
  }

  lemma RoundXor(x: bv32, y: bv32)
    ensures Round(Xor(x, y)) == Xor(Round(x), Round(y))
  {
    hide Xor;
    hide Round;
    RoundForm(x);
    RoundForm(y);
    RoundForm(Xor(x, y));
    XorHalf(x, y);
    var p, q := if x & 1 == 1 then POLYNOMIAL else 0, if y & 1 == 1 then POLYNOMIAL else 0;
    XorSwap(p, Half(x), q, Half(y));
    PolynomialParity(x, y);
  }

  lemma PolynomialParity(x: bv32, y: bv32)
    ensures (if Xor(x, y) & 1 == 1 then POLYNOMIAL else 0)
            == Xor(if x & 1 == 1 then POLYNOMIAL else 0, if y & 1 == 1 then POLYNOMIAL else 0)
  {
    hide Xor;
    LowBit(x);
    LowBit(y);
    XorParity(x, y);
    XorUnits();
    XorSelf(POLYNOMIAL);
    XorZero(POLYNOMIAL);
    XorZero(0);
    XorSymmetric(POLYNOMIAL, 0);
  }

  lemma {:induction false} RoundsXor(x: bv32, y: bv32, k: nat)
    ensures Rounds(Xor(x, y), k) == Xor(Rounds(x, k), Rounds(y, k))
  {
    hide Round;
    hide Xor;
    if k > 0 {
      RoundsXor(x, y, k - 1);
      RoundXor(Rounds(x, k - 1), Rounds(y, k - 1));
    }
  }

  function Unround(c: bv32): bv32 {
    if c & 0x8000_0000 != 0 then (Xor(c, POLYNOMIAL) << 1) | 1 else c << 1
  }

  lemma UnroundRound(c: bv32)
    ensures Unround(Round(c)) == c
  {
    LowBit(c);
  }

  lemma {:induction false} RoundsInjective(x: bv32, y: bv32, k: nat)
    requires Rounds(x, k) == Rounds(y, k)
    ensures x == y
  {
    hide Round;
    hide Unround;
    if k > 0 {
      UnroundRound(Rounds(x, k - 1));
      UnroundRound(Rounds(y, k - 1));
      RoundsInjective(x, y, k - 1);
    }
  }

  lemma RoundsUnrolled(c: bv32)
    ensures Rounds(c, 8) == Round(Round(Round(Round(Round(Round(Round(Round(c))))))))
  {
    hide Round;
    assert Rounds(c, 1) == Round(c);
    assert Rounds(c, 2) == Round(Round(c));
    assert Rounds(c, 4) == Round(Round(Rounds(c, 2)));
    assert Rounds(c, 6) == Round(Round(Rounds(c, 4)));
  }

  lemma ShiftedEight(c: bv32)
    requires Low(c) == 0
    ensures Round(Round(Round(Round(Round(Round(Round(Round(c)))))))) == High(c)
  {
  }

  /** With a zero low byte, eight rounds are a plain shift. */
  lemma RoundsOfShifted(c: bv32)
    requires Low(c) == 0
    ensures Rounds(c, 8) == High(c)
  {
    hide Round;
    hide Rounds;
    hide High;
    hide Low;
    RoundsUnrolled(c);
    ShiftedEight(c);
  }

  /** The register without its low byte. */
  function Upper(c: bv32): bv32 {
    c & 0xFFFF_FF00
  }

  lemma LowAndUpper(x: bv32)
    ensures x == Xor(Low(x), Upper(x))
  {
  }

  lemma LowOfUpper(x: bv32)
    ensures Low(Upper(x)) == 0
  {
  }

  lemma HighOfUpper(c: bv32, b: bv32)
    requires b <= 0xFF
    ensures High(Upper(Xor(c, b))) == High(c)
  {
  }

  function Top(k: nat): bv32 {
    if k == 0 then 0 else Append(Top(k - 1), true)
  }

  lemma AppendMonotone(x: bv32, top: bv32, bit: bool, longer: bv32, longerTop: bv32)
    requires x <= top <= 0x7F && longer == Append(x, bit) && longerTop == Append(top, true)
    ensures longer <= longerTop
  {
  }

  lemma TopValues()
    ensures Top(0) == 0 && Top(1) == 1 && Top(2) == 3 && Top(3) == 7
    ensures Top(4) == 0xF && Top(5) == 0x1F && Top(6) == 0x3F && Top(7) == 0x7F && Top(8) == 0xFF
  {
    assert Top(1) == 1;
    assert Top(2) == 3;
    assert Top(3) == 7;
    assert Top(4) == 0xF;
    assert Top(5) == 0x1F;
    assert Top(6) == 0x3F;
    assert Top(7) == 0x7F;
  }

  lemma NoBits(n: nat)
    ensures Bits(n, 0) == 0 && Top(0) == 0
  {
  }

  lemma BitsStep(n: nat, k: nat)
    requires k > 0
    ensures Bits(n, k) == Append(Bits(n / 2, k - 1), n % 2 == 1)
    ensures Top(k) == Append(Top(k - 1), true)
  {
    hide Append;
  }

  lemma {:induction false} BitsBound(n: nat, k: nat)
    requires k <= 8
    ensures Bits(n, k) <= Top(k)
    decreases k
  {
    hide Append;
    hide Bits;
    hide Top;
    if k == 0 {
      NoBits(n);
    } else {
      BitsBound(n / 2, k - 1);
      TopBound(k - 1);
      BitsStep(n, k);
      AppendMonotone(Bits(n / 2, k - 1), Top(k - 1), n % 2 == 1, Bits(n, k), Top(k));
    }
  }

  lemma TopBound(k: nat)
    requires k <= 7
    ensures Top(k) <= 0x7F
  {
    hide Top;
    TopValues();
  }

  lemma WidenBound(b: byte)
    ensures Widen(b) <= 0xFF
  {
    hide Bits;
    hide Top;
    BitsBound(b, 8);
    TopValues();
  }

  /** A table lookup is eight rounds over the whole register. */
  lemma LookupIsRounds(c: bv32, b: byte)
    ensures Lookup(c, b) == Rounds(Xor(c, Widen(b)), 8)
  {
    hide Widen;
    hide Rounds;
    hide Xor;
    hide Low;
    hide High;
    hide Upper;
    var x := Xor(c, Widen(b));
    WidenBound(b);
    LowAndUpper(x);
    LowOfUpper(x);
    HighOfUpper(c, Widen(b));
    RoundsXor(Low(x), Upper(x), 8);
    RoundsOfShifted(Upper(x));
  }

  // ----- The loop of the package writer -----

  /** `(crc & 1).wrapping_neg()` selects the polynomial or nothing. */
  lemma MaskedRound(c: bv32)
    ensures (c >> 1) ^ (POLYNOMIAL & (0 - (c & 1))) == Round(c)
  {
    LowBit(c);
    if c & 1 == 1 {
      assert 0 - (c & 1) == 0xFFFF_FFFF;
    } else {
      assert 0 - (c & 1) == 0;
    }
  }

  lemma {:induction false} UpdateSnoc(crc: bv32, buf: seq<byte>, i: nat)
    requires i < |buf|
    ensures Update(crc, buf[..i + 1]) == Lookup(Update(crc, buf[..i]), buf[i])
    decreases i
  {
    hide Lookup;
    if i == 0 {
      assert buf[..1][1..] == [];
      assert Update(Lookup(crc, buf[0]), []) == Lookup(crc, buf[0]);
    } else {
      UpdateSnoc(Lookup(crc, buf[0]), buf[1..], i - 1);
      assert buf[..i + 1][1..] == buf[1..][..i];
      assert buf[..i][1..] == buf[1..][..i - 1];
    }
  }

  lemma XorIsXor(a: bv32, b: bv32)
    ensures a ^ b == Xor(a, b)
  {
  }

  method ComputeCrc32(data: seq<byte>) returns (r: bv32)
    ensures r == Crc(data)
  {
    hide Lookup;
    hide Widen;
    hide Round;
    hide Xor;
    var crc := ONES;
    for i := 0 to |data|
      invariant crc == Update(ONES, data[..i])
    {
      UpdateSnoc(ONES, data, i);
      LookupIsRounds(crc, data[i]);
      XorIsXor(crc, Widen(data[i]));
      ghost var start := Xor(crc, Widen(data[i]));
      crc := crc ^ Widen(data[i]);
      for k := 0 to 8
        invariant crc == Rounds(start, k)
      {
        MaskedRound(crc);
        var mask := 0 - (crc & 1);
        crc := (crc >> 1) ^ (POLYNOMIAL & mask);
      }
    }
    assert data[..|data|] == data;
    Complement(crc);
    r := !crc;
  }

  lemma Complement(c: bv32)
    ensures !c == Xor(c, ONES)
  {
  }

  // ----- Error detection -----

  lemma {:induction false} UpdateConcat(crc: bv32, a: seq<byte>, b: seq<byte>)
    ensures Update(crc, a + b) == Update(Update(crc, a), b)
    decreases |a|
  {
    if a == [] {
      assert a + b == b;
    } else {
      assert (a + b)[1..] == a[1..] + b;
      UpdateConcat(Lookup(crc, a[0]), a[1..], b);
    }
  }

  lemma {:induction false} UpdateInjective(c: bv32, d: bv32, buf: seq<byte>)
    requires Update(c, buf) == Update(d, buf)
    ensures c == d
    decreases |buf|
  {
    hide Widen;
    hide Lookup;
    hide Xor;
    if buf != [] {
      var w := Widen(buf[0]);
      LookupIsRounds(c, buf[0]);
      LookupIsRounds(d, buf[0]);
      UpdateInjective(Lookup(c, buf[0]), Lookup(d, buf[0]), buf[1..]);
      RoundsInjective(Xor(c, w), Xor(d, w), 8);
      XorCancels(c, d, w);
    }
  }

  lemma XorCancels(c: bv32, d: bv32, w: bv32)
    requires Xor(c, w) == Xor(d, w)
    ensures c == d
  {
    hide Xor;
    XorAssociative(c, w, w);
    XorAssociative(d, w, w);
    XorSelf(w);
    XorZero(c);
    XorZero(d);
  }

  /** The bytes in which `x` and `y` differ, packed little-endian. */
  function Difference(x: seq<byte>, y: seq<byte>): bv32
    requires |x| == |y|
    decreases |x|
  {
    if x == [] then 0
    else Xor(Xor(Widen(x[0]), Widen(y[0])), Raise(Difference(x[1..], y[1..])))
  }

  function Limit(n: nat): bv32
    requires n <= 3
  {
    if n == 0 then 0 else if n == 1 then 0xFF else if n == 2 then 0xFFFF else 0xFF_FFFF
  }

  lemma {:induction false} DifferenceBound(x: seq<byte>, y: seq<byte>)
    requires |x| == |y| <= 3
    ensures Difference(x, y) <= Limit(|x|)
    decreases |x|
  {
    hide Widen;
    hide Xor;
    hide Raise;
    if x != [] {
      DifferenceBound(x[1..], y[1..]);
      WidenBound(x[0]);
      WidenBound(y[0]);
      PackBound(Widen(x[0]), Widen(y[0]), Difference(x[1..], y[1..]), |x| - 1);
    }
  }

  lemma PackBound(a: bv32, b: bv32, p: bv32, n: nat)
    requires n <= 2 && a <= 0xFF && b <= 0xFF && p <= Limit(n)
    ensures Xor(Xor(a, b), Raise(p)) <= Limit(n + 1)
  {
  }

  lemma PackZero(a: bv32, b: bv32, p: bv32)
    requires a <= 0xFF && b <= 0xFF && p <= 0xFF_FFFF
    requires Xor(Xor(a, b), Raise(p)) == 0
    ensures a == b && p == 0
  {
  }

  lemma ShiftBack(p: bv32)
    requires p <= 0xFF_FFFF
    ensures Low(Raise(p)) == 0 && High(Raise(p)) == p
  {
  }

  lemma XorRegroup(c: bv32, d: bv32, a: bv32, b: bv32, q: bv32)
    requires Xor(Xor(c, a), Xor(d, b)) == q
    ensures Xor(c, d) == Xor(Xor(a, b), q)
  {
    hide Xor;
    XorSwap(c, a, d, b);
    XorSymmetric(Xor(c, d), Xor(a, b));
    XorAssociative(Xor(a, b), Xor(a, b), Xor(c, d));
    XorSelf(Xor(a, b));
    XorSymmetric(0, Xor(c, d));
    XorZero(Xor(c, d));
  }

  /** If up to four bytes take two registers to the same value, the registers
      differed by exactly the difference of those bytes. */
  lemma {:induction false} EqualAfterWindow(c: bv32, d: bv32, x: seq<byte>, y: seq<byte>)
    requires |x| == |y| <= 4 && Update(c, x) == Update(d, y)
    ensures Xor(c, d) == Difference(x, y)
    decreases |x|
  {
    hide Widen;
    hide Lookup;
    hide Xor;
    hide Low;
    hide High;
    hide Raise;
    if x == [] {
      XorSelf(c);
    } else {
      var a, b := Widen(x[0]), Widen(y[0]);
      var p := Difference(x[1..], y[1..]);
      LookupIsRounds(c, x[0]);
      LookupIsRounds(d, y[0]);
      EqualAfterWindow(Lookup(c, x[0]), Lookup(d, y[0]), x[1..], y[1..]);
      RoundsXor(Xor(c, a), Xor(d, b), 8);
      DifferenceBound(x[1..], y[1..]);
      ShiftBack(p);
      RoundsOfShifted(Raise(p));
      RoundsInjective(Xor(Xor(c, a), Xor(d, b)), Raise(p), 8);
      XorRegroup(c, d, a, b, Raise(p));
    }
  }

  lemma {:induction false} NoDifference(x: seq<byte>, y: seq<byte>)
    requires |x| == |y| <= 4 && Difference(x, y) == 0
    ensures x == y
    decreases |x|
  {
    hide Widen;
    hide Xor;
    hide Raise;
    if x != [] {
      DifferenceBound(x[1..], y[1..]);
      WidenBound(x[0]);
      WidenBound(y[0]);
      PackZero(Widen(x[0]), Widen(y[0]), Difference(x[1..], y[1..]));
      WidenInjective(x[0], y[0]);
      NoDifference(x[1..], y[1..]);
      assert x == [x[0]] + x[1..] && y == [y[0]] + y[1..];
    }
  }

  lemma AppendValue(x: bv32, bit: bool)
    requires x <= 0x7F
    ensures Append(x, bit) as int == 2 * (x as int) + if bit then 1 else 0
  {
  }

  lemma {:induction false} BitsValue(n: nat, k: nat)
    requires k <= 8 && n < Power2(k)
    ensures Bits(n, k) as int == n
    decreases k
  {
    hide Append;
    hide Bits;
    hide Top;
    if k == 0 {
      NoBits(n);
    } else {
      BitsStep(n, k);
      BitsAtMost(n / 2, k - 1);
      BitsValue(n / 2, k - 1);
      AppendValue(Bits(n / 2, k - 1), n % 2 == 1);
    }
  }

  lemma BitsAtMost(n: nat, k: nat)
    requires k <= 7
    ensures Bits(n, k) <= 0x7F
  {
    hide Bits;
    hide Top;
    BitsBound(n, k);
    TopBound(k);
  }

  /** Widening a byte keeps its value. */
  lemma WidenValue(b: byte)
    ensures Widen(b) as int == b
  {
    hide Bits;
    assert Power2(4) == 16 && Power2(8) == 16 * 16;
    BitsValue(b, 8);
  }

  lemma WidenInjective(a: byte, b: byte)
    requires Widen(a) == Widen(b)
    ensures a == b
  {
    hide Widen;
    WidenValue(a);
    WidenValue(b);
  }

  /** Two strings that differ only inside a window of four bytes (in particular,
      in exactly one byte) have different checksums. */
  lemma DetectsBurst(before: seq<byte>, x: seq<byte>, y: seq<byte>, after: seq<byte>)
    requires |x| == |y| <= 4 && x != y
    ensures Crc(before + x + after) != Crc(before + y + after)
  {
    hide Update;
    hide Difference;
    hide Xor;
    var start := ONES;
    UpdateConcat(start, before + x, after);
    UpdateConcat(start, before, x);
    UpdateConcat(start, before + y, after);
    UpdateConcat(start, before, y);
    var c := Update(start, before);
    if Crc(before + x + after) == Crc(before + y + after) {
      XorCancels(Update(start, before + x + after), Update(start, before + y + after), start);
      UpdateInjective(Update(c, x), Update(c, y), after);
      EqualAfterWindow(c, c, x, y);
      XorSelf(c);
      NoDifference(x, y);
    }
  }
}
