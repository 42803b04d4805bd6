/** The UTF-8 bytes of a string (RFC 3629), for the names of archive parts. */
module Utf8 {
  import opened Basics
  import opened Bytes

  function EncodeChar(c: char): (r: seq<byte>)
    ensures 1 <= |r| <= 4
  {
    var n := c as int;
    if n < 0x80 then [n]
    else if n < 0x800 then [0xC0 + n / 64, 0x80 + n % 64]
    else if n < 0x1_0000 then [0xE0 + n / 4096, 0x80 + n / 64 % 64, 0x80 + n % 64]
    else [0xF0 + n / 262144, 0x80 + n / 4096 % 64, 0x80 + n / 64 % 64, 0x80 + n % 64]
  }

  /** `str::as_bytes`. */
  function Encode(s: string): seq<byte> {
    if s == "" then [] else EncodeChar(s[0]) + Encode(s[1..])
  }

  /** The length of the first character, read off its first byte; 0 for a byte
      that no character starts with. */
  function Width(lead: byte): (n: nat)
    ensures n <= 4
  {
    if lead < 0x80 then 1
    else if lead < 0xC0 then 0
    else if lead < 0xE0 then 2
    else if lead < 0xF0 then 3
    else if lead < 0xF8 then 4
    else 0
  }

  function Scalar(b: seq<byte>): int
    requires 1 <= |b| <= 4
  {
    if |b| == 1 then b[0]
    else if |b| == 2 then (b[0] as int - 0xC0) * 64 + (b[1] as int - 0x80)
    else if |b| == 3 then (b[0] as int - 0xE0) * 4096 + (b[1] as int - 0x80) * 64 + (b[2] as int - 0x80)
    else (b[0] as int - 0xF0) * 262144 + (b[1] as int - 0x80) * 4096 + (b[2] as int - 0x80) * 64 + (b[3] as int - 0x80)
  }

  /** The bytes of one character: continuation bytes after the first, no longer
      than the character needs, and no surrogate. */
  predicate WellFormed(b: seq<byte>)
    requires 1 <= |b| <= 4
  {
    var n := Scalar(b);
    && (forall i | 1 <= i < |b| :: 0x80 <= b[i] < 0xC0)
    && (if |b| == 1 then 0 else if |b| == 2 then 0x80 else if |b| == 3 then 0x800 else 0x1_0000) <= n
    && (n < 0xD800 || 0xE000 <= n < 0x11_0000)
  }

  lemma EncodeCharReads(c: char)
    ensures Width(EncodeChar(c)[0]) == |EncodeChar(c)| && WellFormed(EncodeChar(c))
    ensures Scalar(EncodeChar(c)) == c as int
  {
    var n := c as int;
    SplitSixBits(n);
  }

  lemma SplitSixBits(n: nat)
    ensures n == n / 64 * 64 + n % 64
    ensures n / 64 == n / 4096 * 64 + n / 64 % 64
    ensures n / 4096 == n / 262144 * 64 + n / 4096 % 64
  {
    assert n / 4096 == n / 64 / 64 && n / 262144 == n / 4096 / 64;
  }

  lemma LastSixBits(n: nat, low: int)
    requires 0 <= low < 64
    ensures (n * 64 + low) / 64 == n && (n * 64 + low) % 64 == low
  {
  }

  lemma SixBitDigits(a: nat, b: int, c: int, d: int)
    requires 0 <= b < 64 && 0 <= c < 64 && 0 <= d < 64
    ensures var n := a * 262144 + b * 4096 + c * 64 + d;
            n / 262144 == a && n / 4096 == a * 64 + b && n / 4096 % 64 == b && n / 64 % 64 == c && n % 64 == d
  {
    var n := a * 262144 + b * 4096 + c * 64 + d;
    LastSixBits(a * 4096 + b * 64 + c, d);
    LastSixBits(a * 64 + b, c);
    LastSixBits(a, b);
    assert n / 4096 == n / 64 / 64 && n / 262144 == n / 64 / 64 / 64;
  }

  lemma EncodeOfShort(b: seq<byte>)
    requires 1 <= |b| <= 2 && Width(b[0]) == |b| && WellFormed(b)
    ensures EncodeChar(Scalar(b) as char) == b
  {
    if |b| == 2 {
      LastSixBits(b[0] as int - 0xC0, b[1] as int - 0x80);
    }
  }

  lemma EncodeOfThree(b: seq<byte>)
    requires |b| == 3 && Width(b[0]) == 3 && WellFormed(b)
    ensures EncodeChar(Scalar(b) as char) == b
  {
    SixBitDigits(0, b[0] as int - 0xE0, b[1] as int - 0x80, b[2] as int - 0x80);
  }

  lemma EncodeOfFour(b: seq<byte>)
    requires |b| == 4 && Width(b[0]) == 4 && WellFormed(b)
    ensures EncodeChar(Scalar(b) as char) == b
  {
    SixBitDigits(b[0] as int - 0xF0, b[1] as int - 0x80, b[2] as int - 0x80, b[3] as int - 0x80);
  }

  /** Only the shortest form of a character is well formed. */
  lemma EncodeOfScalar(b: seq<byte>)
    requires 1 <= |b| <= 4 && Width(b[0]) == |b| && WellFormed(b)
    ensures EncodeChar(Scalar(b) as char) == b
  {
    hide EncodeChar;
    hide Width;
    if |b| <= 2 {
      EncodeOfShort(b);
    } else if |b| == 3 {
      EncodeOfThree(b);
    } else {
      EncodeOfFour(b);
    }
  }

  /** The string whose bytes these are, if they are UTF-8. */
  function Decode(b: seq<byte>): Option<string> {
    if b == [] then Some("")
    else
      var w := Width(b[0]);
      if w == 0 || w > |b| || !WellFormed(b[..w]) then None
      else
        var rest := Decode(b[w..]);
        if rest == None then None else Some([Scalar(b[..w]) as char] + rest.value)
  }

  lemma {:induction false} DecodeOfEncode(s: string)
    ensures Decode(Encode(s)) == Some(s)
  {
    hide EncodeChar;
    hide Width;
    hide Scalar;
    hide WellFormed;
    if s != "" {
      var a, bytes := EncodeChar(s[0]), Encode(s);
      EncodeCharReads(s[0]);
      assert bytes[0] == a[0] && bytes[..|a|] == a && bytes[|a|..] == Encode(s[1..]);
      DecodeOfEncode(s[1..]);
      assert s == [s[0]] + s[1..];
    }
  }

  /** Nothing but the encoding of a string is decoded to it. */
  lemma {:induction false} EncodeOfDecode(b: seq<byte>)
    requires Decode(b).Some?
    ensures Encode(Decode(b).value) == b
    decreases |b|
  {
    hide EncodeChar;
    hide Width;
    hide Scalar;
    hide WellFormed;
    if b != [] {
      var w, s := Width(b[0]), Decode(b).value;
      EncodeOfScalar(b[..w]);
      EncodeOfDecode(b[w..]);
      assert s[1..] == Decode(b[w..]).value && b == b[..w] + b[w..];
    }
  }

  /** ASCII is its own encoding. */
  lemma {:induction false} AsciiIsItself(s: string)
    requires forall c | c in s :: c < '\U{0080}'
    ensures |Encode(s)| == |s| && forall i | 0 <= i < |s| :: Encode(s)[i] == s[i] as int
  {
    if s != "" {
      assert s[0] in s && forall c | c in s[1..] :: c in s;
      AsciiIsItself(s[1..]);
    }
  }

  /** Different strings have different bytes. */
  lemma EncodeInjective(s: string, t: string)
    requires Encode(s) == Encode(t)
    ensures s == t
  {
    DecodeOfEncode(s);
    DecodeOfEncode(t);
  }
}
