/** The standard base64 engine, after section 4 of RFC 4648: padded, and strict
    about padding and trailing bits when it decodes. */
module Base64 {
  import opened Basics
  import opened Bytes

  type sextet = v: int | 0 <= v < 64

  /** The alphabet of Table 1. */
  function Symbol(v: sextet): char {
    if v < 26 then 'A' + v as char
    else if v < 52 then 'a' + (v - 26) as char
    else if v < 62 then '0' + (v - 52) as char
    else if v == 62 then '+'
    else '/'
  }

  /** The value of a symbol; 64 when the character is not in the alphabet. */
  function Value(c: char): (v: nat)
    ensures v <= 64
  {
    if 'A' <= c <= 'Z' then c as int - 'A' as int
    else if 'a' <= c <= 'z' then c as int - 'a' as int + 26
    else if '0' <= c <= '9' then c as int - '0' as int + 52
    else if c == '+' then 62
    else if c == '/' then 63
    else 64
  }

  lemma ValueOfSymbol(v: sextet)
    ensures Value(Symbol(v)) == v && Symbol(v) != '='
  {
  }

  lemma SymbolOfValue(c: char)
    requires Value(c) < 64
    ensures Symbol(Value(c)) == c && c != '='
  {
  }

  // ----- Three bytes as four groups of six bits -----

  function First(b0: byte): sextet { b0 / 4 }

  function Second(b0: byte, b1: byte): sextet { b0 % 4 * 16 + b1 / 16 }

  function Third(b1: byte, b2: byte): sextet { b1 % 16 * 4 + b2 / 64 }

  function Fourth(b2: byte): sextet { b2 % 64 }

  function Byte0(v0: sextet, v1: sextet): byte { v0 * 4 + v1 / 16 }

  function Byte1(v1: sextet, v2: sextet): byte { v1 % 16 * 16 + v2 / 4 }

  function Byte2(v2: sextet, v3: sextet): byte { v2 % 4 * 64 + v3 }

  lemma BytesBack(b0: byte, b1: byte, b2: byte)
    ensures Byte0(First(b0), Second(b0, b1)) == b0
    ensures Byte1(Second(b0, b1), Third(b1, b2)) == b1
    ensures Byte2(Third(b1, b2), Fourth(b2)) == b2
    ensures Second(b0, 0) % 16 == 0 && Third(b1, 0) % 4 == 0
  {
  }

  lemma SextetsBack(v0: sextet, v1: sextet, v2: sextet, v3: sextet)
    ensures First(Byte0(v0, v1)) == v0
    ensures Second(Byte0(v0, v1), Byte1(v1, v2)) == v1
    ensures Third(Byte1(v1, v2), Byte2(v2, v3)) == v2
    ensures Fourth(Byte2(v2, v3)) == v3
    ensures v1 % 16 == 0 ==> Second(Byte0(v0, v1), 0) == v1
    ensures v2 % 4 == 0 ==> Third(Byte1(v1, v2), 0) == v2
  {
  }

  // ----- The codec -----

  function Encode(b: seq<byte>): string {
    if b == [] then ""
    else if |b| == 1 then [Symbol(First(b[0])), Symbol(Second(b[0], 0)), '=', '=']
    else if |b| == 2 then [Symbol(First(b[0])), Symbol(Second(b[0], b[1])), Symbol(Third(b[1], 0)), '=']
    else
      [Symbol(First(b[0])), Symbol(Second(b[0], b[1])), Symbol(Third(b[1], b[2])), Symbol(Fourth(b[2]))]
      + Encode(b[3..])
  }

  function Decode(s: string): Option<seq<byte>> {
    if s == "" then Some([])
    else if |s| < 4 then None
    else
      var v0, v1, v2, v3 := Value(s[0]), Value(s[1]), Value(s[2]), Value(s[3]);
      if v0 == 64 || v1 == 64 then None
      else if |s| == 4 && s[3] == '=' && s[2] == '=' then
        if v1 % 16 != 0 then None else Some([Byte0(v0, v1)])
      else if v2 == 64 then None
      else if |s| == 4 && s[3] == '=' then
        if v2 % 4 != 0 then None else Some([Byte0(v0, v1), Byte1(v1, v2)])
      else if v3 == 64 then None
      else
        var rest := Decode(s[4..]);
        if rest == None then None
        else Some([Byte0(v0, v1), Byte1(v1, v2), Byte2(v2, v3)] + rest.value)
  }

  lemma {:induction false} DecodeOfEncode(b: seq<byte>)
    ensures Decode(Encode(b)) == Some(b)
    decreases |b|
  {
    hide Symbol;
    hide Value;
    hide First;
    hide Second;
    hide Third;
    hide Fourth;
    hide Byte0;
    hide Byte1;
    hide Byte2;
    if b != [] {
      var b0, b1, b2 := b[0], if |b| > 1 then b[1] else 0, if |b| > 2 then b[2] else 0;
      BytesBack(b0, b1, b2);
      ValueOfSymbol(First(b0));
      ValueOfSymbol(Second(b0, b1));
      ValueOfSymbol(Third(b1, b2));
      ValueOfSymbol(Fourth(b2));
      if |b| >= 3 {
        DecodeOfEncode(b[3..]);
        assert Encode(b)[4..] == Encode(b[3..]);
        assert b == [b0, b1, b2] + b[3..];
      } else if |b| == 1 {
        assert b == [b0];
      } else {
        assert b == [b0, b1];
      }
    }
  }

  lemma {:induction false} EncodeOfDecode(s: string)
    requires Decode(s).Some?
    ensures Encode(Decode(s).value) == s
    decreases |s|
  {
    hide Symbol;
    hide Value;
    hide First;
    hide Second;
    hide Third;
    hide Fourth;
    hide Byte0;
    hide Byte1;
    hide Byte2;
    if s != "" {
      var v0, v1, v2, v3 := Value(s[0]), Value(s[1]), Value(s[2]), Value(s[3]);
      SextetsBack(v0, v1, if v2 < 64 then v2 else 0, if v3 < 64 then v3 else 0);
      SymbolOfValue(s[0]);
      SymbolOfValue(s[1]);
      if v2 == 64 {
        assert s == [s[0], s[1], s[2], s[3]];
      } else if v3 == 64 {
        SymbolOfValue(s[2]);
        assert s == [s[0], s[1], s[2], s[3]];
      } else {
        SymbolOfValue(s[2]);
        SymbolOfValue(s[3]);
        EncodeOfDecode(s[4..]);
        var b := Decode(s).value;
        assert b[3..] == Decode(s[4..]).value;
        assert s == [s[0], s[1], s[2], s[3]] + s[4..];
      }
    }
  }

  /** Only symbols and padding. */
  predicate IsBase64Char(c: char) {
    Value(c) < 64 || c == '='
  }

  lemma {:induction false} EncodeChars(b: seq<byte>)
    ensures forall c | c in Encode(b) :: IsBase64Char(c)
    decreases |b|
  {
    hide Symbol;
    hide Value;
    if b != [] {
      var b0, b1, b2 := b[0], if |b| > 1 then b[1] else 0, if |b| > 2 then b[2] else 0;
      ValueOfSymbol(First(b0));
      ValueOfSymbol(Second(b0, b1));
      ValueOfSymbol(Third(b1, b2));
      ValueOfSymbol(Fourth(b2));
      if |b| >= 3 {
        EncodeChars(b[3..]);
      }
    }
  }

  // ----- The encoding as RFC 4648 describes it -----

  const TABLE := "ABCDEFGHIJKLMNOPQRSTUVWXYZ" + "abcdefghijklmnopqrstuvwxyz" + "0123456789" + "+/"

  /** Four characters spell 24 bits, six by six from the highest. */
  ghost predicate Spells(c0: char, c1: char, c2: char, c3: char, bits: nat) {
    exists v0: sextet, v1: sextet, v2: sextet, v3: sextet ::
      && c0 == TABLE[v0] && c1 == TABLE[v1] && c2 == TABLE[v2] && c3 == TABLE[v3]
      && bits == v0 * 262144 + v1 * 4096 + v2 * 64 + v3
  }

  lemma SymbolInTable(v: sextet)
    ensures |TABLE| == 64 && Symbol(v) == TABLE[v]
  {
  }

  function Bits24(b0: byte, b1: byte, b2: byte): nat {
    b0 as int * 65536 + b1 as int * 256 + b2 as int
  }

  lemma GroupSpells(b0: byte, b1: byte, b2: byte)
    ensures Spells(Symbol(First(b0)), Symbol(Second(b0, b1)), Symbol(Third(b1, b2)), Symbol(Fourth(b2)),
                   Bits24(b0, b1, b2))
  {
    hide Symbol;
    SymbolInTable(First(b0));
    SymbolInTable(Second(b0, b1));
    SymbolInTable(Third(b1, b2));
    SymbolInTable(Fourth(b2));
    SixBySix(b0, b1, b2);
  }

  lemma SixBySix(b0: byte, b1: byte, b2: byte)
    ensures First(b0) as int * 262144 + Second(b0, b1) as int * 4096 + Third(b1, b2) as int * 64 + Fourth(b2) as int
            == Bits24(b0, b1, b2)
  {
  }

  lemma ZeroSymbol()
    ensures Symbol(Fourth(0)) == 'A' && Symbol(Third(0, 0)) == 'A'
  {
  }

  /** A group of three bytes is spelled by four characters; a last group of one or
      two is spelled as if zeros followed, with `=` for what those alone make. */
  lemma EncodeSpells(b: seq<byte>)
    ensures |b| >= 3 ==>
              var s := Encode(b);
              |s| >= 4 && Spells(s[0], s[1], s[2], s[3], Bits24(b[0], b[1], b[2])) && s[4..] == Encode(b[3..])
    ensures |b| == 2 ==>
              var s := Encode(b);
              |s| == 4 && Spells(s[0], s[1], s[2], 'A', Bits24(b[0], b[1], 0)) && s[3] == '='
    ensures |b| == 1 ==>
              var s := Encode(b);
              |s| == 4 && Spells(s[0], s[1], 'A', 'A', Bits24(b[0], 0, 0)) && s[2] == '=' && s[3] == '='
    ensures b == [] ==> Encode(b) == ""
  {
    hide Symbol;
    hide Spells;
    hide First;
    hide Second;
    hide Third;
    hide Fourth;
    hide Bits24;
    ZeroSymbol();
    if b != [] {
      GroupSpells(b[0], if |b| > 1 then b[1] else 0, if |b| > 2 then b[2] else 0);
    }
  }
}
