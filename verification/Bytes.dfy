/** Byte strings and little-endian fields, with the truncating casts the
    container writers use. */
module Bytes {

  type byte = b: int | 0 <= b < 256

  const U16 := 0x1_0000
  const U32 := 0x1_0000_0000

  /** `(n as u16).to_le_bytes()`: the cast keeps the low 16 bits. */
  function Le16(n: nat): (r: seq<byte>)
    ensures |r| == 2
  {
    [n % 256, n / 256 % 256]
  }

  /** `(n as u32).to_le_bytes()`: the cast keeps the low 32 bits. */
  function Le32(n: nat): (r: seq<byte>)
    ensures |r| == 4
  {
    [n % 256, n / 256 % 256, n / 65536 % 256, n / 16777216 % 256]
  }

  /** `u16::from_le_bytes` at an offset. */
  function Read16(bytes: seq<byte>, at: nat): (n: nat)
    requires at + 2 <= |bytes|
    ensures n < U16
  {
    bytes[at] as int + 256 * (bytes[at + 1] as int)
  }

  /** `u32::from_le_bytes` at an offset. */
  function Read32(bytes: seq<byte>, at: nat): (n: nat)
    requires at + 4 <= |bytes|
    ensures n < U32
  {
    bytes[at] as int + 256 * (bytes[at + 1] as int) + 65536 * (bytes[at + 2] as int) + 16777216 * (bytes[at + 3] as int)
  }

  lemma ReadLe16(bytes: seq<byte>, at: nat, n: nat)
    requires at + 2 <= |bytes| && bytes[at..at + 2] == Le16(n)
    ensures Read16(bytes, at) == n % U16
  {
    var field := bytes[at..at + 2];
    assert bytes[at] == field[0] && bytes[at + 1] == field[1];
    Digits16(n);
  }

  lemma Digits16(n: nat)
    ensures n % 256 + 256 * (n / 256 % 256) == n % U16
  {
  }

  lemma ReadLe32(bytes: seq<byte>, at: nat, n: nat)
    requires at + 4 <= |bytes| && bytes[at..at + 4] == Le32(n)
    ensures Read32(bytes, at) == n % U32
  {
    var field := bytes[at..at + 4];
    assert bytes[at] == field[0] && bytes[at + 1] == field[1];
    assert bytes[at + 2] == field[2] && bytes[at + 3] == field[3];
    Digits32(n);
  }

  lemma Digits32(n: nat)
    ensures n % 256 + 256 * (n / 256 % 256) + 65536 * (n / 65536 % 256) + 16777216 * (n / 16777216 % 256) == n % U32
  {
    var a, b, c, d := n % 256, n / 256 % 256, n / 65536 % 256, n / 16777216;
    assert n / 65536 == n / 256 / 256 && n / 16777216 == n / 65536 / 256;
    assert n == a + 256 * b + 65536 * c + 16777216 * d;
    assert d == d % 256 + 256 * (d / 256);
    assert n == (a + 256 * b + 65536 * c + 16777216 * (d % 256)) + U32 * (d / 256);
  }

  /** `n` zero bytes. */
  function Zeros(n: nat): (r: seq<byte>)
    ensures |r| == n && forall i | 0 <= i < n :: r[i] == 0
  {
    if n == 0 then [] else Zeros(n - 1) + [0]
  }
}
