/** The header fields and the checksum of a PE32+ image as the Microsoft PE Format
    gives them, against what the signer computes. */
module PeFormat {
  import opened Bytes
  import opened Authenticode

  /** The fields are those of the format: the header's place at 0x3c, the signature
      there, the optional header behind 24 bytes with the magic of PE32+ first, its
      checksum at 64 and its certificate table entry at 144. */
  lemma LayoutIsFormat(bytes: seq<byte>, l: Layout)
    requires PeLayout(bytes) == Done(l)
    ensures |bytes| >= 64 && bytes[0] as int == 'M' as int && bytes[1] as int == 'Z' as int
    ensures var pe := Read32(bytes, 60);
            && pe + 176 <= |bytes|
            && bytes[pe] as int == 'P' as int && bytes[pe + 1] as int == 'E' as int
            && bytes[pe + 2] == 0 && bytes[pe + 3] == 0
            && Read16(bytes, pe + 24) == 0x020b
            && l.checksumOffset == pe + 24 + 64 && l.securityDirOffset == pe + 24 + 144
  {
    hide Read32;
    hide Read16;
    var pe := Read32(bytes, 60);
    assert bytes[0..2][0] == bytes[0] && bytes[0..2][1] == bytes[1];
    var four := bytes[pe..pe + 4];
    assert four[0] == bytes[pe] && four[1] == bytes[pe + 1] && four[2] == bytes[pe + 2] && four[3] == bytes[pe + 3];
  }

  /** An image with those fields has a layout. */
  lemma FormatHasLayout(bytes: seq<byte>)
    requires |bytes| >= 64 && bytes[0] as int == 'M' as int && bytes[1] as int == 'Z' as int
    requires var pe := Read32(bytes, 60);
             && pe + 176 <= |bytes|
             && bytes[pe] as int == 'P' as int && bytes[pe + 1] as int == 'E' as int
             && bytes[pe + 2] == 0 && bytes[pe + 3] == 0
             && Read16(bytes, pe + 24) == 0x020b
    ensures PeLayout(bytes).Done?
  {
    hide Read32;
    hide Read16;
    assert bytes[0..2] == [bytes[0], bytes[1]];
    var pe := Read32(bytes, 60);
    assert bytes[pe..pe + 4] == [bytes[pe], bytes[pe + 1], bytes[pe + 2], bytes[pe + 3]];
  }

  /** Which error is reported for an image that is refused. */
  lemma RefusedAs(bytes: seq<byte>)
    ensures var signed := |bytes| >= 64 && bytes[0..2] == [0x4d, 0x5a];
            && (PeLayout(bytes) == Failed(NotPe) <==> !signed)
            && (signed ==>
                var pe := Read32(bytes, 60);
                var marked := pe + 24 <= |bytes| && bytes[pe..pe + 4] == [0x50, 0x45, 0, 0];
                && (PeLayout(bytes) == Failed(NoSignature) <==> !marked)
                && (marked && pe + 26 <= |bytes| ==>
                    && (PeLayout(bytes) == Failed(NotPe32Plus) <==> Read16(bytes, pe + 24) != 0x020b)
                    && (PeLayout(bytes) == Failed(Truncated) <==>
                        Read16(bytes, pe + 24) == 0x020b && |bytes| < pe + 176)))
  {
    hide Read32;
    hide Read16;
  }

  /** Each byte outside the four of the field, at its weight in a little-endian word. */
  function ByteSum(bytes: seq<byte>, field: nat, i: nat): nat
    decreases |bytes| - i
  {
    if i >= |bytes| then 0
    else
      (if field <= i < field + 4 then 0 else if i % 2 == 0 then bytes[i] as int else 256 * bytes[i] as int)
      + ByteSum(bytes, field, i + 1)
  }

  lemma {:induction false} WordsAreBytes(bytes: seq<byte>, field: nat, i: nat)
    requires field % 2 == 0 && i % 2 == 0 && (i <= field || field + 4 <= i) && field + 4 <= |bytes|
    ensures WordSum(bytes, field, i) == ByteSum(bytes, field, i)
    decreases |bytes| - i
  {
    if i + 1 < |bytes| {
      if i == field {
        WordsAreBytes(bytes, field, i + 4);
        assert ByteSum(bytes, field, i + 2) == ByteSum(bytes, field, i + 4);
      } else {
        WordsAreBytes(bytes, field, i + 2);
      }
    } else if i < |bytes| {
      assert ByteSum(bytes, field, i + 1) == 0;
    }
  }

  /** The checksum is the length plus the 16-bit residue, modulo 65535, of the bytes
      outside its own field, each at its weight. */
  lemma ChecksumIsResidue(bytes: seq<byte>, field: nat) returns (residue: nat)
    requires field % 2 == 0 && field + 4 <= |bytes|
    ensures Checksum(bytes, field) == (residue + |bytes|) % 0x1_0000_0000
    ensures residue <= 65535 && residue % 65535 == ByteSum(bytes, field, 0) % 65535
    ensures residue == 0 <==> ByteSum(bytes, field, 0) == 0
  {
    WordsAreBytes(bytes, field, 0);
    residue := Fold16(WordSum(bytes, field, 0));
    hide Fold16;
    hide WordSum;
    hide ByteSum;
    LengthWraps(residue, |bytes|);
  }

  lemma LengthWraps(residue: nat, n: nat)
    ensures (residue + n % U32) % U32 == (residue + n) % 0x1_0000_0000
  {
    var q, r := n / U32, n % U32;
    assert residue + n == residue + r + q * U32;
  }
}
