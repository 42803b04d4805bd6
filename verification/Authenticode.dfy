/** Embedding an Authenticode signature into a PE32+ image, and reading it back
    as "The Attribute Certificate Table" of the Microsoft PE Format describes. */
module Authenticode {
  import opened Basics
  import opened Bytes

  /** Header offsets a signature update needs. */
  datatype Layout = Layout(checksumOffset: nat, securityDirOffset: nat)

  datatype Failure = NotPe | NoSignature | NotPe32Plus | Truncated

  /** An outcome of the source: a value, an error, or an index out of range. */
  datatype Outcome<+T> = Done(value: T) | Failed(failure: Failure) | Panicked

  const MZ: seq<byte> := [0x4d, 0x5a]
  const PE: seq<byte> := [0x50, 0x45, 0, 0]
  const PE32_PLUS := 0x20b
  const WIN_CERT_REVISION_2_0 := 0x0200
  const WIN_CERT_TYPE_PKCS_SIGNED_DATA := 0x0002

  /** `pe_layout`: the magic is read before the header is known to hold it. */
  function PeLayout(bytes: seq<byte>): (r: Outcome<Layout>)
    ensures r.Done? ==> r.value.securityDirOffset + 8 <= |bytes|
    ensures r.Done? ==> r.value.checksumOffset >= 88 && r.value.securityDirOffset == r.value.checksumOffset + 80
  {
    if |bytes| < 0x40 || bytes[0..2] != MZ then Failed(NotPe)
    else
      var peOff := Read32(bytes, 0x3c);
      if |bytes| < peOff + 24 || bytes[peOff..peOff + 4] != PE then Failed(NoSignature)
      else
        var optHeader := peOff + 24;
        if |bytes| < optHeader + 2 then Panicked
        else if Read16(bytes, optHeader) != PE32_PLUS then Failed(NotPe32Plus)
        else if |bytes| < optHeader + 144 + 8 then Failed(Truncated)
        else Done(Layout(optHeader + 64, optHeader + 144))
  }

  /** The image ends inside or right before the optional header's magic. */
  ghost predicate EndsBeforeMagic(bytes: seq<byte>) {
    && |bytes| >= 0x40 && bytes[0..2] == MZ
    && var peOff := Read32(bytes, 0x3c);
       peOff + 24 <= |bytes| < peOff + 26 && bytes[peOff..peOff + 4] == PE
  }

  lemma PanicIff(bytes: seq<byte>)
    ensures PeLayout(bytes).Panicked? <==> EndsBeforeMagic(bytes)
  {
  }

  /** A PE image of 88 bytes, cut off before its optional header. */
  lemma ShortImage()
    ensures var image := MZ + Zeros(58) + Le32(64) + PE + Zeros(20);
            |image| == 88 && PeLayout(image) == Panicked
  {
    hide Zeros;
    var image := MZ + Zeros(58) + Le32(64) + PE + Zeros(20);
    assert image[0..2] == MZ && image[60] == 64 && image[61] == 0 && image[62] == 0 && image[63] == 0;
    assert image[64..68] == PE;
  }

  // ----- Writing -----

  function Padding(n: nat): (k: nat)
    ensures k < 8 && (n + k) % 8 == 0
  {
    (8 - n % 8) % 8
  }

  /** Overwrite the bytes at `at` with a field. */
  function Patch(bytes: seq<byte>, at: nat, field: seq<byte>): (r: seq<byte>)
    requires at + |field| <= |bytes|
    ensures |r| == |bytes| && r[at..at + |field|] == field
    ensures forall i | 0 <= i < |bytes| && !(at <= i < at + |field|) :: r[i] == bytes[i]
  {
    bytes[..at] + field + bytes[at + |field|..]
  }

  function WinCert(pkcs7: seq<byte>): (r: seq<byte>)
    ensures |r| == 8 + |pkcs7|
  {
    Le32(8 + |pkcs7|) + Le16(WIN_CERT_REVISION_2_0) + Le16(WIN_CERT_TYPE_PKCS_SIGNED_DATA) + pkcs7
  }

  /** Where the certificate table starts. */
  function TableOffset(bytes: seq<byte>): nat {
    |bytes| + Padding(|bytes|)
  }

  function TableSize(pkcs7: seq<byte>): nat {
    8 + |pkcs7| + Padding(8 + |pkcs7|)
  }

  /** The image with its table, before any header field is touched. */
  function WithTable(bytes: seq<byte>, pkcs7: seq<byte>): (r: seq<byte>)
    ensures |r| == TableOffset(bytes) + TableSize(pkcs7)
    ensures r[..|bytes|] == bytes
    ensures r[TableOffset(bytes)..TableOffset(bytes) + 8 + |pkcs7|] == WinCert(pkcs7)
    ensures forall i | |bytes| <= i < TableOffset(bytes) :: r[i] == 0
    ensures forall i | TableOffset(bytes) + 8 + |pkcs7| <= i < |r| :: r[i] == 0
  {
    bytes + Zeros(Padding(|bytes|)) + WinCert(pkcs7) + Zeros(Padding(8 + |pkcs7|))
  }

  /** The signed image with the given checksum field. */
  function SignedWith(bytes: seq<byte>, l: Layout, pkcs7: seq<byte>, checksum: nat): (r: seq<byte>)
    requires PeLayout(bytes) == Done(l)
  {
    var image := Patch(WithTable(bytes, pkcs7), l.securityDirOffset, Le32(TableOffset(bytes)));
    Patch(Patch(image, l.securityDirOffset + 4, Le32(TableSize(pkcs7))), l.checksumOffset, Le32(checksum))
  }

  function Signed(bytes: seq<byte>, l: Layout, pkcs7: seq<byte>): seq<byte>
    requires PeLayout(bytes) == Done(l)
  {
    SignedWith(bytes, l, pkcs7, Checksum(SignedWith(bytes, l, pkcs7, 0), l.checksumOffset))
  }

  // ----- The checksum -----

  /** The sum of the little-endian words from `i` on, without folding; the four
      bytes at `skip` are left out when a word starts there. */
  function WordSum(bytes: seq<byte>, skip: nat, i: nat): nat
    decreases |bytes| - i
  {
    if i + 1 < |bytes| then
      if i == skip then WordSum(bytes, skip, i + 4)
      else Read16(bytes, i) + WordSum(bytes, skip, i + 2)
    else if i < |bytes| then bytes[i]
    else 0
  }

  /** The ones-complement residue of a sum: its class modulo 65535, with 0 only
      for 0. */
  function Fold16(n: nat): (r: nat)
    ensures r <= 0xFFFF && r % 0xFFFF == n % 0xFFFF && (r == 0 <==> n == 0)
  {
    if n == 0 then 0 else (n - 1) % 0xFFFF + 1
  }

  /** What the checksum must be: one residue of the whole sum, plus the length. */
  function Checksum(bytes: seq<byte>, skip: nat): nat {
    (Fold16(WordSum(bytes, skip, 0)) + |bytes| % U32) % U32
  }

  /** `(sum & 0xffff) + (sum >> 16)`. */
  function Halves(sum: nat): nat {
    sum % 0x10000 + sum / 0x10000
  }

  lemma FoldStep(n: nat, w: nat)
    requires w <= 0xFFFF
    ensures Halves(Fold16(n) + w) == Fold16(n + w)
  {
    hide Fold16;
    hide Halves;
    FoldOnce(Fold16(n) + w);
    AddModulo(Fold16(n), n, w);
    FoldCongruent(Fold16(n) + w, n + w);
  }

  lemma FoldOnce(s: nat)
    requires s <= 2 * 0xFFFF
    ensures Halves(s) == Fold16(s)
  {
  }

  lemma AddModulo(a: nat, b: nat, w: nat)
    requires a % 0xFFFF == b % 0xFFFF
    ensures (a + w) % 0xFFFF == (b + w) % 0xFFFF
  {
    var p, q, r := a / 0xFFFF, b / 0xFFFF, a % 0xFFFF;
    MultipleModulo(r + w, p);
    MultipleModulo(r + w, q);
  }

  lemma MultipleModulo(n: nat, k: nat)
    ensures (0xFFFF * k + n) % 0xFFFF == n % 0xFFFF
  {
    var p, r := n / 0xFFFF, n % 0xFFFF;
    assert 0xFFFF * k + n == 0xFFFF * (k + p) + r;
  }

  lemma FoldCongruent(a: nat, b: nat)
    requires a % 0xFFFF == b % 0xFFFF && (a == 0 <==> b == 0)
    ensures Fold16(a) == Fold16(b)
  {
    var x, y := Fold16(a), Fold16(b);
    hide Fold16;
    assert x % 0xFFFF == y % 0xFFFF;
  }

  /** The running sum is the residue of the words so far. */
  ghost predicate Folded(sum: nat, total: nat) {
    sum == Fold16(total)
  }

  /** The two statements that add one word to the running sum. */
  method AddWord(sum0: nat, word: nat, ghost total: nat) returns (sum: nat)
    requires Folded(sum0, total) && word <= 0xFFFF
    ensures Folded(sum, total + word)
  {
    hide Fold16;
    hide Halves;
    FoldStep(total, word);
    sum := sum0 + word;
    sum := Halves(sum);
  }

  method PeChecksum(bytes: seq<byte>, checksumOffset: nat) returns (r: nat)
    ensures r == Checksum(bytes, checksumOffset)
  {
    hide Folded;
    hide Read16;
    hide Checksum;
    var sum: nat := 0;
    var i: nat := 0;
    ghost var total: nat := 0;
    FoldNothing();
    while i + 1 < |bytes|
      invariant Folded(sum, total)
      invariant total + WordSum(bytes, checksumOffset, i) == WordSum(bytes, checksumOffset, 0)
    {
      if i == checksumOffset {
        i := i + 4;
        continue;
      }
      var word := Read16(bytes, i);
      sum := AddWord(sum, word, total);
      total := total + word;
      i := i + 2;
    }
    if i < |bytes| {
      sum := AddWord(sum, bytes[i], total);
      total := total + bytes[i];
    }
    sum := AddWord(sum, 0, total);
    FinalSum(bytes, checksumOffset, sum, total);
    r := (sum % 0x10000 + |bytes| % U32) % U32;
  }

  lemma FoldNothing()
    ensures Folded(0, 0)
  {
  }

  lemma FinalSum(bytes: seq<byte>, checksumOffset: nat, sum: nat, total: nat)
    requires Folded(sum, total) && total == WordSum(bytes, checksumOffset, 0)
    ensures Checksum(bytes, checksumOffset) == (sum % 0x10000 + |bytes| % U32) % U32
  {
    hide WordSum;
    assert sum % 0x10000 == sum;
  }

  method EmbedSignature(input: seq<byte>, pkcs7: seq<byte>) returns (r: Outcome<seq<byte>>)
    ensures match PeLayout(input)
            case Done(l) => r == Done(Signed(input, l, pkcs7))
            case Failed(e) => r == Failed(e)
            case Panicked => r == Panicked
  {
    var bytes := input;
    var layout := PeLayout(bytes);
    if layout.Failed? {
      return Failed(layout.failure);
    }
    if layout.Panicked? {
      return Panicked;
    }
    hide PeLayout;
    var pe := layout.value;
    var certLen := 8 + |pkcs7|;
    var winCert := Le32(certLen);
    winCert := winCert + Le16(WIN_CERT_REVISION_2_0);
    winCert := winCert + Le16(WIN_CERT_TYPE_PKCS_SIGNED_DATA);
    winCert := winCert + pkcs7;
    bytes := PadTo8(bytes);
    var certOffset := |bytes|;
    bytes := bytes + winCert;
    bytes := PadTo8(bytes);
    var certDirSize := |bytes| - certOffset;
    assert certDirSize == TableSize(pkcs7) && bytes == WithTable(input, pkcs7) by {
      PaddingShift(TableOffset(input), certLen);
    }
    var dirEntry := pe.securityDirOffset;
    hide Patch;
    hide WithTable;
    hide Le32;
    bytes := Patch(bytes, dirEntry, Le32(certOffset));
    bytes := Patch(bytes, dirEntry + 4, Le32(certDirSize));
    ghost var image := bytes;
    bytes := Patch(bytes, pe.checksumOffset, [0, 0, 0, 0]);
    LeZero();
    assert bytes == SignedWith(input, pe, pkcs7, 0);
    var checksum := PeChecksum(bytes, pe.checksumOffset);
    bytes := Patch(bytes, pe.checksumOffset, Le32(checksum));
    PatchTwice(image, pe.checksumOffset, Le32(0), Le32(checksum));
    r := Done(bytes);
  }

  lemma LeZero()
    ensures Le32(0) == [0, 0, 0, 0]
  {
  }

  lemma PatchTwice(bytes: seq<byte>, at: nat, a: seq<byte>, b: seq<byte>)
    requires at + |a| <= |bytes| && |a| == |b|
    ensures Patch(Patch(bytes, at, a), at, b) == Patch(bytes, at, b)
  {
    var x, y := Patch(Patch(bytes, at, a), at, b), Patch(bytes, at, b);
    hide Patch;
    forall i | 0 <= i < |bytes|
      ensures x[i] == y[i]
    {
      if at <= i < at + |b| {
        assert x[at..at + |b|][i - at] == y[at..at + |b|][i - at];
      }
    }
  }

  lemma PaddingShift(n: nat, k: nat)
    requires n % 8 == 0
    ensures Padding(n + k) == Padding(k)
  {
    var q, r := n / 8 + k / 8, k % 8;
    assert n + k == 8 * q + r;
    SameResidue(n + k, q, r);
  }

  lemma SameResidue(n: nat, q: nat, r: nat)
    requires n == 8 * q + r && r < 8
    ensures n % 8 == r
  {
  }

  lemma PaddingReached(m: nat, n: nat)
    requires n <= Padding(m)
    ensures (m + n) % 8 == 0 <==> n == Padding(m)
  {
    EightApart(m + n, Padding(m) - n);
  }

  lemma EightApart(a: nat, k: nat)
    requires k < 8 && (a + k) % 8 == 0
    ensures a % 8 == 0 <==> k == 0
  {
  }

  /** The loops that push zero bytes up to a multiple of eight. */
  method PadTo8(bytes: seq<byte>) returns (r: seq<byte>)
    ensures r == bytes + Zeros(Padding(|bytes|))
  {
    hide Padding;
    r := bytes;
    ghost var n: nat := 0;
    PaddingReached(|bytes|, n);
    while |r| % 8 != 0
      invariant n <= Padding(|bytes|) && r == bytes + Zeros(n)
      invariant |r| % 8 == 0 <==> n == Padding(|bytes|)
      decreases Padding(|bytes|) - n
    {
      assert bytes + Zeros(n) + [0] == bytes + (Zeros(n) + [0]);
      r := r + [0];
      n := n + 1;
      PaddingReached(|bytes|, n);
    }
  }
}
