/** A signed image read back: its layout, its table, its payload, its digest
    input and its checksum. */
module AuthenticodeTheorems {
  import opened Basics
  import opened Bytes
  import opened Authenticode

  /** Inside the checksum field or the security directory entry. */
  ghost predicate InFields(l: Layout, i: int) {
    l.checksumOffset <= i < l.checksumOffset + 4 || l.securityDirOffset <= i < l.securityDirOffset + 8
  }

  /** Everything about the signed image, byte by byte. */
  lemma SignedBytes(bytes: seq<byte>, l: Layout, pkcs7: seq<byte>, v: nat)
    requires PeLayout(bytes) == Done(l)
    ensures var out, table := SignedWith(bytes, l, pkcs7, v), WithTable(bytes, pkcs7);
            && |out| == |table|
            && out[l.checksumOffset..l.checksumOffset + 4] == Le32(v)
            && out[l.securityDirOffset..l.securityDirOffset + 4] == Le32(TableOffset(bytes))
            && out[l.securityDirOffset + 4..l.securityDirOffset + 8] == Le32(TableSize(pkcs7))
            && forall i | 0 <= i < |out| && !InFields(l, i) :: out[i] == table[i]
  {
    hide PeLayout;
    hide WithTable;
    hide Le32;
    hide Patch;
    var table := WithTable(bytes, pkcs7);
    var a := Patch(table, l.securityDirOffset, Le32(TableOffset(bytes)));
    var b := Patch(a, l.securityDirOffset + 4, Le32(TableSize(pkcs7)));
    var out := Patch(b, l.checksumOffset, Le32(v));
    SameSlice(b, out, l.securityDirOffset, l.securityDirOffset + 4);
    SameSlice(b, out, l.securityDirOffset + 4, l.securityDirOffset + 8);
    SameSlice(a, b, l.securityDirOffset, l.securityDirOffset + 4);
  }

  lemma SameSlice(a: seq<byte>, b: seq<byte>, lo: nat, hi: nat)
    requires lo <= hi <= |a| && hi <= |b|
    requires forall i | lo <= i < hi :: a[i] == b[i]
    ensures a[lo..hi] == b[lo..hi]
  {
  }

  /** The headers a layout is read from are untouched, and the image only grows. */
  lemma SameHeader(bytes: seq<byte>, out: seq<byte>, l: Layout)
    requires PeLayout(bytes) == Done(l) && |bytes| <= |out|
    requires forall i | 0 <= i < |bytes| && !InFields(l, i) :: out[i] == bytes[i]
    ensures PeLayout(out) == Done(l)
  {
    hide PE;
    hide MZ;
    var peOff := Read32(bytes, 0x3c);
    SameSlice(bytes, out, 0, 2);
    SameSlice(bytes, out, peOff, peOff + 4);
    assert Read32(out, 0x3c) == peOff;
    assert Read16(out, peOff + 24) == Read16(bytes, peOff + 24);
  }

  /** The layout of the output is the layout of the input. */
  lemma LayoutKept(bytes: seq<byte>, l: Layout, pkcs7: seq<byte>, v: nat)
    requires PeLayout(bytes) == Done(l)
    ensures PeLayout(SignedWith(bytes, l, pkcs7, v)) == Done(l)
  {
    SignedBytes(bytes, l, pkcs7, v);
    var out, table := SignedWith(bytes, l, pkcs7, v), WithTable(bytes, pkcs7);
    hide SignedWith;
    hide WithTable;
    hide PeLayout;
    assert forall i | 0 <= i < |bytes| :: table[..|bytes|][i] == table[i];
    SameHeader(bytes, out, l);
  }

  lemma SignedLayout(bytes: seq<byte>, l: Layout, pkcs7: seq<byte>)
    requires PeLayout(bytes) == Done(l)
    ensures PeLayout(Signed(bytes, l, pkcs7)) == Done(l)
  {
    LayoutKept(bytes, l, pkcs7, Checksum(SignedWith(bytes, l, pkcs7, 0), l.checksumOffset));
  }

  lemma TableInSigned(bytes: seq<byte>, l: Layout, pkcs7: seq<byte>)
    requires PeLayout(bytes) == Done(l)
    ensures var out, at := Signed(bytes, l, pkcs7), TableOffset(bytes);
            at + 8 + |pkcs7| <= |out| && out[at..at + 8 + |pkcs7|] == WinCert(pkcs7)
  {
    hide PeLayout;
    hide WithTable;
    hide SignedWith;
    hide WinCert;
    hide Le32;
    hide Checksum;
    var v := Checksum(SignedWith(bytes, l, pkcs7, 0), l.checksumOffset);
    SignedBytes(bytes, l, pkcs7, v);
    var at := TableOffset(bytes);
    SameSlice(WithTable(bytes, pkcs7), SignedWith(bytes, l, pkcs7, v), at, at + 8 + |pkcs7|);
  }

  // ----- Reading a certificate table -----

  function EntryOffset(bytes: seq<byte>, l: Layout): nat
    requires l.securityDirOffset + 8 <= |bytes|
  {
    Read32(bytes, l.securityDirOffset)
  }

  function EntrySize(bytes: seq<byte>, l: Layout): nat
    requires l.securityDirOffset + 8 <= |bytes|
  {
    Read32(bytes, l.securityDirOffset + 4)
  }

  /** The PKCS#7 payload of the first entry of an image's certificate table. */
  function ReadSignature(bytes: seq<byte>): Option<seq<byte>> {
    var layout := PeLayout(bytes);
    if !layout.Done? then None
    else
      var at, size := EntryOffset(bytes, layout.value), EntrySize(bytes, layout.value);
      if at % 8 != 0 || size < 8 || at + size > |bytes| then None
      else
        var length := Read32(bytes, at);
        if length < 8 || length > size
           || Read16(bytes, at + 4) != 0x0200 || Read16(bytes, at + 6) != 0x0002
        then None
        else Some(bytes[at + 8..at + length])
  }

  /** The two casts of the directory entry keep their values. */
  ghost predicate EntryFits(bytes: seq<byte>, pkcs7: seq<byte>) {
    TableOffset(bytes) < U32 && TableSize(pkcs7) < U32
  }

  lemma EntryRead(bytes: seq<byte>, l: Layout, pkcs7: seq<byte>)
    requires PeLayout(bytes) == Done(l)
    ensures var out := Signed(bytes, l, pkcs7);
            && |out| == TableOffset(bytes) + TableSize(pkcs7)
            && EntryOffset(out, l) == TableOffset(bytes) % U32
            && EntrySize(out, l) == TableSize(pkcs7) % U32
  {
    hide PeLayout;
    hide WithTable;
    hide SignedWith;
    hide Le32;
    hide Read32;
    hide Checksum;
    var v := Checksum(SignedWith(bytes, l, pkcs7, 0), l.checksumOffset);
    SignedBytes(bytes, l, pkcs7, v);
    var out := SignedWith(bytes, l, pkcs7, v);
    ReadLe32(out, l.securityDirOffset, TableOffset(bytes));
    ReadLe32(out, l.securityDirOffset + 4, TableSize(pkcs7));
  }

  /** The directory entry spans from an 8-aligned offset to the end of the file
      exactly when both casts keep their values. */
  lemma TableRunsToEndIff(bytes: seq<byte>, l: Layout, pkcs7: seq<byte>)
    requires PeLayout(bytes) == Done(l)
    ensures var out := Signed(bytes, l, pkcs7);
            EntryOffset(out, l) + EntrySize(out, l) == |out| <==> EntryFits(bytes, pkcs7)
    ensures EntryFits(bytes, pkcs7) ==> EntryOffset(Signed(bytes, l, pkcs7), l) % 8 == 0
  {
    hide Signed;
    hide PeLayout;
    EntryRead(bytes, l, pkcs7);
    Truncation(TableOffset(bytes));
    Truncation(TableSize(pkcs7));
  }

  lemma Truncation(n: nat)
    ensures n % U32 <= n && (n % U32 == n <==> n < U32)
  {
  }

  /** Reading the signed image gives back exactly the payload. */
  lemma SignatureRoundTrip(bytes: seq<byte>, l: Layout, pkcs7: seq<byte>)
    requires PeLayout(bytes) == Done(l) && EntryFits(bytes, pkcs7)
    ensures ReadSignature(Signed(bytes, l, pkcs7)) == Some(pkcs7)
  {
    hide Signed;
    hide PeLayout;
    hide WinCert;
    hide EntryOffset;
    hide EntrySize;
    hide ReadSignature;
    SignedLayout(bytes, l, pkcs7);
    EntryRead(bytes, l, pkcs7);
    TableInSigned(bytes, l, pkcs7);
    TableRunsToEndIff(bytes, l, pkcs7);
    TableRead(Signed(bytes, l, pkcs7), l, pkcs7);
  }

  lemma TableRead(out: seq<byte>, l: Layout, pkcs7: seq<byte>)
    requires PeLayout(out) == Done(l)
    requires var at, size := EntryOffset(out, l), EntrySize(out, l);
             at % 8 == 0 && at + size == |out| && 8 + |pkcs7| <= size
             && out[at..at + 8 + |pkcs7|] == WinCert(pkcs7)
    ensures ReadSignature(out) == Some(pkcs7)
  {
    hide PeLayout;
    hide WinCert;
    CertRead(out, EntryOffset(out, l), pkcs7);
  }

  lemma CertRead(out: seq<byte>, at: nat, pkcs7: seq<byte>)
    requires at + 8 + |pkcs7| <= |out| && out[at..at + 8 + |pkcs7|] == WinCert(pkcs7) && 8 + |pkcs7| < U32
    ensures Read32(out, at) == 8 + |pkcs7|
    ensures Read16(out, at + 4) == 0x0200 && Read16(out, at + 6) == 0x0002
    ensures out[at + 8..at + 8 + |pkcs7|] == pkcs7
  {
    hide Le32;
    hide Le16;
    hide Read32;
    hide Read16;
    var cert := WinCert(pkcs7);
    SubSlice(out, at, 8 + |pkcs7|, 0, 4);
    SubSlice(out, at, 8 + |pkcs7|, 4, 6);
    SubSlice(out, at, 8 + |pkcs7|, 6, 8);
    SubSlice(out, at, 8 + |pkcs7|, 8, 8 + |pkcs7|);
    assert cert[0..4] == Le32(8 + |pkcs7|) && cert[4..6] == Le16(WIN_CERT_REVISION_2_0);
    assert cert[6..8] == Le16(WIN_CERT_TYPE_PKCS_SIGNED_DATA) && cert[8..8 + |pkcs7|] == pkcs7;
    ReadLe32(out, at, 8 + |pkcs7|);
    ReadLe16(out, at + 4, WIN_CERT_REVISION_2_0);
    ReadLe16(out, at + 6, WIN_CERT_TYPE_PKCS_SIGNED_DATA);
  }

  lemma SubSlice(s: seq<byte>, at: nat, n: nat, lo: nat, hi: nat)
    requires at + n <= |s| && lo <= hi <= n
    ensures s[at + lo..at + hi] == s[at..at + n][lo..hi]
  {
    var part := s[at..at + n];
    forall k | 0 <= k < hi - lo
      ensures s[at + lo..at + hi][k] == part[lo..hi][k]
    {
      assert part[lo..hi][k] == part[lo + k] == s[at + lo + k];
    }
  }

  /** Every original byte outside the two fields is kept, and the gap before the
      table is zero. */
  lemma OriginalKept(bytes: seq<byte>, l: Layout, pkcs7: seq<byte>)
    requires PeLayout(bytes) == Done(l)
    ensures var out := Signed(bytes, l, pkcs7);
            && |bytes| <= |out|
            && (forall i | 0 <= i < |bytes| && !InFields(l, i) :: out[i] == bytes[i])
            && (forall i | |bytes| <= i < TableOffset(bytes) :: out[i] == 0)
  {
    var v := Checksum(SignedWith(bytes, l, pkcs7, 0), l.checksumOffset);
    SignedBytes(bytes, l, pkcs7, v);
    var table := WithTable(bytes, pkcs7);
    hide WithTable;
    hide SignedWith;
    hide PeLayout;
    hide Checksum;
    assert forall i | 0 <= i < |bytes| :: table[..|bytes|][i] == table[i];
  }

  // ----- The digest input -----

  /** An image up to `end` without the checksum and the directory entry. */
  function Stripped(bytes: seq<byte>, l: Layout, end: nat): seq<byte>
    requires l.checksumOffset + 4 <= l.securityDirOffset && l.securityDirOffset + 8 <= end <= |bytes|
  {
    bytes[..l.checksumOffset] + bytes[l.checksumOffset + 4..l.securityDirOffset] + bytes[l.securityDirOffset + 8..end]
  }

  /** The security entry names a table inside the image, behind the headers. */
  predicate CarriesTable(bytes: seq<byte>, l: Layout)
    requires l.securityDirOffset + 8 <= |bytes|
  {
    var at, size := EntryOffset(bytes, l), EntrySize(bytes, l);
    size != 0 && at >= l.securityDirOffset + 8 && at + size <= |bytes|
  }

  /** What the Authenticode digest covers: the file without the checksum, the
      directory entry and the certificate table that the entry names. */
  function HashedView(bytes: seq<byte>, l: Layout): seq<byte>
    requires PeLayout(bytes) == Done(l)
  {
    var at, size := EntryOffset(bytes, l), EntrySize(bytes, l);
    if CarriesTable(bytes, l) then Stripped(bytes, l, at) + bytes[at + size..] else Stripped(bytes, l, |bytes|)
  }

  /** Signing leaves the whole image in the digest input, followed by the zero
      padding: the digest input is unchanged exactly when the length is a multiple
      of eight and the image did not carry a table already. */
  lemma DigestInput(bytes: seq<byte>, l: Layout, pkcs7: seq<byte>)
    requires PeLayout(bytes) == Done(l) && EntryFits(bytes, pkcs7)
    ensures PeLayout(Signed(bytes, l, pkcs7)) == Done(l)
    ensures HashedView(Signed(bytes, l, pkcs7), l) == Stripped(bytes, l, |bytes|) + Zeros(Padding(|bytes|))
    ensures HashedView(Signed(bytes, l, pkcs7), l) == HashedView(bytes, l) <==>
            |bytes| % 8 == 0 && !CarriesTable(bytes, l)
  {
    hide Signed;
    hide PeLayout;
    hide EntryOffset;
    hide EntrySize;
    hide Stripped;
    SignedLayout(bytes, l, pkcs7);
    EntryRead(bytes, l, pkcs7);
    OriginalKept(bytes, l, pkcs7);
    var out, end := Signed(bytes, l, pkcs7), TableOffset(bytes);
    StrippedGrown(bytes, out, l, end);
    assert out[|out|..] == [];
    assert Stripped(out, l, end) + [] == Stripped(out, l, end);
    PaddingNone(|bytes|);
    Appended(Stripped(bytes, l, |bytes|), Padding(|bytes|));
    TableIsLost(bytes, l);
  }

  /** A signed image carries a table. */
  lemma SignedCarriesTable(bytes: seq<byte>, l: Layout, pkcs7: seq<byte>)
    requires PeLayout(bytes) == Done(l) && EntryFits(bytes, pkcs7)
    ensures CarriesTable(Signed(bytes, l, pkcs7), l)
  {
    hide Signed;
    hide PeLayout;
    hide EntryOffset;
    hide EntrySize;
    SignedLayout(bytes, l, pkcs7);
    EntryRead(bytes, l, pkcs7);
  }

  /** So signing a signed image changes what its digest is taken over. */
  lemma SigningTwice(bytes: seq<byte>, l: Layout, pkcs7: seq<byte>, again: seq<byte>)
    requires PeLayout(bytes) == Done(l) && EntryFits(bytes, pkcs7) && EntryFits(Signed(bytes, l, pkcs7), again)
    ensures PeLayout(Signed(bytes, l, pkcs7)) == Done(l)
    ensures PeLayout(Signed(Signed(bytes, l, pkcs7), l, again)) == Done(l)
    ensures HashedView(Signed(Signed(bytes, l, pkcs7), l, again), l) != HashedView(Signed(bytes, l, pkcs7), l)
  {
    hide Signed;
    hide PeLayout;
    hide HashedView;
    hide CarriesTable;
    SignedLayout(bytes, l, pkcs7);
    SignedCarriesTable(bytes, l, pkcs7);
    DigestInput(Signed(bytes, l, pkcs7), l, again);
  }

  /** An image that carries a table has fewer bytes in its digest input than the
      same image taken whole. */
  lemma TableIsLost(bytes: seq<byte>, l: Layout)
    requires PeLayout(bytes) == Done(l)
    ensures CarriesTable(bytes, l) ==> |HashedView(bytes, l)| < |Stripped(bytes, l, |bytes|)|
    ensures !CarriesTable(bytes, l) ==> HashedView(bytes, l) == Stripped(bytes, l, |bytes|)
  {
    hide EntryOffset;
    hide EntrySize;
  }

  lemma Appended(s: seq<byte>, n: nat)
    ensures s + Zeros(n) == s <==> n == 0
  {
    if n > 0 {
      assert |s + Zeros(n)| > |s|;
    }
  }

  lemma PaddingNone(n: nat)
    ensures Padding(n) == 0 <==> n % 8 == 0
  {
  }

  lemma KeptSlices(bytes: seq<byte>, out: seq<byte>, l: Layout)
    requires l.checksumOffset + 4 <= l.securityDirOffset && l.securityDirOffset + 8 <= |bytes| <= |out|
    requires forall i | 0 <= i < |bytes| && !InFields(l, i) :: out[i] == bytes[i]
    ensures out[..l.checksumOffset] == bytes[..l.checksumOffset]
    ensures out[l.checksumOffset + 4..l.securityDirOffset] == bytes[l.checksumOffset + 4..l.securityDirOffset]
    ensures out[l.securityDirOffset + 8..|bytes|] == bytes[l.securityDirOffset + 8..|bytes|]
  {
    SameSlice(bytes, out, 0, l.checksumOffset);
    SameSlice(bytes, out, l.checksumOffset + 4, l.securityDirOffset);
    SameSlice(bytes, out, l.securityDirOffset + 8, |bytes|);
    Prefixes(bytes, out, l.checksumOffset);
  }

  lemma OnlyZeros(out: seq<byte>, lo: nat, hi: nat)
    requires lo <= hi <= |out| && forall i | lo <= i < hi :: out[i] == 0
    ensures out[lo..hi] == Zeros(hi - lo)
  {
  }

  lemma StrippedUpTo(out: seq<byte>, l: Layout, n: nat, end: nat)
    requires l.checksumOffset + 4 <= l.securityDirOffset && l.securityDirOffset + 8 <= n <= end <= |out|
    ensures Stripped(out, l, end) == Stripped(out, l, n) + out[n..end]
  {
    Joined(out, l.securityDirOffset + 8, n, end);
    Associative(out[..l.checksumOffset] + out[l.checksumOffset + 4..l.securityDirOffset],
                out[l.securityDirOffset + 8..n], out[n..end]);
  }

  lemma SameStripped(a: seq<byte>, b: seq<byte>, l: Layout, n: nat)
    requires l.checksumOffset + 4 <= l.securityDirOffset && l.securityDirOffset + 8 <= n <= |a| && n <= |b|
    requires b[..l.checksumOffset] == a[..l.checksumOffset]
    requires b[l.checksumOffset + 4..l.securityDirOffset] == a[l.checksumOffset + 4..l.securityDirOffset]
    requires b[l.securityDirOffset + 8..n] == a[l.securityDirOffset + 8..n]
    ensures Stripped(b, l, n) == Stripped(a, l, n)
  {
  }

  lemma StrippedGrown(bytes: seq<byte>, out: seq<byte>, l: Layout, end: nat)
    requires l.checksumOffset + 4 <= l.securityDirOffset && l.securityDirOffset + 8 <= |bytes| <= end <= |out|
    requires forall i | 0 <= i < |bytes| && !InFields(l, i) :: out[i] == bytes[i]
    requires forall i | |bytes| <= i < end :: out[i] == 0
    ensures Stripped(out, l, end) == Stripped(bytes, l, |bytes|) + Zeros(end - |bytes|)
  {
    hide Zeros;
    hide InFields;
    hide Stripped;
    KeptSlices(bytes, out, l);
    OnlyZeros(out, |bytes|, end);
    StrippedUpTo(out, l, |bytes|, end);
    SameStripped(bytes, out, l, |bytes|);
  }

  lemma Prefixes(a: seq<byte>, b: seq<byte>, n: nat)
    requires n <= |a| && n <= |b| && a[0..n] == b[0..n]
    ensures a[..n] == b[..n]
  {
    assert a[..n] == a[0..n] && b[..n] == b[0..n];
  }

  lemma Joined(s: seq<byte>, lo: nat, mid: nat, hi: nat)
    requires lo <= mid <= hi <= |s|
    ensures s[lo..hi] == s[lo..mid] + s[mid..hi]
  {
  }

  // ----- The checksum -----

  /** The sum agrees on images that differ only in an even-aligned skipped field. */
  lemma {:induction false} WordSumIgnoresField(a: seq<byte>, b: seq<byte>, skip: nat, i: nat)
    requires |a| == |b| && skip % 2 == 0 && i % 2 == 0 && skip + 4 <= |a|
    requires i <= skip || i >= skip + 4
    requires forall k | 0 <= k < |a| && !(skip <= k < skip + 4) :: a[k] == b[k]
    ensures WordSum(a, skip, i) == WordSum(b, skip, i)
    decreases |a| - i
  {
    if i + 1 < |a| {
      if i == skip {
        WordSumIgnoresField(a, b, skip, i + 4);
      } else {
        WordSumIgnoresField(a, b, skip, i + 2);
      }
    }
  }

  /** At an odd offset no word starts at the field, so its bytes are summed, each
      in the other half of a word. */
  function OddFieldSum(bytes: seq<byte>, at: nat): nat
    requires at + 4 <= |bytes|
  {
    256 * (bytes[at] as int) + bytes[at + 1] as int + 256 * (bytes[at + 2] as int) + bytes[at + 3] as int
  }

  /** After the field, the sum no longer depends on it. */
  lemma {:induction false} WordSumAfter(a: seq<byte>, b: seq<byte>, skip: nat, i: nat)
    requires |a| == |b| && i > skip
    requires forall k | i <= k < |a| :: a[k] == b[k]
    ensures WordSum(a, skip, i) == WordSum(b, skip, i)
    decreases |a| - i
  {
    if i + 1 < |a| {
      WordSumAfter(a, b, skip, i + 2);
    }
  }

  lemma {:induction false} WordSumOddField(a: seq<byte>, b: seq<byte>, skip: nat, i: nat)
    requires |a| == |b| && skip % 2 == 1 && i % 2 == 0 && i < skip && skip + 5 <= |a|
    requires forall k | 0 <= k < |a| && !(skip <= k < skip + 4) :: a[k] == b[k]
    ensures WordSum(a, skip, i) - OddFieldSum(a, skip) == WordSum(b, skip, i) - OddFieldSum(b, skip)
    decreases |a| - i
  {
    if i + 1 == skip {
      WordSumAfter(a, b, skip, i + 6);
      ThreeWords(a, skip, i);
      ThreeWords(b, skip, i);
    } else {
      WordSumOddField(a, b, skip, i + 2);
    }
  }

  lemma ThreeWords(a: seq<byte>, skip: nat, i: nat)
    requires i + 1 == skip && skip % 2 == 1 && skip + 5 <= |a|
    ensures WordSum(a, skip, i)
            == a[i] as int + OddFieldSum(a, skip) + 256 * (a[skip + 4] as int) + WordSum(a, skip, i + 6)
  {
    assert WordSum(a, skip, i) == Read16(a, i) + WordSum(a, skip, i + 2);
    assert WordSum(a, skip, i + 2) == Read16(a, i + 2) + WordSum(a, skip, i + 4);
    assert WordSum(a, skip, i + 4) == Read16(a, i + 4) + WordSum(a, skip, i + 6);
  }

  lemma {:induction false} WordSumPositive(a: seq<byte>, skip: nat)
    requires |a| >= 2 && a[0] > 0 && skip > 0
    ensures WordSum(a, skip, 0) > 0
  {
  }

  lemma FoldEqualIff(n: nat, k: nat)
    requires n > 0
    ensures Fold16(n + k) == Fold16(n) <==> k % 0xFFFF == 0
  {
    var p := k / 0xFFFF;
    if k % 0xFFFF == 0 {
      MultipleModulo(n, p);
      FoldCongruent(n + k, n);
    } else if Fold16(n + k) == Fold16(n) {
      assert (n + k) % 0xFFFF == n % 0xFFFF;
      SubModulo(n, k);
    }
  }

  lemma SubModulo(n: nat, k: nat)
    requires (n + k) % 0xFFFF == n % 0xFFFF
    ensures k % 0xFFFF == 0
  {
    var d := (n + k) / 0xFFFF - n / 0xFFFF;
    assert k == 0xFFFF * d;
    MultipleModulo(0, d);
  }

  lemma ShiftedEqual(x: nat, y: nat, n: nat)
    requires x <= 0xFFFF && y <= 0xFFFF && n < U32
    ensures (x + n) % U32 == (y + n) % U32 <==> x == y
  {
  }

  /** Two images that differ only in the checksum field, zero in the first and
      the first's checksum in the second. */
  lemma RecheckField(zeroed: seq<byte>, out: seq<byte>, at: nat)
    requires |zeroed| == |out| && 0 < at && at + 5 <= |out| && zeroed[0] > 0
    requires forall k | 0 <= k < |out| && !(at <= k < at + 4) :: zeroed[k] == out[k]
    requires forall k | at <= k < at + 4 :: zeroed[k] == 0
    requires Read32(out, at) == Checksum(zeroed, at)
    ensures Checksum(out, at) == Read32(out, at) <==> at % 2 == 0 || Read32(out, at) % 0xFFFF == 0
  {
    hide Fold16;
    hide Read32;
    if at % 2 == 0 {
      WordSumIgnoresField(zeroed, out, at, 0);
    } else {
      WordSumOddField(zeroed, out, at, 0);
      WordSumPositive(zeroed, at);
      FoldEqualIff(WordSum(zeroed, at, 0), OddFieldSum(out, at));
      SwappedHalves(out, at);
      ShiftedEqual(Fold16(WordSum(zeroed, at, 0)), Fold16(WordSum(out, at, 0)), |out| % U32);
    }
  }

  lemma ZeroField(s: seq<byte>, at: nat)
    requires at + 4 <= |s| && s[at..at + 4] == Le32(0)
    ensures forall k | at <= k < at + 4 :: s[k] == 0
  {
    assert forall k | at <= k < at + 4 :: s[k] == s[at..at + 4][k - at];
  }

  lemma FirstByte(bytes: seq<byte>)
    requires PeLayout(bytes).Done?
    ensures bytes[0] > 0
  {
    assert bytes[0..2][0] == 0x4d;
  }

  /** Swapping the bytes of each half multiplies by 256 modulo 65535. */
  lemma SwappedHalves(bytes: seq<byte>, at: nat)
    requires at + 4 <= |bytes|
    ensures OddFieldSum(bytes, at) % 0xFFFF == 0 <==> Read32(bytes, at) % 0xFFFF == 0
  {
    var b0, b1, b2, b3 := bytes[at] as int, bytes[at + 1] as int, bytes[at + 2] as int, bytes[at + 3] as int;
    var field, swapped := Read32(bytes, at), OddFieldSum(bytes, at);
    if field % 0xFFFF == 0 {
      DividesOn(field, swapped, 0, b1 + 256 * b2 + 65537 * b3);
    }
    if swapped % 0xFFFF == 0 {
      DividesOn(swapped, field, 256 * b3, b0);
    }
  }

  lemma DividesOn(x: nat, y: nat, p: nat, q: nat)
    requires x % 0xFFFF == 0 && 256 * x + 0xFFFF * p == 0xFFFF * q + y
    ensures y % 0xFFFF == 0
  {
    var k := 256 * (x / 0xFFFF) + p - q;
    assert y == 0xFFFF * k;
    MultipleModulo(0, k);
  }

  /** Computing the checksum again over the signed image gives the stored value
      exactly when the field is even-aligned, or when the checksum of the image
      with a zero field, which is what gets stored, is a multiple of 65535. */
  lemma RecheckIff(bytes: seq<byte>, l: Layout, pkcs7: seq<byte>)
    requires PeLayout(bytes) == Done(l)
    ensures var out := Signed(bytes, l, pkcs7);
            Checksum(out, l.checksumOffset) == Read32(out, l.checksumOffset) <==>
            l.checksumOffset % 2 == 0
            || Checksum(SignedWith(bytes, l, pkcs7, 0), l.checksumOffset) % 0xFFFF == 0
  {
    var zeroed := SignedWith(bytes, l, pkcs7, 0);
    var at, v := l.checksumOffset, Checksum(zeroed, l.checksumOffset);
    var out := SignedWith(bytes, l, pkcs7, v);
    SignedBytes(bytes, l, pkcs7, 0);
    SignedBytes(bytes, l, pkcs7, v);
    LayoutKept(bytes, l, pkcs7, 0);
    FirstByte(zeroed);
    hide SignedWith;
    hide PeLayout;
    hide Checksum;
    hide Le32;
    hide Read32;
    hide WithTable;
    ReadLe32(out, at, v);
    ZeroField(zeroed, at);
    DirectoryAgrees(zeroed, out, l);
    CastOnce(v, zeroed, at);
    RecheckField(zeroed, out, at);
  }

  lemma CastOnce(v: nat, bytes: seq<byte>, at: nat)
    requires v == Checksum(bytes, at)
    ensures v % U32 == v
  {
  }

  lemma DirectoryAgrees(a: seq<byte>, b: seq<byte>, l: Layout)
    requires |a| == |b| && l.securityDirOffset + 8 <= |a|
    requires a[l.securityDirOffset..l.securityDirOffset + 4] == b[l.securityDirOffset..l.securityDirOffset + 4]
    requires a[l.securityDirOffset + 4..l.securityDirOffset + 8] == b[l.securityDirOffset + 4..l.securityDirOffset + 8]
    ensures forall k | l.securityDirOffset <= k < l.securityDirOffset + 8 :: a[k] == b[k]
  {
    var d := l.securityDirOffset;
    forall k | d <= k < d + 8
      ensures a[k] == b[k]
    {
      if k < d + 4 {
        assert a[k] == a[d..d + 4][k - d] && b[k] == b[d..d + 4][k - d];
      } else {
        assert a[k] == a[d + 4..d + 8][k - d - 4] && b[k] == b[d + 4..d + 8][k - d - 4];
      }
    }
  }

  // ----- An odd checksum offset -----

  /** A PE32+ image whose header stands at an odd offset: a file header for x86-64
      without sections, an optional header with sixteen empty directories. */
  function OddImage(): (bytes: seq<byte>)
    ensures |bytes| == 329
  {
    MZ + Zeros(58) + Le32(65) + [0] + PE + Le16(0x8664) + Zeros(14) + Le16(240) + Zeros(2)
    + Le16(PE32_PLUS) + Zeros(106) + Le32(16) + Zeros(128)
  }

  /** The bytes of that image with an empty signature and no checksum yet. */
  function OddByte(i: nat): byte {
    if i < 64 then (if i == 0 then 0x4d else if i == 1 then 0x5a else if i == 60 then 65 else 0)
    else if i < 88 then
      (if i == 65 then 0x50 else if i == 66 then 0x45 else if i == 69 then 0x64 else if i == 70 then 0x86
       else if i == 85 then 240 else 0)
    else if i < 233 then (if i == 89 then 0x0b else if i == 90 then 2 else if i == 197 then 16 else 0)
    else if i == 233 then 0x50 else if i == 234 then 1 else if i == 237 || i == 336 then 8
    else if i == 341 || i == 342 then 2
    else 0
  }

  lemma OddHead(head: seq<byte>)
    requires head == MZ + Zeros(58) + Le32(65) + [0] + PE + Le16(0x8664) + Zeros(14) + Le16(240) + Zeros(2)
    ensures |head| == 89 && forall i: nat | i < 89 :: head[i] == OddByte(i)
  {
    hide Zeros;
  }

  lemma OddRest(rest: seq<byte>)
    requires rest == Le16(PE32_PLUS) + Zeros(106) + Le32(16) + Zeros(128)
    ensures |rest| == 240 && forall i: nat | i < 240 && !(144 <= i < 152) :: rest[i] == OddByte(89 + i)
  {
    hide Zeros;
  }

  lemma OddBytes()
    ensures forall i: nat | i < 329 && !(233 <= i < 241) :: OddImage()[i] == OddByte(i)
  {
    hide Zeros;
    hide Le16;
    hide Le32;
    hide OddByte;
    var head := MZ + Zeros(58) + Le32(65) + [0] + PE + Le16(0x8664) + Zeros(14) + Le16(240) + Zeros(2);
    var rest := Le16(PE32_PLUS) + Zeros(106) + Le32(16) + Zeros(128);
    OddHead(head);
    OddRest(rest);
    assert OddImage() == head + rest;
    forall i: nat | i < 329 && !(233 <= i < 241)
      ensures OddImage()[i] == OddByte(i)
    {
      if i >= 89 {
        assert rest[i - 89] == OddByte(89 + (i - 89));
      }
    }
  }

  lemma OddLayout()
    ensures PeLayout(OddImage()) == Done(Layout(153, 233))
  {
    OddBytes();
    hide OddImage;
    var image := OddImage();
    assert image[0..2] == MZ && image[65..69] == PE;
  }

  lemma OddSizes()
    ensures TableOffset(OddImage()) == 336 && TableSize([]) == 8
    ensures WinCert([]) == [8, 0, 0, 0, 0, 2, 2, 0] && Le32(336) == [0x50, 1, 0, 0] && Le32(8) == [8, 0, 0, 0]
  {
    hide OddImage;
  }

  lemma OddTable(image: seq<byte>)
    requires image == OddImage()
    ensures var table := WithTable(image, []);
            |table| == 344 && forall i: nat | i < 344 && !(233 <= i < 241) :: table[i] == OddByte(i)
  {
    var table := WithTable(image, []);
    OddSizes();
    OddBytes();
    hide OddImage;
    hide WithTable;
    hide WinCert;
    hide TableOffset;
    hide TableSize;
    forall i: nat | i < 344 && !(233 <= i < 241)
      ensures table[i] == OddByte(i)
    {
      if i < 329 {
        assert table[..329][i] == table[i];
      } else if i >= 336 {
        assert table[336..344][i - 336] == table[i];
      }
    }
  }

  lemma OddZeroed(image: seq<byte>)
    requires image == OddImage() && PeLayout(image) == Done(Layout(153, 233))
    ensures var zeroed := SignedWith(image, Layout(153, 233), [], 0);
            |zeroed| == 344 && forall i: nat | i < 344 :: zeroed[i] == OddByte(i)
  {
    hide OddImage;
    hide PeLayout;
    hide WithTable;
    hide SignedWith;
    var l := Layout(153, 233);
    var zeroed := SignedWith(image, l, [], 0);
    OddSizes();
    OddTable(image);
    SignedBytes(image, l, [], 0);
    ZeroField(zeroed, 153);
    forall i: nat | i < 344
      ensures zeroed[i] == OddByte(i)
    {
      if 233 <= i < 237 {
        assert zeroed[233..237][i - 233] == zeroed[i];
      } else if 237 <= i < 241 {
        assert zeroed[237..241][i - 237] == zeroed[i];
      } else if !(153 <= i < 157) {
        assert zeroed[i] == WithTable(image, [])[i];
      }
    }
  }

  lemma {:induction false} ZeroRun(bytes: seq<byte>, skip: nat, i: nat, j: nat)
    requires i <= j <= |bytes| && i % 2 == 0 && j % 2 == 0 && skip % 2 == 1
    requires forall k | i <= k < j :: bytes[k] == 0
    ensures WordSum(bytes, skip, i) == WordSum(bytes, skip, j)
    decreases j - i
  {
    if i < j {
      ZeroRun(bytes, skip, i + 2, j);
    }
  }

  lemma OneWord(bytes: seq<byte>, skip: nat, i: nat)
    requires i % 2 == 0 && skip % 2 == 1 && i + 2 <= |bytes|
    ensures WordSum(bytes, skip, i) == bytes[i] as int + 256 * (bytes[i + 1] as int) + WordSum(bytes, skip, i + 2)
  {
  }

  /** A word and the zeros behind it. */
  lemma WordAndZeros(bytes: seq<byte>, i: nat, j: nat)
    requires |bytes| == 344 && i % 2 == 0 && j % 2 == 0 && i < j <= 344
    requires forall k: nat | k < 344 :: bytes[k] == OddByte(k)
    requires forall k: nat | i + 2 <= k < j :: OddByte(k) == 0
    ensures WordSum(bytes, 153, i) == OddByte(i) as int + 256 * (OddByte(i + 1) as int) + WordSum(bytes, 153, j)
  {
    hide WordSum;
    OneWord(bytes, 153, i);
    ZeroRun(bytes, 153, i + 2, j);
  }

  lemma OddFileHeader(bytes: seq<byte>)
    requires |bytes| == 344 && forall i: nat | i < 344 :: bytes[i] == OddByte(i)
    ensures WordSum(bytes, 153, 0) == 130905 + WordSum(bytes, 153, 88)
  {
    hide WordSum;
    WordAndZeros(bytes, 0, 60);
    WordAndZeros(bytes, 60, 64);
    WordAndZeros(bytes, 64, 66);
    WordAndZeros(bytes, 66, 68);
    WordAndZeros(bytes, 68, 70);
    WordAndZeros(bytes, 70, 84);
    WordAndZeros(bytes, 84, 88);
  }

  lemma OddOptionalHeader(bytes: seq<byte>)
    requires |bytes| == 344 && forall i: nat | i < 344 :: bytes[i] == OddByte(i)
    ensures WordSum(bytes, 153, 88) == 6914 + WordSum(bytes, 153, 232)
  {
    hide WordSum;
    WordAndZeros(bytes, 88, 90);
    WordAndZeros(bytes, 90, 196);
    WordAndZeros(bytes, 196, 232);
  }

  lemma OddSum(bytes: seq<byte>)
    requires |bytes| == 344 && forall i: nat | i < 344 :: bytes[i] == OddByte(i)
    ensures WordSum(bytes, 153, 0) == 160870
  {
    assert WordSum(bytes, 153, 344) == 0;
    hide WordSum;
    OddFileHeader(bytes);
    OddOptionalHeader(bytes);
    WordAndZeros(bytes, 232, 234);
    WordAndZeros(bytes, 234, 236);
    WordAndZeros(bytes, 236, 336);
    WordAndZeros(bytes, 336, 340);
    WordAndZeros(bytes, 340, 342);
    WordAndZeros(bytes, 342, 344);
  }

  /** An image that gets a checksum which computing it again does not confirm. */
  lemma OddOffsetFails()
    ensures PeLayout(OddImage()) == Done(Layout(153, 233))
    ensures var out := Signed(OddImage(), Layout(153, 233), []);
            |out| >= 157 && Checksum(out, 153) != Read32(out, 153)
  {
    hide OddImage;
    hide SignedWith;
    hide WordSum;
    hide OddByte;
    OddLayout();
    hide PeLayout;
    var image, l := OddImage(), Layout(153, 233);
    OddZeroed(image);
    OddSum(SignedWith(image, l, [], 0));
    assert Checksum(SignedWith(image, l, [], 0), 153) == 30144;
    SignedLayout(image, l, []);
    RecheckIff(image, l, []);
  }

  /** The same image has a length that is no multiple of eight, so that signing it
      changes what its digest is taken over. */
  lemma OddLengthChanges()
    ensures var image, l := OddImage(), Layout(153, 233);
            && PeLayout(image) == Done(l) && PeLayout(Signed(image, l, [])) == Done(l)
            && HashedView(Signed(image, l, []), l) != HashedView(image, l)
  {
    hide OddImage;
    hide Signed;
    hide HashedView;
    hide CarriesTable;
    OddLayout();
    OddSizes();
    hide PeLayout;
    DigestInput(OddImage(), Layout(153, 233), []);
  }
}
