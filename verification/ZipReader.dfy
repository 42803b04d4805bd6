/** A reader after PKWARE's APPNOTE (sections 4.3.16, 4.3.12 and 4.3.7), and the
    round trip of the hand-written archive through it. */
module ZipReader {
  import opened Basics
  import opened Bytes
  import Crc32
  import opened StoredZip

  datatype Entry = Entry(name: seq<byte>, data: seq<byte>)

  /** The fields of a local header or central entry that describe the data. A set
      flag (encryption, a data descriptor) is not something this reader handles. */
  datatype Fields = Fields(compression: nat, crc: nat, compressed: nat, uncompressed: nat, name: seq<byte>)

  datatype LocalHeaderRead = LocalHeaderRead(fields: Fields, dataStart: nat)

  datatype CentralRead = CentralRead(fields: Fields, localOffset: nat, next: nat)

  function ReadLocal(bytes: seq<byte>, at: nat): Option<LocalHeaderRead> {
    if at + 30 > |bytes| || Read32(bytes, at) != 0x0403_4b50 || Read16(bytes, at + 6) != 0 then None
    else
      var nameEnd := at + 30 + Read16(bytes, at + 26);
      var dataStart := nameEnd + Read16(bytes, at + 28);
      if dataStart > |bytes| then None
      else
        var fields := Fields(Read16(bytes, at + 8), Read32(bytes, at + 14), Read32(bytes, at + 18),
                             Read32(bytes, at + 22), bytes[at + 30..nameEnd]);
        Some(LocalHeaderRead(fields, dataStart))
  }

  function ReadCentral(bytes: seq<byte>, at: nat): Option<CentralRead> {
    if at + 46 > |bytes| || Read32(bytes, at) != 0x0201_4b50 || Read16(bytes, at + 8) != 0 then None
    else
      var nameEnd := at + 46 + Read16(bytes, at + 28);
      var next := nameEnd + Read16(bytes, at + 30) + Read16(bytes, at + 32);
      if next > |bytes| then None
      else
        var fields := Fields(Read16(bytes, at + 10), Read32(bytes, at + 16), Read32(bytes, at + 20),
                             Read32(bytes, at + 24), bytes[at + 46..nameEnd]);
        Some(CentralRead(fields, Read32(bytes, at + 42), next))
  }

  /** The data of a stored entry: the local header must repeat the central
      fields, and the checksum must match. */
  function ReadEntry(bytes: seq<byte>, central: CentralRead): Option<Entry> {
    var local := ReadLocal(bytes, central.localOffset);
    if local == None || local.value.fields != central.fields then None
    else
      var f, start := central.fields, local.value.dataStart;
      if f.compression != 0 || f.compressed != f.uncompressed || start + f.compressed > |bytes| then None
      else
        var data := bytes[start..start + f.compressed];
        if Crc32.Crc(data) as int != f.crc then None else Some(Entry(f.name, data))
  }

  /** `n` central entries from `at`, which must end at `end`. */
  function ReadEntries(bytes: seq<byte>, at: nat, n: nat, end: nat): Option<seq<Entry>>
    decreases n
  {
    if n == 0 then (if at == end then Some([]) else None)
    else
      var central := ReadCentral(bytes, at);
      if central == None then None
      else
        var entry := ReadEntry(bytes, central.value);
        if entry == None then None
        else
          var rest := ReadEntries(bytes, central.value.next, n - 1, end);
          if rest == None then None else Some([entry.value] + rest.value)
  }

  /** Search backwards for an end record whose comment ends the file. */
  function FindEnd(bytes: seq<byte>, at: nat): (r: Option<nat>)
    requires at + 22 <= |bytes|
    ensures r.Some? ==> r.value + 22 <= |bytes|
    decreases at
  {
    if Read32(bytes, at) == 0x0605_4b50 && at + 22 + Read16(bytes, at + 20) == |bytes| then Some(at)
    else if at == 0 then None
    else FindEnd(bytes, at - 1)
  }

  function ReadZip(bytes: seq<byte>): Option<seq<Entry>> {
    if |bytes| < 22 then None
    else
      var found := FindEnd(bytes, |bytes| - 22);
      if found == None then None
      else
        var end := found.value;
        ReadDirectory(bytes, Read16(bytes, end + 8), Read16(bytes, end + 10),
                      Read32(bytes, end + 12), Read32(bytes, end + 16), end)
  }

  function ReadDirectory(bytes: seq<byte>, here: nat, total: nat, size: nat, start: nat, end: nat): Option<seq<Entry>> {
    if here != total || start + size != end then None else ReadEntries(bytes, start, total, end)
  }

  // ----- Fields at a position -----

  ghost predicate Holds(bytes: seq<byte>, at: nat, field: seq<byte>) {
    at + |field| <= |bytes| && bytes[at..at + |field|] == field
  }

  lemma HoldsSplit(bytes: seq<byte>, at: nat, a: seq<byte>, b: seq<byte>)
    requires Holds(bytes, at, a + b)
    ensures Holds(bytes, at, a) && Holds(bytes, at + |a|, b)
  {
    var whole := bytes[at..at + |a| + |b|];
    assert whole == a + b;
    assert whole[..|a|] == a && whole[|a|..] == b;
    assert bytes[at..at + |a|] == whole[..|a|];
    assert bytes[at + |a|..at + |a| + |b|] == whole[|a|..];
  }

  lemma HoldsInner(before: seq<byte>, field: seq<byte>, after: seq<byte>)
    ensures Holds(before + field + after, |before|, field)
  {
  }

  lemma Holds16(bytes: seq<byte>, at: nat, n: nat)
    requires Holds(bytes, at, Le16(n))
    ensures at + 2 <= |bytes| && Read16(bytes, at) == n % U16
  {
    ReadLe16(bytes, at, n);
  }

  lemma Holds32(bytes: seq<byte>, at: nat, n: nat)
    requires Holds(bytes, at, Le32(n))
    ensures at + 4 <= |bytes| && Read32(bytes, at) == n % U32
  {
    ReadLe32(bytes, at, n);
  }

  // ----- Reading back what the writer wrote -----

  ghost predicate PartFits(part: Part) {
    |part.NameBytes()| < U16 && |part.data| < U32
  }

  function FieldsOf(part: Part): Fields {
    Fields(0, part.Crc(), |part.data|, |part.data|, part.NameBytes())
  }

  lemma SizesRead(bytes: seq<byte>, at: nat, part: Part)
    requires Holds(bytes, at, Sizes(part)) && |part.data| < U32
    ensures at + 12 <= |bytes| && Read32(bytes, at) == part.Crc()
    ensures Read32(bytes, at + 4) == |part.data| && Read32(bytes, at + 8) == |part.data|
  {
    ThreeWords(bytes, at, part.Crc(), |part.data|, |part.data|);
  }

  lemma ThreeWords(bytes: seq<byte>, at: nat, a: nat, b: nat, c: nat)
    requires Holds(bytes, at, Le32(a) + Le32(b) + Le32(c)) && a < U32 && b < U32 && c < U32
    ensures at + 12 <= |bytes|
    ensures Read32(bytes, at) == a && Read32(bytes, at + 4) == b && Read32(bytes, at + 8) == c
  {
    hide Holds;
    hide Le32;
    hide Read32;
    HoldsSplit(bytes, at, Le32(a) + Le32(b), Le32(c));
    HoldsSplit(bytes, at, Le32(a), Le32(b));
    Holds32(bytes, at, a);
    Holds32(bytes, at + 4, b);
    Holds32(bytes, at + 8, c);
  }

  lemma LocalPrefixRead(bytes: seq<byte>, at: nat)
    requires Holds(bytes, at, LocalPrefix())
    ensures at + 14 <= |bytes| && Read32(bytes, at) == 0x0403_4b50
    ensures Read16(bytes, at + 6) == 0 && Read16(bytes, at + 8) == 0
  {
    hide Holds;
    hide Le16;
    hide Le32;
    hide Read16;
    hide Read32;
    var a := Le32(LOCAL_SIGNATURE);
    HoldsSplit(bytes, at, a + Le16(20) + Le16(0) + Le16(0) + Le16(0), Le16(MOD_DATE));
    HoldsSplit(bytes, at, a + Le16(20) + Le16(0) + Le16(0), Le16(0));
    HoldsSplit(bytes, at, a + Le16(20) + Le16(0), Le16(0));
    HoldsSplit(bytes, at, a + Le16(20), Le16(0));
    HoldsSplit(bytes, at, a, Le16(20));
    Holds32(bytes, at, LOCAL_SIGNATURE);
    Holds16(bytes, at + 6, 0);
    Holds16(bytes, at + 8, 0);
    InBounds(bytes, at, LocalPrefix());
  }

  lemma InBounds(bytes: seq<byte>, at: nat, field: seq<byte>)
    requires Holds(bytes, at, field)
    ensures at + |field| <= |bytes| && bytes[at..at + |field|] == field
  {
  }

  lemma RecordRead(bytes: seq<byte>, at: nat, part: Part)
    requires Holds(bytes, at, Record(part)) && PartFits(part)
    ensures ReadLocal(bytes, at) == Some(LocalHeaderRead(FieldsOf(part), at + 30 + |part.NameBytes()|))
    ensures Holds(bytes, at + 30 + |part.NameBytes()|, part.data)
  {
    hide Holds;
    hide Le16;
    hide Le32;
    hide Read16;
    hide Read32;
    hide LocalPrefix;
    hide Sizes;
    var name, n := part.NameBytes(), |part.NameBytes()|;
    InBounds(bytes, at, Record(part));
    HoldsSplit(bytes, at, LocalHeader(part) + name, part.data);
    HoldsSplit(bytes, at, LocalHeader(part), name);
    HoldsSplit(bytes, at, LocalPrefix() + Sizes(part), LocalLengths(part));
    HoldsSplit(bytes, at, LocalPrefix(), Sizes(part));
    HoldsSplit(bytes, at + 26, Le16(n), Le16(0));
    LocalPrefixRead(bytes, at);
    SizesRead(bytes, at + 14, part);
    Holds16(bytes, at + 26, n);
    Holds16(bytes, at + 28, 0);
    InBounds(bytes, at + 30, name);
  }

  lemma CentralPrefixRead(bytes: seq<byte>, at: nat)
    requires Holds(bytes, at, CentralPrefix())
    ensures at + 16 <= |bytes| && Read32(bytes, at) == 0x0201_4b50
    ensures Read16(bytes, at + 8) == 0 && Read16(bytes, at + 10) == 0
  {
    hide Holds;
    hide Le16;
    hide Le32;
    hide Read16;
    hide Read32;
    var a := Le32(CENTRAL_SIGNATURE);
    HoldsSplit(bytes, at, a + Le16(20) + Le16(20) + Le16(0) + Le16(0) + Le16(0), Le16(MOD_DATE));
    HoldsSplit(bytes, at, a + Le16(20) + Le16(20) + Le16(0) + Le16(0), Le16(0));
    HoldsSplit(bytes, at, a + Le16(20) + Le16(20) + Le16(0), Le16(0));
    HoldsSplit(bytes, at, a + Le16(20) + Le16(20), Le16(0));
    HoldsSplit(bytes, at, a + Le16(20), Le16(20));
    HoldsSplit(bytes, at, a, Le16(20));
    Holds32(bytes, at, CENTRAL_SIGNATURE);
    Holds16(bytes, at + 8, 0);
    Holds16(bytes, at + 10, 0);
    InBounds(bytes, at, CentralPrefix());
  }

  lemma CentralSuffixRead(bytes: seq<byte>, at: nat, part: Part, offset: nat)
    requires Holds(bytes, at, CentralSuffix(part, offset)) && PartFits(part) && offset < U32
    ensures at + 18 <= |bytes| && Read16(bytes, at) == |part.NameBytes()|
    ensures Read16(bytes, at + 2) == 0 && Read16(bytes, at + 4) == 0 && Read32(bytes, at + 14) == offset
  {
    hide Holds;
    hide Le16;
    hide Le32;
    hide Read16;
    hide Read32;
    var n := Le16(|part.NameBytes()|);
    HoldsSplit(bytes, at, n + Le16(0) + Le16(0) + Le16(0) + Le16(0) + Le32(0), Le32(offset));
    HoldsSplit(bytes, at, n + Le16(0) + Le16(0) + Le16(0) + Le16(0), Le32(0));
    HoldsSplit(bytes, at, n + Le16(0) + Le16(0) + Le16(0), Le16(0));
    HoldsSplit(bytes, at, n + Le16(0) + Le16(0), Le16(0));
    HoldsSplit(bytes, at, n + Le16(0), Le16(0));
    HoldsSplit(bytes, at, n, Le16(0));
    Holds16(bytes, at, |part.NameBytes()|);
    Holds16(bytes, at + 2, 0);
    Holds16(bytes, at + 4, 0);
    Holds32(bytes, at + 14, offset);
    InBounds(bytes, at, CentralSuffix(part, offset));
  }

  lemma CentralRecordRead(bytes: seq<byte>, at: nat, part: Part, offset: nat)
    requires Holds(bytes, at, CentralRecord(part, offset)) && PartFits(part) && offset < U32
    ensures ReadCentral(bytes, at)
            == Some(CentralRead(FieldsOf(part), offset, at + |CentralRecord(part, offset)|))
  {
    hide Holds;
    hide Le16;
    hide Le32;
    hide Read16;
    hide Read32;
    hide CentralPrefix;
    hide Sizes;
    hide CentralSuffix;
    var name := part.NameBytes();
    var c := CentralSuffix(part, offset);
    InBounds(bytes, at, CentralRecord(part, offset));
    HoldsSplit(bytes, at, CentralPrefix() + Sizes(part) + c, name);
    HoldsSplit(bytes, at, CentralPrefix() + Sizes(part), c);
    HoldsSplit(bytes, at, CentralPrefix(), Sizes(part));
    CentralPrefixRead(bytes, at);
    SizesRead(bytes, at + 16, part);
    CentralSuffixRead(bytes, at + 28, part, offset);
    InBounds(bytes, at + 46, name);
  }

  lemma EntryRead(bytes: seq<byte>, part: Part, offset: nat, next: nat)
    requires Holds(bytes, offset, Record(part)) && PartFits(part)
    ensures ReadEntry(bytes, CentralRead(FieldsOf(part), offset, next)) == Some(Entry(part.NameBytes(), part.data))
  {
    hide Holds;
    hide Record;
    hide ReadLocal;
    RecordRead(bytes, offset, part);
    InBounds(bytes, offset + 30 + |part.NameBytes()|, part.data);
  }

  // ----- The whole archive -----

  /** Every cast of the writer keeps its value. */
  ghost predicate Fits(parts: seq<Part>) {
    && |parts| < U16
    && (forall k | 0 <= k < |parts| :: PartFits(parts[k]))
    && |Records(parts)| < U32
    && |Central(parts, 0)| < U32
  }

  function EntriesOf(parts: seq<Part>): seq<Entry> {
    if parts == [] then [] else [Entry(parts[0].NameBytes(), parts[0].data)] + EntriesOf(parts[1..])
  }

  /** Where the central entry of part `k` starts. */
  function CentralAt(parts: seq<Part>, k: nat): nat
    requires k <= |parts|
  {
    |Records(parts)| + |Central(parts[..k], 0)|
  }

  /** Local record and central entry of part `k` are where the offsets say. */
  lemma PartPlaces(parts: seq<Part>, k: nat)
    requires k < |parts|
    ensures Holds(Archive(parts), OffsetOf(parts, k), Record(parts[k]))
    ensures Holds(Archive(parts), CentralAt(parts, k), CentralRecord(parts[k], OffsetOf(parts, k)))
    ensures CentralAt(parts, k + 1) == CentralAt(parts, k) + |CentralRecord(parts[k], OffsetOf(parts, k))|
    ensures OffsetOf(parts, k) <= |Records(parts)|
  {
    RecordPlace(parts, k);
    CentralPlace(parts, k);
  }

  lemma RecordPlace(parts: seq<Part>, k: nat)
    requires k < |parts|
    ensures Holds(Archive(parts), OffsetOf(parts, k), Record(parts[k]))
    ensures OffsetOf(parts, k) <= |Records(parts)|
  {
    hide Record;
    hide Holds;
    hide Records;
    hide Central;
    hide EndRecord;
    var records, central := Records(parts), Central(parts, 0);
    assert parts == parts[..k + 1] + parts[k + 1..];
    RecordsConcat(parts[..k + 1], parts[k + 1..]);
    RecordsSnoc(parts, k);
    var r0, r2 := Records(parts[..k]), Records(parts[k + 1..]);
    var after := r2 + (central + EndRecord(|parts|, |central|, |records|));
    HoldsInner(r0, Record(parts[k]), after);
    assert Archive(parts) == r0 + Record(parts[k]) + after;
  }

  lemma CentralPlace(parts: seq<Part>, k: nat)
    requires k < |parts|
    ensures Holds(Archive(parts), CentralAt(parts, k), CentralRecord(parts[k], OffsetOf(parts, k)))
    ensures CentralAt(parts, k + 1) == CentralAt(parts, k) + |CentralRecord(parts[k], OffsetOf(parts, k))|
  {
    hide CentralRecord;
    hide Holds;
    hide Records;
    hide Central;
    hide EndRecord;
    var records, central := Records(parts), Central(parts, 0);
    assert parts == parts[..k + 1] + parts[k + 1..];
    CentralConcat(parts[..k + 1], parts[k + 1..], 0);
    CentralSnoc(parts, k);
    var c0, c2 := Central(parts[..k], 0), Central(parts[k + 1..], |Records(parts[..k + 1])|);
    var after := c2 + EndRecord(|parts|, |central|, |records|);
    HoldsInner(records + c0, CentralRecord(parts[k], OffsetOf(parts, k)), after);
    assert Archive(parts) == records + c0 + CentralRecord(parts[k], OffsetOf(parts, k)) + after;
  }

  lemma {:induction false} EntriesRead(parts: seq<Part>, k: nat)
    requires Fits(parts) && k <= |parts|
    ensures ReadEntries(Archive(parts), CentralAt(parts, k), |parts| - k, CentralAt(parts, |parts|))
            == Some(EntriesOf(parts[k..]))
    decreases |parts| - k
  {
    hide Archive;
    hide Record;
    hide CentralRecord;
    hide CentralAt;
    hide OffsetOf;
    hide ReadEntry;
    hide ReadCentral;
    if k == |parts| {
      assert parts[k..] == [];
    } else {
      PartPlaces(parts, k);
      CentralRecordRead(Archive(parts), CentralAt(parts, k), parts[k], OffsetOf(parts, k));
      EntryRead(Archive(parts), parts[k], OffsetOf(parts, k), CentralAt(parts, k + 1));
      EntriesRead(parts, k + 1);
      assert parts[k..][0] == parts[k] && parts[k..][1..] == parts[k + 1..];
    }
  }

  lemma EndRead(bytes: seq<byte>, at: nat, n: nat, size: nat, start: nat)
    requires Holds(bytes, at, EndRecord(n, size, start))
    ensures at + 22 <= |bytes| && Read32(bytes, at) == 0x0605_4b50 && Read16(bytes, at + 20) == 0
    ensures Read16(bytes, at + 8) == n % U16 && Read16(bytes, at + 10) == n % U16
    ensures Read32(bytes, at + 12) == size % U32 && Read32(bytes, at + 16) == start % U32
  {
    hide Holds;
    hide Le16;
    hide Le32;
    hide Read16;
    hide Read32;
    var a := Le32(END_SIGNATURE) + Le16(0) + Le16(0);
    HoldsSplit(bytes, at, a + Le16(n) + Le16(n) + Le32(size) + Le32(start), Le16(0));
    HoldsSplit(bytes, at, a + Le16(n) + Le16(n) + Le32(size), Le32(start));
    HoldsSplit(bytes, at, a + Le16(n) + Le16(n), Le32(size));
    HoldsSplit(bytes, at, a + Le16(n), Le16(n));
    HoldsSplit(bytes, at, a, Le16(n));
    HoldsSplit(bytes, at, Le32(END_SIGNATURE) + Le16(0), Le16(0));
    HoldsSplit(bytes, at, Le32(END_SIGNATURE), Le16(0));
    Holds32(bytes, at, END_SIGNATURE);
    Holds16(bytes, at + 8, n);
    Holds16(bytes, at + 10, n);
    Holds32(bytes, at + 12, size);
    Holds32(bytes, at + 16, start);
    Holds16(bytes, at + 20, 0);
    InBounds(bytes, at, EndRecord(n, size, start));
  }

  /** The reader takes the directory's size and place from the end record, which
      holds them truncated. */
  lemma DirectoryFound(parts: seq<Part>)
    ensures var records, central := |Records(parts)|, |Central(parts, 0)|;
            ReadZip(Archive(parts)) == ReadDirectory(Archive(parts), |parts| % U16, |parts| % U16,
                                                     central % U32, records % U32, records + central)
  {
    hide Records;
    hide Central;
    hide ReadDirectory;
    hide Read16;
    hide Read32;
    hide EndRecord;
    hide Holds;
    var bytes, records, central := Archive(parts), Records(parts), Central(parts, 0);
    var end := EndRecord(|parts|, |central|, |records|);
    HoldsInner(records + central, end, []);
    assert bytes == records + central + end + [];
    EndRead(bytes, |records| + |central|, |parts|, |central|, |records|);
  }

  /** The stored ZIP round-trips: for every part list within the format's limits
      the reader recovers exactly the names and data, in order. */
  lemma ZipRoundTrip(parts: seq<Part>)
    requires Fits(parts)
    ensures ReadZip(Archive(parts)) == Some(EntriesOf(parts))
  {
    hide Records;
    hide Central;
    hide ReadEntries;
    hide ReadZip;
    hide Archive;
    DirectoryFound(parts);
    EntriesRead(parts, 0);
    assert parts[..|parts|] == parts && parts[0..] == parts && parts[..0] == [];
    NoCentral();
  }

  lemma NoCentral()
    ensures Central([], 0) == []
  {
  }

  // ----- Outside the limits -----

  lemma EntryBounded(bytes: seq<byte>, at: nat)
    requires ReadCentral(bytes, at).Some?
    ensures var entry := ReadEntry(bytes, ReadCentral(bytes, at).value);
            entry.Some? ==> |entry.value.name| < U16 && |entry.value.data| < U32
  {
    hide Read16;
    hide Read32;
    hide ReadLocal;
  }

  lemma {:induction false} EntriesBounded(bytes: seq<byte>, at: nat, n: nat, end: nat)
    ensures var r := ReadEntries(bytes, at, n, end);
            r.Some? ==> |r.value| == n && forall k | 0 <= k < n :: |r.value[k].name| < U16 && |r.value[k].data| < U32
    decreases n
  {
    hide ReadCentral;
    hide ReadEntry;
    if n > 0 {
      var central := ReadCentral(bytes, at);
      if central.Some? {
        EntryBounded(bytes, at);
        EntriesBounded(bytes, central.value.next, n - 1, end);
      }
    }
  }

  lemma {:induction false} EntriesOfAt(parts: seq<Part>, k: nat)
    requires k < |parts|
    ensures |EntriesOf(parts)| == |parts| && EntriesOf(parts)[k] == Entry(parts[k].NameBytes(), parts[k].data)
    decreases k
  {
    EntriesOfLength(parts);
    if k > 0 {
      EntriesOfAt(parts[1..], k - 1);
    }
  }

  lemma {:induction false} EntriesOfLength(parts: seq<Part>)
    ensures |EntriesOf(parts)| == |parts|
  {
    if parts != [] {
      EntriesOfLength(parts[1..]);
    }
  }

  lemma ReadBounded(bytes: seq<byte>)
    ensures var r := ReadZip(bytes);
            r.Some? ==> |r.value| < U16
                        && forall k | 0 <= k < |r.value| :: |r.value[k].name| < U16 && |r.value[k].data| < U32
  {
    hide Read16;
    hide Read32;
    hide ReadEntries;
    if ReadZip(bytes).Some? {
      var end := FindEnd(bytes, |bytes| - 22).value;
      EntriesBounded(bytes, Read32(bytes, end + 16), Read16(bytes, end + 10), end);
    }
  }

  /** Too many parts, a name or a data block too long for its field: no archive
      that a reader accepts can give such parts back. */
  lemma LimitsAreNeeded(parts: seq<Part>, bytes: seq<byte>)
    requires |parts| >= U16 || exists k | 0 <= k < |parts| :: !PartFits(parts[k])
    ensures ReadZip(bytes) != Some(EntriesOf(parts))
  {
    hide ReadZip;
    ReadBounded(bytes);
    EntriesOfLength(parts);
    forall k | 0 <= k < |parts|
      ensures EntriesOf(parts)[k] == Entry(parts[k].NameBytes(), parts[k].data)
    {
      EntriesOfAt(parts, k);
    }
  }

  lemma Truncated(n: nat, k: nat)
    requires n % U32 + k % U32 == n + k
    ensures n < U32 && k < U32
  {
  }

  /** An archive is read back as its parts exactly when they fit the format: every
      cast of the writer must keep its value. */
  lemma ZipRoundTripIff(parts: seq<Part>)
    ensures ReadZip(Archive(parts)) == Some(EntriesOf(parts)) <==> Fits(parts)
  {
    hide Records;
    hide Central;
    hide ReadEntries;
    hide ReadZip;
    hide Archive;
    hide PartFits;
    hide EntriesOf;
    if Fits(parts) {
      ZipRoundTrip(parts);
    } else if |parts| >= U16 || exists k | 0 <= k < |parts| :: !PartFits(parts[k]) {
      LimitsAreNeeded(parts, Archive(parts));
    } else {
      DirectoryFound(parts);
      if |Central(parts, 0)| % U32 + |Records(parts)| % U32 == |Records(parts)| + |Central(parts, 0)| {
        Truncated(|Central(parts, 0)|, |Records(parts)|);
      }
    }
  }
}
