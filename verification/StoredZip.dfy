/** The hand-written ZIP of an MSIX package: every part stored, no extra fields,
    no data descriptors. */
module StoredZip {
  import opened Bytes
  import Crc32
  import Utf8

  datatype Part = Part(name: string, data: seq<byte>) {
    function NameBytes(): seq<byte> { Utf8.Encode(name) }

    function Crc(): (r: nat)
      ensures r < U32
    {
      Crc32.Crc(data) as int
    }
  }

  const LOCAL_SIGNATURE := 0x0403_4b50
  const CENTRAL_SIGNATURE := 0x0201_4b50
  const END_SIGNATURE := 0x0605_4b50
  const MOD_DATE := 0x21

  /** Signature, version, flags, method, time and date. */
  function LocalPrefix(): (r: seq<byte>)
    ensures |r| == 14
  {
    Le32(LOCAL_SIGNATURE) + Le16(20) + Le16(0) + Le16(0) + Le16(0) + Le16(MOD_DATE)
  }

  /** Checksum, compressed size and uncompressed size. */
  function Sizes(part: Part): (r: seq<byte>)
    ensures |r| == 12
  {
    Le32(part.Crc()) + Le32(|part.data|) + Le32(|part.data|)
  }

  function LocalLengths(part: Part): (r: seq<byte>)
    ensures |r| == 4
  {
    Le16(|part.NameBytes()|) + Le16(0)
  }

  function LocalHeader(part: Part): (r: seq<byte>)
    ensures |r| == 30
  {
    LocalPrefix() + Sizes(part) + LocalLengths(part)
  }

  function Record(part: Part): (r: seq<byte>)
    ensures |r| == 30 + |part.NameBytes()| + |part.data|
  {
    LocalHeader(part) + part.NameBytes() + part.data
  }

  function Records(parts: seq<Part>): seq<byte> {
    if parts == [] then [] else Record(parts[0]) + Records(parts[1..])
  }

  function CentralPrefix(): (r: seq<byte>)
    ensures |r| == 16
  {
    Le32(CENTRAL_SIGNATURE) + Le16(20) + Le16(20) + Le16(0) + Le16(0) + Le16(0) + Le16(MOD_DATE)
  }

  /** Lengths, disk, attributes and the offset of the local header. */
  function CentralSuffix(part: Part, offset: nat): (r: seq<byte>)
    ensures |r| == 18
  {
    Le16(|part.NameBytes()|) + Le16(0) + Le16(0) + Le16(0) + Le16(0) + Le32(0) + Le32(offset)
  }

  function CentralRecord(part: Part, offset: nat): (r: seq<byte>)
    ensures |r| == 46 + |part.NameBytes()|
  {
    CentralPrefix() + Sizes(part) + CentralSuffix(part, offset) + part.NameBytes()
  }

  /** The central entries of parts whose first local header is at `offset`. */
  function Central(parts: seq<Part>, offset: nat): seq<byte>
    decreases |parts|
  {
    if parts == [] then []
    else CentralRecord(parts[0], offset) + Central(parts[1..], offset + |Record(parts[0])|)
  }

  function EndRecord(entries: nat, centralSize: nat, centralStart: nat): (r: seq<byte>)
    ensures |r| == 22
  {
    Le32(END_SIGNATURE) + Le16(0) + Le16(0) + Le16(entries) + Le16(entries)
    + Le32(centralSize) + Le32(centralStart) + Le16(0)
  }

  function Archive(parts: seq<Part>): seq<byte> {
    var records, central := Records(parts), Central(parts, 0);
    records + central + EndRecord(|parts|, |central|, |records|)
  }

  /** Where the local header of part `k` starts. */
  function OffsetOf(parts: seq<Part>, k: nat): nat
    requires k <= |parts|
  {
    |Records(parts[..k])|
  }

  lemma {:induction false} RecordsConcat(a: seq<Part>, b: seq<Part>)
    ensures Records(a + b) == Records(a) + Records(b)
    decreases |a|
  {
    hide Record;
    if a == [] {
      assert a + b == b;
    } else {
      assert (a + b)[1..] == a[1..] + b;
      RecordsConcat(a[1..], b);
    }
  }

  lemma {:induction false} CentralConcat(a: seq<Part>, b: seq<Part>, offset: nat)
    ensures Central(a + b, offset) == Central(a, offset) + Central(b, offset + |Records(a)|)
    decreases |a|
  {
    hide Record;
    hide CentralRecord;
    if a == [] {
      assert a + b == b;
    } else {
      assert (a + b)[1..] == a[1..] + b;
      CentralConcat(a[1..], b, offset + |Record(a[0])|);
    }
  }

  lemma RecordsSnoc(parts: seq<Part>, k: nat)
    requires k < |parts|
    ensures Records(parts[..k + 1]) == Records(parts[..k]) + Record(parts[k])
  {
    hide Record;
    assert parts[..k + 1] == parts[..k] + [parts[k]];
    RecordsConcat(parts[..k], [parts[k]]);
    assert Records([parts[k]]) == Record(parts[k]) + [];
  }

  lemma CentralSnoc(parts: seq<Part>, k: nat)
    requires k < |parts|
    ensures Central(parts[..k + 1], 0) == Central(parts[..k], 0) + CentralRecord(parts[k], OffsetOf(parts, k))
  {
    hide Record;
    hide CentralRecord;
    assert parts[..k + 1] == parts[..k] + [parts[k]];
    CentralConcat(parts[..k], [parts[k]], 0);
    assert Central([parts[k]], OffsetOf(parts, k)) == CentralRecord(parts[k], OffsetOf(parts, k)) + [];
  }

  method WriteStoredZip(parts: seq<Part>) returns (out: seq<byte>)
    ensures out == Archive(parts)
  {
    hide Le16;
    hide Le32;
    hide LocalHeader;
    hide CentralRecord;
    hide EndRecord;
    out := [];
    var offsets: seq<nat> := [];
    assert parts[..0] == [];
    for k := 0 to |parts|
      invariant out == Records(parts[..k])
      invariant |offsets| == k && forall j | 0 <= j < k :: offsets[j] == OffsetOf(parts, j)
    {
      hide Records;
      RecordsSnoc(parts, k);
      var part := parts[k];
      offsets := offsets + [|out|];
      var crc := Crc32.ComputeCrc32(part.data);
      ghost var before := out;
      var header := WriteLocalHeader(part, crc);
      out := out + header;
      out := out + part.NameBytes();
      out := out + part.data;
      assert out == before + (header + part.NameBytes() + part.data);
    }
    assert parts[..|parts|] == parts;
    var centralStart := |out|;
    var central: seq<byte> := [];
    for k := 0 to |parts|
      invariant central == Central(parts[..k], 0)
    {
      hide Central;
      hide Records;
      hide Record;
      CentralSnoc(parts, k);
      var crc := Crc32.ComputeCrc32(parts[k].data);
      var entry := WriteCentralHeader(parts[k], crc, offsets[k]);
      central := central + entry;
    }
    var centralSize := |central|;
    out := out + central;
    out := out + EndRecord(|parts|, centralSize, centralStart);
  }

  /** The fixed fields of one local header, appended in order. */
  method WriteLocalHeader(part: Part, crc: bv32) returns (out: seq<byte>)
    requires crc == Crc32.Crc(part.data)
    ensures out == LocalHeader(part)
  {
    hide Le16;
    hide Le32;
    out := Le32(LOCAL_SIGNATURE);
    out := out + Le16(20);
    out := out + Le16(0);
    out := out + Le16(0);
    out := out + Le16(0);
    out := out + Le16(MOD_DATE);
    assert out == LocalPrefix();
    ghost var sizes := Sizes(part);
    out := out + Le32(crc as int);
    out := out + Le32(|part.data|);
    out := out + Le32(|part.data|);
    assert out == LocalPrefix() + sizes;
    out := out + Le16(|part.NameBytes()|);
    out := out + Le16(0);
    assert out == LocalPrefix() + sizes + LocalLengths(part);
  }

  method WriteCentralHeader(part: Part, crc: bv32, offset: nat) returns (central: seq<byte>)
    requires crc == Crc32.Crc(part.data)
    ensures central == CentralRecord(part, offset)
  {
    hide Le16;
    hide Le32;
    central := Le32(CENTRAL_SIGNATURE);
    central := central + Le16(20);
    central := central + Le16(20);
    central := central + Le16(0);
    central := central + Le16(0);
    central := central + Le16(0);
    central := central + Le16(MOD_DATE);
    assert central == CentralPrefix();
    ghost var sizes := Sizes(part);
    central := central + Le32(crc as int);
    central := central + Le32(|part.data|);
    central := central + Le32(|part.data|);
    assert central == CentralPrefix() + sizes;
    ghost var before := central;
    central := central + Le16(|part.NameBytes()|);
    central := central + Le16(0);
    central := central + Le16(0);
    central := central + Le16(0);
    central := central + Le16(0);
    central := central + Le32(0);
    central := central + Le32(offset);
    assert central == before + CentralSuffix(part, offset);
    central := central + part.NameBytes();
  }

  // ----- The bytes that are the same in every archive -----

  lemma Signatures()
    ensures Le32(LOCAL_SIGNATURE) == [0x50, 0x4B, 3, 4]
    ensures Le32(CENTRAL_SIGNATURE) == [0x50, 0x4B, 1, 2]
    ensures Le32(END_SIGNATURE) == [0x50, 0x4B, 5, 6]
    ensures Le32(0) == [0, 0, 0, 0] && Le16(0) == [0, 0] && Le16(20) == [20, 0] && Le16(MOD_DATE) == [0x21, 0]
  {
  }

  /** Version 2.0, no flags, stored, the first of January 1980. */
  lemma LocalFixed(part: Part)
    ensures LocalHeader(part)[..14] == [0x50, 0x4B, 3, 4, 20, 0, 0, 0, 0, 0, 0, 0, 0x21, 0]
  {
    hide Le16;
    hide Le32;
    hide Sizes;
    Signatures();
    assert LocalHeader(part)[..14] == LocalPrefix();
  }

  lemma CentralFixed(part: Part, offset: nat)
    ensures CentralRecord(part, offset)[..16] == [0x50, 0x4B, 1, 2, 20, 0, 20, 0, 0, 0, 0, 0, 0, 0, 0x21, 0]
    ensures CentralRecord(part, offset)[30..42] == [0, 0, 0, 0, 0, 0, 0, 0, 0, 0, 0, 0]
  {
    hide Le16;
    hide Le32;
    hide Sizes;
    Signatures();
    assert CentralRecord(part, offset)[..16] == CentralPrefix();
    assert CentralRecord(part, offset)[30..42] == CentralSuffix(part, offset)[2..14];
  }

  lemma EndFixed(entries: nat, centralSize: nat, centralStart: nat)
    ensures EndRecord(entries, centralSize, centralStart)[..8] == [0x50, 0x4B, 5, 6, 0, 0, 0, 0]
  {
    hide Le16;
    hide Le32;
    Signatures();
  }
}
