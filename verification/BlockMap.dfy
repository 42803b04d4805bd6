/** The block map of an MSIX package, a reader for it, and its agreement with
    the archive beside it. */
module BlockMap {
  import opened Basics
  import opened Bytes
  import opened StoredZip
  import ZipReader
  import opened XmlText
  import opened Decimal
  import Base64
  import Utf8

  const BLOCK_SIZE := 65536

  /** SHA-256, left abstract. */
  type Hash = seq<byte> -> seq<byte>

  const FILE_OPEN := "<File Name=\""
  const SIZE_OPEN := "\" Size=\""
  const LFH_OPEN := "\" LfhSize=\""
  const TAG_END := "\">"
  const BLOCK_OPEN := "<Block Hash=\""
  const BLOCK_END := "\"/>"
  const FILE_CLOSE := "</File>"
  const MAP_CLOSE := "</BlockMap>"

  /** The declaration and the root element's start. */
  function Head(): string {
    "<?xml version=\"1.0\" encoding=\"UTF-8\"?>"
    + "<BlockMap xmlns=\"http://schemas.microsoft.com/appx/2010/blockmap\""
    + " HashMethod=\"http://www.w3.org/2001/04/xmlenc#sha256\">"
  }

  /** `slice::chunks`. */
  function Chunks(data: seq<byte>): seq<seq<byte>> {
    if data == [] then []
    else
      var n := if |data| < BLOCK_SIZE then |data| else BLOCK_SIZE;
      [data[..n]] + Chunks(data[n..])
  }

  function BlockXml(sha: Hash, block: seq<byte>): string {
    BLOCK_OPEN + Base64.Encode(sha(block)) + BLOCK_END
  }

  function BlocksXml(sha: Hash, blocks: seq<seq<byte>>): string {
    if blocks == [] then "" else BlockXml(sha, blocks[0]) + BlocksXml(sha, blocks[1..])
  }

  /** Forward slashes of the archive as backslashes of the block map. */
  function Backslashed(name: string): string { Replace(name, '/', "\\") }

  function LfhSize(part: Part): nat { 30 + |part.NameBytes()| }

  function FileXml(sha: Hash, part: Part): string {
    FILE_OPEN + XmlEscape(Backslashed(part.name)) + SIZE_OPEN + Show(|part.data|)
    + LFH_OPEN + Show(LfhSize(part)) + TAG_END + BlocksXml(sha, Chunks(part.data)) + FILE_CLOSE
  }

  function FilesXml(sha: Hash, parts: seq<Part>): string {
    if parts == [] then "" else FileXml(sha, parts[0]) + FilesXml(sha, parts[1..])
  }

  function BlockMapXml(sha: Hash, parts: seq<Part>): string {
    Head() + FilesXml(sha, parts) + MAP_CLOSE
  }

  method AppxBlockMap(sha: Hash, parts: seq<Part>) returns (xml: string)
    ensures xml == BlockMapXml(sha, parts)
  {
    hide Head;
    hide FileXml;
    xml := Head();
    assert parts[0..] == parts;
    for k := 0 to |parts|
      invariant xml + FilesXml(sha, parts[k..]) == Head() + FilesXml(sha, parts)
    {
      var part := parts[k];
      var file := WriteFile(sha, part);
      assert parts[k..][0] == part && parts[k..][1..] == parts[k + 1..];
      Associative(xml, file, FilesXml(sha, parts[k + 1..]));
      xml := xml + file;
    }
    assert parts[|parts|..] == [];
    xml := xml + MAP_CLOSE;
  }

  method WriteFile(sha: Hash, part: Part) returns (xml: string)
    ensures xml == FileXml(sha, part)
  {
    var backslashed := Backslashed(part.name);
    var lfhSize := 30 + |part.NameBytes()|;
    xml := FILE_OPEN + XmlEscape(backslashed) + SIZE_OPEN + Show(|part.data|) + LFH_OPEN + Show(lfhSize) + TAG_END;
    ghost var open := xml;
    hide BlockXml;
    hide XmlEscape;
    hide Show;
    var i := 0;
    assert part.data[0..] == part.data;
    while i < |part.data|
      invariant 0 <= i <= |part.data|
      invariant xml + BlocksXml(sha, Chunks(part.data[i..])) == open + BlocksXml(sha, Chunks(part.data))
    {
      var rest := part.data[i..];
      var n := if |rest| < BLOCK_SIZE then |rest| else BLOCK_SIZE;
      var block := rest[..n];
      assert rest[n..] == part.data[i + n..];
      var entry := WriteBlock(sha, block);
      ChunksStep(sha, rest, n);
      Associative(xml, entry, BlocksXml(sha, Chunks(rest[n..])));
      xml := xml + entry;
      i := i + n;
    }
    assert part.data[i..] == [];
    assert xml == open + BlocksXml(sha, Chunks(part.data));
    xml := xml + FILE_CLOSE;
  }

  lemma ChunksStep(sha: Hash, rest: seq<byte>, n: nat)
    requires rest != [] && n == if |rest| < BLOCK_SIZE then |rest| else BLOCK_SIZE
    ensures BlocksXml(sha, Chunks(rest)) == BlockXml(sha, rest[..n]) + BlocksXml(sha, Chunks(rest[n..]))
  {
    assert Chunks(rest)[1..] == Chunks(rest[n..]);
  }

  method WriteBlock(sha: Hash, block: seq<byte>) returns (xml: string)
    ensures xml == BlockXml(sha, block)
  {
    var hash := sha(block);
    var encoded := Base64.Encode(hash);
    xml := BLOCK_OPEN + encoded + BLOCK_END;
  }

  // ----- Reading a block map -----

  datatype FileEntry = FileEntry(name: string, size: nat, lfhSize: nat, hashes: seq<string>)

  /** What follows a literal. */
  function Skip(s: string, literal: string): Option<string> {
    if literal <= s then Some(s[|literal|..]) else None
  }

  function UpToQuote(s: string): (n: nat)
    ensures n <= |s|
  {
    if s == "" || s[0] == '"' then 0 else 1 + UpToQuote(s[1..])
  }

  function ReadNumber(s: string): Option<nat> {
    if s != "" && forall i | 0 <= i < |s| :: IsDigit(s[i]) then Some(Parse(s)) else None
  }

  /** The hashes of consecutive block elements, and what follows them. */
  function ReadBlocks(s: string): (Option<(seq<string>, string)>)
    decreases |s|
  {
    var open := Skip(s, "<Block Hash=\"");
    if open == None then Some(([], s))
    else
      var n := UpToQuote(open.value);
      var close := Skip(open.value[n..], "\"/>");
      if close == None then None
      else
        var rest := ReadBlocks(close.value);
        if rest == None then None else Some(([open.value[..n]] + rest.value.0, rest.value.1))
  }

  /** An attribute value that starts at `literal`, and what follows it. */
  function ReadValue(s: string, literal: string): Option<(string, string)> {
    var open := Skip(s, literal);
    if open == None then None
    else
      var n := UpToQuote(open.value);
      Some((open.value[..n], open.value[n..]))
  }

  function ReadFile(s: string): Option<(FileEntry, string)> {
    var name := ReadValue(s, "<File Name=\"");
    if name == None then None
    else
      var size := ReadValue(name.value.1, "\" Size=\"");
      if size == None then None
      else
        var lfh := ReadValue(size.value.1, "\" LfhSize=\"");
        if lfh == None then None
        else ReadContent(name.value.0, ReadNumber(size.value.0), ReadNumber(lfh.value.0), lfh.value.1)
  }

  function ReadContent(name: string, size: Option<nat>, lfh: Option<nat>, s: string): Option<(FileEntry, string)> {
    var open := Skip(s, "\">");
    if open == None || size == None || lfh == None then None
    else
      var blocks := ReadBlocks(open.value);
      if blocks == None then None
      else
        var close := Skip(blocks.value.1, "</File>");
        if close == None then None
        else Some((FileEntry(Unescape(name), size.value, lfh.value, blocks.value.0), close.value))
  }

  function ReadFiles(s: string): Option<seq<FileEntry>>
    decreases |s|
  {
    if s == "</BlockMap>" then Some([])
    else
      var file := ReadFile(s);
      if file == None || |file.value.1| >= |s| then None
      else
        var rest := ReadFiles(file.value.1);
        if rest == None then None else Some([file.value.0] + rest.value)
  }

  function ReadBlockMap(xml: string): Option<seq<FileEntry>> {
    var body := Skip(xml, "<?xml version=\"1.0\" encoding=\"UTF-8\"?>"
                          + "<BlockMap xmlns=\"http://schemas.microsoft.com/appx/2010/blockmap\""
                          + " HashMethod=\"http://www.w3.org/2001/04/xmlenc#sha256\">");
    if body == None then None else ReadFiles(body.value)
  }

  // ----- The block map says what the parts are -----

  function HashesOf(sha: Hash, blocks: seq<seq<byte>>): seq<string> {
    if blocks == [] then [] else [Base64.Encode(sha(blocks[0]))] + HashesOf(sha, blocks[1..])
  }

  function FileOf(sha: Hash, part: Part): FileEntry {
    FileEntry(Backslashed(part.name), |part.data|, LfhSize(part), HashesOf(sha, Chunks(part.data)))
  }

  function FilesOf(sha: Hash, parts: seq<Part>): seq<FileEntry> {
    if parts == [] then [] else [FileOf(sha, parts[0])] + FilesOf(sha, parts[1..])
  }

  lemma SkipJoined(literal: string, rest: string)
    ensures Skip(literal + rest, literal) == Some(rest)
  {
    assert (literal + rest)[|literal|..] == rest;
  }

  lemma {:induction false} UpToQuoteJoined(value: string, rest: string)
    requires '"' !in value && rest != "" && rest[0] == '"'
    ensures UpToQuote(value + rest) == |value|
  {
    if value == "" {
      assert value + rest == rest;
    } else {
      assert (value + rest)[1..] == value[1..] + rest;
      UpToQuoteJoined(value[1..], rest);
    }
  }

  lemma ValueJoined(literal: string, value: string, rest: string)
    requires '"' !in value && rest != "" && rest[0] == '"'
    ensures ReadValue(literal + (value + rest), literal) == Some((value, rest))
  {
    hide Skip;
    SkipJoined(literal, value + rest);
    UpToQuoteJoined(value, rest);
    assert (value + rest)[..|value|] == value && (value + rest)[|value|..] == rest;
  }

  lemma NumberJoined(n: nat)
    ensures '"' !in Show(n) && ReadNumber(Show(n)) == Some(n)
  {
    ParseOfShow(n);
    assert !IsDigit('"');
  }

  lemma NoQuoteInHash(b: seq<byte>)
    ensures '"' !in Base64.Encode(b)
  {
    Base64.EncodeChars(b);
    assert !Base64.IsBase64Char('"');
  }

  lemma BlockRead(hash: string, after: string)
    requires '"' !in hash && ReadBlocks(after).Some?
    ensures ReadBlocks(BLOCK_OPEN + (hash + (BLOCK_END + after)))
            == Some(([hash] + ReadBlocks(after).value.0, ReadBlocks(after).value.1))
  {
    hide Skip;
    var open := hash + (BLOCK_END + after);
    SkipJoined(BLOCK_OPEN, open);
    UpToQuoteJoined(hash, BLOCK_END + after);
    assert open[..|hash|] == hash && open[|hash|..] == BLOCK_END + after;
    SkipJoined(BLOCK_END, after);
    assert |after| < |BLOCK_OPEN + open|;
  }

  lemma BlocksEnd(rest: string)
    ensures ReadBlocks(FILE_CLOSE + rest) == Some(([], FILE_CLOSE + rest))
  {
    var tail := FILE_CLOSE + rest;
    assert tail[1] == '/' && BLOCK_OPEN[1] == 'B';
  }

  lemma {:induction false} BlocksRead(sha: Hash, blocks: seq<seq<byte>>, rest: string)
    ensures ReadBlocks(BlocksXml(sha, blocks) + (FILE_CLOSE + rest)) == Some((HashesOf(sha, blocks), FILE_CLOSE + rest))
    decreases |blocks|
  {
    hide ReadBlocks;
    hide Base64.Encode;
    var tail := FILE_CLOSE + rest;
    if blocks == [] {
      BlocksEnd(rest);
      assert "" + tail == tail;
    } else {
      var hash := Base64.Encode(sha(blocks[0]));
      var after := BlocksXml(sha, blocks[1..]) + tail;
      BlocksRead(sha, blocks[1..], rest);
      NoQuoteInHash(sha(blocks[0]));
      BlockRead(hash, after);
      Regroup4(BLOCK_OPEN, hash, BLOCK_END, BlocksXml(sha, blocks[1..]), tail);
    }
  }

  lemma Regroup4(a: string, b: string, c: string, d: string, e: string)
    ensures a + b + c + d + e == a + (b + (c + (d + e)))
  {
  }

  lemma FileRead(sha: Hash, part: Part, rest: string)
    ensures ReadFile(FileXml(sha, part) + rest) == Some((FileOf(sha, part), rest))
  {
    hide Skip;
    hide ReadValue;
    hide ReadBlocks;
    hide ReadNumber;
    hide XmlEscape;
    hide Unescape;
    hide Show;
    hide BlocksXml;
    var name, size, lfh := XmlEscape(Backslashed(part.name)), Show(|part.data|), Show(LfhSize(part));
    var blocks := BlocksXml(sha, Chunks(part.data));
    var s3 := TAG_END + (blocks + (FILE_CLOSE + rest));
    var s2 := LFH_OPEN + (lfh + s3);
    var s1 := SIZE_OPEN + (size + s2);
    var s0 := FILE_OPEN + (name + s1);
    FileParts(name, size, lfh, blocks, rest);
    EscapedHasNoQuote(Backslashed(part.name));
    UnescapeOfEscape(Backslashed(part.name));
    NumberJoined(|part.data|);
    NumberJoined(LfhSize(part));
    ValueJoined(FILE_OPEN, name, s1);
    ValueJoined(SIZE_OPEN, size, s2);
    ValueJoined(LFH_OPEN, lfh, s3);
    SkipJoined(TAG_END, blocks + (FILE_CLOSE + rest));
    BlocksRead(sha, Chunks(part.data), rest);
    SkipJoined(FILE_CLOSE, rest);
  }

  lemma FileParts(name: string, size: string, lfh: string, blocks: string, rest: string)
    ensures FILE_OPEN + name + SIZE_OPEN + size + LFH_OPEN + lfh + TAG_END + blocks + FILE_CLOSE + rest
            == FILE_OPEN
               + (name + (SIZE_OPEN + (size + (LFH_OPEN + (lfh + (TAG_END + (blocks + (FILE_CLOSE + rest))))))))
  {
    Regroup4(FILE_OPEN + name + SIZE_OPEN + size + LFH_OPEN, lfh, TAG_END, blocks, FILE_CLOSE + rest);
    Associative(FILE_OPEN + name + SIZE_OPEN + size + LFH_OPEN + lfh + TAG_END + blocks, FILE_CLOSE, rest);
    Regroup4(FILE_OPEN, name, SIZE_OPEN, size, LFH_OPEN + (lfh + (TAG_END + (blocks + (FILE_CLOSE + rest)))));
    Associative(FILE_OPEN + name + SIZE_OPEN + size, LFH_OPEN, lfh + (TAG_END + (blocks + (FILE_CLOSE + rest))));
  }

  lemma {:induction false} FilesRead(sha: Hash, parts: seq<Part>)
    ensures ReadFiles(FilesXml(sha, parts) + MAP_CLOSE) == Some(FilesOf(sha, parts))
    decreases |parts|
  {
    hide ReadFile;
    hide FileXml;
    hide FileOf;
    if parts == [] {
      assert "" + MAP_CLOSE == MAP_CLOSE;
    } else {
      var rest := FilesXml(sha, parts[1..]) + MAP_CLOSE;
      Associative(FileXml(sha, parts[0]), FilesXml(sha, parts[1..]), MAP_CLOSE);
      FileRead(sha, parts[0], rest);
      FileStarts(sha, parts[0]);
      assert (FileXml(sha, parts[0]) + rest)[1] == 'F';
      FilesRead(sha, parts[1..]);
    }
  }

  lemma FileStarts(sha: Hash, part: Part)
    ensures |FileXml(sha, part)| > 1 && FileXml(sha, part)[1] == 'F'
  {
    hide BlocksXml;
    hide XmlEscape;
    hide Show;
  }

  /** Reading the block map gives, for every part in order, its name with
      backslashes, its length, its header size and the hashes of its blocks. */
  lemma BlockMapRoundTrip(sha: Hash, parts: seq<Part>)
    ensures ReadBlockMap(BlockMapXml(sha, parts)) == Some(FilesOf(sha, parts))
  {
    hide ReadFiles;
    hide FilesXml;
    hide Skip;
    Associative(Head(), FilesXml(sha, parts), MAP_CLOSE);
    SkipJoined(Head(), FilesXml(sha, parts) + MAP_CLOSE);
    FilesRead(sha, parts);
  }

  // ----- Agreement with the archive -----

  function Flatten(blocks: seq<seq<byte>>): seq<byte> {
    if blocks == [] then [] else blocks[0] + Flatten(blocks[1..])
  }

  /** The blocks partition the data, in order, into full blocks and a last one. */
  lemma {:induction false} ChunksPartition(data: seq<byte>)
    ensures Flatten(Chunks(data)) == data
    ensures |Chunks(data)| == (|data| + 65535) / 65536
    ensures forall i | 0 <= i < |Chunks(data)| ::
              if i + 1 < |Chunks(data)| then |Chunks(data)[i]| == 65536 else 0 < |Chunks(data)[i]| <= 65536
    decreases |data|
  {
    if data != [] {
      var n := if |data| < BLOCK_SIZE then |data| else BLOCK_SIZE;
      ChunksPartition(data[n..]);
      assert data == data[..n] + data[n..];
      assert Chunks(data)[1..] == Chunks(data[n..]);
      CeilStep(|data|, n);
    }
  }

  lemma CeilStep(len: nat, n: nat)
    requires len > 0 && n == if len < BLOCK_SIZE then len else BLOCK_SIZE
    ensures (len + BLOCK_SIZE - 1) / BLOCK_SIZE == 1 + (len - n + BLOCK_SIZE - 1) / BLOCK_SIZE
  {
  }

  /** The block map's names are as long as the archive's, so its header sizes
      hold for both. */
  lemma {:induction false} SameNameLength(name: string)
    ensures |Utf8.Encode(Backslashed(name))| == |Utf8.Encode(name)|
  {
    if name != "" {
      SameNameLength(name[1..]);
      var b := Backslashed(name);
      assert b == [if name[0] == '/' then '\\' else name[0]] + Backslashed(name[1..]);
    }
  }

  /** In the block map a name has a backslash for each slash, and nothing else is
      different. */
  lemma {:induction false} BackslashedChars(name: string)
    ensures |Backslashed(name)| == |name|
    ensures forall i | 0 <= i < |name| :: Backslashed(name)[i] == if name[i] == '/' then '\\' else name[i]
  {
    if name != "" {
      BackslashedChars(name[1..]);
      assert Backslashed(name) == [if name[0] == '/' then '\\' else name[0]] + Backslashed(name[1..]);
    }
  }

  lemma {:induction false} FilesOfAt(sha: Hash, parts: seq<Part>, k: nat)
    requires k < |parts|
    ensures |FilesOf(sha, parts)| == |parts| && FilesOf(sha, parts)[k] == FileOf(sha, parts[k])
  {
    hide FileOf;
    FilesOfLength(sha, parts);
    if k > 0 {
      FilesOfAt(sha, parts[1..], k - 1);
    }
  }

  lemma {:induction false} FilesOfLength(sha: Hash, parts: seq<Part>)
    ensures |FilesOf(sha, parts)| == |parts|
  {
    if parts != [] {
      FilesOfLength(sha, parts[1..]);
    }
  }

  /** For every mapped part of an archive, the offset in the archive plus the
      header size in the block map is where the part's data starts, and as many
      bytes as the block map says from there are that data. */
  lemma BlockMapLocatesData(sha: Hash, first: seq<Part>, mapped: seq<Part>, last: seq<Part>, k: nat)
    requires k < |mapped|
    ensures var files := ReadBlockMap(BlockMapXml(sha, mapped));
            && files.Some? && |files.value| == |mapped|
            && var file, parts := files.value[k], first + mapped + last;
               var start := OffsetOf(parts, |first| + k) + file.lfhSize;
               && file.name == Backslashed(mapped[k].name)
               && start + file.size <= |Archive(parts)|
               && Archive(parts)[start..start + file.size] == mapped[k].data
               && file.hashes == HashesOf(sha, Chunks(mapped[k].data))
  {
    hide ReadBlockMap;
    hide BlockMapXml;
    hide Archive;
    hide Record;
    BlockMapRoundTrip(sha, mapped);
    FilesOfAt(sha, mapped, k);
    var parts := first + mapped + last;
    assert parts[|first| + k] == mapped[k];
    ZipReader.RecordPlace(parts, |first| + k);
    DataInRecord(Archive(parts), OffsetOf(parts, |first| + k), mapped[k]);
  }

  lemma DataInRecord(bytes: seq<byte>, at: nat, part: Part)
    requires ZipReader.Holds(bytes, at, Record(part))
    ensures var start := at + LfhSize(part);
            start + |part.data| <= |bytes| && bytes[start..start + |part.data|] == part.data
  {
    hide LocalHeader;
    ZipReader.HoldsSplit(bytes, at, LocalHeader(part) + part.NameBytes(), part.data);
  }

  // ----- The package -----

  const MAP_NAME := "AppxBlockMap.xml"
  const CONTENT_TYPES_NAME := "[Content_Types].xml"

  /** The parts of a package: the content types, the mapped payload, the map. */
  function PackageParts(sha: Hash, contentTypes: seq<byte>, mapped: seq<Part>): seq<Part> {
    [Part(CONTENT_TYPES_NAME, contentTypes)] + mapped
    + [Part(MAP_NAME, Utf8.Encode(BlockMapXml(sha, mapped)))]
  }

  /** The package's map, read, locates the data of each payload part in it. */
  lemma PackageMapLocatesData(sha: Hash, contentTypes: seq<byte>, mapped: seq<Part>, k: nat)
    requires k < |mapped|
    ensures var parts, files := PackageParts(sha, contentTypes, mapped), ReadBlockMap(BlockMapXml(sha, mapped));
            && parts[|mapped| + 1].data == Utf8.Encode(BlockMapXml(sha, mapped))
            && files.Some? && |files.value| == |mapped|
            && var file := files.value[k]; var start := OffsetOf(parts, k + 1) + file.lfhSize;
               && file.name == Backslashed(mapped[k].name)
               && start + file.size <= |Archive(parts)|
               && Archive(parts)[start..start + file.size] == mapped[k].data
               && file.hashes == HashesOf(sha, Chunks(mapped[k].data))
  {
    hide ReadBlockMap;
    hide BlockMapXml;
    hide Archive;
    hide HashesOf;
    hide Chunks;
    hide Backslashed;
    hide OffsetOf;
    hide Utf8.Encode;
    var listing := Part(MAP_NAME, Utf8.Encode(BlockMapXml(sha, mapped)));
    BlockMapLocatesData(sha, [Part(CONTENT_TYPES_NAME, contentTypes)], mapped, [listing], k);
  }

  /** The first entry of that name, or the number of entries. */
  function IndexOfEntry(entries: seq<ZipReader.Entry>, name: seq<byte>): (k: nat)
    ensures k <= |entries|
    ensures k < |entries| ==> entries[k].name == name
    ensures forall j | 0 <= j < k :: entries[j].name != name
  {
    if entries == [] || entries[0].name == name then 0 else 1 + IndexOfEntry(entries[1..], name)
  }

  /** A name leads to a part of that name exactly when no part before it has it. */
  lemma FoundAtIff(parts: seq<Part>, name: string, k: nat)
    requires k < |parts| && parts[k].name == name
    ensures |ZipReader.EntriesOf(parts)| == |parts|
    ensures IndexOfEntry(ZipReader.EntriesOf(parts), Utf8.Encode(name)) == k <==>
            forall j | 0 <= j < k :: parts[j].name != name
  {
    hide Utf8.Encode;
    hide IndexOfEntry;
    hide ZipReader.EntriesOf;
    var entries := ZipReader.EntriesOf(parts);
    ZipReader.EntriesOfLength(parts);
    forall j | 0 <= j < |parts|
      ensures entries[j].name == Utf8.Encode(name) <==> parts[j].name == name
    {
      ZipReader.EntriesOfAt(parts, j);
      if Utf8.Encode(parts[j].name) == Utf8.Encode(name) {
        Utf8.EncodeInjective(parts[j].name, name);
      }
    }
  }

  lemma MapNameDiffers()
    ensures CONTENT_TYPES_NAME != MAP_NAME
  {
    assert CONTENT_TYPES_NAME[0] != MAP_NAME[0];
  }

  /** The block map's name leads to the block map exactly when no payload part, and
      so not the executable, has that name too. */
  lemma MapFoundIff(sha: Hash, contentTypes: seq<byte>, mapped: seq<Part>)
    ensures var entries := ZipReader.EntriesOf(PackageParts(sha, contentTypes, mapped));
            && |entries| == |mapped| + 2
            && (IndexOfEntry(entries, Utf8.Encode(MAP_NAME)) == |mapped| + 1 <==>
                forall part | part in mapped :: part.name != MAP_NAME)
  {
    hide *;
    MapNameDiffers();
    MapFoundAs(sha, contentTypes, mapped, CONTENT_TYPES_NAME, MAP_NAME);
  }

  lemma MapFoundAs(sha: Hash, contentTypes: seq<byte>, mapped: seq<Part>, first: string, name: string)
    requires first == CONTENT_TYPES_NAME && name == MAP_NAME && first != name
    ensures var entries := ZipReader.EntriesOf(PackageParts(sha, contentTypes, mapped));
            && |entries| == |mapped| + 2
            && (IndexOfEntry(entries, Utf8.Encode(name)) == |mapped| + 1 <==>
                forall part | part in mapped :: part.name != name)
  {
    hide BlockMapXml;
    hide ZipReader.EntriesOf;
    hide Utf8.Encode;
    hide IndexOfEntry;
    var parts := PackageParts(sha, contentTypes, mapped);
    assert parts[0].name == first && parts[|mapped| + 1].name == name;
    assert forall k | 0 <= k < |mapped| :: parts[k + 1] == mapped[k];
    FoundAtIff(parts, name, |mapped| + 1);
    if part :| part in mapped && part.name == name {
      var k :| 0 <= k < |mapped| && mapped[k] == part;
      assert parts[k + 1].name == name;
    }
  }

  /** The file entries of the block map in a package, as a reader of the package
      gets them: by its name in the archive, out of its bytes, out of its text. */
  function ReadPackageMap(package: seq<byte>): Option<seq<FileEntry>> {
    var entries := ZipReader.ReadZip(package);
    if entries == None then None
    else
      var k := IndexOfEntry(entries.value, Utf8.Encode(MAP_NAME));
      if k == |entries.value| then None
      else
        var text := Utf8.Decode(entries.value[k].data);
        if text == None then None else ReadBlockMap(text.value)
  }

  /** Within the archive's limits, a reader of the package gets its parts back; it
      finds the map by its name, unless a payload part has that name too, and with
      it the name, the data and the block hashes of each payload part. */
  lemma PackageReadsBack(sha: Hash, contentTypes: seq<byte>, mapped: seq<Part>, k: nat)
    requires ZipReader.Fits(PackageParts(sha, contentTypes, mapped)) && k < |mapped|
    requires forall part | part in mapped :: part.name != MAP_NAME
    ensures var parts := PackageParts(sha, contentTypes, mapped);
            var package, files := Archive(parts), ReadPackageMap(Archive(parts));
            && ZipReader.ReadZip(package) == Some(ZipReader.EntriesOf(parts))
            && files.Some? && |files.value| == |mapped|
            && var file := files.value[k]; var start := OffsetOf(parts, k + 1) + file.lfhSize;
               && file.name == Backslashed(mapped[k].name)
               && start + file.size <= |package|
               && package[start..start + file.size] == mapped[k].data
               && file.hashes == HashesOf(sha, Chunks(mapped[k].data))
  {
    hide ReadBlockMap;
    hide BlockMapXml;
    hide Archive;
    hide Backslashed;
    hide OffsetOf;
    hide HashesOf;
    hide Chunks;
    hide IndexOfEntry;
    hide Utf8.Encode;
    hide Utf8.Decode;
    hide ZipReader.ReadZip;
    hide ZipReader.EntriesOf;
    hide ZipReader.Fits;
    var parts := PackageParts(sha, contentTypes, mapped);
    ZipReader.ZipRoundTrip(parts);
    ZipReader.EntriesOfAt(parts, |mapped| + 1);
    MapFoundIff(sha, contentTypes, mapped);
    Utf8.DecodeOfEncode(BlockMapXml(sha, mapped));
    PackageMapLocatesData(sha, contentTypes, mapped, k);
  }

  /** What the block map covers. */
  function Payload(manifest: seq<byte>, executable: string, exe: seq<byte>,
                   logoStore50: seq<byte>, logo150: seq<byte>, logo44: seq<byte>): seq<Part> {
    [Part("AppxManifest.xml", manifest), Part(executable, exe), Part("Assets/StoreLogo.png", logoStore50),
     Part("Assets/Square150x150Logo.png", logo150), Part("Assets/Square44x44Logo.png", logo44)]
  }

  method BuildPackage(sha: Hash, contentTypes: string, manifest: string, executable: string,
                      exe: seq<byte>, logoStore50: seq<byte>, logo150: seq<byte>, logo44: seq<byte>)
      returns (package: seq<byte>)
    ensures var mapped := Payload(Utf8.Encode(manifest), executable, exe, logoStore50, logo150, logo44);
            package == Archive(PackageParts(sha, Utf8.Encode(contentTypes), mapped))
  {
    hide Archive;
    var mapped := [
      Part("AppxManifest.xml", Utf8.Encode(manifest)),
      Part(executable, exe),
      Part("Assets/StoreLogo.png", logoStore50),
      Part("Assets/Square150x150Logo.png", logo150),
      Part("Assets/Square44x44Logo.png", logo44)
    ];
    var blockMap := AppxBlockMap(sha, mapped);
    var all := [Part(CONTENT_TYPES_NAME, Utf8.Encode(contentTypes))];
    all := all + mapped;
    all := all + [Part(MAP_NAME, Utf8.Encode(blockMap))];
    package := WriteStoredZip(all);
  }
}
