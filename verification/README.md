# Peko toolchain: a verified model

Peko is an application toolchain: a PekoScript compiler front end, a command-line tool that builds, signs and
packages desktop and mobile apps, and a small client library through which an app's web UI talks to its native
host. This project models the self-contained algorithms of that toolchain in Dafny and proves what they promise.
`dafny verify dfyconfig.toml` checks all of it.

| modules | what they model |
|---|---|
| `Basics` | what several modules share: an option type, powers of two, associativity |
| `Text`, `Lexer`, `Formatter`, `FormatterTheorems`, `FormatterNesting`, `FormatterLayout` | the PekoScript source formatter, its two line scanners, and a one-character-at-a-time lexer they are measured against |
| `Bytes`, `Crc32`, `CrcDivision`, `Utf8`, `StoredZip`, `ZipReader` | the hand-written stored ZIP of an MSIX package, its CRC-32 with the polynomial division it stands for, and a reader after PKWARE APPNOTE sections 4.3.7, 4.3.12 and 4.3.16 |
| `Decimal`, `XmlText`, `BlockMap`, `PackageContents` | the package's block map, XML escaping and part list, with a reader of the block map and a look-up of parts by name |
| `Authenticode`, `AuthenticodeTheorems`, `PeFormat` | embedding a signature in a PE image, with a reader after "The Attribute Certificate Table" of the Microsoft PE Format |
| `Calendar` | the civil date of a day count, and the expiry comparison that rests on it |
| `BridgeModel`, `BridgeClient`, `BridgeTheorems`, `BridgeOrder`, `BridgeReady`, `BridgeReconnect`, `BridgeFollowUps`, `BridgeTrace`, `BridgeOutcomes` | the native-bridge client: its variables and handlers as a class, and as a state machine whose runs are reasoned about |
| `Console`, `ConsoleReader` | the cycle-guarded console printer, and a reader of its text |
| `WebkitPatch` | the in-place patch of library paths |
| `Argv`, `ArgvTheorems`, `ArgvErrors` | the command-line parser and the second reader of the same argv |
| `Base64`, `Pem` | PEM blocks, after section 4 of RFC 4648 and section 3 of RFC 7468 |
| `Highlight`, `Reindent`, `ReindentDepth` | the JSON and HTML highlighters and the HTML re-indenter of the developer tools |
| `SortedArray`, `CharacterRanges` | the growable array of the tree-sitter runtime with its sorted insertion, and the character-set search |

Code that works by changing things in place is a class or a method with loops, proved equal to a specification
function; the theorems are about that function. Panics of the source (a slice out of range) are an outcome
`Panicked`, never a precondition. Casts to `u16` and `u32` truncate, as in the source.

## Where code and documentation differ

The model follows the code. These are the differences found, each with its exact condition and an input that shows it.

- The formatter's header says that line content other than leading white space is kept byte for byte
  (`crates/peko-core/src/format.rs:7-8`). Every line loses its trailing blanks, a continuation line of a template too:
  `FormatterTheorems.ContentPreservedIff` says exactly when nothing is lost, `FormatterTheorems.TrailingBlankLost`
  shows a loss.
- It also promises a single final newline (`crates/peko-core/src/format.rs:26-27`). A source that ends in blank
  lines keeps one of them: `FormatterTheorems.FinalNewlineIff`, `FormatterTheorems.FinalBlankKept`.
- `leading_closers` is said to stop at other structural content (`crates/peko-core/src/format.rs:77-78`). It counts
  every closer before the first opener, whatever stands between (`Lexer.TallyCounts`); it is the run of closers that
  the line starts with exactly when the first bracket after that run is not a closer (`Lexer.LeadingIsRunIff`), which
  `x)` fails (`Lexer.LeadingBehindContent`).
- Brackets after a template's closing backtick on a continuation line are dropped, so the running depth is the
  bracket balance exactly under the condition of `FormatterLayout.IndentationFollowsNesting`;
  `FormatterNesting.DiscardedCloser` is an input on which they differ.
- `pe_layout` reads the optional header's magic before it checks that it is there, and panics exactly on an image that
  ends before or within it: `Authenticode.PanicIff`, `Authenticode.ShortImage`. Its one caller parses the image with a
  foreign crate first (`crates/peko-cli/src/bundler/authenticode_sign.rs:77`), which may already refuse such an image;
  that parser is not part of this model.
- A signed image must not already carry a certificate table (`crates/peko-cli/src/bundler/authenticode_sign.rs:166`),
  which nothing checks. Signing one again puts the old table into the digest input: the digest input is kept exactly
  when the image carries no table and its length is a multiple of eight (`AuthenticodeTheorems.DigestInput`). Every
  signed image carries one (`AuthenticodeTheorems.SignedCarriesTable`), so signing it again changes its digest input
  (`AuthenticodeTheorems.SigningTwice`); `AuthenticodeTheorems.OddLengthChanges` is an unsigned image whose digest input
  changes.
- The checksum is said to leave its own field out (`crates/peko-cli/src/bundler/authenticode_sign.rs:237-238`). At an
  odd offset no word starts at the field, so it is summed, and computing the checksum again over the signed image gives
  the stored value exactly when the offset is even or that value is a multiple of 65535:
  `AuthenticodeTheorems.RecheckIff`, `AuthenticodeTheorems.OddOffsetFails`.
- ISO date strings are said to order chronologically (`crates/peko-cli/src/bundler/signing.rs:769-770`). Whole strings
  do exactly for years that are equally wide or whose narrower one is at most the leading digits of the other
  (`Calendar.IsoOrderIff`). The expiry check compares only the first ten characters. It is right exactly when the years
  are comparable in that sense, except that between years from 10000 on, dates that agree in those characters count as
  past, which is right only if they are (`Calendar.ExpiryIff`). A profile that expires on 10000-01-01 is reported as
  expired in 2025 (`Calendar.YearTenThousand`), and one that expires on 10000-01-09 on 10000-01-05
  (`Calendar.SameDecade`).
- The argv loop drops two bytes of a dashed token, so a short `-f` records the flag named "" and a lone `-` panics:
  `ArgvTheorems.DashedToken`, `ArgvTheorems.ShortFlag`, `ArgvTheorems.PanicIff`, `ArgvTheorems.LoneDash`.
- `decode_pem` looks for the END marker from the start of the text, so the slice panics exactly when an END marker
  starts before the first BEGIN marker has ended: `Pem.PanicIff`. The end of another block in front of a private key
  is enough (`Pem.KeyAfterEnd`), and so are certificate markers that share their dashes
  (`Pem.CertificateSharesDashes`).
- A protocol error is said to be fatal on the very first connect only (`toolkit/pekoui/client/index.js:146-147`). It is
  fatal exactly until the first ready message, on whichever connection: `BridgeReady.ErrorIsFatalIff`,
  `BridgeReady.ErrorOnReconnect`.

## Model

| member | source | states |
|---|---|---|
| Text.TrimSplits | crates/peko-core/src/format.rs:44 | a string is its trimmed form between two runs of white space, and that form has none at its ends |
| Text.TrimUnique | crates/peko-core/src/format.rs:44 | the trimmed form is the only such core |
| Text.LinesOfUnlines | crates/peko-core/src/format.rs:34 | lines without a newline inside or a carriage return at the end are read back as they were written |
| Text.LinesKeepContent | crates/peko-core/src/format.rs:34 | splitting into lines loses only white space |
| Lexer.ScanOfTrim | crates/peko-core/src/format.rs:44-59 | scanning a trimmed line gives the counts and carry of the untrimmed one, even after a dangling backslash |
| Lexer.LeadingWithinClosers | crates/peko-core/src/format.rs:120-122 | leading closers never exceed all closers |
| Lexer.TallyCounts | crates/peko-core/src/format.rs:116-123 | the counts are those of the line's structural brackets: the openers, the closers, and the closers before the first opener |
| Lexer.LeadingIsRunIff | crates/peko-core/src/format.rs:76-79 | leading closers are the run of closers the line starts with exactly when the first bracket after that run is not a closer |
| Lexer.LeadingBehindContent | crates/peko-core/src/format.rs:120-122 | a line whose leading closer stands behind other content |
| Lexer.FileScanConcat | crates/peko-core/src/format.rs:81-129 | the whole-file lexer runs piece by piece |
| Lexer.LiteralsHide | crates/peko-core/src/format.rs:102-115 | a quoted literal or a template hides every bracket in it, escaped quotes included, closed or not; at the end of the line only a template goes on |
| Lexer.CommentsHide | crates/peko-core/src/format.rs:98-101 | two slashes hide the rest of their line and nothing of the next |
| Lexer.CodeCounts | crates/peko-core/src/format.rs:116-123 | in code every other character counts for what it is: an opener, a closer, a leading closer before the first opener, or nothing |
| Formatter.Chars.Next | crates/peko-core/src/format.rs:84-86 | the iterator yields the next character once, and none at the end |
| Formatter.ConsumeQuoted | crates/peko-core/src/format.rs:173-181 | consuming a literal passes no bracket to the counts and leaves the reference lexer in code, or in the literal at the end of the line |
| Formatter.ConsumeTemplate | crates/peko-core/src/format.rs:104-115 | the same for a template, and it reports whether the template closed |
| Formatter.ScanLine | crates/peko-core/src/format.rs:81-129 | carry, openers and leading closers are those of the reference lexer |
| Formatter.ClosersTotal | crates/peko-core/src/format.rs:133-169 | the closers are those of the same reference lexer, so both scanners agree on what is structural |
| Formatter.PushLine | crates/peko-core/src/format.rs:34-71 | one round of the line loop is one step of the line specification, and a code line is appended trimmed, behind four spaces for each level of the depth that its leading closers leave |
| Formatter.FormatSource | crates/peko-core/src/format.rs:28-74 | the output is the specification's, for every source; `FormatterLayout` says what every line of it is |
| FormatterTheorems.ReplayLine | crates/peko-core/src/format.rs:34-71 | formatting a line that was just emitted gives it again and the same depth, carry and blank run |
| FormatterTheorems.LinesOfFormat | crates/peko-core/src/format.rs:28-74 | splitting the output gives back exactly the emitted lines |
| FormatterTheorems.FormatIdempotent | crates/peko-core/src/format.rs:28-74 | formatting twice is formatting once, on every input |
| FormatterTheorems.FormatKeepsContents | crates/peko-core/src/format.rs:3-8 | the trimmed non-blank lines of output and input are the same list |
| FormatterTheorems.FormatKeepsCharacters | crates/peko-core/src/format.rs:3-8 | the non-white-space characters of output and input are the same sequence |
| FormatterTheorems.ContentPreservedIff | crates/peko-core/src/format.rs:7-11 | what follows the leading indentation of each line is kept except its trailing blanks; it is kept exactly when no line has any |
| FormatterTheorems.TrailingBlankLost | crates/peko-core/src/format.rs:44 | a line whose content changes |
| FormatterTheorems.FinalNewlineIff | crates/peko-core/src/format.rs:25-27 | a non-empty source comes out with a final newline, and with only one exactly when its last line is not blank or all are |
| FormatterTheorems.FinalBlankKept | crates/peko-core/src/format.rs:45-51 | a source whose result ends with two newlines |
| FormatterNesting.LineExtent | crates/peko-core/src/format.rs:34 | between two line starts lie the line and one line ending, which only the last line may lack, and to which a carriage return before the newline belongs |
| FormatterNesting.CarryIsLexerState | crates/peko-core/src/format.rs:34-71 | before every line the carry is the state of one lexer run over the whole text so far |
| FormatterNesting.OneLineFurther | crates/peko-core/src/format.rs:68-70 | a line moves the depth by its net brackets, saturating at zero, unless it continues a template |
| FormatterNesting.DepthIsBalanceIff | crates/peko-core/src/format.rs:68-70 | up to any line, the depth is the whole-text bracket balance exactly when that balance is never negative and template continuation lines are balanced |
| FormatterNesting.DiscardedCloser | crates/peko-core/src/format.rs:37-42 | a two-line text whose depth stays above its balance |
| FormatterLayout.LineStandsAt | crates/peko-core/src/format.rs:34-71 | what a source line gives stands in the output behind what the lines before it give |
| FormatterLayout.CodeLineIndented | crates/peko-core/src/format.rs:55-66 | a code line that is not blank comes out at its place as its trimmed self, behind exactly 4 * max(0, depth - leading closers) spaces, on every source |
| FormatterLayout.IndentationFollowsNesting | crates/peko-core/src/format.rs:55-70 | the running depth is the bracket balance of the text before each line exactly when the text is well nested, and then every code line is indented by 4 * max(0, balance - leading closers) spaces |
| FormatterLayout.TemplateLineKept | crates/peko-core/src/format.rs:35-42 | a line inside a template comes out with its indentation and without its trailing blanks |
| FormatterLayout.BlankLinesCollapse | crates/peko-core/src/format.rs:45-52 | of a run of blank lines the first comes out, empty, and the others do not |
| Bytes.ReadLe16 | crates/peko-cli/src/bundler/msix.rs:204 | two little-endian bytes read back the value modulo 2^16 |
| Bytes.ReadLe32 | crates/peko-cli/src/bundler/msix.rs:203 | four little-endian bytes read back the value modulo 2^32 |
| Crc32.ComputeCrc32 | crates/peko-cli/src/bundler/msix.rs:260-270 | the bitwise loop computes the table-driven CRC of section 8 of RFC 1952 on every byte string; `CrcDivision` fixes the generator, the bit order and the complements |
| Crc32.WidenValue | crates/peko-cli/src/bundler/msix.rs:263 | widening a byte to a register keeps its value |
| Crc32.LookupIsRounds | crates/peko-cli/src/bundler/msix.rs:263-267 | one table look-up is eight bitwise rounds |
| Crc32.RoundsInjective | crates/peko-cli/src/bundler/msix.rs:264-267 | the rounds never map two states to one |
| Crc32.UpdateInjective | crates/peko-cli/src/bundler/msix.rs:262-268 | nor does the update by any byte string |
| Crc32.DetectsBurst | crates/peko-cli/src/bundler/msix.rs:260-270 | two strings that differ only within four adjacent bytes have different CRCs |
| CrcDivision.RoundReduces | crates/peko-cli/src/bundler/msix.rs:264-267 | one round multiplies the register's polynomial by x and reduces it once by the generator with the exponents 32, 26, 23, 22, 16, 12, 11, 10, 8, 7, 5, 4, 2, 1, 0 |
| CrcDivision.UpdateIsRemainder | crates/peko-cli/src/bundler/msix.rs:262-268 | from any register, the update by a byte string is the remainder of a polynomial long division by that generator |
| CrcDivision.CrcIsRemainder | crates/peko-cli/src/bundler/msix.rs:260-270 | the checksum is the complement of the remainder of the message, each byte from its low bit up, followed by 32 zeros and with its first 32 bits complemented |
| Utf8.DecodeOfEncode | crates/peko-cli/src/bundler/msix.rs:200 | the bytes of a name are decoded to the name, so different names have different bytes |
| Utf8.EncodeOfDecode | crates/peko-cli/src/bundler/msix.rs:200 | nothing but the encoding of a string is decoded to it: overlong forms, stray continuation bytes and surrogates are refused |
| Utf8.AsciiIsItself | crates/peko-cli/src/bundler/msix.rs:200 | an ASCII name is encoded as its own characters |
| StoredZip.WriteStoredZip | crates/peko-cli/src/bundler/msix.rs:194-256 | the loops write the archive of the specification: local records, central records with their offsets, end record |
| StoredZip.WriteLocalHeader | crates/peko-cli/src/bundler/msix.rs:200-213 | the fixed fields of a local header, in order |
| StoredZip.WriteCentralHeader | crates/peko-cli/src/bundler/msix.rs:221-241 | one central record, in order |
| StoredZip.LocalFixed | crates/peko-cli/src/bundler/msix.rs:203-208 | the first 14 bytes of every local header, literally |
| StoredZip.CentralFixed | crates/peko-cli/src/bundler/msix.rs:224-240 | the first 16 bytes of every central record, literally, and the zeros of its lengths, disk and attributes |
| StoredZip.EndFixed | crates/peko-cli/src/bundler/msix.rs:247-249 | the first 8 bytes of the end record, literally |
| ZipReader.RecordRead | crates/peko-cli/src/bundler/msix.rs:198-216 | reading a local header gives CRC, sizes and name, and the data follows |
| ZipReader.CentralRecordRead | crates/peko-cli/src/bundler/msix.rs:220-242 | reading a central record gives the same fields, the local offset and where the next record starts |
| ZipReader.RecordPlace | crates/peko-cli/src/bundler/msix.rs:198-216 | in the archive, the record of each part stands at its recorded offset |
| ZipReader.ZipRoundTrip | crates/peko-cli/src/bundler/msix.rs:191-256 | within the u16 and u32 limits the reader recovers exactly the names and data, in order, and finds local and central headers in agreement |
| ZipReader.ZipRoundTripIff | crates/peko-cli/src/bundler/msix.rs:191-256 | for every part list, the archive is read back as those parts exactly when the list is within the limits |
| ZipReader.LimitsAreNeeded | crates/peko-cli/src/bundler/msix.rs:202-246 | with too many parts, too long a name or too much data in one part, no archive at all would be read back as those parts |
| XmlText.EscapeIsOnePass | crates/peko-cli/src/bundler/msix.rs:272-279 | the chain of five replacements is one pass that maps each character on its own |
| XmlText.UnescapeOfEscape | crates/peko-cli/src/bundler/msix.rs:272-279 | resolving the predefined entities of section 4.6 of XML 1.0 gives the string back |
| XmlText.EscapedHasNoQuote | crates/peko-cli/src/bundler/msix.rs:272-279 | an escaped value cannot end its attribute |
| BlockMap.AppxBlockMap | crates/peko-cli/src/bundler/msix.rs:161-189 | the loops write the specified document |
| BlockMap.WriteFile | crates/peko-cli/src/bundler/msix.rs:169-185 | the element of one part, with a block for each chunk |
| BlockMap.BlockMapRoundTrip | crates/peko-cli/src/bundler/msix.rs:161-189 | a reader of the document recovers every part's name, size, header size and block hashes |
| BlockMap.ChunksPartition | crates/peko-cli/src/bundler/msix.rs:180-184 | the blocks partition the data in order, all but the last are full, and there are as many as the ceiling of the length over 65536 |
| BlockMap.SameNameLength | crates/peko-cli/src/bundler/msix.rs:169-173 | replacing slashes keeps the byte length of the name |
| BlockMap.BackslashedChars | crates/peko-cli/src/bundler/msix.rs:173 | in the block map a name has a backslash for each slash, and nothing else is different |
| BlockMap.BlockMapLocatesData | crates/peko-cli/src/bundler/msix.rs:161-256 | read back from the block map, offset plus header size is where the part's data starts in the archive, and size bytes there are its data |
| BlockMap.MapFoundIff | crates/peko-cli/src/bundler/msix.rs:100-111 | the map's name leads to the map exactly when no payload part, and so not the executable, has that name |
| BlockMap.FoundAtIff | crates/peko-cli/src/bundler/msix.rs:82-114 | in any archive a name leads to a part of that name exactly when no part before it has the name |
| BlockMap.PackageReadsBack | crates/peko-cli/src/bundler/msix.rs:98-113 | from the bytes of such a package within the limits, a reader gets all parts, finds the map by its name, and with it the name, the data and the block hashes of each payload part |
| BlockMap.BuildPackage | crates/peko-cli/src/bundler/msix.rs:67-114 | the package is the archive of the content types, the five payload parts and their block map; `PackageContents.PackageLookUp` says what it holds under each name |
| PackageContents.LookUpPart | crates/peko-cli/src/bundler/msix.rs:82-114 | in an archive within the limits, looking a name up gives the data of the first part written with it |
| PackageContents.PackageLookUp | crates/peko-cli/src/bundler/msix.rs:76-114 | looking up each literal name in the bytes of a package within the limits gives the argument it was built from; where the executable has the name of another part, which of the two is found |
| PackageContents.ExecutableFoundIff | crates/peko-cli/src/bundler/msix.rs:80-83 | the executable is found under its name exactly when that is not the name of the content types or the manifest, or they hold the same bytes |
| Authenticode.PeLayout | crates/peko-cli/src/bundler/authenticode_sign.rs:210-235 | a layout it returns lies within the image, the fields 80 bytes apart |
| Authenticode.PanicIff | crates/peko-cli/src/bundler/authenticode_sign.rs:215-219 | the read of the magic is out of range exactly for an image that ends before or within it |
| Authenticode.ShortImage | crates/peko-cli/src/bundler/authenticode_sign.rs:215-219 | an image of 88 bytes that panics |
| PeFormat.LayoutIsFormat | crates/peko-cli/src/bundler/authenticode_sign.rs:210-235 | an image with a layout has the signatures and the magic of PE32+ where the format puts them, and its two fields are at the format's offsets |
| PeFormat.RefusedAs | crates/peko-cli/src/bundler/authenticode_sign.rs:211-230 | which of the four errors a refused image gets, by the signatures, the magic and the length it lacks |
| PeFormat.FormatHasLayout | crates/peko-cli/src/bundler/authenticode_sign.rs:210-235 | an image with those signatures and that magic has a layout |
| Authenticode.PadTo8 | crates/peko-cli/src/bundler/authenticode_sign.rs:176-185 | the loop appends the zeros that reach the next multiple of eight |
| Authenticode.PeChecksum | crates/peko-cli/src/bundler/authenticode_sign.rs:239-258 | the loop with its per-step folding is one fold of the unfolded word sum, plus the length |
| Authenticode.Fold16 | crates/peko-cli/src/bundler/authenticode_sign.rs:248-257 | the fold fits 16 bits, is congruent to the sum modulo 65535, and is zero only for zero |
| Authenticode.FoldStep | crates/peko-cli/src/bundler/authenticode_sign.rs:248-249 | folding after each word is folding once at the end |
| PeFormat.ChecksumIsResidue | crates/peko-cli/src/bundler/authenticode_sign.rs:237-258 | at an even offset the checksum is the length plus the 16-bit residue, modulo 65535, of the bytes outside the field, each at its weight in a little-endian word |
| Authenticode.EmbedSignature | crates/peko-cli/src/bundler/authenticode_sign.rs:163-200 | the in-place updates give the specified signed image, and fail or panic with the layout |
| AuthenticodeTheorems.SignedLayout | crates/peko-cli/src/bundler/authenticode_sign.rs:163-200 | signing leaves the layout as it was |
| AuthenticodeTheorems.TableRunsToEndIff | crates/peko-cli/src/bundler/authenticode_sign.rs:186-192 | the security entry's table runs to the end of the file exactly when offset and size fit 32 bits, and then starts at a multiple of eight |
| AuthenticodeTheorems.SignatureRoundTrip | crates/peko-cli/src/bundler/authenticode_sign.rs:163-200 | reading the certificate table gives back exactly the payload |
| AuthenticodeTheorems.OriginalKept | crates/peko-cli/src/bundler/authenticode_sign.rs:163-200 | every byte outside the checksum and the security entry is kept, and the padding is zero |
| AuthenticodeTheorems.DigestInput | crates/peko-cli/src/bundler/authenticode_sign.rs:75-80 | the hashed view of the signed image is the whole input without the two fields, followed by the padding; it is the input's own hashed view exactly when the length is a multiple of eight and the input carries no table |
| AuthenticodeTheorems.SignedCarriesTable | crates/peko-cli/src/bundler/authenticode_sign.rs:180-192 | every signed image carries a table where its security entry says |
| AuthenticodeTheorems.SigningTwice | crates/peko-cli/src/bundler/authenticode_sign.rs:163-166 | signing a signed image changes what its digest is taken over |
| AuthenticodeTheorems.OddLengthChanges | crates/peko-cli/src/bundler/authenticode_sign.rs:176-179 | an unsigned image of odd length whose digest input changes |
| AuthenticodeTheorems.WordSumIgnoresField | crates/peko-cli/src/bundler/authenticode_sign.rs:242-246 | at an even offset the sum does not depend on the checksum field |
| AuthenticodeTheorems.WordSumOddField | crates/peko-cli/src/bundler/authenticode_sign.rs:242-251 | at an odd offset it depends on the field by three words' worth, which is given |
| AuthenticodeTheorems.RecheckIff | crates/peko-cli/src/bundler/authenticode_sign.rs:194-197 | recomputing over the signed image gives the stored checksum exactly at an even offset, or when the checksum of the image with a zero field is a multiple of 65535 |
| AuthenticodeTheorems.OddOffsetFails | crates/peko-cli/src/bundler/authenticode_sign.rs:242-246 | an image with an odd checksum offset whose checksum is not confirmed |
| Calendar.DaysOfCivil | crates/peko-cli/src/bundler/signing.rs:724-735 | for every day count, negative ones too, the result is a valid date whose day count is that count |
| Calendar.CivilOfDays | crates/peko-cli/src/bundler/signing.rs:724-735 | and every valid date is the result for its day count |
| Calendar.CivilSteps | crates/peko-cli/src/bundler/signing.rs:722-735 | day 0 is 1970-01-01 and the next day is the calendar's successor |
| Calendar.DaysOfSuccessor | crates/peko-cli/src/bundler/signing.rs:724-735 | the successor of a valid date is valid and one day later |
| Calendar.DaysOrderDates | crates/peko-cli/src/bundler/signing.rs:769-772 | day counts order dates as the calendar does |
| Calendar.IsoOrdersDays | crates/peko-cli/src/bundler/signing.rs:737-744 | for years 0 to 9999 the padded strings order as the days do |
| Calendar.IsoOrderIff | crates/peko-cli/src/bundler/signing.rs:769-770 | for any two dates without a sign, the strings compare as the days do exactly when the years are equally wide or the narrower is at most the leading digits of the wider |
| Calendar.ExpiryIff | crates/peko-cli/src/bundler/signing.rs:769-772 | for every date without a sign and every day from 1970 on, the exact condition for the expiry check to be right: comparable years, or, between years from 10000 on that agree in the ten characters compared, a date that is past |
| Calendar.ExpiryIsDayOrder | crates/peko-cli/src/bundler/signing.rs:769-772 | the comparison of the first ten characters says expired exactly for an earlier day |
| Calendar.YearTenThousand | crates/peko-cli/src/bundler/signing.rs:769-772 | a date in the year 10000 that the check reports as expired in 2025 |
| Calendar.SameDecade | crates/peko-cli/src/bundler/signing.rs:771-772 | two days of the year 10000 with comparable years, the later of which is reported as past |
| BridgeClient.Client.constructor | toolkit/pekoui/client/index.js:17-60 | the variables start in the machine's first state, which keeps the discipline of calls, ids, connections, routes and order |
| BridgeClient.Client.Handle | toolkit/pekoui/client/index.js:29-260 | whatever event comes next, its handler makes exactly the machine's step and keeps that discipline, so all that is proved of runs holds of the client |
| BridgeClient.Client.OnMessage | toolkit/pekoui/client/index.js:93-152 | every kind of message makes its step |
| BridgeClient.Client.OnReply | toolkit/pekoui/client/index.js:115-130 | a reply removes its call from the pending ones, settles it with its verdict, and queues what the code hangs on it; `BridgeFollowUps` says what that leads to |
| BridgeClient.Client.Connect | toolkit/pekoui/client/index.js:156-167 | connecting without an endpoint rejects ready, and otherwise makes a socket |
| BridgeClient.Client.RunJob | toolkit/pekoui/client/index.js:213-231 | one turn of the job queue makes its step |
| BridgeTheorems.StepKeepsLedger | toolkit/pekoui/client/index.js:93-231 | no step loses, duplicates or invents a call |
| BridgeTheorems.ReadyKeepsLedger | toolkit/pekoui/client/index.js:48-52 | settling the ready promise moves every waiting call to the queue and loses none |
| BridgeTheorems.InvokeAddsOne | toolkit/pekoui/client/index.js:212-213 | an invoke adds exactly its own call, whether ready is pending, resolved or rejected |
| BridgeTheorems.ContinuePlaces | toolkit/pekoui/client/index.js:213-229 | a call that runs is pending afterwards if the socket is open, and settled otherwise |
| BridgeTheorems.ContinueAddsOne | toolkit/pekoui/client/index.js:213-229 | and it is in one place only, with every other call where it was |
| BridgeTheorems.ContinueKeepsIds | toolkit/pekoui/client/index.js:214-224 | the ids stay in order, and on an open socket the frame sent last carries the id that the call was given and is pending with |
| BridgeTheorems.StepKeepsIds | toolkit/pekoui/client/index.js:212-229 | every step keeps ids in order, one per call, and pending entries and replies with the ids their calls were given |
| BridgeTheorems.StepKeepsConnection | toolkit/pekoui/client/index.js:154-188 | every step keeps the auth frame first on each connection and the delay at its formula |
| BridgeTheorems.ConnectKeepsConnection | toolkit/pekoui/client/index.js:156-167 | a new socket has no frames yet, and the delay stays at its formula |
| BridgeTheorems.SocketEventKeepsConnection | toolkit/pekoui/client/index.js:169-183 | opening, failing and closing keep the discipline of connections, and a close schedules a connect after the delay of its turn |
| BridgeTheorems.StepKeepsRoutes | toolkit/pekoui/client/index.js:29-45 | every step keeps a route held only without subscribers, handed over at most once, and none dropped but for a later one |
| BridgeTheorems.DeliverKeepsRoutes | toolkit/pekoui/client/index.js:29-45 | a route that arrives is accounted for: dispatched, or held without subscribers, in the place of an earlier one |
| BridgeTheorems.SubscribeKeepsRoutes | toolkit/pekoui/client/index.js:234-252 | the held route is queued for the navigate subscriber that appears, once, and no longer held |
| BridgeTheorems.UnsubscribeKeepsRoutes | toolkit/pekoui/client/index.js:255-260 | removing a subscriber does not bring a route back |
| BridgeTheorems.InvAlways | toolkit/pekoui/client/index.js:93-260 | all four hold after every run |
| BridgeTheorems.BridgeSafety | toolkit/pekoui/client/index.js:29-260 | over every run: each call is in exactly one of waiting, queued, pending and settled; none settles twice; a reply settles the call its id was given to; ids are never reused; auth comes first; the delay after k closes is min(500 * 2^k, 10000); a held route means no navigate subscriber; every route that arrived was dispatched, is held, was replayed or gave way to a later held one |
| BridgeTheorems.SettledOnlyByItsReply | toolkit/pekoui/client/index.js:115-130 | a call is settled with a reply only by the message that carries its id, with that message's verdict |
| BridgeTheorems.ReplySettlesItsCall | toolkit/pekoui/client/index.js:115-130 | and that message does settle it, and removes no other |
| BridgeTheorems.ReplyKeepsLedger | toolkit/pekoui/client/index.js:115-130 | a reply only moves a call from pending to settled |
| BridgeOrder.StepKeepsOrder | toolkit/pekoui/client/index.js:212-231 | every step keeps the calls with ids, those queued and those waiting in one line, in the order of issue |
| BridgeOrder.CallsGoOutInOrder | toolkit/pekoui/client/index.js:212-231 | over every run, ids are given in the order in which the calls were issued, across ready and reconnects |
| BridgeReady.ErrorIsFatalIff | toolkit/pekoui/client/index.js:144-150 | after every run an error message leaves ready rejected exactly when it was rejected or no ready message has come yet |
| BridgeReady.ErrorOnReconnect | toolkit/pekoui/client/index.js:144-150 | a run in which an error on the second connection is fatal |
| BridgeReconnect.ReconnectsUnless | toolkit/pekoui/client/index.js:156-183 | after every run a client that has started has a socket or a scheduled connect, unless, exactly, some connect found no endpoint |
| BridgeFollowUps.FirstInFirstOut | toolkit/pekoui/client/index.js:212-213 | over any run, after so many turns of the queue, what stood in it stands that many places further to the front |
| BridgeFollowUps.ReplyQueues | toolkit/pekoui/client/index.js:105-130 | what the reply to a pending call adds to the queue, by why the call was made; token and routes stay as they are |
| BridgeFollowUps.InitialRouteArrives | toolkit/pekoui/client/index.js:105-111 | an ok reply with a path to the call for the launch route: once the jobs before it have run, whatever happens in between, that path goes to the `navigate` subscribers or is held, and the token is not touched |
| BridgeFollowUps.TokenIsAdopted | toolkit/pekoui/client/index.js:197-209 | an ok reply with a token to a refresh call: once the jobs before it have run, it is the current token, and no route arrives |
| BridgeFollowUps.OtherRepliesEnd | toolkit/pekoui/client/index.js:115-130 | any other reply, and a reply to no call, queues nothing and changes neither token nor routes |
| BridgeFollowUps.DeepLinkArrives | toolkit/pekoui/client/index.js:29-45 | a deep link goes to the `navigate` subscribers or is held; an empty one does nothing |
| BridgeFollowUps.HeldRouteReplayed | toolkit/pekoui/client/index.js:234-252 | the first subscriber to `navigate` gets the held route, and any other subscription leaves it |
| BridgeTrace.CallsIssued | toolkit/pekoui/client/index.js:99-113 | over every run the calls issued are one for each invoke and each refresh tick and one for the first ready message, in order; refreshing begins with that message |
| BridgeTrace.AskedOnce | toolkit/pekoui/client/index.js:105-112 | the launch route is asked for exactly once, if a ready message comes at all |
| BridgeTrace.NewestInRun | toolkit/pekoui/client/index.js:161-209 | over every run the token is the first endpoint's until a refreshed one is adopted, and then the one adopted last |
| BridgeTrace.AuthCarriesNewest | toolkit/pekoui/client/index.js:169-172 | whenever a socket opens, after whatever run, the one frame sent is the auth frame with that newest token |
| BridgeTrace.SubscribersInRun | toolkit/pekoui/client/index.js:234-260 | after every run an event's subscribers are those subscribed and not removed since |
| BridgeOutcomes.OutcomesFollowReady | toolkit/pekoui/client/index.js:212-231 | over every run a call ends as not ready only after ready was rejected, and is numbered, replied to or turned down for want of a socket only after it was resolved |
| BridgeTheorems.BackoffDoubles | toolkit/pekoui/client/index.js:181-182 | one more close doubles the delay up to its cap |
| Console.Printer.FormatConsoleValue | toolkit/pekoui/client/index.js:864-930 | terminates on every finite graph, cyclic or shared, leaves `seen` as it was, and prints the graph unfolded below the containers in `seen`; `ConsoleReader` says what the text holds |
| Console.Printer.FormatList | toolkit/pekoui/client/index.js:893-901 | an array's text from its items' texts |
| Console.Printer.FormatTable | toolkit/pekoui/client/index.js:902-907 | a map's text from its keys' and values' texts, which `ConsoleReader.PrintedReadsBack` reads back as keys before values |
| Console.Printer.FormatGroup | toolkit/pekoui/client/index.js:908-913 | a set's text from its members' texts |
| Console.Printer.FormatRecord | toolkit/pekoui/client/index.js:914-926 | an object's text from its fields' texts |
| Console.UnfoldIsRegular | toolkit/pekoui/client/index.js:891-926 | every printed container has one printed part for each of its values |
| Console.EntryParts | toolkit/pekoui/client/index.js:904-906 | the printed parts of a map are its keys, each before its value |
| Console.CircularIffOwnAncestor | toolkit/pekoui/client/index.js:888-889 | at every place of the output stands the value reached by the same walk, and it is `[Circular]` exactly when that container is its own ancestor |
| Console.LoopIsCut | toolkit/pekoui/client/index.js:888-889 | a walk that returns to a container above it meets a `[Circular]` |
| Console.CircularIffLoop | toolkit/pekoui/client/index.js:888-889 | `[Circular]` is printed exactly when a loop can be reached |
| Console.SharingIsNotCircular | toolkit/pekoui/client/index.js:888-928 | a graph without loops is printed in full, however it shares containers |
| ConsoleReader.TreeReads | toolkit/pekoui/client/index.js:891-926 | the text of a printed structure, whatever may follow it, is read back as what the structure shows, and the reader stops right behind it |
| ConsoleReader.PrintedReadsBack | toolkit/pekoui/client/index.js:864-930 | a reader of the printed text recovers the unfolded graph: every container with its kind, the count in its head and its keys, and its parts in order, keys before values |
| ConsoleReader.TextShowsGraph | toolkit/pekoui/client/index.js:864-930 | at every place of the text, read back, stands what the same walk reaches in the graph: a leaf's text, the container, or `[Circular]` exactly for a container that is its own ancestor |
| WebkitPatch.PatchWebkitPaths | crates/peko-cli/src/bundler/linux.rs:515-538 | the forward in-place patch is the simultaneous replacement decided on the original bytes |
| WebkitPatch.SameMatch | crates/peko-cli/src/bundler/linux.rs:525 | at every step the half-patched bytes match where the original did |
| WebkitPatch.SameContext | crates/peko-cli/src/bundler/linux.rs:529-531 | and their look-ahead window finds what the original's did |
| WebkitPatch.SiteIsRewritten | crates/peko-cli/src/bundler/linux.rs:533 | at a chosen site the eight bytes that differ are the replacement's |
| WebkitPatch.OthersAreKept | crates/peko-cli/src/bundler/linux.rs:512-513 | a byte that no site covers is kept |
| WebkitPatch.NoSiteLeft | crates/peko-cli/src/bundler/linux.rs:515-538 | the result has no site to patch |
| WebkitPatch.PatchIdempotent | crates/peko-cli/src/bundler/linux.rs:515-538 | patching twice is patching once |
| WebkitPatch.SiteIff | crates/peko-cli/src/bundler/linux.rs:525-531 | a place is patched exactly when `/usr/lib/` stands there and `webkit2gtk` follows after at most 54 other bytes |
| WebkitPatch.PatchSpelledOut | crates/peko-cli/src/bundler/linux.rs:515-538 | every such path starts with `././/lib` afterwards, and a byte in the first four of no such path is kept |
| Argv.StripPrefix | crates/peko-cli/src/cli/mod.rs:128-136 | the first matching prefix decides, and one byte more than it is dropped |
| Argv.ReadFlagValue | crates/peko-cli/src/cli/mod.rs:145-204 | name, value, error and tokens consumed are those of the round's specification |
| Argv.ParseArgv | crates/peko-cli/src/cli/mod.rs:121-208 | the loop collects what the specified run does |
| Argv.EveryTokenOnce | crates/peko-cli/src/cli/mod.rs:122-208 | every token has exactly one role, and the arguments are the positional tokens in order |
| Argv.FlagsAreFlagTokens | crates/peko-cli/src/cli/mod.rs:206 | the flags recorded are the names of the flag tokens |
| ArgvTheorems.DashedToken | crates/peko-cli/src/cli/mod.rs:123-133 | a dashed token loses two bytes, which needs a second character of one byte |
| ArgvTheorems.ShortFlag | crates/peko-cli/src/cli/mod.rs:123-133 | a one-letter short flag is read as a flag with an empty name |
| ArgvTheorems.PanicIff | crates/peko-cli/src/cli/mod.rs:122-208 | the loop gives every token a role and finishes, or panics, exactly at the first token that is not a value and is a lone dash or a dash before a character that is not ASCII |
| ArgvTheorems.FinishesWithout | crates/peko-cli/src/cli/mod.rs:122-208 | an argv without such a token finishes |
| ArgvTheorems.LoneDash | crates/peko-cli/src/cli/mod.rs:133 | an argv that panics |
| ArgvTheorems.SpellingsAgree | crates/peko-cli/src/cli/mod.rs:151-204 | from any state the five spellings of a flag and its value reach the same state |
| ArgvTheorems.RolesFrom | crates/peko-cli/src/cli/mod.rs:122-208 | the first plain token after dashed ones is positional exactly when no flag among them takes it |
| ArgvTheorems.OnlyTheLastTakes | crates/peko-cli/src/cli/mod.rs:157-204 | unless a flag ends with its `=`, only the flag right before can take it |
| ArgvTheorems.ReadersAgree | crates/peko-cli/src/main.rs:241-248 | for every argv that parses, the token the second reader looks up is the parser's subcommand exactly when no earlier flag takes it, and then the value flags used are that subcommand's |
| ArgvErrors.ErrorsAreOfFlags | crates/peko-cli/src/cli/mod.rs:157-204 | a run that finishes has recorded exactly the errors of the tokens it took for flags, in order: an `=` that ends the command line, or a value flag at its end or before another dashed token |
| ArgvErrors.RejectedIff | crates/peko-cli/src/cli/mod.rs:122-208 | a command line is rejected exactly for such a token |
| ArgvErrors.BareFlag | crates/peko-cli/src/cli/mod.rs:202-206 | a flag without `=` that takes no value is recorded bare, and what follows it is read on its own |
| Base64.DecodeOfEncode | crates/peko-cli/src/commands/keygen.rs:345 | decoding an encoding gives the bytes back |
| Base64.EncodeOfDecode | crates/peko-cli/src/commands/keygen.rs:543-545 | only canonical text decodes |
| Base64.EncodeSpells | crates/peko-cli/src/commands/keygen.rs:345 | each group of three bytes is spelled by four symbols of the alphabet, six bits each from the highest, and a last shorter group is padded |
| Pem.WritePemBlock | crates/peko-cli/src/commands/keygen.rs:343-353 | the loop writes the block with lines of at most 64 characters |
| Pem.BlockLines | crates/peko-cli/src/commands/keygen.rs:343-353 | a block is its BEGIN line, the encoding in lines of exactly 64 characters of which only the last may be shorter, and its END line |
| Pem.Find | crates/peko-cli/src/commands/keygen.rs:532-538 | the first occurrence, or none |
| Pem.PanicIff | crates/peko-cli/src/commands/keygen.rs:532-539 | the slice panics exactly when an END marker starts before the first BEGIN marker has ended |
| Pem.FailureIff | crates/peko-cli/src/commands/keygen.rs:532-538 | a missing block is reported exactly without a BEGIN marker, an unterminated one exactly with one and no END marker |
| Pem.KeyAfterEnd | crates/peko-cli/src/commands/keygen.rs:522-539 | a text with the label of private keys that panics |
| Pem.CertificateSharesDashes | crates/peko-cli/src/commands/keygen.rs:512-539 | a text that starts like a certificate and panics |
| Pem.DecodeOfBlock | crates/peko-cli/src/commands/keygen.rs:528-546 | a block is found and decoded whatever surrounds it, unless a marker with its label starts in front; its label may hold a dash if the body starts with white space that the label does not hold, and without one its body may be anything without a dash but the inside of an END marker |
| Pem.PemRoundTrip | crates/peko-cli/src/commands/keygen.rs:343-353 | for every byte string and every label without a dash or without a newline, reading the block gives the bytes |
| Pem.PemRoundTripIff | crates/peko-cli/src/commands/keygen.rs:343-353 | for any label, reading the block gives the bytes exactly when no END marker starts inside its BEGIN marker, and panics otherwise |
| Pem.RewrapRoundTrip | crates/peko-cli/src/commands/keygen.rs:539-542 | and so for any other placing of white space in the body, or none, under the same conditions |
| Pem.DashedLabel | crates/peko-cli/src/commands/keygen.rs:343-353 | a label with a dash and a newline whose own block panics |
| Highlight.HighlightJson | crates/peko-cli/src/commands/devtools.rs:60-121 | the pieces show exactly the text, and what stands at the start of each fixes its end and its colour: strings and keys, numbers, literals and other words, punctuation |
| Highlight.ReadString | crates/peko-cli/src/commands/devtools.rs:66-84 | the token runs to the first unescaped quote or the end |
| Highlight.HighlightHtml | crates/peko-cli/src/commands/devtools.rs:124-199 | the pieces show exactly the text, and each is what its place says: whole comments and texts outside tags; inside a tag its name, whole attribute names, values to their own quote, single characters |
| Highlight.ReadComment | crates/peko-cli/src/commands/devtools.rs:130-143 | the token runs to the first comment close or the end of the text |
| Reindent.ReindentText | crates/peko-cli/src/commands/devtools.rs:209-264 | the loop gives the specified rendering of tags and contents |
| Reindent.CharactersKept | crates/peko-cli/src/commands/devtools.rs:206-264 | the non-white-space characters are kept, in order |
| Reindent.PiecesOfRender | crates/peko-cli/src/commands/devtools.rs:214-262 | rendered pieces are read back as the same pieces |
| Reindent.ReindentIdempotentIff | crates/peko-cli/src/commands/devtools.rs:206-264 | re-indenting twice is re-indenting once exactly when every tag is closed by its bracket |
| ReindentDepth.DepthIsNet | crates/peko-cli/src/commands/devtools.rs:236-247 | the depth is the number of nesting tags less closing tags so far, above the lowest that this number has been |
| ReindentDepth.LineIndentation | crates/peko-cli/src/commands/devtools.rs:209-264 | every piece stands on a line of its own behind two blanks for each such level; a closing tag counts on its own line |
| ReindentDepth.NamedTagNests | crates/peko-cli/src/commands/devtools.rs:224-235 | a tag with a name nests unless it ends with `/>` or names one of the fourteen elements without content |
| ReindentDepth.DeclarationsDoNotNest | crates/peko-cli/src/commands/devtools.rs:225-226 | comments and declarations do not nest |
| SortedArray.Array.Reserve | editor-grammars/src/tree_sitter/array.h:207-219 | the capacity becomes the larger, and no element is lost |
| SortedArray.Array.Grow | editor-grammars/src/tree_sitter/array.h:242-253 | there is room for the new elements, and none is lost |
| SortedArray.Array.Push | editor-grammars/src/tree_sitter/array.h:72-75 | the element is appended |
| SortedArray.Array.Splice | editor-grammars/src/tree_sitter/array.h:256-293 | the replaced stretch holds the new elements, or zeros, between what was before and after it |
| SortedArray.Array.Erase | editor-grammars/src/tree_sitter/array.h:197-204 | one element is removed |
| SortedArray.Array.SearchSorted | editor-grammars/src/tree_sitter/array.h:297-314 | the index of an equal element, or the only place that keeps the order |
| SortedArray.Array.InsertSorted | editor-grammars/src/tree_sitter/array.h:169-174 | the contents become the sorted insertion of the value |
| SortedArray.InsertedSorted | editor-grammars/src/tree_sitter/array.h:167-174 | sorted insertion keeps the order strict, adds exactly the value when it is absent and nothing when it is present |
| SortedArray.InsertedAt | editor-grammars/src/tree_sitter/array.h:173 | inserting at the splitting place is sorted insertion |
| SortedArray.MoveBlock | editor-grammars/src/tree_sitter/array.h:268-273 | an overlapping move copies the old elements |
| CharacterRanges.SetContains | editor-grammars/src/tree_sitter/parser.h:154-170 | on a non-empty sorted disjoint table, true exactly for a character of some range; on any table, true only for one |

## Left out

- HTTP handshakes, login, the keychain, uploads and status polling: network plumbing with a decision per status code.
- Bundler orchestration, external tools, image conversion, squashfs and sealing: the work is in other programs.
- CMS and X.509 building, RSA and SHA-256: SHA-256 is an arbitrary function from bytes to bytes; the signature is an arbitrary byte string.
- The generated parser tables, the egui window, DOM chrome, menus, pop-ups and the framework adapters: no algorithm, or user interface.
- Version-string helpers, key-registry look-ups and signing requirements: they would only add easy members.
- The texts of the application manifest and of the content-type map: parameters of `BlockMap.BuildPackage`.
- Parsing the property list of a provisioning profile: the model starts from its date string.
- The clock: today's day count is a parameter. Day counts are unbounded integers, not `i64`.
- Unicode case mapping and the alphabetic tables: parameters of the highlighters and the re-indenter; white space is the Unicode property.
- Connect URLs, JSON encoding and the payloads of bridge messages beyond id, verdict and a string result.
- Dispatch of pushed events to listeners, and listeners that call back into the client while being called: a route handed over is recorded, its callbacks are not run.
- The number of microtask turns a promise takes: continuations run one at a time from a first-in-first-out queue, between any other events.
- Calls of `connect` by hand: it runs once at the start and then from its own timer, as in the module.
- DOM nodes, errors, functions and sparse arrays in the console printer: they are leaves with a given text; a missing `WeakSet` or a throwing getter is not modelled.
- Allocation failure in the array runtime, and sizes beyond 32 bits, which its callers must avoid.
- ConsoleReader.TextShowsGraph: for leaf texts that are quoted strings, or have no line break, no `=>`, no comma at the end and do not look like a container's head; other texts (an error's stack, say) cannot be told apart once printed.
- AuthenticodeTheorems.SignatureRoundTrip: needs the table's offset and size within 32 bits, the width of the entry.
- Authenticode.PeChecksum: the length is added modulo 2^32, where the source's addition would overflow on a file of 4 GiB.
- Argv.ParseArgv: covers the argv loop; the environment checks that follow it are not modelled.
- ArgvTheorems.SpellingsAgree: the spellings that attach the value directly need a value that is not empty, since an empty one is another spelling.
