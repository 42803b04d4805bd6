/** Writing and reading PEM blocks (section 3 of RFC 7468). */
module Pem {
  import opened Basics
  import opened Bytes
  import opened Text
  import Base64

  datatype Failure = NoBlock | Unterminated | Malformed

  datatype Outcome = Decoded(der: seq<byte>) | Failed(failure: Failure) | Panicked

  const LINE_WIDTH := 64

  function Begin(tag: string): string { "-----BEGIN " + tag + "-----" }

  function End(tag: string): string { "-----END " + tag + "-----" }

  /** Lines of at most 64 characters, each with its newline. */
  function Wrap(s: string): string {
    if s == "" then ""
    else
      var n := if |s| < LINE_WIDTH then |s| else LINE_WIDTH;
      s[..n] + "\n" + Wrap(s[n..])
  }

  function PemBlock(tag: string, der: seq<byte>): string {
    Begin(tag) + "\n" + Wrap(Base64.Encode(der)) + End(tag) + "\n"
  }

  method WritePemBlock(tag: string, der: seq<byte>) returns (out: string)
    ensures out == PemBlock(tag, der)
  {
    hide Begin;
    hide End;
    hide Base64.Encode;
    var encoded := Base64.Encode(der);
    out := Begin(tag) + "\n";
    var i := 0;
    while i < |encoded|
      invariant 0 <= i <= |encoded|
      invariant out + Wrap(encoded[i..]) == Begin(tag) + "\n" + Wrap(encoded)
    {
      var n := if |encoded| - i < LINE_WIDTH then |encoded| - i else LINE_WIDTH;
      ghost var before := out;
      var rest := encoded[i..];
      assert rest[..n] == encoded[i..i + n] && rest[n..] == encoded[i + n..];
      out := out + encoded[i..i + n];
      out := out + "\n";
      assert before + (rest[..n] + "\n" + Wrap(rest[n..])) == out + Wrap(rest[n..]);
      i := i + n;
    }
    assert encoded[i..] == "" && out == Begin(tag) + "\n" + Wrap(encoded);
    out := out + (End(tag) + "\n");
  }

  // ----- The lines of a block -----

  function Joined(lines: seq<string>): string {
    if lines == [] then "" else lines[0] + Joined(lines[1..])
  }

  /** Full lines, and a last one that may be shorter but is not empty. */
  ghost predicate Lines64(lines: seq<string>) {
    forall i | 0 <= i < |lines| :: if i < |lines| - 1 then |lines[i]| == 64 else 1 <= |lines[i]| <= 64
  }

  lemma {:induction false} WrappedLines(s: string) returns (lines: seq<string>)
    ensures Wrap(s) == Unlines(lines) && Joined(lines) == s && Lines64(lines)
    decreases |s|
  {
    if s == "" {
      lines := [];
    } else {
      var n := if |s| < 64 then |s| else 64;
      var rest := WrappedLines(s[n..]);
      lines := [s[..n]] + rest;
      assert lines[1..] == rest && s == s[..n] + s[n..];
      NothingJoined(rest);
    }
  }

  lemma NothingJoined(lines: seq<string>)
    requires Lines64(lines)
    ensures lines != [] ==> Joined(lines) != ""
  {
  }

  /** A block is its BEGIN line, the encoding in lines of 64 characters of which
      only the last may be shorter, and its END line. */
  lemma BlockLines(tag: string, der: seq<byte>) returns (body: seq<string>)
    ensures PemBlock(tag, der)
            == Unlines(["-----BEGIN " + tag + "-----"] + body + ["-----END " + tag + "-----"])
    ensures Joined(body) == Base64.Encode(der) && Lines64(body)
  {
    hide Base64.Encode;
    hide Wrap;
    hide Lines64;
    body := WrappedLines(Base64.Encode(der));
    LinesOfBlock("-----BEGIN " + tag + "-----", body, "-----END " + tag + "-----");
  }

  lemma LinesOfBlock(begin: string, body: seq<string>, end: string)
    ensures Unlines([begin] + body + [end]) == begin + "\n" + Unlines(body) + end + "\n"
  {
    UnlinesConcat([begin] + body, [end]);
    UnlinesConcat([begin], body);
    OneLine(begin);
    OneLine(end);
    Pieces(begin, "\n", Unlines(body), end, "\n");
  }

  lemma OneLine(line: string)
    ensures Unlines([line]) == line + "\n"
  {
    assert [line][1..] == [];
    assert line + "\n" + Unlines([]) == line + "\n";
  }

  // ----- Reading -----

  ghost predicate Occurs(text: string, pattern: string, at: nat) {
    at + |pattern| <= |text| && text[at..at + |pattern|] == pattern
  }

  /** `at` is where the pattern occurs first. */
  ghost predicate IsFirst(text: string, pattern: string, at: nat) {
    Occurs(text, pattern, at) && forall k: nat | k < at :: !Occurs(text, pattern, k)
  }

  /** `str::find`: the first occurrence; the length plus one when there is none. */
  function Find(text: string, pattern: string, from: nat): (at: nat)
    requires from <= |text|
    ensures at <= |text| ==> from <= at && Occurs(text, pattern, at)
    ensures forall k | from <= k < at && k <= |text| :: !Occurs(text, pattern, k)
    ensures at <= |text| + 1
    decreases |text| - from
  {
    if from + |pattern| > |text| then |text| + 1
    else if text[from..from + |pattern|] == pattern then from
    else Find(text, pattern, from + 1)
  }

  function DecodePem(text: string, tag: string): Outcome {
    var begin := Find(text, Begin(tag), 0);
    if begin > |text| then Failed(NoBlock)
    else
      var start := begin + |Begin(tag)|;
      var stop := Find(text, End(tag), 0);
      if stop > |text| then Failed(Unterminated)
      else if start > stop then Panicked
      else DecodeBody(text[start..stop])
  }

  function DecodeBody(body: string): Outcome {
    var der := Base64.Decode(NonWhitespace(body));
    if der == None then Failed(Malformed) else Decoded(der.value)
  }

  // ----- Where the markers are found -----

  lemma FoundAt(text: string, pattern: string, at: nat)
    requires IsFirst(text, pattern, at)
    ensures Find(text, pattern, 0) == at
  {
  }

  /** The slice panics exactly when an END marker starts before the first BEGIN
      marker has ended. */
  lemma PanicIff(text: string, tag: string)
    ensures DecodePem(text, tag).Panicked? <==>
            exists b: nat, e: nat :: IsFirst(text, Begin(tag), b) && Occurs(text, End(tag), e) && e < b + |Begin(tag)|
  {
    hide Begin;
    hide End;
    hide Occurs;
    var begin, stop := Find(text, Begin(tag), 0), Find(text, End(tag), 0);
    if DecodePem(text, tag).Panicked? {
      assert IsFirst(text, Begin(tag), begin) && Occurs(text, End(tag), stop) && stop < begin + |Begin(tag)|;
    }
    if b: nat, e: nat :| IsFirst(text, Begin(tag), b) && Occurs(text, End(tag), e) && e < b + |Begin(tag)| {
      FoundAt(text, Begin(tag), b);
      EarliestFound(text, End(tag), e);
      OccursWithin(text, Begin(tag), b);
      OccursWithin(text, End(tag), e);
    }
  }

  /** Which failure is reported: no block exactly without a BEGIN marker, an
      unterminated one exactly with a BEGIN marker but no END marker anywhere. */
  lemma FailureIff(text: string, tag: string)
    ensures DecodePem(text, tag) == Failed(NoBlock) <==>
            forall b: nat :: !Occurs(text, "-----BEGIN " + tag + "-----", b)
    ensures DecodePem(text, tag) == Failed(Unterminated) <==>
            && (exists b: nat :: Occurs(text, "-----BEGIN " + tag + "-----", b))
            && (forall e: nat :: !Occurs(text, "-----END " + tag + "-----", e))
  {
    var begin, end := "-----BEGIN " + tag + "-----", "-----END " + tag + "-----";
    assert Begin(tag) == begin && End(tag) == end;
    hide Begin;
    hide End;
    FoundIff(text, begin);
    FoundIff(text, end);
    hide Occurs;
    hide DecodeBody;
    BodyFails(text, tag);
  }

  lemma FoundIff(text: string, pattern: string)
    ensures Find(text, pattern, 0) > |text| <==> forall k: nat :: !Occurs(text, pattern, k)
  {
    hide Find;
    if Find(text, pattern, 0) > |text| {
      forall k: nat
        ensures !Occurs(text, pattern, k)
      {
        if Occurs(text, pattern, k) {
          EarliestFound(text, pattern, k);
        }
      }
    }
  }

  lemma BodyFails(text: string, tag: string)
    ensures forall body: string :: DecodeBody(body) != Failed(NoBlock) && DecodeBody(body) != Failed(Unterminated)
  {
  }

  lemma EarliestFound(text: string, pattern: string, at: nat)
    requires Occurs(text, pattern, at)
    ensures Find(text, pattern, 0) <= at
  {
    hide Find;
  }

  lemma OccursWithin(text: string, pattern: string, at: nat)
    requires Occurs(text, pattern, at)
    ensures at + |pattern| <= |text|
  {
  }

  /** A text that puts an END marker before its block panics, whatever the label. */
  lemma EndFirst(tag: string, between: string, rest: string)
    ensures DecodePem(End(tag) + between + Begin(tag) + rest, tag) == Panicked
  {
    hide Begin;
    hide End;
    hide Occurs;
    hide Find;
    var text := End(tag) + between + Begin(tag) + rest;
    assert text == "" + End(tag) + between + Begin(tag) + rest;
    Pieces("", End(tag), between, Begin(tag), rest);
    EarliestFound(text, Begin(tag), |End(tag)| + |between|);
    EarliestFound(text, End(tag), 0);
    OccursWithin(text, Begin(tag), |End(tag)| + |between|);
    MarkerChars(tag);
  }

  /** The end of one block and then another block: reading panics. */
  lemma BlockAfterEnd(tag: string, der: seq<byte>)
    ensures DecodePem(End(tag) + "\n" + PemBlock(tag, der), tag) == Panicked
  {
    hide Begin;
    hide End;
    hide DecodePem;
    hide Wrap;
    var rest := "\n" + Wrap(Base64.Encode(der)) + End(tag) + "\n";
    assert PemBlock(tag, der) == Begin(tag) + rest;
    EndFirst(tag, "\n", rest);
    assert End(tag) + "\n" + (Begin(tag) + rest) == End(tag) + "\n" + Begin(tag) + rest;
  }

  /** An input with the label that the stored private key is read with. */
  lemma KeyAfterEnd(der: seq<byte>)
    ensures DecodePem(End("PRIVATE KEY") + "\n" + PemBlock("PRIVATE KEY", der), "PRIVATE KEY") == Panicked
  {
    hide *;
    BlockAfterEnd("PRIVATE KEY", der);
  }

  lemma OccursInner(a: string, b: string, c: string)
    ensures Occurs(a + b + c, b, |a|)
  {
    assert (a + b + c)[|a|..|a| + |b|] == b;
  }

  lemma SharedMarkers(tag: string, rest: string)
    ensures var text := Begin(tag) + "END " + tag + "-----" + rest;
            Occurs(text, Begin(tag), 0) && Occurs(text, End(tag), 11 + |tag|)
  {
    hide Occurs;
    var head, dashes, tail := "-----BEGIN " + tag, "-----", "END " + tag + "-----" + rest;
    var text := Begin(tag) + "END " + tag + "-----" + rest;
    OccursInner("", Begin(tag), tail);
    assert "" + Begin(tag) + tail == text;
    OccursInner(head, End(tag), rest);
    assert Begin(tag) == head + dashes;
    assert End(tag) == dashes + ("END " + tag + "-----");
    assert head + End(tag) + rest == text;
  }

  /** Two markers that share their dashes: reading panics. */
  lemma SharedDashes(tag: string, rest: string)
    ensures DecodePem(Begin(tag) + "END " + tag + "-----" + rest, tag) == Panicked
  {
    hide End;
    hide Begin;
    hide Occurs;
    hide DecodePem;
    var text, at := Begin(tag) + "END " + tag + "-----" + rest, 11 + |tag|;
    SharedMarkers(tag, rest);
    MarkerChars(tag);
    assert IsFirst(text, Begin(tag), 0) && Occurs(text, End(tag), at) && at < 0 + |Begin(tag)|;
    PanicIff(text, tag);
  }

  /** An input with the label that certificates are read with; like every text
      that is tried as a certificate, it starts with a BEGIN marker. */
  lemma CertificateSharesDashes()
    ensures DecodePem(Begin("CERTIFICATE") + "END CERTIFICATE-----", "CERTIFICATE") == Panicked
  {
    SharedDashes("CERTIFICATE", "");
    hide Begin;
    hide DecodePem;
    var begin := Begin("CERTIFICATE");
    assert begin + "END " + "CERTIFICATE" + "-----" + "" == begin + "END CERTIFICATE-----";
  }

  lemma OccursChar(text: string, pattern: string, at: nat, i: nat)
    requires Occurs(text, pattern, at) && i < |pattern|
    ensures text[at + i] == pattern[i]
  {
    assert text[at..at + |pattern|][i] == text[at + i];
  }

  /** The fixed characters of the two markers around the tag. */
  lemma MarkerChars(tag: string)
    ensures |Begin(tag)| == 16 + |tag| && |End(tag)| == 14 + |tag|
    ensures forall i | 0 <= i < 5 :: Begin(tag)[i] == '-' && End(tag)[i] == '-'
    ensures Begin(tag)[5] == 'B' && End(tag)[5] == 'E'
    ensures Begin(tag)[6] == 'E' && Begin(tag)[7] == 'G' && Begin(tag)[8] == 'I'
    ensures Begin(tag)[9] == 'N' && Begin(tag)[10] == ' '
    ensures forall i | 0 <= i < |tag| :: Begin(tag)[11 + i] == tag[i]
    ensures Begin(tag)[11 + |tag|..] == "-----"
  {
  }

  /** The body keeps the markers apart: it starts with white space that the label
      does not hold, or the label holds no dash and the body is not the inside of an
      END marker. */
  ghost predicate KeepsApart(tag: string, body: string) {
    || (body != "" && IsWhitespace(body[0]) && body[0] !in tag)
    || ('-' !in tag && body != "END " + tag)
  }

  /** What may follow a BEGIN marker: the END marker's dashes, or no dash. */
  ghost predicate AfterBegin(text: string, after: nat) {
    && after + 5 <= |text|
    && (text[after..after + 5] == "-----" || text[after] != '-')
  }

  /** No END marker starts inside the BEGIN marker, if the label has no dash: at its
      last five dashes only if dashes follow them. */
  lemma NoEndInBegin(text: string, tag: string, at: nat, j: nat)
    requires '-' !in tag && Occurs(text, Begin(tag), at) && j < |Begin(tag)|
    requires var after := at + |Begin(tag)|;
             AfterBegin(text, after) && (j == 11 + |tag| ==> text[after..after + 5] == "-----")
    ensures !Occurs(text, End(tag), at + j)
  {
    hide Begin;
    hide End;
    hide Occurs;
    MarkerChars(tag);
    var p, after := at + j, at + |Begin(tag)|;
    OccursChar(text, Begin(tag), at, j);
    if j < 5 {
      NoEndInDashes(text, tag, at, j);
    } else if j < 11 + |tag| {
      assert j >= 11 ==> Begin(tag)[11 + (j - 11)] == tag[j - 11] && tag[j - 11] in tag;
      Mismatch(text, End(tag), p, 0);
    } else {
      var t := j - 11 - |tag|;
      if text[after..after + 5] == "-----" {
        assert text[p + 5] == text[after..after + 5][t];
        Mismatch(text, End(tag), p, 5);
      } else {
        assert text[p + (5 - t)] == text[after];
        Mismatch(text, End(tag), p, 5 - t);
      }
    }
  }

  /** At its last five dashes an END marker starts only if the body is its inside. */
  lemma NoEndAtLast(text: string, tag: string, at: nat, body: string)
    requires '-' !in tag && '-' !in body && body != "" && body != "END " + tag && Occurs(text, Begin(tag), at)
    requires var after := at + |Begin(tag)|;
             after + |body| < |text| && text[after..after + |body|] == body && text[after + |body|] == '-'
    ensures !Occurs(text, End(tag), at + 11 + |tag|)
  {
    var p, after, inside := at + 11 + |tag|, at + |Begin(tag)|, "END " + tag;
    MarkerChars(tag);
    MarkerInside(tag);
    hide Begin;
    hide End;
    hide Occurs;
    forall i | 0 <= i < |body|
      ensures text[after + i] == body[i] && body[i] in body
    {
      assert text[after..after + |body|][i] == text[after + i];
    }
    if |body| < |inside| {
      assert inside[|body|] in inside;
      Mismatch(text, End(tag), p, 5 + |body|);
    } else if |body| > |inside| {
      assert text[after + |inside|] == body[|inside|];
      Mismatch(text, End(tag), p, 5 + |inside|);
    } else {
      var i := Difference(body, inside);
      Mismatch(text, End(tag), p, 5 + i);
    }
  }

  lemma {:induction false} Difference(a: string, b: string) returns (i: nat)
    requires |a| == |b| && a != b
    ensures i < |a| && a[i] != b[i]
  {
    if a[0] != b[0] {
      i := 0;
    } else {
      assert a == [a[0]] + a[1..] && b == [b[0]] + b[1..];
      var rest := Difference(a[1..], b[1..]);
      i := 1 + rest;
    }
  }

  /** Between its dashes an END marker holds the word and the label. */
  lemma MarkerInside(tag: string)
    ensures var inside := "END " + tag;
            && |End(tag)| == 10 + |inside| && End(tag)[5 + |inside|] == '-'
            && (forall i | 0 <= i < |inside| :: End(tag)[5 + i] == inside[i])
            && ('-' !in tag ==> '-' !in inside)
  {
  }

  lemma NoEndInDashes(text: string, tag: string, at: nat, j: nat)
    requires Occurs(text, Begin(tag), at) && j < 5
    ensures !Occurs(text, End(tag), at + j)
  {
    hide Begin;
    hide End;
    hide Occurs;
    MarkerChars(tag);
    OccursWithin(text, Begin(tag), at);
    OccursChar(text, Begin(tag), at, 5);
    Mismatch(text, End(tag), at + j, 5 - j);
  }

  /** Nor does one if white space that the label does not hold comes after. */
  lemma NoEndAcrossBlank(text: string, tag: string, at: nat, j: nat)
    requires Occurs(text, Begin(tag), at) && j < |Begin(tag)|
    requires var after := at + |Begin(tag)|; after < |text| && IsWhitespace(text[after]) && text[after] !in tag
    ensures !Occurs(text, End(tag), at + j)
  {
    hide Begin;
    hide End;
    hide Occurs;
    hide IsWhitespace;
    MarkerChars(tag);
    EndChars(tag);
    if j < 5 {
      NoEndInDashes(text, tag, at, j);
    } else {
      // The index in the END marker at which the white space would stand.
      var i := |Begin(tag)| - j;
      BlankOrMarker(text[at + |Begin(tag)|]);
      if i == 8 {
        OccursChar(text, Begin(tag), at, |Begin(tag)| - 1);
        assert Begin(tag)[11 + |tag|..][4] == '-';
        Mismatch(text, End(tag), at + j, 7);
      } else {
        assert 9 <= i < 9 + |tag| ==> End(tag)[9 + (i - 9)] == tag[i - 9] && tag[i - 9] in tag;
        Mismatch(text, End(tag), at + j, i);
      }
    }
  }

  lemma EndChars(tag: string)
    ensures |End(tag)| == 14 + |tag| && End(tag)[7] == 'D'
    ensures forall i | 0 <= i < 14 + |tag| && i != 8 && !(9 <= i < 9 + |tag|) :: End(tag)[i] in "-END"
    ensures forall i | 0 <= i < |tag| :: End(tag)[9 + i] == tag[i]
  {
  }

  lemma BlankOrMarker(c: char)
    ensures IsWhitespace(c) ==> c !in "-END"
  {
  }

  lemma Mismatch(text: string, pattern: string, at: nat, i: nat)
    requires i < |pattern| && at + i < |text| && text[at + i] != pattern[i]
    ensures !Occurs(text, pattern, at)
  {
    if Occurs(text, pattern, at) {
      OccursChar(text, pattern, at, i);
    }
  }

  /** A block whose markers are the first of their kind is what gets decoded. */
  lemma DecodeAt(text: string, tag: string, b: nat, body: string)
    requires '-' !in body && IsFirst(text, Begin(tag), b)
    requires var start := b + |Begin(tag)|;
             && start + |body| <= |text| && text[start..start + |body|] == body
             && Occurs(text, End(tag), start + |body|)
             && forall k: nat | k < start :: !Occurs(text, End(tag), k)
    ensures DecodePem(text, tag) == DecodeBody(body)
  {
    hide Begin;
    hide End;
    hide Occurs;
    hide Find;
    hide DecodeBody;
    MarkerChars(tag);
    var start := b + |Begin(tag)|;
    forall k: nat | k < start + |body|
      ensures !Occurs(text, End(tag), k)
    {
      if k >= start {
        assert text[k] == text[start..start + |body|][k - start] && text[k] in body;
        Mismatch(text, End(tag), k, 0);
      }
    }
    FoundAt(text, Begin(tag), b);
    FoundAt(text, End(tag), start + |body|);
    OccursWithin(text, End(tag), start + |body|);
  }

  /** A block between its markers is decoded whatever surrounds it, as long as no
      marker with its label starts in front: white space in its body does not
      matter, nor do other blocks, dashes in the text or dashes in the label. */
  lemma DecodeOfBlock(before: string, tag: string, body: string, after: string)
    requires '-' !in body && KeepsApart(tag, body)
    requires var text := before + Begin(tag) + body + End(tag) + after;
             forall k: nat | k < |before| :: !Occurs(text, Begin(tag), k) && !Occurs(text, End(tag), k)
    ensures DecodePem(before + Begin(tag) + body + End(tag) + after, tag) == DecodeBody(body)
  {
    hide Begin;
    hide End;
    hide DecodeBody;
    hide Occurs;
    hide KeepsApart;
    hide DecodePem;
    var text, b := before + Begin(tag) + body + End(tag) + after, |before|;
    Pieces(before, Begin(tag), body, End(tag), after);
    forall k: nat | k < b + |Begin(tag)|
      ensures !Occurs(text, End(tag), k)
    {
      if k >= b {
        NoEndBeforeBody(text, tag, b, body, k - b);
      }
    }
    DecodeAt(text, tag, b, body);
  }

  lemma NoEndBeforeBody(text: string, tag: string, b: nat, body: string, j: nat)
    requires KeepsApart(tag, body) && '-' !in body && Occurs(text, Begin(tag), b) && j < |Begin(tag)|
    requires var start := b + |Begin(tag)|;
             && start + |body| <= |text| && text[start..start + |body|] == body
             && Occurs(text, End(tag), start + |body|)
    ensures !Occurs(text, End(tag), b + j)
  {
    hide Begin;
    hide End;
    hide Occurs;
    hide AfterBegin;
    hide IsWhitespace;
    var start := b + |Begin(tag)|;
    forall i | 0 <= i < |body|
      ensures text[start + i] == body[i] && body[i] in body
    {
      assert text[start..start + |body|][i] == text[start + i];
    }
    if body != "" && IsWhitespace(body[0]) && body[0] !in tag {
      NoEndAcrossBlank(text, tag, b, j);
    } else {
      OccursWithin(text, End(tag), start + |body|);
      BodyOrEnd(text, tag, start, body);
      MarkerChars(tag);
      if body != "" && j == 11 + |tag| {
        OccursChar(text, End(tag), start + |body|, 0);
        NoEndAtLast(text, tag, b, body);
      } else {
        NoEndInBegin(text, tag, b, j);
      }
    }
  }

  lemma BodyOrEnd(text: string, tag: string, start: nat, body: string)
    requires '-' !in body
    requires start + |body| + |End(tag)| <= |text| && Occurs(text, End(tag), start + |body|)
    requires forall i | 0 <= i < |body| :: text[start + i] == body[i] && body[i] in body
    ensures AfterBegin(text, start) && (body == "" ==> text[start..start + 5] == "-----")
  {
    if body == "" {
      assert text[start..start + 5] == End(tag)[..5] == "-----";
    } else {
      assert text[start + 0] == body[0];
    }
  }

  lemma Pieces(a: string, b: string, c: string, d: string, e: string)
    ensures var text := a + b + c + d + e;
            && Occurs(text, b, |a|) && Occurs(text, d, |a| + |b| + |c|)
            && text[|a| + |b|..|a| + |b| + |c|] == c
            && (forall i | 0 <= i < |a| :: text[i] == a[i] && a[i] in a)
            && (forall i | 0 <= i < |c| :: text[|a| + |b| + i] == c[i] && c[i] in c)
            && (forall i | 0 <= i < |d| :: text[|a| + |b| + |c| + i] == d[i])
  {
  }

  // ----- The round trip -----

  lemma {:induction false} WrapKeeps(s: string)
    requires forall c | c in s :: Base64.IsBase64Char(c)
    ensures NonWhitespace(Wrap(s)) == s
    ensures '-' !in Wrap(s)
    decreases |s|
  {
    hide Base64.IsBase64Char;
    if s != "" {
      var n := if |s| < LINE_WIDTH then |s| else LINE_WIDTH;
      WrapKeeps(s[n..]);
      assert forall c | c in s[..n] :: c in s;
      SymbolsAreText(s[..n]);
      NewlineIsBlank();
      NonWhitespaceConcat(s[..n] + "\n", Wrap(s[n..]));
      NonWhitespaceConcat(s[..n], "\n");
      assert s == s[..n] + s[n..];
    }
  }

  lemma {:induction false} SymbolsAreText(s: string)
    requires forall c | c in s :: Base64.IsBase64Char(c)
    ensures NonWhitespace(s) == s && '-' !in s
  {
    hide Base64.IsBase64Char;
    hide IsWhitespace;
    if s != "" {
      SymbolIsText(s[0]);
      assert forall c | c in s[1..] :: c in s;
      SymbolsAreText(s[1..]);
      assert s == [s[0]] + s[1..];
    }
  }

  lemma SymbolIsText(c: char)
    requires Base64.IsBase64Char(c)
    ensures !IsWhitespace(c) && c != '-'
  {
  }

  /** Decoding a written block gives the bytes back, for every byte string and
      every label without a dash or without a newline. */
  lemma PemRoundTrip(tag: string, der: seq<byte>)
    requires '-' !in tag || '\n' !in tag
    ensures DecodePem(PemBlock(tag, der), tag) == Decoded(der)
  {
    hide Wrap;
    hide Begin;
    hide End;
    hide DecodePem;
    hide DecodeBody;
    hide NonWhitespace;
    BlockBody(der);
    DecodeOfBlock("", tag, "\n" + Wrap(Base64.Encode(der)), "\n");
    BlockParts(Begin(tag), Wrap(Base64.Encode(der)), End(tag));
  }

  /** What stands between the markers of a written block. */
  lemma BlockBody(der: seq<byte>)
    ensures var body := "\n" + Wrap(Base64.Encode(der)); '-' !in body && DecodeBody(body) == Decoded(der)
  {
    hide Wrap;
    hide IsWhitespace;
    hide NonWhitespace;
    hide Base64.Encode;
    hide Base64.Decode;
    hide Base64.IsBase64Char;
    var encoded := Base64.Encode(der);
    Base64.EncodeChars(der);
    Base64.DecodeOfEncode(der);
    WrapKeeps(encoded);
    NonWhitespaceConcat("\n", Wrap(encoded));
    NewlineIsBlank();
    assert "" + encoded == encoded;
  }

  lemma BlockMarkers(tag: string, der: seq<byte>)
    ensures var text, body := PemBlock(tag, der), "\n" + Wrap(Base64.Encode(der));
            var start := |Begin(tag)|;
            && IsFirst(text, Begin(tag), 0) && Occurs(text, End(tag), start + |body|)
            && start + |body| <= |text| && text[start..start + |body|] == body
  {
    hide Wrap;
    hide Begin;
    hide End;
    var body := "\n" + Wrap(Base64.Encode(der));
    BlockParts(Begin(tag), Wrap(Base64.Encode(der)), End(tag));
    Pieces("", Begin(tag), body, End(tag), "\n");
    OccursWithin(PemBlock(tag, der), End(tag), |Begin(tag)| + |body|);
  }

  /** An END marker that starts inside the block's BEGIN marker. */
  ghost predicate EndsEarly(tag: string, der: seq<byte>) {
    exists e: nat :: e < |Begin(tag)| && Occurs(PemBlock(tag, der), End(tag), e)
  }

  /** For any label at all, the block is read back exactly when no END marker
      starts inside its BEGIN marker; otherwise reading it panics. */
  lemma PemRoundTripIff(tag: string, der: seq<byte>)
    ensures DecodePem(PemBlock(tag, der), tag) == if EndsEarly(tag, der) then Panicked else Decoded(der)
  {
    hide PemBlock;
    hide Wrap;
    hide Begin;
    hide End;
    hide DecodePem;
    hide DecodeBody;
    hide Occurs;
    hide IsFirst;
    BlockMarkers(tag, der);
    if EndsEarly(tag, der) {
      PanicIff(PemBlock(tag, der), tag);
      var e: nat :| e < |Begin(tag)| && Occurs(PemBlock(tag, der), End(tag), e);
      assert e < 0 + |Begin(tag)|;
    } else {
      BlockBody(der);
      DecodeAt(PemBlock(tag, der), tag, 0, "\n" + Wrap(Base64.Encode(der)));
    }
  }

  lemma BlockParts(begin: string, wrapped: string, end: string)
    ensures begin + "\n" + wrapped + end + "\n" == "" + begin + ("\n" + wrapped) + end + "\n"
  {
    assert begin + ("\n" + wrapped) == begin + "\n" + wrapped;
    assert "" + begin == begin;
  }

  /** Re-wrapping the body of a written block, with any white space at all, does
      not change what is read. */
  lemma RewrapRoundTrip(before: string, tag: string, der: seq<byte>, body: string, after: string)
    requires NonWhitespace(body) == Base64.Encode(der) && KeepsApart(tag, body)
    requires var text := before + Begin(tag) + body + End(tag) + after;
             forall k: nat | k < |before| :: !Occurs(text, Begin(tag), k) && !Occurs(text, End(tag), k)
    ensures DecodePem(before + Begin(tag) + body + End(tag) + after, tag) == Decoded(der)
  {
    Base64.EncodeChars(der);
    Base64.DecodeOfEncode(der);
    NoDash(body, Base64.Encode(der));
    DecodeOfBlock(before, tag, body, after);
  }

  lemma NoDash(body: string, encoded: string)
    requires NonWhitespace(body) == encoded && forall c | c in encoded :: Base64.IsBase64Char(c)
    ensures '-' !in body
  {
    if '-' in body {
      Kept(body, '-');
    }
  }

  lemma {:induction false} Kept(s: string, c: char)
    requires c in s && !IsWhitespace(c)
    ensures c in NonWhitespace(s)
  {
    if s[0] != c {
      Kept(s[1..], c);
    }
  }

  /** A label with a dash and a newline can put an END marker before the body:
      the slice then runs backwards. */
  lemma DashedLabel()
    ensures var tag := "A-----\n-----END A"; DecodePem(PemBlock(tag, []), tag) == Panicked
  {
    var tag := "A-----\n-----END A";
    var text := PemBlock(tag, []);
    assert text == Begin(tag) + ("\n" + "" + End(tag) + "\n");
    EarlyEnd(tag, "A", text, "\n" + "" + End(tag) + "\n");
    hide PemBlock;
    hide Begin;
    hide End;
    FoundAt(text, Begin(tag), 0);
    assert Find(text, End(tag), 0) <= |Begin(tag)| - 1;
  }

  /** A label that closes its own BEGIN marker and then repeats its END marker. */
  lemma EarlyEnd(tag: string, name: string, text: string, rest: string)
    requires tag == name + "-----\n-----END " + name && |name| == 1
    requires text == Begin(tag) + rest && rest == "\n" + "" + End(tag) + "\n"
    ensures Occurs(text, Begin(tag), 0) && Occurs(text, End(tag), 18) && |Begin(tag)| == 33
  {
    var close := "-----END " + name + "-----";
    assert End(tag) == close + "\n" + close;
    assert Begin(tag) == "-----BEGIN " + name + "-----\n" + close;
    assert text == "-----BEGIN " + name + "-----\n" + (close + "\n" + close) + ("\n" + close + "\n");
  }
}
