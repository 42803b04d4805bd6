/** The in-place patch of webkit's helper paths in a library image. */
module WebkitPatch {
  import opened Bytes

  /** `/usr/lib/` */
  const FROM: seq<byte> := [0x2f, 0x75, 0x73, 0x72, 0x2f, 0x6c, 0x69, 0x62, 0x2f]
  /** `././/lib/` */
  const TO: seq<byte> := [0x2e, 0x2f, 0x2e, 0x2f, 0x2f, 0x6c, 0x69, 0x62, 0x2f]
  /** `webkit2gtk` */
  const CONTEXT: seq<byte> := [0x77, 0x65, 0x62, 0x6b, 0x69, 0x74, 0x32, 0x67, 0x74, 0x6b]
  const LOOK_AHEAD := 64

  const DOT: byte := 0x2e
  const SLASH: byte := 0x2f

  predicate Matches(s: seq<byte>, i: nat) {
    i + |FROM| <= |s| && s[i..i + |FROM|] == FROM
  }

  /** The end of the look-ahead window of a match at `i`. */
  function WindowEnd(s: seq<byte>, i: nat): nat {
    if i + |FROM| + LOOK_AHEAD <= |s| then i + |FROM| + LOOK_AHEAD else |s|
  }

  predicate HasContext(s: seq<byte>, i: nat)
    requires i + |FROM| <= |s|
  {
    exists k: nat | i + |FROM| <= k <= WindowEnd(s, i) - |CONTEXT| :: ContextAt(s, k)
  }

  predicate ContextAt(s: seq<byte>, k: nat) {
    k + |CONTEXT| <= |s| && s[k..k + |CONTEXT|] == CONTEXT
  }

  /** A match that the patch rewrites. */
  predicate Site(s: seq<byte>, i: int) {
    i >= 0 && Matches(s, i) && HasContext(s, i)
  }

  /** The byte at `p` once the sites before `n` are rewritten, all decided on `s`.
      The two texts differ in their first four bytes only. */
  function Rewritten(s: seq<byte>, n: int, p: nat): byte
    requires p < |s|
  {
    if p < n && Site(s, p) then TO[0]
    else if p - 1 < n && Site(s, p - 1) then TO[1]
    else if p - 2 < n && Site(s, p - 2) then TO[2]
    else if p - 3 < n && Site(s, p - 3) then TO[3]
    else s[p]
  }

  /** The simultaneous replacement, decided on the original bytes alone. */
  function Patched(s: seq<byte>): (r: seq<byte>)
    ensures |r| == |s|
  {
    seq(|s|, p requires 0 <= p < |s| => Rewritten(s, |s|, p))
  }

  lemma MatchBytes(s: seq<byte>, i: nat)
    requires i + 9 <= |s|
    ensures Matches(s, i) <==>
            s[i] == SLASH && s[i + 1] == 0x75 && s[i + 2] == 0x73 && s[i + 3] == 0x72 && s[i + 4] == SLASH
            && s[i + 5] == 0x6c && s[i + 6] == 0x69 && s[i + 7] == 0x62 && s[i + 8] == SLASH
  {
    var t := s[i..i + 9];
    assert t[0] == s[i] && t[1] == s[i + 1] && t[2] == s[i + 2] && t[3] == s[i + 3] && t[4] == s[i + 4];
    assert t[5] == s[i + 5] && t[6] == s[i + 6] && t[7] == s[i + 7] && t[8] == s[i + 8];
  }

  /** Two matches are at least eight bytes apart. */
  lemma MatchesApart(s: seq<byte>, i: nat, j: nat)
    requires Matches(s, i) && Matches(s, j) && i < j
    ensures j >= i + 8
  {
    MatchBytes(s, i);
    MatchBytes(s, j);
  }

  lemma NoSiteNear(s: seq<byte>, p: nat)
    requires Site(s, p)
    ensures forall q: int | p < q < p + 8 :: !Site(s, q)
    ensures forall q: int | p - 8 < q < p :: !Site(s, q)
  {
    forall q: int | p < q < p + 8
      ensures !Site(s, q)
    {
      if Site(s, q) {
        MatchesApart(s, p, q);
      }
    }
    forall q: int | p - 8 < q < p
      ensures !Site(s, q)
    {
      if Site(s, q) {
        MatchesApart(s, q, p);
      }
    }
  }

  /** The image while the sites before `i` have been rewritten. */
  ghost predicate Progress(s: seq<byte>, a: seq<byte>, i: int) {
    |a| == |s| && forall p | 0 <= p < |s| :: a[p] == Rewritten(s, i, p)
  }

  lemma SameFrom(s: seq<byte>, a: seq<byte>, i: nat, p: nat)
    requires Progress(s, a, i) && i + 3 <= p < |s|
    ensures a[p] == s[p]
  {
  }

  /** A site up to three bytes back: no match here, before or after its patch. */
  lemma NextToSite(s: seq<byte>, a: seq<byte>, i: nat, d: nat)
    requires Progress(s, a, i) && i + 9 <= |s| && 1 <= d <= 3 && Site(s, i - d)
    ensures !Matches(s, i) && !Matches(a, i)
  {
    if Matches(s, i) {
      MatchesApart(s, i - d, i);
    }
    NoSiteNear(s, i - d);
    MatchBytes(s, i - d);
    MatchBytes(a, i);
    hide Site;
    hide Matches;
    assert a[i] == Rewritten(s, i, i) && a[i + 1] == Rewritten(s, i, i + 1);
  }

  /** No earlier patch creates or destroys a match. */
  lemma SameMatch(s: seq<byte>, a: seq<byte>, i: nat)
    requires Progress(s, a, i) && i + 9 <= |s|
    ensures Matches(a, i) <==> Matches(s, i)
  {
    hide Site;
    hide Matches;
    if Site(s, i - 1) {
      NextToSite(s, a, i, 1);
    } else if Site(s, i - 2) {
      NextToSite(s, a, i, 2);
    } else if Site(s, i - 3) {
      NextToSite(s, a, i, 3);
    } else {
      assert forall p | i <= p < |s| :: a[p] == s[p];
      hide Rewritten;
      MatchBytes(a, i);
      MatchBytes(s, i);
    }
  }

  /** No earlier patch alters a later look-ahead window. */
  lemma SameContext(s: seq<byte>, a: seq<byte>, i: nat)
    requires Progress(s, a, i) && i + 9 <= |s|
    ensures HasContext(a, i) <==> HasContext(s, i)
  {
    hide Rewritten;
    forall k: nat | i + 9 <= k <= WindowEnd(s, i) - |CONTEXT|
      ensures ContextAt(s, k) <==> ContextAt(a, k)
    {
      SameSlice(s, a, i, k);
    }
  }

  lemma SameSlice(s: seq<byte>, a: seq<byte>, i: nat, k: nat)
    requires Progress(s, a, i) && i + 3 <= k && k + |CONTEXT| <= |s|
    ensures s[k..k + |CONTEXT|] == a[k..k + |CONTEXT|]
  {
    hide Rewritten;
    forall p | k <= p < k + |CONTEXT|
      ensures s[p] == a[p]
    {
      SameFrom(s, a, i, p);
    }
  }

  lemma StepWithoutSite(s: seq<byte>, a: seq<byte>, i: nat)
    requires Progress(s, a, i) && !Site(s, i)
    ensures Progress(s, a, i + 1)
  {
    hide HasContext;
    hide Matches;
  }

  lemma StepAtSite(s: seq<byte>, a: seq<byte>, b: seq<byte>, i: nat)
    requires Progress(s, a, i) && Site(s, i)
    requires |b| == |a| && b[i..i + |FROM|] == TO
    requires forall p | 0 <= p < |a| && !(i <= p < i + |FROM|) :: b[p] == a[p]
    ensures Progress(s, b, i + 1)
  {
    MatchBytes(s, i);
    hide HasContext;
    hide Matches;
    forall p | 0 <= p < |s|
      ensures b[p] == Rewritten(s, i + 1, p)
    {
      if i <= p < i + 9 {
        assert b[p] == b[i..i + 9][p - i];
        if p >= i + 4 {
          SameFrom(s, a, i, p);
        }
      } else {
        assert b[p] == a[p] == Rewritten(s, i, p);
      }
    }
  }

  lemma ProgressDone(s: seq<byte>, a: seq<byte>, i: nat)
    requires Progress(s, a, i) && i + |FROM| > |s|
    ensures a == Patched(s)
  {
    hide HasContext;
    forall p | 0 <= p < |s|
      ensures a[p] == Patched(s)[p]
    {
      assert forall q: int | i <= q :: !Site(s, q);
    }
  }

  method PatchWebkitPaths(bytes: array<byte>)
    modifies bytes
    ensures bytes[..] == Patched(old(bytes[..]))
  {
    ghost var s := bytes[..];
    var i := 0;
    while i + |FROM| <= bytes.Length
      invariant 0 <= i <= bytes.Length
      invariant Progress(s, bytes[..], i)
    {
      hide Rewritten;
      hide HasContext;
      ghost var a := bytes[..];
      SameMatch(s, a, i);
      SameContext(s, a, i);
      assert bytes[i..i + |FROM|] == a[i..i + |FROM|];
      if bytes[i..i + |FROM|] == FROM {
        var hasContext := HasContext(bytes[..], i);
        if hasContext {
          CopyFromSlice(bytes, i);
          StepAtSite(s, a, bytes[..], i);
        } else {
          StepWithoutSite(s, a, i);
        }
      } else {
        StepWithoutSite(s, a, i);
      }
      i := i + 1;
    }
    ProgressDone(s, bytes[..], i);
  }

  method CopyFromSlice(bytes: array<byte>, i: nat)
    requires i + |TO| <= bytes.Length
    modifies bytes
    ensures bytes[i..i + |TO|] == TO
    ensures forall p | 0 <= p < bytes.Length && !(i <= p < i + |TO|) :: bytes[p] == old(bytes[p])
  {
    forall k | 0 <= k < |TO| {
      bytes[i + k] := TO[k];
    }
  }

  // ----- What the patch does and does not change -----

  lemma PatchedByte(s: seq<byte>, p: nat)
    requires p < |s|
    ensures Patched(s)[p] == s[p] || Patched(s)[p] == DOT || Patched(s)[p] == SLASH
  {
    hide Site;
  }

  /** The eight bytes of a site become the new text, up to the slash that a next
      match may share. */
  lemma SiteIsRewritten(s: seq<byte>, i: nat)
    requires Site(s, i)
    ensures i + 9 <= |s| && Patched(s)[i..i + 8] == TO[..8]
  {
    hide Site;
    hide Patched;
    SiteLength(s, i);
    forall k: nat | k < 8
      ensures Patched(s)[i..i + 8][k] == TO[..8][k]
    {
      SiteByte(s, i, k);
    }
  }

  lemma SiteLength(s: seq<byte>, i: nat)
    requires Site(s, i)
    ensures i + 9 <= |s|
  {
  }

  lemma SiteByte(s: seq<byte>, i: nat, k: nat)
    requires Site(s, i) && k < 8 && i + 9 <= |s|
    ensures Patched(s)[i + k] == TO[k]
  {
    MatchBytes(s, i);
    NoSiteNear(s, i);
    hide Site;
    hide Matches;
  }

  /** Every byte outside the rewritten part of the sites is kept. */
  lemma OthersAreKept(s: seq<byte>, p: nat)
    requires p < |s| && forall q: int | p - 4 < q <= p :: !Site(s, q)
    ensures Patched(s)[p] == s[p]
  {
    hide Site;
  }

  // ----- Where the patch applies, spelled out -----

  function Ascii(text: string): (r: seq<byte>)
    ensures |r| == |text|
  {
    seq(|text|, i requires 0 <= i < |text| => text[i] as int % 256)
  }

  /** A library path at `i`, with `gap` bytes between it and webkit's name. */
  ghost predicate SpelledAt(s: seq<byte>, i: nat, gap: nat) {
    && i + 19 + gap <= |s|
    && s[i..i + 9] == Ascii("/usr/lib/")
    && s[i + 9 + gap..i + 19 + gap] == Ascii("webkit2gtk")
  }

  /** No such path covers the byte at `p` with its first four. */
  ghost predicate NoneSpelledNear(s: seq<byte>, p: nat) {
    forall q: nat, gap: nat | p < q + 4 && q <= p && gap <= 54 :: !SpelledAt(s, q, gap)
  }

  lemma Spelling()
    ensures FROM == Ascii("/usr/lib/") && CONTEXT == Ascii("webkit2gtk")
  {
  }

  lemma NewSpelling()
    ensures TO[..8] == Ascii("././/lib")
  {
  }

  /** The places that are patched: those where webkit's name follows within 64
      bytes, so after at most 54 others. */
  lemma SiteIff(s: seq<byte>, i: nat)
    ensures Site(s, i) <==> exists gap: nat :: gap <= 54 && SpelledAt(s, i, gap)
  {
    Spelling();
    hide Ascii;
    if Site(s, i) {
      var k: nat :| i + |FROM| <= k <= WindowEnd(s, i) - |CONTEXT| && ContextAt(s, k);
      assert k == i + 9 + (k - i - 9);
      assert SpelledAt(s, i, k - i - 9);
    }
    if gap: nat :| gap <= 54 && SpelledAt(s, i, gap) {
      assert ContextAt(s, i + 9 + gap);
    }
  }

  /** The patch in full: such a path is overwritten in place, and a byte that is
      in the first four of no such path is kept. */
  lemma PatchSpelledOut(s: seq<byte>)
    ensures |Patched(s)| == |s|
    ensures forall i: nat, gap: nat | gap <= 54 && SpelledAt(s, i, gap) :: Patched(s)[i..i + 8] == Ascii("././/lib")
    ensures forall p: nat | p < |s| && NoneSpelledNear(s, p) :: Patched(s)[p] == s[p]
  {
    NewSpelling();
    hide Ascii;
    hide Site;
    hide Patched;
    hide SpelledAt;
    forall i: nat, gap: nat | gap <= 54 && SpelledAt(s, i, gap)
      ensures i + 8 <= |s| && Patched(s)[i..i + 8] == Ascii("././/lib")
    {
      SiteIff(s, i);
      SiteIsRewritten(s, i);
    }
    forall p: nat | p < |s| && NoneSpelledNear(s, p)
      ensures Patched(s)[p] == s[p]
    {
      forall q: int | p - 4 < q <= p
        ensures !Site(s, q)
      {
        NoSpelling(s, q);
      }
      OthersAreKept(s, p);
    }
  }

  lemma NoSpelling(s: seq<byte>, q: int)
    requires q >= 0 ==> forall gap: nat | gap <= 54 :: !SpelledAt(s, q, gap)
    ensures !Site(s, q)
  {
    hide SpelledAt;
    if q >= 0 {
      SiteIff(s, q);
    } else {
      assert !Site(s, q);
    }
  }

  /** A match in the result is a match of the original. */
  lemma MatchWasThere(s: seq<byte>, i: nat)
    requires Matches(Patched(s), i)
    ensures Matches(s, i)
  {
    var r := Patched(s);
    MatchBytes(r, i);
    MatchBytes(s, i);
    hide Matches;
    SlashWasThere(s, i);
    SlashWasThere(s, i + 4);
    SlashWasThere(s, i + 8);
    PatchedByte(s, i + 1);
    PatchedByte(s, i + 2);
    PatchedByte(s, i + 3);
    PatchedByte(s, i + 5);
    PatchedByte(s, i + 6);
    PatchedByte(s, i + 7);
  }

  /** A slash that the patch wrote stands after a dot, or before the slash that
      was the fifth byte of its site. */
  lemma SlashWasThere(s: seq<byte>, p: nat)
    requires p < |s| && Patched(s)[p] == SLASH
    ensures s[p] == SLASH
            || (p >= 1 && Patched(s)[p - 1] == DOT && p + 1 < |s|
                && (Patched(s)[p + 1] == DOT || Patched(s)[p + 1] == SLASH))
  {
    var i := if Site(s, p - 1) then p - 1 else p - 3;
    if s[p] != SLASH {
      assert Site(s, i) by {
        hide Matches;
        hide HasContext;
      }
      NoSiteNear(s, i);
      MatchBytes(s, i);
      hide Site;
    }
  }

  /** No patch creates the look-ahead text. */
  lemma ContextWasThere(s: seq<byte>, k: nat)
    requires ContextAt(Patched(s), k)
    ensures ContextAt(s, k)
  {
    var r := Patched(s);
    forall j | 0 <= j < |CONTEXT|
      ensures s[k + j] == CONTEXT[j]
    {
      assert r[k + j] == r[k..k + |CONTEXT|][j];
      PatchedByte(s, k + j);
    }
    hide Patched;
    assert s[k..k + |CONTEXT|] == CONTEXT;
  }

  lemma NoSiteLeft(s: seq<byte>, i: nat)
    ensures !Site(Patched(s), i)
  {
    var r := Patched(s);
    if Site(r, i) {
      MatchWasThere(s, i);
      var k: nat :| i + |FROM| <= k <= WindowEnd(r, i) - |CONTEXT| && ContextAt(r, k);
      ContextWasThere(s, k);
      MatchBytes(r, i);
      SiteIsRewritten(s, i);
      FirstByte(r, i);
    }
  }

  lemma FirstByte(r: seq<byte>, i: nat)
    requires i + 8 <= |r| && r[i..i + 8] == TO[..8]
    ensures r[i] == DOT
  {
    assert r[i] == r[i..i + 8][0];
  }

  /** Patching twice is patching once. */
  lemma PatchIdempotent(s: seq<byte>)
    ensures Patched(Patched(s)) == Patched(s)
  {
    var r := Patched(s);
    forall p | 0 <= p < |r|
      ensures Patched(r)[p] == r[p]
    {
      forall q: int | p - 4 < q <= p
        ensures !Site(r, q)
      {
        if q >= 0 {
          NoSiteLeft(s, q);
        }
      }
      OthersAreKept(r, p);
    }
  }
}
