/** The few functions of Go's `strings` package that the wallet loader uses,
    on ASCII: space trimming, trimming a one-character cutset and case
    folded comparison. */
module GoStrings {

  /** The ASCII white space that `strings.TrimSpace` removes. */
  predicate IsSpace(c: char) {
    c == ' ' || c == '\t' || c == '\n' || c == '\U{000B}' || c == '\U{000C}' || c == '\r'
  }

  /** The one character of the cutset `"` given to `strings.Trim`. */
  predicate IsQuote(c: char) {
    c == '"'
  }

  /** Every character of `s` satisfies `p`. */
  ghost predicate All(s: string, p: char -> bool) {
    forall i :: 0 <= i < |s| ==> p(s[i])
  }

  /** The number of leading characters satisfying `p`. */
  function LeadingCount(s: string, p: char -> bool): (k: nat)
    ensures k <= |s|
    ensures forall i :: 0 <= i < k ==> p(s[i])
    ensures k < |s| ==> !p(s[k])
    decreases |s|
  {
    if s == [] || !p(s[0]) then 0 else 1 + LeadingCount(s[1..], p)
  }

  /** The length of `s` without its trailing characters satisfying `p`. */
  function KeptLength(s: string, p: char -> bool): (k: nat)
    ensures k <= |s|
    ensures forall i :: k <= i < |s| ==> p(s[i])
    ensures k > 0 ==> !p(s[k - 1])
    decreases |s|
  {
    if s == [] || !p(s[|s| - 1]) then |s| else KeptLength(s[..|s| - 1], p)
  }

  /** Removes the longest prefix of characters satisfying `p`. */
  function TrimLeft(s: string, p: char -> bool): string {
    s[LeadingCount(s, p)..]
  }

  /** Removes the longest suffix of characters satisfying `p`. */
  function TrimRight(s: string, p: char -> bool): string {
    s[..KeptLength(s, p)]
  }

  /** `strings.TrimSpace`: leading white space first, then trailing. */
  function TrimSpace(s: string): (t: string)
    ensures t == [] || (!IsSpace(t[0]) && !IsSpace(t[|t| - 1]))
  {
    TrimRight(TrimLeft(s, IsSpace), IsSpace)
  }

  /** `strings.Trim(s, "\"")`: every leading, then every trailing quote. */
  function TrimQuotes(s: string): (t: string)
    ensures t == [] || (!IsQuote(t[0]) && !IsQuote(t[|t| - 1]))
  {
    TrimRight(TrimLeft(s, IsQuote), IsQuote)
  }

  /** Simple case folding of an ASCII letter. */
  function Fold(c: char): char {
    if 'A' <= c <= 'Z' then (c as int - 'A' as int + 'a' as int) as char else c
  }

  /** The same character, or one ASCII letter in its two cases. */
  predicate SameUpToCase(x: char, y: char) {
    x == y ||
    ('A' <= x <= 'Z' && y as int == x as int + 32) ||
    ('A' <= y <= 'Z' && x as int == y as int + 32)
  }

  lemma FoldsAlike(x: char, y: char)
    ensures Fold(x) == Fold(y) <==> SameUpToCase(x, y)
  {
  }

  /** `strings.EqualFold` restricted to ASCII case folding. */
  predicate EqualFold(a: string, b: string): (eq: bool)
    ensures a == b ==> eq
  {
    |a| == |b| && forall i :: 0 <= i < |a| ==> Fold(a[i]) == Fold(b[i])
  }

  /** Two strings match exactly when they have the same length and agree,
      position by position, up to the case of an ASCII letter. */
  lemma EqualFoldCases(a: string, b: string)
    ensures EqualFold(a, b) <==> |a| == |b| && forall i :: 0 <= i < |a| ==> SameUpToCase(a[i], b[i])
  {
    forall i | 0 <= i < |a| && i < |b| {
      FoldsAlike(a[i], b[i]);
    }
  }

  /** The leading count is the one position where the run of `p` ends. */
  lemma LeadingCountIs(s: string, p: char -> bool, k: nat)
    requires k <= |s| && (forall i :: 0 <= i < k ==> p(s[i])) && (k < |s| ==> !p(s[k]))
    ensures LeadingCount(s, p) == k
  {
  }

  /** The kept length is the one position where the final run of `p` begins. */
  lemma KeptLengthIs(s: string, p: char -> bool, k: nat)
    requires k <= |s| && (forall i :: k <= i < |s| ==> p(s[i])) && (k > 0 ==> !p(s[k - 1]))
    ensures KeptLength(s, p) == k
  {
  }

  /** Trimming both ends of `lead + middle + trail` leaves `middle` when the
      ends of `middle` are not trimmed themselves. */
  lemma TrimAround(lead: string, middle: string, trail: string, p: char -> bool)
    requires All(lead, p) && All(trail, p)
    requires middle == [] || (!p(middle[0]) && !p(middle[|middle| - 1]))
    ensures TrimRight(TrimLeft(lead + middle + trail, p), p) == middle
  {
    var s := lead + middle + trail;
    if middle == [] {
      LeadingCountIs(s, p, |s|);
    } else {
      LeadingCountIs(s, p, |lead|);
      var t := s[|lead|..];
      assert t == middle + trail;
      KeptLengthIs(t, p, |middle|);
    }
  }

  /** A string is what TrimLeft removes followed by what it keeps. */
  lemma TrimLeftSplit(s: string, p: char -> bool)
    ensures s == s[..LeadingCount(s, p)] + TrimLeft(s, p) && All(s[..LeadingCount(s, p)], p)
  {
    var k := LeadingCount(s, p);
    var head := s[..k];
    assert s == head + s[k..];
    forall i | 0 <= i < |head|
      ensures p(head[i])
    {
      assert head[i] == s[i];
    }
  }

  /** A string is what TrimRight keeps followed by what it removes. */
  lemma TrimRightSplit(s: string, p: char -> bool)
    ensures s == TrimRight(s, p) + s[KeptLength(s, p)..] && All(s[KeptLength(s, p)..], p)
  {
    var k := KeptLength(s, p);
    var tail := s[k..];
    assert s == s[..k] + tail;
    forall i | 0 <= i < |tail|
      ensures p(tail[i])
    {
      assert tail[i] == s[k + i];
    }
  }
}
