/** The checks on input fields that are more than a length. */
module Validation {
  /** What \s is in a regular expression. */
  predicate Blank(c: char) { c in {' ', '\t', '\n', '\r', '\U{000C}'} }

  /** ^https?://\S+$ */
  predicate IsUrl(s: string)
  {
    exists n :: n in {7, 8} && |s| > n && s[..n] == (if n == 7 then "http://" else "https://") &&
      forall i :: n <= i < |s| ==> !Blank(s[i])
  }

  predicate Digit(c: char) { '0' <= c <= '9' }

  predicate AsciiLetter(c: char) { 'a' <= c <= 'z' || 'A' <= c <= 'Z' }

  predicate IsAlphanumeric(s: string)
  {
    s != "" && forall i :: 0 <= i < |s| ==> Digit(s[i]) || AsciiLetter(s[i])
  }

  /** [a-z] without regard to case, which takes in the long s and the Kelvin sign. */
  predicate FoldedLetter(c: char) { AsciiLetter(c) || c in {'\U{017F}', '\U{212A}'} }

  predicate InLocalPart(c: char) { FoldedLetter(c) || Digit(c) || c in {'.', '_', '%', '+', '-'} }

  predicate InDomain(c: char) { FoldedLetter(c) || Digit(c) || c in {'.', '-'} }

  /** The part before the @ ends at i; the last dot is at j. */
  predicate EmailParts(s: string, i: int, j: int)
  {
    && 0 < i && i + 1 < j && j + 2 < |s| && s[i] == '@' && s[j] == '.'
    && (forall k :: 0 <= k < i ==> InLocalPart(s[k]))
    && (forall k :: i < k < j ==> InDomain(s[k]))
    && (forall k :: j < k < |s| ==> FoldedLetter(s[k]))
  }

  predicate IsEmail(s: string)
  {
    exists i, j :: 0 <= i < |s| && 0 <= j < |s| && EmailParts(s, i, j)
  }

  /** White space as trimming sees it. */
  predicate Space(c: char)
  {
    '\t' <= c <= '\r' || '\U{2000}' <= c <= '\U{200A}' ||
    c in {' ', '\U{0085}', '\U{00A0}', '\U{1680}', '\U{2028}', '\U{2029}', '\U{202F}', '\U{205F}', '\U{3000}'}
  }

  predicate NonEmpty(s: string)
  {
    exists i :: 0 <= i < |s| && !Space(s[i])
  }

  // ---- The same as regular expressions ----

  /** A pattern is its pieces, one after the other: a text, a text that may be missing, or at least
      so many characters of a class. */
  datatype Piece =
    | Text(text: string)
    | Maybe(text: string)
    | AtLeast(n: nat, allowed: char -> bool)

  ghost predicate Fits(p: Piece, s: string)
  {
    match p
    case Text(text) => s == text
    case Maybe(text) => s == "" || s == text
    case AtLeast(n, allowed) => |s| >= n && forall i :: 0 <= i < |s| ==> allowed(s[i])
  }

  ghost predicate Matches(pattern: seq<Piece>, s: string)
    decreases |pattern|
  {
    if pattern == [] then s == "" else
    exists n :: 0 <= n <= |s| && Fits(pattern[0], s[..n]) && Matches(pattern[1..], s[n..])
  }

  /** ^[a-zA-Z0-9]+$ */
  function AlphanumericPattern(): seq<Piece>
  {
    [AtLeast(1, (c: char) => Digit(c) || AsciiLetter(c))]
  }

  /** (?i)^[a-z0-9._%+\-]+@[a-z0-9.\-]+\.[a-z]{2,}$ */
  function EmailPattern(): seq<Piece>
  {
    [AtLeast(1, InLocalPart), Text("@"), AtLeast(1, InDomain), Text("."), AtLeast(2, FoldedLetter)]
  }

  function UrlPattern(): seq<Piece>
  {
    [Text("http"), Maybe("s"), Text("://"), AtLeast(1, (c: char) => !Blank(c))]
  }

  lemma MatchesOne(p: Piece, s: string)
    ensures Matches([p], s) <==> Fits(p, s)
  {
    assert s[..|s|] == s;
    assert [p][1..] == [];
    if Fits(p, s) { assert Fits([p][0], s[..|s|]) && Matches([p][1..], s[|s|..]); }
    if Matches([p], s) {
      var n :| 0 <= n <= |s| && Fits(p, s[..n]) && Matches([p][1..], s[n..]);
      assert n == |s|;
    }
  }

  /** A pattern of pieces matches if its first fits up to some place and the others match from there. */
  lemma MatchesCons(p: Piece, rest: seq<Piece>, s: string)
    ensures Matches([p] + rest, s) <==> exists n :: 0 <= n <= |s| && Fits(p, s[..n]) && Matches(rest, s[n..])
  {
    assert ([p] + rest)[1..] == rest;
  }

  /** Where two pieces may be cut. */
  ghost predicate CutOnce(p: Piece, q: Piece, s: string, a: int)
  {
    0 <= a <= |s| && Fits(p, s[..a]) && Fits(q, s[a..])
  }

  lemma MatchesTwo(p: Piece, q: Piece, s: string)
    ensures Matches([p, q], s) <==> exists a :: CutOnce(p, q, s, a)
  {
    assert [p, q] == [p] + [q];
    MatchesCons(p, [q], s);
    forall a | 0 <= a <= |s|
      ensures Matches([q], s[a..]) <==> Fits(q, s[a..])
    {
      MatchesOne(q, s[a..]);
    }
    if a: int :| CutOnce(p, q, s, a) { assert Fits(p, s[..a]) && Matches([q], s[a..]); }
    if a: int :| 0 <= a <= |s| && Fits(p, s[..a]) && Matches([q], s[a..]) { assert CutOnce(p, q, s, a); }
  }

  /** Where three pieces may be cut. */
  ghost predicate CutTwice(p: Piece, q: Piece, r: Piece, s: string, a: int, b: int)
  {
    0 <= a <= b <= |s| && Fits(p, s[..a]) && Fits(q, s[a..b]) && Fits(r, s[b..])
  }

  lemma CutFurther(p: Piece, q: Piece, r: Piece, s: string, a: int, b: int)
    requires 0 <= a <= b <= |s| && Fits(p, s[..a])
    ensures CutOnce(q, r, s[a..], b - a) <==> CutTwice(p, q, r, s, a, b)
  {
    assert s[a..][..b - a] == s[a..b] && s[a..][b - a..] == s[b..];
  }

  lemma ThreeCut(p: Piece, q: Piece, r: Piece, s: string, a: int)
    requires 0 <= a <= |s| && Fits(p, s[..a]) && Matches([q, r], s[a..])
    ensures exists b :: CutTwice(p, q, r, s, a, b)
  {
    MatchesTwo(q, r, s[a..]);
    var n :| CutOnce(q, r, s[a..], n);
    CutFurther(p, q, r, s, a, a + n);
  }

  lemma CutThree(p: Piece, q: Piece, r: Piece, s: string, a: int, b: int)
    requires CutTwice(p, q, r, s, a, b)
    ensures Matches([q, r], s[a..])
  {
    CutFurther(p, q, r, s, a, b);
    MatchesTwo(q, r, s[a..]);
  }

  lemma MatchesThree(p: Piece, q: Piece, r: Piece, s: string)
    ensures Matches([p, q, r], s) <==> exists a, b :: CutTwice(p, q, r, s, a, b)
  {
    assert [p, q, r] == [p] + [q, r];
    MatchesCons(p, [q, r], s);
    forall a | 0 <= a <= |s| && Fits(p, s[..a]) && Matches([q, r], s[a..])
      ensures exists b :: CutTwice(p, q, r, s, a, b)
    {
      ThreeCut(p, q, r, s, a);
    }
    forall a, b | CutTwice(p, q, r, s, a, b)
      ensures Matches([q, r], s[a..])
    {
      CutThree(p, q, r, s, a, b);
    }
  }

  lemma AlphanumericIsPattern(s: string)
    ensures IsAlphanumeric(s) <==> Matches(AlphanumericPattern(), s)
  {
    MatchesOne(AlphanumericPattern()[0], s);
  }

  /** With or without the s, which stands or falls with the length of the prefix. */
  lemma UrlIsPattern(s: string)
    ensures IsUrl(s) <==> Matches(UrlPattern(), s)
  {
    var p := UrlPattern();
    assert p == [p[0]] + [p[1], p[2], p[3]];
    MatchesCons(p[0], [p[1], p[2], p[3]], s);
    if n: int :| 0 <= n <= |s| && Fits(p[0], s[..n]) && Matches([p[1], p[2], p[3]], s[n..]) {
      MatchesThree(p[1], p[2], p[3], s[n..]);
      var a, b :| CutTwice(p[1], p[2], p[3], s[n..], a, b);
      UrlCut(s, a, b);
    }
    if IsUrl(s) {
      var n :| n in {7, 8} && |s| > n && s[..n] == (if n == 7 then "http://" else "https://") &&
        forall i :: n <= i < |s| ==> !Blank(s[i]);
      CutUrl(s, n);
      MatchesThree(p[1], p[2], p[3], s[4..]);
    }
  }

  lemma UrlCut(s: string, a: int, b: int)
    requires |s| >= 4 && s[..4] == "http"
    requires var p := UrlPattern(); CutTwice(p[1], p[2], p[3], s[4..], a, b)
    ensures IsUrl(s)
  {
    var n := 4 + b;
    assert s[..n] == s[..4] + s[4..][..a] + s[4..][a..b];
    forall i | n <= i < |s|
      ensures !Blank(s[i])
    {
      assert s[4..][b..][i - n] == s[i];
    }
  }

  lemma CutUrl(s: string, n: int)
    requires n in {7, 8} && |s| > n && s[..n] == (if n == 7 then "http://" else "https://")
    requires forall i :: n <= i < |s| ==> !Blank(s[i])
    ensures s[..4] == "http" && var p := UrlPattern(); CutTwice(p[1], p[2], p[3], s[4..], n - 7, n - 4)
  {
    assert s[..4] == s[..n][..4];
    assert s[4..][..n - 7] == s[..n][4..n - 3];
    assert s[4..][n - 7..n - 4] == s[..n][n - 3..];
  }

  /** What follows the part before the @. */
  function AfterLocalPart(): seq<Piece>
  {
    [EmailPattern()[2], EmailPattern()[3], EmailPattern()[4]]
  }

  lemma MatchesChar(c: char, rest: seq<Piece>, s: string)
    ensures Matches([Text([c])] + rest, s) <==> s != "" && s[0] == c && Matches(rest, s[1..])
  {
    MatchesCons(Text([c]), rest, s);
    forall n | 0 <= n <= |s| && s[..n] == [c]
      ensures n == 1 && s[0] == c
    {
      assert s[..n][0] == s[0];
    }
    if s != "" && s[0] == c { assert s[..1] == [c]; }
  }

  lemma AtSign(s: string, i: int)
    requires 0 <= i <= |s|
    ensures Matches([Text("@")] + AfterLocalPart(), s[i..]) <==>
              i < |s| && s[i] == '@' && Matches(AfterLocalPart(), s[i + 1..])
  {
    MatchesChar('@', AfterLocalPart(), s[i..]);
    if i < |s| { assert s[i..][1..] == s[i + 1..]; }
  }

  lemma EmailIsPattern(s: string)
    ensures IsEmail(s) <==> Matches(EmailPattern(), s)
  {
    var p, end := EmailPattern(), AfterLocalPart();
    assert p == [p[0]] + ([Text("@")] + end);
    MatchesCons(p[0], [Text("@")] + end, s);
    if i: int :| 0 <= i <= |s| && Fits(p[0], s[..i]) && Matches([Text("@")] + end, s[i..]) {
      AtSign(s, i);
      MatchesThree(p[2], p[3], p[4], s[i + 1..]);
      var a, b :| CutTwice(p[2], p[3], p[4], s[i + 1..], a, b);
      EmailCut(s, i, a, b);
    }
    if i: int, j: int :| 0 <= i < |s| && 0 <= j < |s| && EmailParts(s, i, j) {
      CutEmail(s, i, j);
      MatchesThree(p[2], p[3], p[4], s[i + 1..]);
      AtSign(s, i);
    }
  }

  lemma EmailCut(s: string, i: int, a: int, b: int)
    requires 0 <= i < |s| && s[i] == '@' && Fits(EmailPattern()[0], s[..i])
    requires var p := EmailPattern(); CutTwice(p[2], p[3], p[4], s[i + 1..], a, b)
    ensures IsEmail(s)
  {
    var t, j := s[i + 1..], i + 1 + a;
    assert s[j] == t[a..b][0];
    assert forall k :: 0 <= k < i ==> s[k] == s[..i][k];
    assert forall k :: i < k < j ==> s[k] == t[..a][k - i - 1];
    assert forall k :: j < k < |s| ==> s[k] == t[b..][k - j - 1];
    assert EmailParts(s, i, j);
  }

  lemma CutEmail(s: string, i: int, j: int)
    requires 0 <= i < |s| && 0 <= j < |s| && EmailParts(s, i, j)
    ensures Fits(EmailPattern()[0], s[..i])
    ensures var p := EmailPattern(); CutTwice(p[2], p[3], p[4], s[i + 1..], j - i - 1, j - i)
  {
    assert s[i + 1..][j - i - 1..j - i] == ".";
  }
}
