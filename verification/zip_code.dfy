/**
 * The ZIP-code extractor: `re.search(r"\b\d{5}(?:[-\s]?\d{4})?\b", place)`
 * followed by `.group()`.
 *
 * The regular expression is modelled as the scanner a backtracking engine
 * runs: at each start position from left to right it tries `\b`, five
 * digits, and then the optional group greedily (separator and four digits,
 * then four digits without separator) and gives the group up when no word
 * boundary follows it.  Character classes are the ASCII parts of Python's
 * `\d`, `\s` and `\w`.
 */
module ZipCode {
  import opened Common

  predicate IsDigit(c: char)
  {
    '0' <= c <= '9'
  }

  /** ASCII part of `\s`: space, \t \n \v \f \r and the separators 0x1C..0x1F. */
  predicate IsSpace(c: char)
  {
    c == ' ' || '\U{0009}' <= c <= '\U{000D}' || '\U{001C}' <= c <= '\U{001F}'
  }

  /** ASCII part of `\w`. */
  predicate IsWordChar(c: char)
  {
    IsDigit(c) || 'a' <= c <= 'z' || 'A' <= c <= 'Z' || c == '_'
  }

  /** The character class `[-\s]`. */
  predicate IsSeparator(c: char)
  {
    c == '-' || IsSpace(c)
  }

  /** `\b` at position `k`: exactly one of the characters around `k` is a word character. */
  predicate Boundary(s: string, k: nat)
    requires k <= |s|
  {
    (k > 0 && IsWordChar(s[k - 1])) != (k < |s| && IsWordChar(s[k]))
  }

  /** `n` digits start at position `j`. */
  predicate DigitsAt(s: string, j: nat, n: nat)
  {
    j + n <= |s| && forall k :: j <= k < j + n ==> IsDigit(s[k])
  }

  predicate AllDigits(z: string)
  {
    forall k :: 0 <= k < |z| ==> IsDigit(z[k])
  }

  /** The strings the pattern describes, boundaries aside: 5 digits, 9 digits, or 5 digits, a separator, 4 digits. */
  predicate ZipShape(z: string)
  {
    || (|z| == 5 && AllDigits(z))
    || (|z| == 9 && AllDigits(z))
    || (|z| == 10 && AllDigits(z[..5]) && IsSeparator(z[5]) && AllDigits(z[6..]))
  }

  /** `s[i..e]` is a match of the whole pattern, word boundaries included. */
  predicate Matches(s: string, i: int, e: int)
  {
    0 <= i <= e <= |s| && Boundary(s, i) && Boundary(s, e) && ZipShape(s[i..e])
  }

  /** The match `re.search` reports: the leftmost start, and at that start the longest match. */
  ghost predicate FirstMatch(s: string, i: int, e: int)
  {
    && Matches(s, i, e)
    && (forall j, e' :: j < i ==> !Matches(s, j, e'))
    && (forall e' :: Matches(s, i, e') ==> e' <= e)
  }

  lemma ShapeLengths(s: string, i: nat, e: int)
    requires Matches(s, i, e)
    ensures e == i + 5 || e == i + 9 || e == i + 10
    ensures DigitsAt(s, i, 5)
    ensures e == i + 9 ==> DigitsAt(s, i + 5, 4)
    ensures e == i + 10 ==> IsSeparator(s[i + 5]) && DigitsAt(s, i + 6, 4)
  {
    var z := s[i..e];
    assert forall k :: 0 <= k < |z| ==> z[k] == s[i + k];
    if |z| == 10 {
      assert forall k :: 0 <= k < 5 ==> z[..5][k] == s[i + k];
      assert forall k :: 0 <= k < 4 ==> z[6..][k] == s[i + 6 + k];
    }
  }

  /** The end of the match the engine finds when it starts at position `i`. */
  function MatchAt(s: string, i: nat): (r: Option<nat>)
    requires i <= |s|
    ensures r.Some? ==> Matches(s, i, r.value)
    ensures r.Some? ==> forall e :: Matches(s, i, e) ==> e <= r.value
    ensures r.None? ==> forall e :: !Matches(s, i, e)
  {
    if !(Boundary(s, i) && DigitsAt(s, i, 5)) then
      NoMatchAt(s, i);
      None
    else if i + 10 <= |s| && IsSeparator(s[i + 5]) && DigitsAt(s, i + 6, 4) && Boundary(s, i + 10) then
      TenAt(s, i);
      Some(i + 10)
    else if DigitsAt(s, i + 5, 4) && Boundary(s, i + 9) then
      NineAt(s, i);
      Some(i + 9)
    else if Boundary(s, i + 5) then
      FiveAt(s, i);
      Some(i + 5)
    else
      NoMatchAt(s, i);
      None
  }

  lemma NoMatchAt(s: string, i: nat)
    requires i <= |s|
    requires !(Boundary(s, i) && DigitsAt(s, i, 5))
      || (!(i + 10 <= |s| && IsSeparator(s[i + 5]) && DigitsAt(s, i + 6, 4) && Boundary(s, i + 10))
          && !(DigitsAt(s, i + 5, 4) && Boundary(s, i + 9))
          && !(i + 5 <= |s| && Boundary(s, i + 5)))
    ensures forall e :: !Matches(s, i, e)
  {
    forall e | Matches(s, i, e) ensures false {
      ShapeLengths(s, i, e);
    }
  }

  lemma TenAt(s: string, i: nat)
    requires i + 10 <= |s| && Boundary(s, i) && DigitsAt(s, i, 5)
    requires IsSeparator(s[i + 5]) && DigitsAt(s, i + 6, 4) && Boundary(s, i + 10)
    ensures Matches(s, i, i + 10)
    ensures forall e :: Matches(s, i, e) ==> e <= i + 10
  {
    var z := s[i..i + 10];
    assert forall k :: 0 <= k < 5 ==> z[..5][k] == s[i + k];
    assert forall k :: 0 <= k < 4 ==> z[6..][k] == s[i + 6 + k];
    forall e | Matches(s, i, e) ensures e <= i + 10 {
      ShapeLengths(s, i, e);
    }
  }

  lemma NineAt(s: string, i: nat)
    requires i <= |s| && Boundary(s, i) && DigitsAt(s, i, 5)
    requires DigitsAt(s, i + 5, 4) && Boundary(s, i + 9)
    requires !(i + 10 <= |s| && IsSeparator(s[i + 5]) && DigitsAt(s, i + 6, 4) && Boundary(s, i + 10))
    ensures Matches(s, i, i + 9)
    ensures forall e :: Matches(s, i, e) ==> e <= i + 9
  {
    var z := s[i..i + 9];
    assert forall k :: 0 <= k < 9 ==> z[k] == s[i + k];
    forall e | Matches(s, i, e) ensures e <= i + 9 {
      ShapeLengths(s, i, e);
    }
  }

  lemma FiveAt(s: string, i: nat)
    requires i + 5 <= |s| && Boundary(s, i) && DigitsAt(s, i, 5) && Boundary(s, i + 5)
    requires !(i + 10 <= |s| && IsSeparator(s[i + 5]) && DigitsAt(s, i + 6, 4) && Boundary(s, i + 10))
    requires !(DigitsAt(s, i + 5, 4) && Boundary(s, i + 9))
    ensures Matches(s, i, i + 5)
    ensures forall e :: Matches(s, i, e) ==> e <= i + 5
  {
    var z := s[i..i + 5];
    assert forall k :: 0 <= k < 5 ==> z[k] == s[i + k];
    forall e | Matches(s, i, e) ensures e <= i + 5 {
      ShapeLengths(s, i, e);
    }
  }

  /** The scan of `re.search`, from start position `from` on. */
  function SearchFrom(s: string, from: nat): (r: Option<(nat, nat)>)
    requires from <= |s|
    ensures r.Some? ==> from <= r.value.0 && Matches(s, r.value.0, r.value.1)
    ensures r.Some? ==> forall j, e :: from <= j < r.value.0 ==> !Matches(s, j, e)
    ensures r.Some? ==> forall e :: Matches(s, r.value.0, e) ==> e <= r.value.1
    ensures r.None? ==> forall j, e :: from <= j ==> !Matches(s, j, e)
    decreases |s| - from
  {
    match MatchAt(s, from)
    case Some(e) => Some((from, e))
    case None =>
      if from == |s| then
        assert forall j, e :: from < j ==> !Matches(s, j, e);
        None
      else
        SearchFrom(s, from + 1)
  }

  /** `re.search(pattern, s)`: the span of the match, if any. */
  function Search(s: string): (r: Option<(nat, nat)>)
    ensures r.Some? ==> FirstMatch(s, r.value.0, r.value.1)
    ensures r.None? ==> forall i, e :: !Matches(s, i, e)
  {
    SearchFrom(s, 0)
  }

  /** `m.group()` of that match: the ZIP code found in a place description. */
  function Extract(s: string): (z: Option<string>)
    ensures z.Some? ==> ZipShape(z.value)
    ensures z.Some? <==> exists i, e :: Matches(s, i, e)
    ensures z.Some? ==> exists i, e :: FirstMatch(s, i, e) && z.value == s[i..e]
  {
    match Search(s)
    case Some((i, e)) => Some(s[i..e])
    case None => None
  }

  /** A place description that is nothing but a ZIP code yields the whole of it. */
  lemma WholeCode(z: string)
    requires ZipShape(z)
    ensures Extract(z) == Some(z)
  {
    assert z[0..|z|] == z;
    assert IsWordChar(z[0]) && IsWordChar(z[|z| - 1]);
    assert Matches(z, 0, |z|);
    var i, e :| FirstMatch(z, i, e) && Extract(z).value == z[i..e];
    assert FirstMatch(z, i, e);
  }

  /**
   * Ten digits in a row are no ZIP code, wherever they stand: no match
   * overlaps them.  The optional group needs a separator after five digits,
   * and no shorter part of the run ends or starts at a word boundary.
   */
  lemma TenDigits(s: string, a: nat)
    requires DigitsAt(s, a, 10)
    ensures forall i, e :: Matches(s, i, e) ==> e <= a || a + 10 <= i
  {
    forall i, e | Matches(s, i, e) && a < e && i < a + 10
      ensures false
    {
      ShapeLengths(s, i, e);
    }
  }
}
