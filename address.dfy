/**
 * The address-to-neighbourhood extractor `extrair_bairro` of streamlit_app.py.
 *
 * The source applies two regular expressions with `re.search`:
 *   the dot rule     `\.\s([^.,-]+), Porto Alegre - RS`
 *   the hyphen rule  ` - ([^.,]+), Porto Alegre - RS`
 * and returns the stripped first group of the first rule that matches.
 * Both groups exclude ',' while the fixed suffix starts with ',', so for a given
 * start position the group is exactly the maximal run of allowed characters and
 * the match succeeds iff that run is non-empty and followed by the suffix.
 * The model states the regular expression's meaning declaratively (MatchAt),
 * scans for the leftmost match (Search) and proves the scanner correct.
 */
module Address {
  import opened Wrappers

  /** One cell of the address column as pandas delivers it. */
  datatype Cell =
    | Blank       // a missing value: `pd.isna` is true
    | Text(s: string)
    | NonText     // any other value (a number, a date): `re.search` raises on it

  const Fallback: string := "Desconhecido"
  const CitySuffix: string := ", Porto Alegre - RS"

  /**
   * Python's notion of whitespace for `str`: the class `\s` of a str pattern
   * and the characters `str.strip()` removes are the same set.
   */
  predicate IsSpace(c: char)
    ensures IsSpace(c) ==> InGroup(Dot, c) && InGroup(Hyphen, c)
  {
    || ('\t' <= c <= '\r')               // \t \n \v \f \r
    || ('\U{1C}' <= c <= '\U{1F}')       // file, group, record and unit separators
    || c == ' ' || c == '\U{85}' || c == '\U{A0}' || c == '\U{1680}'
    || ('\U{2000}' <= c <= '\U{200A}')
    || c == '\U{2028}' || c == '\U{2029}' || c == '\U{202F}' || c == '\U{205F}' || c == '\U{3000}'
  }

  // ---------------------------------------------------------------------------
  // Strip: Python's str.strip() with no argument

  /** First index at or after `a` that does not hold whitespace (or |s|). */
  function SkipSpaces(s: string, a: nat): (b: nat)
    requires a <= |s|
    ensures a <= b <= |s|
    ensures forall m :: a <= m < b ==> IsSpace(s[m])
    ensures b == |s| || !IsSpace(s[b])
    decreases |s| - a
  {
    if a < |s| && IsSpace(s[a]) then SkipSpaces(s, a + 1) else a
  }

  /** Smallest `e` with `a <= e <= b` such that s[e..b] is all whitespace. */
  function BackSpaces(s: string, a: nat, b: nat): (e: nat)
    requires a <= b <= |s|
    ensures a <= e <= b
    ensures forall m :: e <= m < b ==> IsSpace(s[m])
    ensures e == a || !IsSpace(s[e - 1])
    decreases b - a
  {
    if a < b && IsSpace(s[b - 1]) then BackSpaces(s, a, b - 1) else b
  }

  /** No whitespace at either end. */
  predicate Trimmed(t: string) {
    t == [] || (!IsSpace(t[0]) && !IsSpace(t[|t| - 1]))
  }

  /** `str.strip()`: the slice of `s` left after removing leading and trailing whitespace. */
  function Strip(s: string): (r: string)
    ensures Trimmed(r)
    ensures exists a, b :: 0 <= a <= b <= |s| && r == s[a..b]
                           && (forall m :: 0 <= m < a ==> IsSpace(s[m]))
                           && (forall m :: b <= m < |s| ==> IsSpace(s[m]))
  {
    var a := SkipSpaces(s, 0);
    var b := BackSpaces(s, a, |s|);
    s[a..b]
  }

  /** Stripping a string that has no whitespace at its ends leaves it as it is. */
  lemma {:induction false} StripTrimmed(t: string)
    requires Trimmed(t)
    ensures Strip(t) == t
  {
    var a := SkipSpaces(t, 0);
    if t != [] {
      assert a == 0;
      var b := BackSpaces(t, a, |t|);
      assert b == |t|;
    }
  }

  /** Stripping twice is stripping once. */
  lemma StripIdempotent(s: string)
    ensures Strip(Strip(s)) == Strip(s)
  {
    StripTrimmed(Strip(s));
  }

  // ---------------------------------------------------------------------------
  // The two regular expressions

  datatype Rule =
    | Dot     // `\.\s([^.,-]+), Porto Alegre - RS`
    | Hyphen  // ` - ([^.,]+), Porto Alegre - RS`

  /** Length of the part of the pattern in front of the group. */
  function Lead(rule: Rule): nat {
    match rule
    case Dot => 2
    case Hyphen => 3
  }

  /** The part in front of the group matches at position `i`. */
  predicate LeadAt(rule: Rule, s: string, i: nat) {
    match rule
    case Dot => i + 2 <= |s| && s[i] == '.' && IsSpace(s[i + 1])
    case Hyphen => i + 3 <= |s| && s[i..i + 3] == " - "
  }

  /** The character class of the group: `[^.,-]` for the dot rule, `[^.,]` for the hyphen rule. */
  predicate InGroup(rule: Rule, c: char) {
    c != '.' && c != ',' && (rule == Hyphen || c != '-')
  }

  /** The fixed city suffix starts at position `j`. */
  predicate SuffixAt(s: string, j: nat) {
    j + |CitySuffix| <= |s| && s[j..j + |CitySuffix|] == CitySuffix
  }

  /**
   * The rule's pattern matches `s` starting at `i`, with group 1 equal to
   * s[i + Lead(rule) .. j] (the meaning of the regular expression).
   */
  predicate MatchAt(rule: Rule, s: string, i: nat, j: nat)
    ensures MatchAt(rule, s, i, j) ==> i + Lead(rule) < j < |s| && s[j] == ',' && ',' !in s[i + Lead(rule) .. j]
  {
    && LeadAt(rule, s, i)
    && i + Lead(rule) < j
    && SuffixAt(s, j)
    && forall m :: i + Lead(rule) <= m < j ==> InGroup(rule, s[m])
  }

  /** No match of the rule starts in [lo, hi). */
  ghost predicate NoMatchBetween(rule: Rule, s: string, lo: nat, hi: nat) {
    forall i: nat, j: nat :: lo <= i < hi ==> !MatchAt(rule, s, i, j)
  }

  /** No match of the rule starts at `lo` or later. */
  ghost predicate NoMatchFrom(rule: Rule, s: string, lo: nat) {
    forall i: nat, j: nat :: lo <= i ==> !MatchAt(rule, s, i, j)
  }

  /** The rule matches nowhere in `s`: `re.search` returns None. */
  ghost predicate NoMatch(rule: Rule, s: string) {
    NoMatchFrom(rule, s, 0)
  }

  /** End of the maximal run of group characters starting at `k`. */
  function GroupEnd(rule: Rule, s: string, k: nat): (j: nat)
    requires k <= |s|
    ensures k <= j <= |s|
    ensures forall m :: k <= m < j ==> InGroup(rule, s[m])
    ensures j == |s| || !InGroup(rule, s[j])
    decreases |s| - k
  {
    if k < |s| && InGroup(rule, s[k]) then GroupEnd(rule, s, k + 1) else k
  }

  /** A match at a given start has exactly one end: the end of the maximal run. */
  lemma MatchEndUnique(rule: Rule, s: string, i: nat, j: nat)
    requires MatchAt(rule, s, i, j)
    ensures j == GroupEnd(rule, s, i + Lead(rule))
  {
    assert s[j] == s[j..j + |CitySuffix|][0] == ',';
  }

  /** Try the rule at one start position; the end of the group when it matches. */
  function TryAt(rule: Rule, s: string, i: nat): (r: Option<nat>)
    ensures r.Some? ==> MatchAt(rule, s, i, r.value)
    ensures r.None? ==> forall j: nat :: !MatchAt(rule, s, i, j)
  {
    if LeadAt(rule, s, i) then
      var k := i + Lead(rule);
      var j := GroupEnd(rule, s, k);
      if k < j && SuffixAt(s, j) then Some(j)
      else
        assert forall j': nat :: MatchAt(rule, s, i, j') ==> j' == j by {
          forall j': nat | MatchAt(rule, s, i, j') { MatchEndUnique(rule, s, i, j'); }
        }
        None
    else None
  }

  /**
   * `re.search` from position `from`: the leftmost start at or after `from` where
   * the rule matches, with the end of its group.
   */
  function Search(rule: Rule, s: string, from: nat): (r: Option<(nat, nat)>)
    ensures r.Some? ==> from <= r.value.0 && MatchAt(rule, s, r.value.0, r.value.1)
                        && NoMatchBetween(rule, s, from, r.value.0)
    ensures r.None? ==> NoMatchFrom(rule, s, from)
    decreases |s| - from
  {
    if |s| < from + Lead(rule) then None
    else
      match TryAt(rule, s, from)
      case Some(j) => Some((from, j))
      case None => Search(rule, s, from + 1)
  }

  /** When a leftmost match exists, the scanner finds exactly it. */
  lemma SearchFindsLeftmost(rule: Rule, s: string, i: nat, j: nat)
    requires MatchAt(rule, s, i, j) && NoMatchBetween(rule, s, 0, i)
    ensures Search(rule, s, 0) == Some((i, j))
  {
    var r := Search(rule, s, 0);
    assert r.Some?;
    var (i0, j0) := r.value;
    assert i0 == i;
    MatchEndUnique(rule, s, i, j);
    MatchEndUnique(rule, s, i0, j0);
  }

  // ---------------------------------------------------------------------------
  // extrair_bairro

  /**
   * The neighbourhood a text address yields, or None when neither rule
   * matches (the caller then falls back to "Desconhecido").
   */
  function Neighbourhood(s: string): (r: Option<string>)
    ensures r.None? <==> NoMatch(Dot, s) && NoMatch(Hyphen, s)
  {
    match Search(Dot, s, 0)
    case Some((i, j)) => Some(Strip(s[i + 2 .. j]))
    case None =>
      match Search(Hyphen, s, 0)
      case Some((i, j)) => Some(Strip(s[i + 3 .. j]))
      case None => None
  }

  /** `extrair_bairro`: the neighbourhood of an address cell, or "Desconhecido". */
  function ExtractBairro(cell: Cell): (r: string)
    ensures r == Fallback || (Trimmed(r) && '.' !in r && ',' !in r)
  {
    match cell
    case Text(s) =>
      NeighbourhoodShape(s);
      Neighbourhood(s).GetOr(Fallback)
    case _ => Fallback
  }

  /** A missing cell, or one `re.search` cannot take, gives the fallback. */
  lemma NonTextFallback(cell: Cell)
    requires !cell.Text?
    ensures ExtractBairro(cell) == Fallback
  {
  }

  /** The dot rule, when it matches anywhere, decides: its leftmost match's stripped group. */
  lemma DotRuleWins(s: string, i: nat, j: nat)
    requires MatchAt(Dot, s, i, j) && NoMatchBetween(Dot, s, 0, i)
    ensures Neighbourhood(s) == Some(Strip(s[i + 2 .. j]))
    ensures ExtractBairro(Text(s)) == Strip(s[i + 2 .. j])
  {
    SearchFindsLeftmost(Dot, s, i, j);
  }

  /** Only when the dot rule matches nowhere, the leftmost hyphen match decides. */
  lemma HyphenRuleApplies(s: string, i: nat, j: nat)
    requires NoMatch(Dot, s)
    requires MatchAt(Hyphen, s, i, j) && NoMatchBetween(Hyphen, s, 0, i)
    ensures Neighbourhood(s) == Some(Strip(s[i + 3 .. j]))
    ensures ExtractBairro(Text(s)) == Strip(s[i + 3 .. j])
  {
    SearchFindsLeftmost(Hyphen, s, i, j);
  }

  /** Every character of `t` belongs to the group's character class. */
  predicate AllInGroup(rule: Rule, t: string) {
    forall m :: 0 <= m < |t| ==> InGroup(rule, t[m])
  }

  /** The group of a match consists of group characters only. */
  lemma MatchGroupInClass(rule: Rule, s: string, i: nat, j: nat)
    requires MatchAt(rule, s, i, j)
    ensures AllInGroup(rule, s[i + Lead(rule) .. j])
  {
    var g := s[i + Lead(rule) .. j];
    forall m | 0 <= m < |g| ensures InGroup(rule, g[m]) {
      assert g[m] == s[i + Lead(rule) + m];
    }
  }

  /** Stripping removes characters from the ends only, so it keeps the class. */
  lemma StripKeepsGroup(rule: Rule, g: string)
    requires AllInGroup(rule, g)
    ensures AllInGroup(rule, Strip(g))
  {
    var r := Strip(g);
    var a, b :| 0 <= a <= b <= |g| && r == g[a..b];
    forall m | 0 <= m < |r| ensures InGroup(rule, r[m]) {
      assert r[m] == g[a + m];
    }
  }

  /** What the class excludes, said character by character. */
  lemma GroupExcludes(rule: Rule, t: string)
    requires AllInGroup(rule, t)
    ensures '.' !in t && ',' !in t && (rule == Dot ==> '-' !in t)
  {
  }

  /** The stripped group of a match: trimmed, without the characters its class excludes. */
  lemma CaptureShape(rule: Rule, s: string, i: nat, j: nat)
    requires MatchAt(rule, s, i, j)
    ensures var r := Strip(s[i + Lead(rule) .. j]);
            Trimmed(r) && '.' !in r && ',' !in r && (rule == Dot ==> '-' !in r)
  {
    MatchGroupInClass(rule, s, i, j);
    StripKeepsGroup(rule, s[i + Lead(rule) .. j]);
    GroupExcludes(rule, Strip(s[i + Lead(rule) .. j]));
  }

  /**
   * Shape of any neighbourhood found: no whitespace at its ends, neither '.'
   * nor ','; and no '-' when the dot rule matches somewhere.
   */
  lemma NeighbourhoodShape(s: string)
    ensures Neighbourhood(s).Some? ==>
              var r := Neighbourhood(s).value;
              Trimmed(r) && '.' !in r && ',' !in r && (!NoMatch(Dot, s) ==> '-' !in r)
  {
    var d := Search(Dot, s, 0);
    if d.Some? {
      var (i, j) := d.value;
      CaptureShape(Dot, s, i, j);
      assert Neighbourhood(s) == Some(Strip(s[i + 2 .. j]));
    } else {
      assert NoMatch(Dot, s);
      var h := Search(Hyphen, s, 0);
      if h.Some? {
        var (i, j) := h.value;
        CaptureShape(Hyphen, s, i, j);
        assert Neighbourhood(s) == Some(Strip(s[i + 3 .. j]));
      }
    }
  }
}
