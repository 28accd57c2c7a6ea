/** The Apple Music scraper's artist heuristic (`_extract_artist_from_title`):
    five patterns are tried in order and the first that applies decides.

    Every regex search is written as a left-to-right search for the first
    start position at which the pattern matches (`FirstWhere`), with the
    greedy quantifiers and their backtracking resolved by hand, on ASCII
    text. Each pattern reports WHERE its answer sits in the title, as a
    span, so that the answer is visibly a piece of the title. */
module Artists {
  import opened Wrappers
  import opened Text
  import opened Lists

  /** The piece `s[lo..hi]` of a text. */
  datatype Span = Span(lo: nat, hi: nat)

  predicate ValidSpan(s: string, sp: Span) {
    sp.lo <= sp.hi <= |s|
  }

  function At(s: string, sp: Span): string
    requires ValidSpan(s, sp)
  {
    s[sp.lo..sp.hi]
  }

  /** The first index in [i, hi) holding a non-whitespace character, or hi. */
  function SkipSpace(s: string, i: nat, hi: nat): (r: nat)
    requires i <= hi <= |s|
    ensures i <= r <= hi && (r < hi ==> !IsSpace(s[r]))
    ensures forall k {:trigger IsSpace(s[k])} :: i <= k < r ==> IsSpace(s[k])
    decreases hi - i
  {
    if i < hi && IsSpace(s[i]) then SkipSpace(s, i + 1, hi) else i
  }

  /** The end of [lo, j) once its trailing whitespace is dropped. */
  function SkipSpaceBack(s: string, lo: nat, j: nat): (r: nat)
    requires lo <= j <= |s|
    ensures lo <= r <= j && (r > lo ==> !IsSpace(s[r - 1]))
    ensures forall k {:trigger IsSpace(s[k])} :: r <= k < j ==> IsSpace(s[k])
    decreases j - lo
  {
    if j > lo && IsSpace(s[j - 1]) then SkipSpaceBack(s, lo, j - 1) else j
  }

  /** Where `s[lo..hi].strip()` sits in s: a stripped piece with only
      whitespace on either side of it (`StripSpanText` shows it is the
      stripped text). */
  function StripSpan(s: string, lo: nat, hi: nat): (r: Span)
    requires lo <= hi <= |s|
    ensures lo <= r.lo <= r.hi <= hi && Stripped(At(s, r))
    ensures forall k {:trigger IsSpace(s[k])} :: lo <= k < r.lo ==> IsSpace(s[k])
    ensures forall k {:trigger IsSpace(s[k])} :: r.hi <= k < hi ==> IsSpace(s[k])
  {
    var i := SkipSpace(s, lo, hi);
    var j := SkipSpaceBack(s, i, hi);
    SliceEnds(s, i, j);
    Span(i, j)
  }

  /** A piece whose end characters are not whitespace is stripped. */
  lemma SliceEnds(s: string, i: nat, j: nat)
    requires i <= j <= |s|
    requires i < j ==> !IsSpace(s[i]) && !IsSpace(s[j - 1])
    ensures Stripped(s[i..j])
  {
    if i < j {
      var m := s[i..j];
      assert m[0] == s[i] && m[|m| - 1] == s[j - 1];
    }
  }

  /** A run of whitespace characters is whitespace-only text. */
  lemma SpaceSlice(s: string, i: nat, j: nat)
    requires i <= j <= |s|
    requires forall k {:trigger IsSpace(s[k])} :: i <= k < j ==> IsSpace(s[k])
    ensures AllSpace(s[i..j])
  {
    forall k | 0 <= k < j - i
      ensures IsSpace(s[i..j][k])
    {
      assert s[i..j][k] == s[i + k];
    }
  }

  /** Cutting a piece of `s` at two inner points gives three consecutive pieces. */
  lemma SliceSplit(s: string, lo: nat, i: nat, j: nat, hi: nat)
    requires lo <= i <= j <= hi <= |s|
    ensures s[lo..hi] == s[lo..i] + s[i..j] + s[j..hi]
  {
    assert s[lo..hi] == s[lo..i] + s[i..hi];
    assert s[i..hi] == s[i..j] + s[j..hi];
  }

  /** The span's text is exactly what `str.strip()` returns for the piece
      `x` of s. */
  lemma StripSpanText(s: string, lo: nat, hi: nat, x: string)
    requires lo <= hi <= |s| && x == s[lo..hi]
    ensures At(s, StripSpan(s, lo, hi)) == Strip(x)
  {
    var r := StripSpan(s, lo, hi);
    SpaceSlice(s, lo, r.lo);
    SpaceSlice(s, r.hi, hi);
    SliceSplit(s, lo, r.lo, r.hi, hi);
    StripUnique(s[lo..r.lo], s[r.lo..r.hi], s[r.hi..hi]);
  }

  /** A piece of `s` in which no match of `pat` starts holds no `pat`. */
  lemma NoMatchBetween(s: string, pat: string, a: int, b: int)
    requires pat != "" && 0 <= a <= b <= |s|
    requires forall k :: a <= k < b ==> !MatchesAt(s, pat, k)
    ensures !Contains(s[a..b], pat)
  {
    var t := s[a..b];
    forall k | 0 <= k <= |t|
      ensures !MatchesAt(t, pat, k)
    {
      if k + |pat| <= |t| {
        var u, v := t[k..k + |pat|], s[a + k..a + k + |pat|];
        forall d | 0 <= d < |pat|
          ensures u[d] == v[d]
        {
          assert u[d] == t[k + d];
        }
        assert u == v && a <= a + k < b;
        assert !MatchesAt(s, pat, a + k);
      }
    }
  }

  // ---------------------------------------------------------------------
  // Pattern 1: `\(([^)]+)\s+remix\)`, case-insensitive

  /** The text between the `(` at p and the first `)` after it. */
  function Parenthesised(s: string, p: nat): (r: Option<string>)
    ensures r.Some? ==> p < |s| && s[p] == '(' && ')' !in r.value
    ensures r.Some? ==> p + 1 + |r.value| < |s| && r.value == s[p + 1..p + 1 + |r.value|]
                        && s[p + 1 + |r.value|] == ')'
    ensures r.None? ==> p >= |s| || s[p] != '(' || ')' !in s[p + 1..]
  {
    if p < |s| && s[p] == '(' then
      FindChar(s, ')', p + 1);
      match Find(s, [')'], p + 1)
      case Some(j) => Some(s[p + 1..j])
      case None => None
    else None
  }

  /** The parenthesised text is whitespace and "remix" (any case) after at
      least one character: the `[^)]+\s+remix` part of the regex. */
  predicate RemixContent(c: string) {
    |c| >= 7 && IsSpace(c[|c| - 6]) && Lowered(c[|c| - 5..]) == "remix"
  }

  predicate RemixAt(s: string, p: nat) {
    Parenthesised(s, p).Some? && RemixContent(Parenthesised(s, p).value)
  }

  /** Where the leftmost match of pattern 1 starts: `re.search` tries each
      start position from the left. */
  function RemixStart(s: string): (r: Option<nat>)
    ensures r.Some? ==> r.value < |s| && RemixAt(s, r.value)
    ensures r.Some? ==> forall k :: 0 <= k < r.value ==> !RemixAt(s, k)
    ensures r.None? ==> forall k :: 0 <= k < |s| ==> !RemixAt(s, k)
  {
    var isMatch := (p: nat) => RemixAt(s, p);
    assert forall p: nat :: isMatch(p) == RemixAt(s, p);
    FirstWhere(|s|, isMatch, 0)
  }

  /** A match with none before it is the one found. */
  lemma RemixStartIs(s: string, p: nat)
    requires p < |s| && RemixAt(s, p)
    requires forall k :: 0 <= k < p ==> !RemixAt(s, k)
    ensures RemixStart(s) == Some(p)
  {
  }

  /** Pattern 1's answer is `group(1).strip()`, where the greedy `[^)]+`
      keeps all but the last whitespace before "remix". */
  function RemixPattern(s: string): (r: Option<Span>)
    ensures r.Some? <==> RemixStart(s).Some?
    ensures r.Some? ==> ValidSpan(s, r.value) && Stripped(At(s, r.value))
  {
    match RemixStart(s)
    case Some(p) => Some(RemixAnswer(s, p))
    case None => None
  }

  /** `group(1).strip()` for the remix match at p. */
  function RemixAnswer(s: string, p: nat): (r: Span)
    requires RemixAt(s, p)
    ensures ValidSpan(s, r) && Stripped(At(s, r))
  {
    var c := Parenthesised(s, p).value;
    StripSpan(s, p + 1, p + 1 + |c| - 6)
  }

  // ---------------------------------------------------------------------
  // Pattern 2: `(?:feat\.?|ft\.?)\s+([^)\]]+)`, case-insensitive

  /** Length of the keyword `feat` or `ft` (any case) at p, or 0. */
  function KeywordLength(s: string, p: nat): (k: nat)
    ensures k == 0 || (k == 4 && MatchesAt(Lowered(s), "feat", p))
                   || (k == 2 && MatchesAt(Lowered(s), "ft", p))
  {
    if MatchesAt(Lowered(s), "feat", p) then 4
    else if MatchesAt(Lowered(s), "ft", p) then 2
    else 0
  }

  /** Number of whitespace characters from q on: the greedy `\s+`. */
  function SpaceRun(s: string, q: nat): (n: nat)
    requires q <= |s|
    ensures q + n <= |s| && AllSpace(s[q..q + n])
    ensures q + n < |s| ==> !IsSpace(s[q + n])
    decreases |s| - q
  {
    if q < |s| && IsSpace(s[q]) then
      var n := SpaceRun(s, q + 1);
      assert s[q..q + 1 + n] == [s[q]] + s[q + 1..q + 1 + n];
      1 + n
    else 0
  }

  /** A character `[^)\]]` accepts. */
  predicate InGroup(c: char) {
    c != ')' && c != ']'
  }

  /** Where the greedy `[^)\]]+` starting at e stops: the first `)` or `]`
      from e on, or the end. */
  function GroupEnd(s: string, e: nat): (g: nat)
    requires e <= |s|
    ensures e <= g <= |s| && (g < |s| ==> !InGroup(s[g]))
    ensures forall k {:trigger InGroup(s[k])} :: e <= k < g ==> InGroup(s[k])
    decreases |s| - e
  {
    if e == |s| || !InGroup(s[e]) then e else GroupEnd(s, e + 1)
  }

  /** The span of group(1) of pattern 2 when a match starts at p. The
      optional `.` is taken when present; the whitespace run must be
      non-empty. When no group character follows the run, `\s+` gives back
      its last character to the group if the run has two or more. */
  function FeatGroupAt(s: string, p: nat): (r: Option<Span>)
    ensures r.Some? ==> KeywordLength(s, p) > 0 && p < r.value.lo < r.value.hi <= |s|
    ensures r.Some? ==> forall k {:trigger InGroup(s[k])} :: r.value.lo <= k < r.value.hi ==> InGroup(s[k])
  {
    var k := KeywordLength(s, p);
    if k == 0 then None
    else
      var m := p + k;
      var q := if m < |s| && s[m] == '.' then m + 1 else m;
      var n := SpaceRun(s, q);
      var e := q + n;
      if n == 0 then None
      else if e < |s| && InGroup(s[e]) then Some(Span(e, GroupEnd(s, e)))
      else if n >= 2 then
        assert IsSpace(s[q..e][n - 1]);
        Some(Span(e - 1, e))
      else None
  }

  /** Where the leftmost match of pattern 2 starts. */
  function FeatStart(s: string): (r: Option<nat>)
    ensures r.Some? ==> r.value < |s| && FeatGroupAt(s, r.value).Some?
    ensures r.Some? ==> forall k :: 0 <= k < r.value ==> FeatGroupAt(s, k).None?
    ensures r.None? ==> forall k :: 0 <= k < |s| ==> FeatGroupAt(s, k).None?
  {
    var isMatch := (p: nat) => FeatGroupAt(s, p).Some?;
    assert forall p: nat :: isMatch(p) == FeatGroupAt(s, p).Some?;
    FirstWhere(|s|, isMatch, 0)
  }

  lemma FeatStartIs(s: string, p: nat)
    requires p < |s| && FeatGroupAt(s, p).Some?
    requires forall k :: 0 <= k < p ==> FeatGroupAt(s, k).None?
    ensures FeatStart(s) == Some(p)
  {
  }

  /** Pattern 2's answer is the stripped group of the leftmost match. */
  function FeatPattern(s: string): (r: Option<Span>)
    ensures r.Some? <==> FeatStart(s).Some?
    ensures r.Some? ==> ValidSpan(s, r.value) && Stripped(At(s, r.value))
  {
    match FeatStart(s)
    case Some(p) => Some(FeatAnswer(s, p))
    case None => None
  }

  /** `group(1).strip()` for the feat match at p. */
  function FeatAnswer(s: string, p: nat): (r: Span)
    requires FeatGroupAt(s, p).Some?
    ensures ValidSpan(s, r) && Stripped(At(s, r))
  {
    var g := FeatGroupAt(s, p).value;
    StripSpan(s, g.lo, g.hi)
  }

  // ---------------------------------------------------------------------
  // Pattern 3: `' - ' in title`, then `title.split(' - ')[1].strip()`

  /** Where the split piece starting at `from` ends: the next occurrence of
      `pat`, or the end of the text. */
  function NextOr(s: string, pat: string, from: nat): (r: nat)
    requires from <= |s|
    ensures from <= r <= |s|
    ensures forall k :: from <= k < r ==> !MatchesAt(s, pat, k)
    ensures r < |s| ==> MatchesAt(s, pat, r)
  {
    match Find(s, pat, from)
    case Some(j) => j
    case None => |s|
  }

  /** Pattern 3 applies exactly when the title holds " - ". */
  function DashPattern(s: string): (r: Option<Span>)
    ensures r.Some? <==> Contains(s, " - ")
    ensures r.Some? ==> ValidSpan(s, r.value) && Stripped(At(s, r.value))
                        && !Contains(At(s, r.value), " - ")
  {
    FindFromStart(s, " - ");
    match Find(s, " - ", 0)
    case Some(i) => Some(DashAnswer(s, i))
    case None => None
  }

  /** `parts[1].strip()` when the first " - " is at i: the stripped piece
      between it and the next " - " (or the end); it holds no " - ". */
  function DashAnswer(s: string, i: nat): (r: Span)
    requires i + 3 <= |s|
    ensures ValidSpan(s, r) && Stripped(At(s, r)) && !Contains(At(s, r), " - ")
  {
    var end := NextOr(s, " - ", i + 3);
    var r := StripSpan(s, i + 3, end);
    NoMatchBetween(s, " - ", r.lo, r.hi);
    r
  }

  // ---------------------------------------------------------------------
  // Pattern 4: `"'s" in title`, then `title.split("'s")[0].strip()`

  /** Pattern 4 applies exactly when the title holds "'s". */
  function PossessivePattern(s: string): (r: Option<Span>)
    ensures r.Some? <==> Contains(s, "'s")
    ensures r.Some? ==> ValidSpan(s, r.value) && Stripped(At(s, r.value))
                        && !Contains(At(s, r.value), "'s")
  {
    FindFromStart(s, "'s");
    match Find(s, "'s", 0)
    case Some(i) => Some(PossessiveAnswer(s, i))
    case None => None
  }

  /** `parts[0].strip()` when the first "'s" is at i: the stripped text
      before it; it holds no "'s". */
  function PossessiveAnswer(s: string, i: nat): (r: Span)
    requires i <= |s|
    requires forall k :: 0 <= k < i ==> !MatchesAt(s, "'s", k)
    ensures ValidSpan(s, r) && Stripped(At(s, r)) && !Contains(At(s, r), "'s")
  {
    var r := StripSpan(s, 0, i);
    NoMatchBetween(s, "'s", r.lo, r.hi);
    r
  }

  // ---------------------------------------------------------------------
  // Pattern 5: `\s+(&|and)\s+` (case-sensitive), then the last word before
  // the match

  /** A match of pattern 5 starts at p: a whitespace run, then `&` or `and`,
      then whitespace. */
  predicate ConjAt(s: string, p: nat) {
    p < |s| && IsSpace(s[p]) &&
    var e := p + SpaceRun(s, p);
    || (e + 1 < |s| && s[e] == '&' && IsSpace(s[e + 1]))
    || (MatchesAt(s, "and", e) && e + 3 < |s| && IsSpace(s[e + 3]))
  }

  predicate NoSpace(w: string) {
    forall k :: 0 <= k < |w| ==> !IsSpace(w[k])
  }

  /** Length of the maximal run of non-whitespace characters ending t. */
  function TrailingWordLength(t: string): (n: nat)
    ensures n <= |t| && NoSpace(t[|t| - n..])
    ensures n < |t| ==> IsSpace(t[|t| - n - 1])
    decreases |t|
  {
    if |t| == 0 || IsSpace(t[|t| - 1]) then 0
    else
      var init := t[..|t| - 1];
      var m := TrailingWordLength(init);
      NoSpaceSnoc(t, m);
      assert m < |init| ==> t[|t| - m - 2] == init[|init| - m - 1];
      m + 1
  }

  /** A word followed by one more non-whitespace character is still a word. */
  lemma NoSpaceSnoc(t: string, m: nat)
    requires m < |t| && !IsSpace(t[|t| - 1])
    requires NoSpace(t[..|t| - 1][|t| - 1 - m..])
    ensures NoSpace(t[|t| - m - 1..])
  {
    var w, v := t[|t| - m - 1..], t[..|t| - 1][|t| - 1 - m..];
    forall x | 0 <= x < |w|
      ensures !IsSpace(w[x])
    {
      assert w[x] == t[|t| - m - 1 + x];
      if x < m {
        assert v[x] == t[|t| - 1 - m + x];
      }
    }
  }

  /** Where `s[..i].split()[-1]` sits: the non-whitespace run ending what is
      left of `s[..i]` after its trailing whitespace; empty exactly when
      `s[..i]` has no word. */
  function LastWordSpan(s: string, i: nat): (r: Span)
    requires i <= |s|
    ensures r.hi <= i && ValidSpan(s, r) && NoSpace(At(s, r))
    ensures r.lo == r.hi <==> AllSpace(s[..i])
  {
    var u := TrimEnd(s[..i]);
    var n := TrailingWordLength(u);
    assert |u| > 0 ==> n > 0 && !IsSpace(s[..i][|u| - 1]);
    assert u[|u| - n..] == s[|u| - n..|u|];
    Span(|u| - n, |u|)
  }

  /** Where the leftmost match of pattern 5 starts. */
  function ConjStart(s: string): (r: Option<nat>)
    ensures r.Some? ==> r.value < |s| && ConjAt(s, r.value)
    ensures r.Some? ==> forall k :: 0 <= k < r.value ==> !ConjAt(s, k)
    ensures r.None? ==> forall k :: 0 <= k < |s| ==> !ConjAt(s, k)
  {
    var isMatch := (p: nat) => ConjAt(s, p);
    assert forall p: nat :: isMatch(p) == ConjAt(s, p);
    FirstWhere(|s|, isMatch, 0)
  }

  lemma ConjStartIs(s: string, p: nat)
    requires p < |s| && ConjAt(s, p)
    requires forall k :: 0 <= k < p ==> !ConjAt(s, k)
    ensures ConjStart(s) == Some(p)
  {
  }

  /** The last word before the leftmost match; empty when the match starts
      the title or there is none. */
  function ConjPattern(s: string): (r: Span)
    ensures ValidSpan(s, r) && NoSpace(At(s, r))
    ensures r.lo < r.hi ==> ConjStart(s).Some? && 0 < ConjStart(s).value
  {
    match ConjStart(s)
    case Some(i) => if i > 0 then LastWordSpan(s, i) else Span(0, 0)
    case None => Span(0, 0)
  }

  // ---------------------------------------------------------------------
  // The heuristic

  /** Where the answer of the first pattern that applies sits. */
  function ArtistSpan(title: string): (r: Span)
    ensures ValidSpan(title, r) && Stripped(At(title, r))
  {
    if RemixPattern(title).Some? then RemixPattern(title).value
    else if FeatPattern(title).Some? then FeatPattern(title).value
    else if DashPattern(title).Some? then DashPattern(title).value
    else if PossessivePattern(title).Some? then PossessivePattern(title).value
    else ConjPattern(title)
  }

  /** `_extract_artist_from_title`: the first pattern that applies decides;
      whatever it yields is a stripped piece of the title. */
  function ExtractArtist(title: string): (r: string)
    ensures Stripped(r) && IsInfix(r, title)
  {
    var sp := ArtistSpan(title);
    assert At(title, sp) == title[sp.lo..sp.hi];
    At(title, sp)
  }
}
