/** Character-level text helpers standing in for the Python string and regex
    operations the scrapers use: `str.strip`, `str.lower`, substring search,
    `", ".join` and decimal rendering of an index.

    Whitespace and case follow Python on ASCII text: `IsSpace` is exactly the
    ASCII part of `str.isspace()` (which is also what `\s` and `str.split()`
    use), and `Lower` is ASCII lower-casing, which is what a case-insensitive
    regex does on ASCII input. */
module Text {
  import opened Wrappers

  // ---------------------------------------------------------------------
  // Characters

  /** ASCII whitespace as Python sees it: space, \t \n \v \f \r and the
      four information separators 0x1c-0x1f. */
  predicate IsSpace(c: char) {
    c == ' ' || 9 <= c as int <= 13 || 28 <= c as int <= 31
  }

  function Lower(c: char): char {
    if 'A' <= c <= 'Z' then (c as int + 32) as char else c
  }

  /** `s.lower()` on ASCII text. */
  function Lowered(s: string): (r: string)
    ensures |r| == |s|
    ensures forall k {:trigger r[k]} :: 0 <= k < |s| ==> r[k] == Lower(s[k])
  {
    seq(|s|, k requires 0 <= k < |s| => Lower(s[k]))
  }

  lemma LoweredSlice(s: string, i: int, j: int)
    requires 0 <= i <= j <= |s|
    ensures Lowered(s[i..j]) == Lowered(s)[i..j]
  {
  }

  lemma LoweredConcat(a: string, b: string)
    ensures Lowered(a + b) == Lowered(a) + Lowered(b)
  {
  }

  /** A lower-case letter is absent from the lowered text when neither it
      nor its upper-case form occurs in the original. */
  lemma LowerAbsent(s: string, c: char)
    requires 'a' <= c <= 'z' && c !in s && (c as int - 32) as char !in s
    ensures c !in Lowered(s)
  {
    forall k | 0 <= k < |s|
      ensures Lowered(s)[k] != c
    {
      assert s[k] in s;
    }
  }

  predicate AllSpace(s: string) {
    forall k :: 0 <= k < |s| ==> IsSpace(s[k])
  }

  /** No whitespace at either end: what `str.strip()` produces. */
  predicate Stripped(s: string) {
    |s| == 0 || (!IsSpace(s[0]) && !IsSpace(s[|s| - 1]))
  }

  /** `r` is a contiguous piece `s[i..j]` of `s`. */
  ghost predicate IsInfix(r: string, s: string) {
    exists i, j :: 0 <= i <= j <= |s| && r == s[i..j]
  }

  lemma InfixTransitive(r: string, m: string, s: string)
    requires IsInfix(r, m) && IsInfix(m, s)
    ensures IsInfix(r, s)
  {
    var i, j :| 0 <= i <= j <= |m| && r == m[i..j];
    var i', j' :| 0 <= i' <= j' <= |s| && m == s[i'..j'];
    assert forall k :: 0 <= k < |r| ==> r[k] == m[i + k] == s[i' + i + k];
    assert r == s[i' + i..i' + j];
  }

  // ---------------------------------------------------------------------
  // str.strip()

  /** `s.lstrip()`: drops the leading whitespace and nothing else. */
  function TrimStart(s: string): (r: string)
    ensures |r| <= |s| && r == s[|s| - |r|..]
    ensures AllSpace(s[..|s| - |r|])
    ensures |r| == 0 || !IsSpace(r[0])
  {
    if |s| > 0 && IsSpace(s[0]) then TrimStart(s[1..]) else s
  }

  /** `s.rstrip()`: drops the trailing whitespace and nothing else. */
  function TrimEnd(s: string): (r: string)
    ensures |r| <= |s| && r == s[..|r|]
    ensures AllSpace(s[|r|..])
    ensures |r| == 0 || !IsSpace(r[|r| - 1])
  {
    if |s| > 0 && IsSpace(s[|s| - 1]) then TrimEnd(s[..|s| - 1]) else s
  }

  /** How much leading whitespace `str.strip()` removes. */
  function LeadingSpace(s: string): (n: nat)
    ensures n <= |s| && AllSpace(s[..n])
  {
    |s| - |TrimStart(s)|
  }

  /** `s.strip()`: the result has no whitespace at either end, and it is the
      piece of `s` after the leading whitespace, followed by whitespace only. */
  function Strip(s: string): (r: string)
    ensures Stripped(r)
    ensures LeadingSpace(s) + |r| <= |s|
    ensures r == s[LeadingSpace(s)..LeadingSpace(s) + |r|]
    ensures AllSpace(s[LeadingSpace(s) + |r|..])
  {
    var a := TrimStart(s);
    var r := TrimEnd(a);
    StripEnds(a, r);
    StripPieces(s, a, r, LeadingSpace(s));
    r
  }

  lemma StripEnds(a: string, r: string)
    requires |a| == 0 || !IsSpace(a[0])
    requires |r| <= |a| && r == a[..|r|] && (|r| == 0 || !IsSpace(r[|r| - 1]))
    ensures Stripped(r)
  {
    assert |r| > 0 ==> r[0] == a[0];
  }

  lemma StripPieces(s: string, a: string, r: string, i: nat)
    requires |a| <= |s| && i == |s| - |a| && a == s[i..]
    requires |r| <= |a| && r == a[..|r|] && AllSpace(a[|r|..])
    ensures r == s[i..i + |r|]
    ensures AllSpace(s[i + |r|..])
  {
    assert s[i + |r|..] == a[|r|..];
  }

  lemma StripIsInfix(s: string)
    ensures IsInfix(Strip(s), s)
  {
    var i := LeadingSpace(s);
    assert 0 <= i <= i + |Strip(s)| <= |s| && Strip(s) == s[i..i + |Strip(s)|];
  }

  lemma {:induction false} TrimStartPast(a: string, y: string)
    requires AllSpace(a)
    requires |y| == 0 || !IsSpace(y[0])
    ensures TrimStart(a + y) == y
    decreases |a|
  {
    if |a| > 0 {
      assert (a + y)[1..] == a[1..] + y;
      TrimStartPast(a[1..], y);
    }
  }

  lemma {:induction false} TrimEndPast(x: string, b: string)
    requires AllSpace(b)
    requires |x| == 0 || !IsSpace(x[|x| - 1])
    ensures TrimEnd(x + b) == x
    decreases |b|
  {
    if |b| > 0 {
      assert (x + b)[..|x + b| - 1] == x + b[..|b| - 1];
      TrimEndPast(x, b[..|b| - 1]);
    }
  }

  /** Strip's result is determined by the decomposition it promises: whatever
      stripped text sits between two whitespace runs is what comes back. */
  lemma {:induction false} StripUnique(a: string, x: string, b: string)
    requires AllSpace(a) && AllSpace(b) && Stripped(x)
    ensures Strip(a + x + b) == x
  {
    if |x| == 0 {
      assert a + x + b == a + b;
      assert AllSpace(a + b);
      TrimStartPast(a + b, "");
      assert a + b + "" == a + b;
    } else {
      assert a + x + b == a + (x + b);
      TrimStartPast(a, x + b);
      TrimEndPast(x, b);
    }
  }

  /** Stripping is idempotent: already-stripped text is left alone. */
  lemma StripStripped(s: string)
    requires Stripped(s)
    ensures Strip(s) == s
  {
    assert "" + s + "" == s;
    StripUnique("", s, "");
  }

  // ---------------------------------------------------------------------
  // Substring search (`pat in s`, `s.find(pat)`, `s.split(pat)`)

  predicate MatchesAt(s: string, pat: string, i: int) {
    0 <= i && i + |pat| <= |s| && s[i..i + |pat|] == pat
  }

  predicate Contains(s: string, pat: string) {
    exists i | 0 <= i <= |s| :: MatchesAt(s, pat, i)
  }

  /** The leftmost occurrence of `pat` in `s` at or after `from`. */
  function Find(s: string, pat: string, from: nat): (r: Option<nat>)
    ensures r.Some? ==> from <= r.value && MatchesAt(s, pat, r.value)
    ensures r.Some? ==> forall k :: from <= k < r.value ==> !MatchesAt(s, pat, k)
    ensures r.None? ==> forall k :: from <= k ==> !MatchesAt(s, pat, k)
    decreases |s| - from
  {
    if from + |pat| > |s| then None
    else if s[from..from + |pat|] == pat then Some(from)
    else Find(s, pat, from + 1)
  }

  lemma FindFromStart(s: string, pat: string)
    ensures Find(s, pat, 0).Some? <==> Contains(s, pat)
  {
    var r := Find(s, pat, 0);
    if r.Some? {
      assert MatchesAt(s, pat, r.value);
    }
  }

  /** A match with none before it (from `from` on) is what Find reports. */
  lemma FindLeftmost(s: string, pat: string, from: nat, i: nat)
    requires from <= i && MatchesAt(s, pat, i)
    requires forall k :: from <= k < i ==> !MatchesAt(s, pat, k)
    ensures Find(s, pat, from) == Some(i)
  {
    var r := Find(s, pat, from);
    assert r.Some?;
    assert r.value <= i;
  }

  lemma MatchesAtChar(s: string, c: char, k: int)
    ensures MatchesAt(s, [c], k) <==> 0 <= k < |s| && s[k] == c
  {
    if 0 <= k < |s| {
      assert s[k..k + 1] == [s[k]];
    }
  }

  /** A character missing from `s` rules out every occurrence of a pattern
      that contains it. */
  lemma AbsentCharNoMatch(s: string, pat: string, j: int, k: int)
    requires 0 <= j < |pat| && pat[j] !in s
    ensures !MatchesAt(s, pat, k)
  {
    if 0 <= k && k + |pat| <= |s| {
      assert s[k..k + |pat|][j] == s[k + j];
      assert s[k + j] in s;
    }
  }

  /** A pattern does not occur at k when one of its characters differs from
      the text there. */
  lemma MismatchNoMatch(s: string, pat: string, k: int, j: int)
    requires 0 <= j < |pat|
    requires 0 <= k && k + j < |s| ==> s[k + j] != pat[j]
    ensures !MatchesAt(s, pat, k)
  {
    if 0 <= k && k + |pat| <= |s| {
      assert s[k..k + |pat|][j] == s[k + j];
    }
  }

  lemma AbsentCharNotContained(s: string, pat: string, j: int)
    requires 0 <= j < |pat| && pat[j] !in s
    ensures !Contains(s, pat)
  {
    forall k | 0 <= k <= |s|
      ensures !MatchesAt(s, pat, k)
    {
      AbsentCharNoMatch(s, pat, j, k);
    }
  }

  /** Searching for a single character finds its first occurrence, and
      nothing when it does not occur. */
  lemma FindChar(s: string, c: char, from: nat)
    requires from <= |s|
    ensures Find(s, [c], from).None? <==> c !in s[from..]
    ensures Find(s, [c], from).Some? ==> var j := Find(s, [c], from).value;
              j < |s| && s[j] == c && c !in s[from..j]
  {
    var t := s[from..];
    match Find(s, [c], from)
    case Some(j) =>
      MatchesAtChar(s, c, j);
      assert t[j - from] == c;
      var u := s[from..j];
      forall m | 0 <= m < |u|
        ensures u[m] != c
      {
        MatchesAtChar(s, c, from + m);
      }
    case None =>
      forall m | 0 <= m < |t|
        ensures t[m] != c
      {
        MatchesAtChar(s, c, from + m);
      }
  }

  /** The converse: a character at j with none of it in between is found at j. */
  lemma FindCharAt(s: string, c: char, from: nat, j: nat)
    requires from <= j < |s| && s[j] == c && c !in s[from..j]
    ensures Find(s, [c], from) == Some(j)
  {
    MatchesAtChar(s, c, j);
    forall k | from <= k < j
      ensures !MatchesAt(s, [c], k)
    {
      MatchesAtChar(s, c, k);
      assert s[k] == s[from..j][k - from];
    }
    FindLeftmost(s, [c], from, j);
  }

  /** An occurrence inside a piece of a text is an occurrence in the text. */
  lemma MatchInInfix(s: string, pat: string, i: int, j: int, k: int)
    requires 0 <= i <= j <= |s|
    requires MatchesAt(s[i..j], pat, k)
    ensures MatchesAt(s, pat, i + k)
  {
    var t := s[i..j];
    var u, v := t[k..k + |pat|], s[i + k..i + k + |pat|];
    forall d | 0 <= d < |pat|
      ensures u[d] == v[d]
    {
      assert t[k + d] == s[i + k + d];
    }
    assert u == v;
  }

  /** A piece of a text without `pat` has no `pat` either. */
  lemma NoMatchInInfix(s: string, pat: string, i: int, j: int)
    requires 0 <= i <= j <= |s|
    requires !Contains(s, pat)
    ensures !Contains(s[i..j], pat)
  {
    forall k | 0 <= k <= j - i && MatchesAt(s[i..j], pat, k)
      ensures MatchesAt(s, pat, i + k)
    {
      MatchInInfix(s, pat, i, j, k);
    }
  }

  // ---------------------------------------------------------------------
  // sep.join(parts)

  function Join(parts: seq<string>, sep: string): string {
    if |parts| == 0 then ""
    else if |parts| == 1 then parts[0]
    else parts[0] + sep + Join(parts[1..], sep)
  }

  // ---------------------------------------------------------------------
  // Decimal rendering of a line number (`f"{i}"`)

  predicate IsDigit(c: char) {
    '0' <= c <= '9'
  }

  function Digit(d: nat): (c: char)
    requires d < 10
    ensures IsDigit(c) && c as int - '0' as int == d
  {
    ('0' as int + d) as char
  }

  /** The decimal numeral of n: digits only, no leading zero. */
  function NatToString(n: nat): (r: string)
    ensures 1 <= |r|
    ensures forall k :: 0 <= k < |r| ==> IsDigit(r[k])
    ensures 1 < |r| ==> r[0] != '0'
    decreases n
  {
    if n < 10 then [Digit(n)] else NatToString(n / 10) + [Digit(n % 10)]
  }

  /** Reads a numeral back: the reference for what NatToString renders. */
  function DecimalValue(s: string): nat
    requires forall k :: 0 <= k < |s| ==> IsDigit(s[k])
  {
    if |s| == 0 then 0
    else
      assert IsDigit(s[|s| - 1]);
      10 * DecimalValue(s[..|s| - 1]) + (s[|s| - 1] as int - '0' as int)
  }

  lemma {:induction false} DecimalRoundTrip(n: nat)
    ensures DecimalValue(NatToString(n)) == n
    decreases n
  {
    if n >= 10 {
      var r := NatToString(n);
      assert r[..|r| - 1] == NatToString(n / 10);
      DecimalRoundTrip(n / 10);
    }
  }
}
