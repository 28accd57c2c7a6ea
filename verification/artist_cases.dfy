/** What the artist heuristic yields on the title shapes its five patterns
    are written for, and on a title none of them fits. Each lemma names the
    first pattern that applies and shows the earlier ones do not. */
module ArtistCases {
  import opened Wrappers
  import opened Text
  import opened Artists

  // ---------------------------------------------------------------------
  // Ruling patterns out

  /** Without a `(` no remix group opens. */
  lemma NoRemix(s: string)
    requires '(' !in s
    ensures RemixPattern(s).None?
  {
    forall k | 0 <= k < |s|
      ensures !RemixAt(s, k)
    {
      assert s[k] in s;
    }
  }

  /** A character that lower-cases to `f` is `f` or `F`. */
  lemma NoLowerF(s: string, k: int)
    requires 'f' !in s && 'F' !in s && 0 <= k < |s|
    ensures Lowered(s)[k] != 'f'
  {
    assert s[k] in s;
  }

  /** No `feat`/`ft` keyword starts where the lower-cased title has no `f`. */
  lemma NoKeywordAt(s: string, k: nat)
    requires k < |s| ==> Lowered(s)[k] != 'f'
    ensures KeywordLength(s, k) == 0
  {
    MismatchNoMatch(Lowered(s), "feat", k, 0);
    MismatchNoMatch(Lowered(s), "ft", k, 0);
  }

  /** Without an `f` in any case, pattern 2 never matches. */
  lemma NoFeat(s: string)
    requires 'f' !in s && 'F' !in s
    ensures FeatPattern(s).None?
  {
    forall k | 0 <= k < |s|
      ensures FeatGroupAt(s, k).None?
    {
      NoLowerF(s, k);
      NoKeywordAt(s, k);
    }
  }

  /** Without `&` and without `d` (so without "and"), pattern 5 never
      matches and the heuristic's last resort yields nothing. */
  lemma NoConj(s: string)
    requires '&' !in s && 'd' !in s
    ensures ConjStart(s).None? && ConjPattern(s) == Span(0, 0)
  {
    forall k | 0 <= k < |s|
      ensures !ConjAt(s, k)
    {
      var e := k + SpaceRun(s, k);
      AbsentCharNoMatch(s, "and", 2, e);
      if e < |s| {
        assert s[e] in s;
      }
    }
  }

  // ---------------------------------------------------------------------
  // Pattern 1: "Title (Artist Remix)"

  /** The `(` at |a| opens a group that the first `)` after it closes. */
  lemma GroupAt(a: string, c: string, b: string)
    requires ')' !in c
    ensures Parenthesised(a + "(" + c + ")" + b, |a|) == Some(c)
  {
    var t := a + "(" + c + ")" + b;
    var p := |a|;
    assert t[p] == '(';
    assert t[p + 1..p + 1 + |c|] == c;
    assert t[p + 1 + |c|] == ')';
    FindCharAt(t, ')', p + 1, p + 1 + |c|);
  }

  /** "remix" in any case holds no `)`. */
  lemma RemixWordHasNoClose(w: string)
    requires Lowered(w) == "remix"
    ensures ')' !in w
  {
    forall k | 0 <= k < |w|
      ensures w[k] != ')'
    {
      assert Lower(w[k]) == "remix"[k];
    }
  }

  lemma RemixGroup(g: string, w: string)
    requires |g| >= 1 && ')' !in g && |w| == 5 && Lowered(w) == "remix"
    ensures ')' !in g + " " + w && RemixContent(g + " " + w)
  {
    var c := g + " " + w;
    RemixWordHasNoClose(w);
    assert c[|c| - 6] == ' ';
    assert c[|c| - 5..] == w;
  }

  /** The heuristic's answer is the text at the span it settles on. */
  lemma SpanDecides(t: string, sp: Span)
    requires ArtistSpan(t) == sp && sp.lo <= sp.hi <= |t|
    ensures ExtractArtist(t) == t[sp.lo..sp.hi]
  {
  }

  /** When the heuristic settles on the stripped piece `x` of the title,
      that is its answer. */
  lemma StrippedPieceDecides(t: string, lo: nat, hi: nat, x: string)
    requires lo <= hi <= |t| && x == t[lo..hi]
    requires ArtistSpan(t) == StripSpan(t, lo, hi)
    ensures ExtractArtist(t) == Strip(x)
  {
    SpanDecides(t, StripSpan(t, lo, hi));
    StripSpanText(t, lo, hi, x);
  }

  /** A remix match settles the heuristic. */
  lemma RemixChosen(t: string, p: nat)
    requires RemixStart(t) == Some(p)
    ensures ArtistSpan(t) == RemixAnswer(t, p)
  {
    assert RemixPattern(t) == Some(RemixAnswer(t, p));
  }

  lemma RemixAnswerIs(t: string, p: nat, c: string)
    requires RemixAt(t, p) && Parenthesised(t, p) == Some(c)
    ensures p + 1 + |c| - 6 <= |t|
    ensures RemixAnswer(t, p) == StripSpan(t, p + 1, p + 1 + |c| - 6)
  {
  }

  /** The leftmost remix group decides the heuristic: the answer is the
      group's text `x` before its last whitespace and "remix", stripped. */
  lemma RemixDecides(t: string, p: nat, c: string, x: string)
    requires RemixStart(t) == Some(p) && Parenthesised(t, p) == Some(c)
    requires p + 1 + |c| - 6 <= |t| && x == t[p + 1..p + 1 + |c| - 6]
    ensures ExtractArtist(t) == Strip(x)
  {
    RemixChosen(t, p);
    RemixAnswerIs(t, p, c);
    StrippedPieceDecides(t, p + 1, p + 1 + |c| - 6, x);
  }

  /** A remix group opened by the title's first `(` is the leftmost match. */
  lemma FirstRemixGroup(a: string, c: string, b: string)
    requires '(' !in a && ')' !in c && RemixContent(c)
    ensures RemixStart(a + "(" + c + ")" + b) == Some(|a|)
    ensures Parenthesised(a + "(" + c + ")" + b, |a|) == Some(c)
  {
    var t := a + "(" + c + ")" + b;
    GroupAt(a, c, b);
    forall k | 0 <= k < |a|
      ensures !RemixAt(t, k)
    {
      assert t[k] == a[k] && a[k] in a;
    }
    RemixStartIs(t, |a|);
  }

  /** A title `a(g remix)b` whose first `(` opens that group yields g,
      stripped. */
  lemma ExtractArtistRemix(t: string, a: string, g: string, w: string, b: string)
    requires t == a + "(" + g + " " + w + ")" + b
    requires '(' !in a && ')' !in g && |g| >= 1
    requires |w| == 5 && Lowered(w) == "remix"
    ensures ExtractArtist(t) == Strip(g)
  {
    var c := g + " " + w;
    assert t == a + "(" + c + ")" + b;
    RemixGroup(g, w);
    FirstRemixGroup(a, c, b);
    assert t[|a| + 1..|a| + 1 + |g|] == g;
    RemixDecides(t, |a|, c, g);
  }

  /** "Song (DJ Foo Remix)" names DJ Foo. */
  lemma ExtractArtistRemixExample(a: string, g: string, w: string)
    requires a == "Song " && g == "DJ Foo" && w == "Remix"
    ensures ExtractArtist(a + "(" + g + " " + w + ")") == "DJ Foo"
  {
    var t := a + "(" + g + " " + w + ")";
    RemixExampleFacts(a, g, w);
    assert t == t + "";
    ExtractArtistRemix(t, a, g, w, "");
  }

  lemma RemixExampleFacts(a: string, g: string, w: string)
    requires a == "Song " && g == "DJ Foo" && w == "Remix"
    ensures '(' !in a && ')' !in g && |g| >= 1
    ensures |w| == 5 && Lowered(w) == "remix" && Strip(g) == g
  {
    assert Lowered(w) == "remix";
    assert Stripped(g) by { assert !IsSpace(g[0]) && !IsSpace(g[|g| - 1]); }
    StripStripped(g);
  }

  // ---------------------------------------------------------------------
  // Pattern 2: "Title (feat. Artist)"

  lemma FeatChosen(t: string, p: nat)
    requires RemixStart(t).None? && FeatStart(t) == Some(p)
    ensures ArtistSpan(t) == FeatAnswer(t, p)
  {
    assert FeatPattern(t) == Some(FeatAnswer(t, p));
  }

  /** The lower-cased title reads "feat" at p. */
  lemma FeatKeyword(t: string, p: nat)
    requires p + 4 <= |t| && t[p..p + 4] == "feat"
    ensures KeywordLength(t, p) == 4
  {
    LoweredSlice(t, p, p + 4);
    assert Lowered("feat") == "feat";
  }

  /** "feat. g" with g non-empty, free of `)` and `]`, and not starting with
      whitespace, then `)`: the group is exactly g. */
  lemma FeatGroupIs(t: string, p: nat, g: string)
    requires p + 6 + |g| < |t| && t[p..p + 6] == "feat. " && t[p + 6..p + 6 + |g|] == g
    requires t[p + 6 + |g|] == ')'
    requires |g| >= 1 && !IsSpace(g[0]) && ')' !in g && ']' !in g
    ensures FeatGroupAt(t, p) == Some(Span(p + 6, p + 6 + |g|))
  {
    assert t[p..p + 4] == t[p..p + 6][..4];
    FeatKeyword(t, p);
    assert t[p + 4] == t[p..p + 6][4] && t[p + 5] == t[p..p + 6][5];
    assert t[p + 6] == g[0];
    assert SpaceRun(t, p + 6) == 0;
    assert SpaceRun(t, p + 5) == 1;
    var e := p + 6;
    forall k | e <= k < e + |g|
      ensures InGroup(t[k])
    {
      assert t[k] == g[k - e] && g[k - e] in g;
    }
    GroupEndAt(t, e, e + |g|);
  }

  /** The greedy group run stops at the first character it rejects. */
  lemma {:induction false} GroupEndAt(s: string, e: nat, h: nat)
    requires e <= h < |s| && !InGroup(s[h])
    requires forall k :: e <= k < h ==> InGroup(s[k])
    ensures GroupEnd(s, e) == h
    decreases h - e
  {
    if e < h {
      GroupEndAt(s, e + 1, h);
    }
  }

  lemma FeatAnswerIs(t: string, p: nat, g: Span)
    requires FeatGroupAt(t, p) == Some(g)
    ensures FeatAnswer(t, p) == StripSpan(t, g.lo, g.hi)
  {
  }

  /** A group whose last character is not `x` in any case does not end in
      "remix". */
  lemma NotRemixGroup(c: string)
    requires |c| >= 1 && Lower(c[|c| - 1]) != 'x'
    ensures !RemixContent(c)
  {
    if |c| >= 7 {
      assert Lowered(c[|c| - 5..])[4] == Lower(c[|c| - 1]);
    }
  }

  /** Only one `(` in the title, and its group is not a remix group. */
  lemma NoRemixBut(t: string, n: nat, c: string)
    requires n < |t| && Parenthesised(t, n) == Some(c) && !RemixContent(c)
    requires '(' !in t[..n] && '(' !in t[n + 1..]
    ensures RemixStart(t).None?
  {
    forall k | 0 <= k < |t|
      ensures !RemixAt(t, k)
    {
      if k < n {
        assert t[k] == t[..n][k] && t[..n][k] in t[..n];
      } else if k > n {
        assert t[k] == t[n + 1..][k - n - 1] && t[n + 1..][k - n - 1] in t[n + 1..];
      }
    }
  }

  /** A title `a(feat. g)b`, with its only `(` there and no `f` before it,
      yields g, stripped. */
  lemma ExtractArtistFeat(t: string, a: string, g: string, b: string)
    requires t == a + "(feat. " + g + ")" + b
    requires '(' !in a && '(' !in g && '(' !in b && 'f' !in a && 'F' !in a
    requires |g| >= 1 && !IsSpace(g[0]) && ')' !in g && ']' !in g
    requires Lower(g[|g| - 1]) != 'x'
    ensures ExtractArtist(t) == Strip(g)
  {
    FeatTitle(t, a, g, b);
    FeatGroupDecides(t, a, g);
  }

  lemma FeatGroupDecides(t: string, a: string, g: string)
    requires RemixStart(t).None? && FeatStart(t) == Some(|a| + 1)
    requires |a| + 7 + |g| <= |t| && t[|a| + 7..|a| + 7 + |g|] == g
    requires FeatGroupAt(t, |a| + 1) == Some(Span(|a| + 7, |a| + 7 + |g|))
    ensures ExtractArtist(t) == Strip(g)
  {
    var p := |a| + 1;
    FeatDecides(t, p, Span(p + 6, p + 6 + |g|), g);
  }

  /** Where the patterns stand on a title `a(feat. g)b`. */
  lemma FeatTitle(t: string, a: string, g: string, b: string)
    requires t == a + "(feat. " + g + ")" + b
    requires '(' !in a && '(' !in g && '(' !in b && 'f' !in a && 'F' !in a
    requires |g| >= 1 && !IsSpace(g[0]) && ')' !in g && ']' !in g
    requires Lower(g[|g| - 1]) != 'x'
    ensures RemixStart(t).None? && FeatStart(t) == Some(|a| + 1)
    ensures |a| + 7 + |g| <= |t| && t[|a| + 7..|a| + 7 + |g|] == g
    ensures FeatGroupAt(t, |a| + 1) == Some(Span(|a| + 7, |a| + 7 + |g|))
  {
    FeatTitleNoRemix(t, a, g, b);
    FeatTitleGroup(t, a, g, b);
  }

  lemma FeatTitleNoRemix(t: string, a: string, g: string, b: string)
    requires t == a + "(feat. " + g + ")" + b
    requires '(' !in a && '(' !in g && '(' !in b
    requires |g| >= 1 && ')' !in g && Lower(g[|g| - 1]) != 'x'
    ensures RemixStart(t).None?
  {
    var c := "feat. " + g;
    assert t == a + "(" + c + ")" + b;
    FeatContent(g, c);
    OneGroupNoRemix(t, a, c, b);
  }

  lemma FeatContent(g: string, c: string)
    requires c == "feat. " + g && |g| >= 1 && '(' !in g && ')' !in g
    ensures |c| >= 1 && c[|c| - 1] == g[|g| - 1] && '(' !in c && ')' !in c
  {
    assert forall k :: 6 <= k < |c| ==> c[k] == g[k - 6];
  }

  /** A title whose only `(` opens a group that is not a remix group has
      no remix match. */
  lemma OneGroupNoRemix(t: string, a: string, c: string, b: string)
    requires t == a + "(" + c + ")" + b
    requires '(' !in a && '(' !in c && '(' !in b
    requires |c| >= 1 && ')' !in c && Lower(c[|c| - 1]) != 'x'
    ensures RemixStart(t).None?
  {
    GroupAt(a, c, b);
    NotRemixGroup(c);
    OnlyOpenAt(t, a, c, b);
    NoRemixBut(t, |a|, c);
  }

  /** The `(` after a is the title's only one. */
  lemma OnlyOpenAt(t: string, a: string, c: string, b: string)
    requires t == a + "(" + c + ")" + b && '(' !in a && '(' !in c && '(' !in b
    ensures |a| < |t| && '(' !in t[..|a|] && '(' !in t[|a| + 1..]
  {
    assert t[..|a|] == a && t[|a| + 1..] == c + ")" + b;
  }

  /** The pieces of a title `a(feat. g)b`, by position. */
  lemma FeatTitleSlices(t: string, a: string, g: string, b: string)
    requires t == a + "(feat. " + g + ")" + b
    ensures |a| + 8 + |g| <= |t| && t[..|a|] == a && t[|a|] == '('
    ensures t[|a| + 1..|a| + 7] == "feat. " && t[|a| + 7..|a| + 7 + |g|] == g
    ensures t[|a| + 7 + |g|] == ')'
  {
  }

  lemma FeatTitleGroup(t: string, a: string, g: string, b: string)
    requires t == a + "(feat. " + g + ")" + b
    requires 'f' !in a && 'F' !in a
    requires |g| >= 1 && !IsSpace(g[0]) && ')' !in g && ']' !in g
    ensures FeatStart(t) == Some(|a| + 1)
    ensures |a| + 7 + |g| <= |t| && t[|a| + 7..|a| + 7 + |g|] == g
    ensures FeatGroupAt(t, |a| + 1) == Some(Span(|a| + 7, |a| + 7 + |g|))
  {
    FeatTitleSlices(t, a, g, b);
    FeatFirstAt(t, a, g);
  }

  /** With the title's pieces in place, the feat match after `(` is the
      leftmost one. */
  lemma FeatFirstAt(t: string, a: string, g: string)
    requires |a| + 8 + |g| <= |t| && t[..|a|] == a && t[|a|] == '('
    requires t[|a| + 1..|a| + 7] == "feat. " && t[|a| + 7..|a| + 7 + |g|] == g
    requires t[|a| + 7 + |g|] == ')'
    requires 'f' !in a && 'F' !in a
    requires |g| >= 1 && !IsSpace(g[0]) && ')' !in g && ']' !in g
    ensures FeatStart(t) == Some(|a| + 1)
    ensures FeatGroupAt(t, |a| + 1) == Some(Span(|a| + 7, |a| + 7 + |g|))
  {
    var p := |a| + 1;
    FeatGroupIs(t, p, g);
    NoFeatBefore(t, a, p);
    FeatStartIs(t, p);
  }

  /** No `feat`/`ft` match starts before p when a holds no `f` and the text
      between a and p is `(`. */
  lemma NoFeatBefore(t: string, a: string, p: nat)
    requires p == |a| + 1 <= |t| && t[..|a|] == a && t[|a|] == '('
    requires 'f' !in a && 'F' !in a
    ensures forall k :: 0 <= k < p ==> FeatGroupAt(t, k).None?
  {
    forall k | 0 <= k < p
      ensures FeatGroupAt(t, k).None?
    {
      if k < |a| {
        NoLowerF(a, k);
        assert t[k] == a[k];
      }
      NoKeywordAt(t, k);
    }
  }

  /** The leftmost feat match decides the heuristic when no remix group
      does. */
  lemma FeatDecides(t: string, p: nat, g: Span, x: string)
    requires RemixStart(t).None? && FeatStart(t) == Some(p)
    requires FeatGroupAt(t, p) == Some(g) && g.lo <= g.hi <= |t| && x == t[g.lo..g.hi]
    ensures ExtractArtist(t) == Strip(x)
  {
    FeatChosen(t, p);
    FeatAnswerIs(t, p, g);
    StrippedPieceDecides(t, g.lo, g.hi, x);
  }

  // ---------------------------------------------------------------------
  // Pattern 3: "Title - Artist"

  lemma DashChosen(t: string, i: nat)
    requires RemixPattern(t).None? && FeatPattern(t).None?
    requires i + 3 <= |t| && Find(t, " - ", 0) == Some(i)
    ensures ArtistSpan(t) == DashAnswer(t, i)
  {
    assert DashPattern(t) == Some(DashAnswer(t, i));
  }

  lemma DashAnswerIs(t: string, i: nat, e: nat)
    requires i + 3 <= |t| && NextOr(t, " - ", i + 3) == e
    ensures DashAnswer(t, i) == StripSpan(t, i + 3, e)
  {
  }

  /** No match starts inside a suffix of t that does not hold the pattern. */
  lemma NoMatchInSuffix(t: string, n: nat, b: string, pat: string)
    requires n <= |t| && t[n..] == b && !Contains(b, pat)
    ensures forall k :: n <= k ==> !MatchesAt(t, pat, k)
  {
    forall k | n <= k
      ensures !MatchesAt(t, pat, k)
    {
      if k + |pat| <= |t| {
        var u, v := t[k..k + |pat|], b[k - n..k - n + |pat|];
        forall d | 0 <= d < |pat|
          ensures u[d] == v[d]
        {
          assert v[d] == t[n..][k - n + d];
        }
        assert u == v;
        assert !MatchesAt(b, pat, k - n);
      }
    }
  }

  /** The separator after a, which holds no `-`, is the first " - ". */
  lemma FirstDash(t: string, a: string, b: string)
    requires t == a + " - " + b && '-' !in a
    ensures Find(t, " - ", 0) == Some(|a|)
  {
    forall k | 0 <= k < |a|
      ensures !MatchesAt(t, " - ", k)
    {
      if k + 1 < |a| {
        assert t[k + 1] == a[k + 1] && a[k + 1] in a;
      }
      MismatchNoMatch(t, " - ", k, 1);
    }
    assert t[|a|..|a| + 3] == " - ";
    FindLeftmost(t, " - ", 0, |a|);
  }

  /** A match in a suffix of t is a match in t, shifted. */
  lemma MatchShift(t: string, n: nat, b: string, pat: string, k: nat)
    requires n <= |t| && t[n..] == b
    ensures MatchesAt(t, pat, n + k) <==> MatchesAt(b, pat, k)
  {
    if n + k + |pat| <= |t| {
      var u, v := t[n + k..n + k + |pat|], b[k..k + |pat|];
      forall d | 0 <= d < |pat|
        ensures u[d] == v[d]
      {
        assert v[d] == b[k + d] == t[n + k + d];
      }
      assert u == v;
    }
  }

  /** Searching t from n finds what searching its suffix b = t[n..] finds. */
  lemma NextOrShift(t: string, n: nat, b: string, pat: string)
    requires n <= |t| && t[n..] == b
    ensures NextOr(t, pat, n) == n + NextOr(b, pat, 0)
  {
    var e, r := NextOr(b, pat, 0), NextOr(t, pat, n);
    if r < n + e {
      MatchShift(t, n, b, pat, r - n);
    } else if r > n + e {
      MatchShift(t, n, b, pat, e);
    }
  }

  /** A title `a - b` whose first " - " is the one after a, with no `(` and
      no `f` in any case, yields the stripped piece of b before b's own
      first " - " (all of b when it has none): `split(' - ')[1].strip()`. */
  lemma ExtractArtistDash(t: string, a: string, b: string)
    requires t == a + " - " + b
    requires '(' !in t && 'f' !in t && 'F' !in t
    requires Find(t, " - ", 0) == Some(|a|)
    ensures ExtractArtist(t) == Strip(b[..NextOr(b, " - ", 0)])
  {
    NoRemix(t);
    NoFeat(t);
    var e := NextOr(b, " - ", 0);
    DashPiece(t, a, b);
    DashDecides(t, |a|, |a| + 3 + e, b[..e]);
  }

  /** In `a - b`, the piece after the separator ends where b's own first
      " - " starts. */
  lemma DashPiece(t: string, a: string, b: string)
    requires t == a + " - " + b
    ensures var e := NextOr(b, " - ", 0);
      NextOr(t, " - ", |a| + 3) == |a| + 3 + e && t[|a| + 3..|a| + 3 + e] == b[..e]
  {
    var n := |a| + 3;
    assert t[n..] == b;
    NextOrShift(t, n, b, " - ");
    var e := NextOr(b, " - ", 0);
    assert t[n..n + e] == b[..e];
  }

  /** "Song - Bar" names Bar. */
  lemma ExtractArtistDashExample(a: string, b: string)
    requires a == "Song" && b == "Bar"
    ensures ExtractArtist(a + " - " + b) == "Bar"
  {
    var t := a + " - " + b;
    SongBarFacts(a, b, t);
    FirstDash(t, a, b);
    WholePiece(b, " - ");
    ExtractArtistDash(t, a, b);
  }

  /** Text without the separator is one piece. */
  lemma WholePiece(b: string, pat: string)
    requires !Contains(b, pat)
    ensures NextOr(b, pat, 0) == |b| && b[..NextOr(b, pat, 0)] == b
  {
    var e := NextOr(b, pat, 0);
    if e < |b| {
      assert false;
    }
  }

  lemma SongBarFacts(a: string, b: string, t: string)
    requires a == "Song" && b == "Bar" && t == a + " - " + b
    ensures '(' !in t && 'f' !in t && 'F' !in t && '-' !in a
    ensures !Contains(b, " - ") && Strip(b) == b
  {
    BarFacts(b);
  }

  lemma BarFacts(b: string)
    requires b == "Bar"
    ensures !Contains(b, " - ") && Strip(b) == b
  {
    AbsentCharNotContained(b, " - ", 1);
    assert Stripped(b) by { assert !IsSpace(b[0]) && !IsSpace(b[|b| - 1]); }
    StripStripped(b);
  }

  lemma DashDecides(t: string, i: nat, e: nat, x: string)
    requires RemixPattern(t).None? && FeatPattern(t).None?
    requires i + 3 <= |t| && Find(t, " - ", 0) == Some(i)
    requires NextOr(t, " - ", i + 3) == e && x == t[i + 3..e]
    ensures ExtractArtist(t) == Strip(x)
  {
    DashChosen(t, i);
    DashAnswerIs(t, i, e);
    StrippedPieceDecides(t, i + 3, e, x);
  }

  // ---------------------------------------------------------------------
  // Pattern 4: "Artist's Title"

  lemma PossessiveChosen(t: string, i: nat)
    requires RemixPattern(t).None? && FeatPattern(t).None? && !Contains(t, " - ")
    requires Find(t, "'s", 0) == Some(i)
    ensures i <= |t| && ArtistSpan(t) == StripSpan(t, 0, i)
  {
    assert PossessivePattern(t) == Some(PossessiveAnswer(t, i));
  }

  /** A title `a's b` with no `(`, no `f` in any case, no " - " and no
      earlier "'s" yields a, stripped. */
  lemma ExtractArtistPossessive(t: string, a: string, b: string)
    requires t == a + "'s" + b
    requires '(' !in t && 'f' !in t && 'F' !in t && !Contains(t, " - ")
    requires !Contains(a, "'s")
    ensures ExtractArtist(t) == Strip(a)
  {
    NoRemix(t);
    NoFeat(t);
    forall k | 0 <= k < |a|
      ensures !MatchesAt(t, "'s", k)
    {
      if k + 2 <= |a| {
        assert !MatchesAt(a, "'s", k);
        assert t[k..k + 2] == a[k..k + 2];
      } else {
        MismatchNoMatch(t, "'s", k, 1);
      }
    }
    assert t[|a|..|a| + 2] == "'s";
    FindLeftmost(t, "'s", 0, |a|);
    PossessiveChosen(t, |a|);
    assert t[0..|a|] == a;
    StrippedPieceDecides(t, 0, |a|, a);
  }

  // ---------------------------------------------------------------------
  // Pattern 5: "Artist & Artist"

  lemma ConjChosen(t: string, i: nat)
    requires RemixPattern(t).None? && FeatPattern(t).None?
    requires !Contains(t, " - ") && !Contains(t, "'s")
    requires ConjStart(t) == Some(i) && 0 < i
    ensures ArtistSpan(t) == LastWordSpan(t, i)
  {
    assert ConjPattern(t) == LastWordSpan(t, i);
  }

  /** A word that is all of `x` is the last word of x. */
  lemma WholeWord(x: string)
    requires NoSpace(x)
    ensures TrailingWordLength(x) == |x|
  {
    var n := TrailingWordLength(x);
  }

  lemma LastWordWhole(t: string, x: string)
    requires 0 < |x| <= |t| && t[..|x|] == x && NoSpace(x)
    ensures LastWordSpan(t, |x|) == Span(0, |x|)
  {
    assert !IsSpace(x[|x| - 1]);
    assert TrimEnd(x) == x;
    WholeWord(x);
  }

  /** In `x & y`, with no whitespace in x, the conjunction starts right
      after x. */
  lemma ConjTitleStart(t: string, x: string, y: string)
    requires t == x + " & " + y
    requires |x| >= 1 && NoSpace(x)
    ensures |x| < |t| && t[..|x|] == x
    ensures ConjStart(t) == Some(|x|)
  {
    forall k | 0 <= k < |x|
      ensures !ConjAt(t, k)
    {
      assert t[k] == x[k];
    }
    var n := |x|;
    assert t[n] == ' ' && t[n + 1] == '&' && t[n + 2] == ' ';
    assert SpaceRun(t, n + 1) == 0;
    assert SpaceRun(t, n) == 1;
    ConjStartIs(t, n);
    assert t[..n] == x;
  }

  /** A title `x & y` whose first word x holds no whitespace, with no
      earlier pattern applying, yields x. */
  lemma ExtractArtistConj(t: string, x: string, y: string)
    requires t == x + " & " + y
    requires |x| >= 1 && NoSpace(x)
    requires '(' !in t && 'f' !in t && 'F' !in t
    requires !Contains(t, " - ") && !Contains(t, "'s")
    ensures ExtractArtist(t) == x
  {
    NoRemix(t);
    NoFeat(t);
    ConjTitleStart(t, x, y);
    ConjChosen(t, |x|);
    LastWordWhole(t, x);
    SpanDecides(t, Span(0, |x|));
  }

  // ---------------------------------------------------------------------
  // No pattern

  /** A title none of the five patterns fits yields the empty string; so
      does one whose only conjunction match starts the title. */
  lemma ExtractArtistNone(t: string)
    requires '(' !in t && 'f' !in t && 'F' !in t
    requires !Contains(t, " - ") && !Contains(t, "'s")
    requires ConjStart(t).None? || ConjStart(t) == Some(0)
    ensures ExtractArtist(t) == ""
  {
    NoRemix(t);
    NoFeat(t);
    SpanDecides(t, Span(0, 0));
  }

  /** "Plain Title" names nobody. */
  lemma ExtractArtistPlainTitle(t: string)
    requires t == "Plain Title"
    ensures ExtractArtist(t) == ""
  {
    assert '(' !in t && 'f' !in t && 'F' !in t && '&' !in t && 'd' !in t;
    AbsentCharNotContained(t, " - ", 1);
    AbsentCharNotContained(t, "'s", 0);
    NoConj(t);
    ExtractArtistNone(t);
  }
}
