/** The Apple Music scraper's title normaliser (`_clean_title`), written as
    explicit scans over ASCII text without line breaks.

    The source applies six regex substitutions and a strip:
      1. `\([^)]*\)`      -> ''   every `(` up to the first `)` after it
      2. `\[[^]]*\]`      -> ''   the same for `[` and `]`
      3. `feat\..*$`      -> ''   case-insensitive, cut to end of string
      4. `ft\..*$`        -> ''
      5. `remix.*$`       -> ''
      6. `radio edit.*$`  -> ''
      7. `.strip()`
    On a line-free string `.*$` always reaches the end, so steps 3-6 cut at
    the first case-insensitive occurrence of the marker, with no word
    boundary. */
module Titles {
  import opened Wrappers
  import opened Text

  // ---------------------------------------------------------------------
  // Group removal (steps 1 and 2)

  /** No `open` has a `close` anywhere after it: the regex of step 1 or 2
      finds nothing left to delete. */
  predicate NoGroup(s: string, open: char, close: char) {
    forall i :: 0 <= i < |s| && s[i] == open ==> close !in s[i + 1..]
  }

  /** Text without `open` has no group. */
  lemma NoGroupWithout(s: string, open: char, close: char)
    requires open !in s
    ensures NoGroup(s, open, close)
  {
    forall i | 0 <= i < |s|
      ensures s[i] != open
    {
      assert s[i] in s;
    }
  }

  /** Putting one character in front of group-free text keeps it group-free
      unless that character opens a group. */
  lemma NoGroupCons(x: char, rest: string, open: char, close: char)
    requires NoGroup(rest, open, close)
    requires x == open ==> close !in rest
    ensures NoGroup([x] + rest, open, close)
  {
    var r := [x] + rest;
    assert r[1..] == rest;
    forall i | 0 <= i < |r| && r[i] == open
      ensures close !in r[i + 1..]
    {
      if i > 0 {
        assert r[i + 1..] == rest[i..];
        assert rest[i - 1] == open;
      }
    }
  }

  lemma NoGroupInInfix(s: string, i: int, j: int, open: char, close: char)
    requires 0 <= i <= j <= |s|
    requires NoGroup(s, open, close)
    ensures NoGroup(s[i..j], open, close)
  {
    var t := s[i..j];
    forall x | 0 <= x < |t| && t[x] == open
      ensures close !in t[x + 1..]
    {
      assert t[x] == s[i + x];
      var u, v := t[x + 1..], s[i + x + 1..];
      forall y | 0 <= y < |u|
        ensures u[y] != close
      {
        assert u[y] == v[y] && v[y] in v;
      }
    }
  }

  /** `re.sub(open + '[^' + close + ']*' + close, '', s)`: scanning from the
      left, an `open` that has a `close` after it is deleted together with
      everything up to and including the first such `close`; an `open` with
      no `close` after it stays. */
  function DropGroups(s: string, open: char, close: char): (r: string)
    ensures |r| <= |s|
    ensures forall x :: x in r ==> x in s
    decreases |s|
  {
    if |s| == 0 then ""
    else if s[0] == open && Find(s, [close], 1).Some? then
      var j := Find(s, [close], 1).value;
      var r := DropGroups(s[j + 1..], open, close);
      assert forall x :: x in s[j + 1..] ==> x in s;
      r
    else
      var r := [s[0]] + DropGroups(s[1..], open, close);
      assert forall x :: x in s[1..] ==> x in s;
      r
  }

  /** After step 1 (or 2) no group of that kind is left. */
  lemma {:induction false} DropGroupsLeavesNone(s: string, open: char, close: char)
    ensures NoGroup(DropGroups(s, open, close), open, close)
    decreases |s|
  {
    if |s| > 0 {
      if s[0] == open && Find(s, [close], 1).Some? {
        var j := Find(s, [close], 1).value;
        DropGroupsLeavesNone(s[j + 1..], open, close);
      } else {
        DropGroupsLeavesNone(s[1..], open, close);
        if s[0] == open {
          // this `open` has no `close` after it, and the rest of the result
          // only holds characters of s[1..]
          FindChar(s, close, 1);
        }
        NoGroupCons(s[0], DropGroups(s[1..], open, close), open, close);
      }
    }
  }

  /** Deleting groups of one kind never creates a group of another kind (the
      result is a subsequence of the input). */
  lemma {:induction false} DropGroupsKeepsFree(s: string, open: char, close: char, o: char, c: char)
    requires NoGroup(s, o, c)
    ensures NoGroup(DropGroups(s, open, close), o, c)
    decreases |s|
  {
    if |s| > 0 {
      if s[0] == open && Find(s, [close], 1).Some? {
        var j := Find(s, [close], 1).value;
        NoGroupInInfix(s, j + 1, |s|, o, c);
        assert s[j + 1..|s|] == s[j + 1..];
        DropGroupsKeepsFree(s[j + 1..], open, close, o, c);
      } else {
        NoGroupInInfix(s, 1, |s|, o, c);
        assert s[1..|s|] == s[1..];
        var rest := DropGroups(s[1..], open, close);
        DropGroupsKeepsFree(s[1..], open, close, o, c);
        if s[0] == o {
          // rest only holds characters of s[1..], which holds no c
          assert c !in s[1..];
          assert c !in rest;
        }
        NoGroupCons(s[0], rest, o, c);
      }
    }
  }

  /** Text without a group is left exactly as it is. */
  lemma {:induction false} DropGroupsFixes(s: string, open: char, close: char)
    requires NoGroup(s, open, close)
    ensures DropGroups(s, open, close) == s
    decreases |s|
  {
    if |s| > 0 {
      FindChar(s, close, 1);
      NoGroupInInfix(s, 1, |s|, open, close);
      assert s[1..|s|] == s[1..];
      DropGroupsFixes(s[1..], open, close);
      assert [s[0]] + s[1..] == s;
    }
  }

  /** What step 1 (or 2) deletes: a group `open g close` with no `close`
      inside `g`, preceded by text without `open`, disappears entirely. */
  lemma {:induction false} DropGroupsRemoves(a: string, g: string, b: string, open: char, close: char)
    requires open != close
    requires open !in a && close !in g
    ensures DropGroups(a + [open] + g + [close] + b, open, close) == a + DropGroups(b, open, close)
    decreases |a|
  {
    var s := a + [open] + g + [close] + b;
    if |a| == 0 {
      assert s == [open] + g + [close] + b;
      var q := |g| + 1;
      MatchesAtChar(s, close, q);
      forall k | 1 <= k < q
        ensures !MatchesAt(s, [close], k)
      {
        MatchesAtChar(s, close, k);
        assert s[k] == g[k - 1] && g[k - 1] in g;
      }
      FindLeftmost(s, [close], 1, q);
      assert s[q + 1..] == b;
    } else {
      assert s[1..] == a[1..] + [open] + g + [close] + b;
      DropGroupsRemoves(a[1..], g, b, open, close);
      assert [a[0]] + a[1..] == a;
    }
  }

  // ---------------------------------------------------------------------
  // Suffix cuts (steps 3 to 6)

  /** A case-insensitive occurrence of a lower-case marker: the marker
      occurs in the lower-cased text. */
  predicate HasMarker(s: string, marker: string) {
    Contains(Lowered(s), marker)
  }

  lemma NoMarkerInInfix(s: string, marker: string, i: int, j: int)
    requires 0 <= i <= j <= |s|
    requires !HasMarker(s, marker)
    ensures !HasMarker(s[i..j], marker)
  {
    LoweredSlice(s, i, j);
    NoMatchInInfix(Lowered(s), marker, i, j);
  }

  /** `re.sub(marker + '.*$', '', s, flags=re.IGNORECASE)` on line-free
      text, for a lower-case marker: everything from the first
      case-insensitive occurrence of `marker` on is deleted, and the text
      before it is kept. */
  function CutAt(s: string, marker: string): (r: string)
    requires marker != ""
    ensures |r| <= |s| && r == s[..|r|]
    ensures !HasMarker(r, marker)
    ensures !HasMarker(s, marker) ==> r == s
    ensures HasMarker(s, marker) ==> MatchesAt(Lowered(s), marker, |r|)
    ensures forall k :: 0 <= k < |r| ==> !MatchesAt(Lowered(s), marker, k)
  {
    var lowered := Lowered(s);
    FindFromStart(lowered, marker);
    match Find(lowered, marker, 0)
    case Some(i) =>
      LoweredSlice(s, 0, i);
      forall k | 0 <= k <= i && MatchesAt(lowered[..i], marker, k)
        ensures false
      {
        MatchInInfix(lowered, marker, 0, i, k);
      }
      s[..i]
    case None =>
      FindFromStart(lowered, marker);
      s
  }

  /** The noise markers of steps 3-6, in the order they are cut. */
  const Markers: seq<string> := ["feat.", "ft.", "remix", "radio edit"]

  /** None of the markers `ms` occurs (case-insensitively). */
  predicate NoneOf(s: string, ms: seq<string>) {
    forall k :: 0 <= k < |ms| ==> !HasMarker(s, ms[k])
  }

  /** The noise markers are all gone. */
  predicate NoMarkers(s: string) {
    NoneOf(s, Markers)
  }

  lemma NoneOfInInfix(s: string, ms: seq<string>, i: int, j: int, t: string)
    requires 0 <= i <= j <= |s| && t == s[i..j]
    requires NoneOf(s, ms)
    ensures NoneOf(t, ms)
  {
    forall k | 0 <= k < |ms|
      ensures !HasMarker(t, ms[k])
    {
      NoMarkerInInfix(s, ms[k], i, j);
    }
  }

  // ---------------------------------------------------------------------
  // The normaliser

  /** What `_clean_title` produces and leaves alone: no surrounding
      whitespace, no `(...)` or `[...]` group, no noise marker. */
  predicate IsClean(s: string) {
    && Stripped(s)
    && NoGroup(s, '(', ')')
    && NoGroup(s, '[', ']')
    && NoMarkers(s)
  }

  /** Cuts at each marker of `ms` in turn. */
  function CutAll(s: string, ms: seq<string>): (r: string)
    requires forall k :: 0 <= k < |ms| ==> ms[k] != ""
    ensures |r| <= |s| && r == s[..|r|]
    ensures NoneOf(r, ms)
    ensures NoneOf(s, ms) ==> r == s
    decreases |ms|
  {
    if |ms| == 0 then s
    else
      var first := CutAt(s, ms[0]);
      var r := CutAll(first, ms[1..]);
      NoMarkerInInfix(first, ms[0], 0, |r|);
      assert r == first[..|r|];
      assert forall k :: 1 <= k < |ms| ==> ms[k] == ms[1..][k - 1];
      r
  }

  /** Steps 3-6: the cuts in the source's order. */
  function CutMarkers(s: string): (r: string)
    ensures |r| <= |s| && r == s[..|r|]
    ensures NoMarkers(r)
    ensures NoMarkers(s) ==> r == s
  {
    CutAll(s, Markers)
  }

  /** `_clean_title`: the result is clean (no group, no marker, no
      surrounding whitespace). */
  function CleanTitle(title: string): (r: string)
    ensures IsClean(r)
  {
    var noParens := DropGroups(title, '(', ')');
    var noGroups := DropGroups(noParens, '[', ']');
    var cut := CutMarkers(noGroups);
    CleanStepsClean(title, noParens, noGroups, cut);
    Strip(cut)
  }

  lemma CleanStepsClean(title: string, noParens: string, noGroups: string, cut: string)
    requires noParens == DropGroups(title, '(', ')')
    requires noGroups == DropGroups(noParens, '[', ']')
    requires |cut| <= |noGroups| && cut == noGroups[..|cut|] && NoMarkers(cut)
    ensures IsClean(Strip(cut))
  {
    DropGroupsLeavesNone(title, '(', ')');
    DropGroupsKeepsFree(noParens, '[', ']', '(', ')');
    DropGroupsLeavesNone(noParens, '[', ']');
    NoGroupInInfix(noGroups, 0, |cut|, '(', ')');
    NoGroupInInfix(noGroups, 0, |cut|, '[', ']');
    StripKeepsClean(cut);
  }

  /** Stripping a group-free, marker-free text makes it clean. */
  lemma StripKeepsClean(cut: string)
    requires NoGroup(cut, '(', ')') && NoGroup(cut, '[', ']') && NoMarkers(cut)
    ensures IsClean(Strip(cut))
  {
    StripNoGroup(cut, '(', ')');
    StripNoGroup(cut, '[', ']');
    StripNoneOf(cut, Markers);
  }

  lemma StripNoGroup(s: string, open: char, close: char)
    requires NoGroup(s, open, close)
    ensures NoGroup(Strip(s), open, close)
  {
    var i := LeadingSpace(s);
    NoGroupInInfix(s, i, i + |Strip(s)|, open, close);
  }

  lemma StripNoneOf(s: string, ms: seq<string>)
    requires NoneOf(s, ms)
    ensures NoneOf(Strip(s), ms)
  {
    var i := LeadingSpace(s);
    NoneOfInInfix(s, ms, i, i + |Strip(s)|, Strip(s));
  }

  /** Clean titles are exactly the fixed points of `_clean_title`. */
  lemma CleanTitleFixes(s: string)
    ensures CleanTitle(s) == s <==> IsClean(s)
  {
    if IsClean(s) {
      DropGroupsFixes(s, '(', ')');
      DropGroupsFixes(s, '[', ']');
      StripStripped(s);
    }
  }

  /** `_clean_title` is idempotent. */
  lemma CleanTitleIdempotent(s: string)
    ensures CleanTitle(CleanTitle(s)) == CleanTitle(s)
  {
    CleanTitleFixes(CleanTitle(s));
  }

  /** A marker whose first letter never occurs (in lower case) is absent. */
  lemma AbsentMarker(s: string, marker: string)
    requires marker != "" && marker[0] !in Lowered(s)
    ensures !HasMarker(s, marker)
  {
    forall k | 0 <= k < |s|
      ensures !MatchesAt(Lowered(s), marker, k)
    {
      assert Lowered(s)[k] in Lowered(s);
    }
  }

  /** Every noise marker starts with `f` or `r`, so text with neither letter
      (in either case) has none of them. */
  lemma NoMarkersWithout(s: string)
    requires 'f' !in s && 'F' !in s && 'r' !in s && 'R' !in s
    ensures NoMarkers(s)
  {
    LowerAbsent(s, 'f');
    LowerAbsent(s, 'r');
    forall k | 0 <= k < |Markers|
      ensures !HasMarker(s, Markers[k])
    {
      AbsentMarker(s, Markers[k]);
    }
  }

  // ---------------------------------------------------------------------
  // The documented examples, one small step per lemma

  lemma SongHasNoGroup()
    ensures NoGroup("Song", '(', ')') && NoGroup("Song", '[', ']')
  {
    NoGroupWithout("Song", '(', ')');
    NoGroupWithout("Song", '[', ']');
  }

  lemma SongHasNoMarker()
    ensures NoMarkers("Song")
  {
    NoMarkersWithout("Song");
  }

  lemma SongStripped()
    ensures Stripped("Song") && Strip("Song ") == "Song"
  {
    assert "" + "Song" + " " == "Song ";
    StripUnique("", "Song", " ");
  }

  lemma SongIsClean()
    ensures IsClean("Song") && Strip("Song ") == "Song"
  {
    SongHasNoGroup();
    SongHasNoMarker();
    SongStripped();
  }

  lemma SongSpaceUnchanged()
    ensures CutMarkers("Song ") == "Song "
    ensures DropGroups("Song ", '[', ']') == "Song "
  {
    NoMarkersWithout("Song ");
    NoGroupWithout("Song ", '[', ']');
    DropGroupsFixes("Song ", '[', ']');
  }

  lemma RadioEditGroupDropped()
    ensures DropGroups("Song (Radio Edit)", '(', ')') == "Song "
  {
    assert "Song (Radio Edit)" == "Song " + ['('] + "Radio Edit" + [')'] + "";
    DropGroupsRemoves("Song ", "Radio Edit", "", '(', ')');
  }

  /** `_clean_title("Song (Radio Edit)") == "Song"`. */
  lemma CleanTitleRadioEdit()
    ensures CleanTitle("Song (Radio Edit)") == "Song"
  {
    RadioEditGroupDropped();
    SongSpaceUnchanged();
    SongIsClean();
  }

  lemma RemixHasNoParens()
    ensures DropGroups("Song [Remix]", '(', ')') == "Song [Remix]"
  {
    NoGroupWithout("Song [Remix]", '(', ')');
    DropGroupsFixes("Song [Remix]", '(', ')');
  }

  lemma RemixBracketDropped()
    ensures DropGroups("Song [Remix]", '[', ']') == "Song "
  {
    assert "Song [Remix]" == "Song " + ['['] + "Remix" + [']'] + "";
    DropGroupsRemoves("Song ", "Remix", "", '[', ']');
  }

  /** `_clean_title("Song [Remix]") == "Song"`. */
  lemma CleanTitleBracketRemix()
    ensures CleanTitle("Song [Remix]") == "Song"
  {
    RemixHasNoParens();
    RemixBracketDropped();
    SongSpaceUnchanged();
    SongIsClean();
  }

  lemma FeatHasNoGroup()
    ensures DropGroups("Song feat. X", '(', ')') == "Song feat. X"
    ensures DropGroups("Song feat. X", '[', ']') == "Song feat. X"
  {
    NoGroupWithout("Song feat. X", '(', ')');
    NoGroupWithout("Song feat. X", '[', ']');
    DropGroupsFixes("Song feat. X", '(', ')');
    DropGroupsFixes("Song feat. X", '[', ']');
  }

  /** Cutting at a marker that begins `b`, when the marker's first letter
      does not occur in `a`, leaves exactly `a`. */
  lemma CutAtSplit(a: string, b: string, marker: string)
    requires marker != "" && MatchesAt(Lowered(b), marker, 0)
    requires marker[0] !in Lowered(a)
    ensures CutAt(a + b, marker) == a
  {
    var l := Lowered(a + b);
    LoweredConcat(a, b);
    assert l[|a|..|a| + |marker|] == Lowered(b)[..|marker|];
    forall k | 0 <= k < |a|
      ensures !MatchesAt(l, marker, k)
    {
      assert l[k] == Lowered(a)[k];
    }
    FindLeftmost(l, marker, 0, |a|);
    assert (a + b)[..|a|] == a;
  }

  /** The first of the cuts: at `feat.`. */
  lemma CutMarkersFirst(s: string)
    ensures CutMarkers(s) == CutAll(CutAt(s, "feat."), Markers[1..])
  {
    assert Markers[0] == "feat.";
  }

  lemma FeatCut()
    ensures CutAt("Song feat. X", "feat.") == "Song "
  {
    assert Lowered("feat. X")[..5] == "feat.";
    LowerAbsent("Song ", 'f');
    assert "Song " + "feat. X" == "Song feat. X";
    CutAtSplit("Song ", "feat. X", "feat.");
  }

  lemma SongSpaceRestUnchanged()
    ensures CutAll("Song ", Markers[1..]) == "Song "
  {
    NoMarkersWithout("Song ");
    var rest := Markers[1..];
    assert forall k :: 0 <= k < |rest| ==> rest[k] == Markers[k + 1];
  }

  lemma FeatCutMarkers()
    ensures CutMarkers("Song feat. X") == "Song "
  {
    CutMarkersFirst("Song feat. X");
    FeatCut();
    SongSpaceRestUnchanged();
  }

  /** `_clean_title("Song feat. X") == "Song"`. */
  lemma CleanTitleFeat()
    ensures CleanTitle("Song feat. X") == "Song"
  {
    FeatHasNoGroup();
    FeatCutMarkers();
    SongIsClean();
  }
}
