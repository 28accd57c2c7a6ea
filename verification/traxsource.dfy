/** The Traxsource Deep House scraper (`TraxsourceDeepHouseScraper.scrape`):
    track rows become `(title, artist)` records, the title composed from
    the track name, its version and its remixers; when nothing is found a
    fixed list of ten tracks stands in. */
module Traxsource {
  import opened Wrappers
  import opened Text
  import opened Lists
  import opened BaseScraper

  /** One `div.trk-row`: the text of the title link and of the version
      element (None when absent), and the texts of the artist and remixer
      links in page order. `Unreadable` is a row whose processing raises;
      the scraper reports it and moves on. */
  datatype Row =
    | Row(title: Option<string>, version: Option<string>, artists: seq<string>, remixers: seq<string>)
    | Unreadable

  /** Every text of a list of elements, stripped. */
  function StripAll(xs: seq<string>): (r: seq<string>)
    ensures |r| == |xs| && forall k :: 0 <= k < |xs| ==> r[k] == Strip(xs[k])
  {
    seq(|xs|, k requires 0 <= k < |xs| => Strip(xs[k]))
  }

  // ---------------------------------------------------------------------
  // Version, title and artist composition

  /** The version text: stripped, and cut before its first "(" (which
      opens the duration) and stripped again; "" when there is no version
      element. */
  function Version(v: Option<string>): (r: string)
    ensures Stripped(r) && '(' !in r
    ensures v.None? ==> r == ""
    ensures v.Some? ==> var x := Strip(v.value);
      exists i :: 0 <= i <= |x| && (i == |x| || x[i] == '(') && '(' !in x[..i] && r == Strip(x[..i])
  {
    if v.None? then "" else BeforeParen(Strip(v.value))
  }

  /** `x.split("(")[0].strip()` on a stripped text: unchanged when it holds
      no "(". */
  function BeforeParen(x: string): (r: string)
    requires Stripped(x)
    ensures Stripped(r) && '(' !in r
    ensures exists i :: 0 <= i <= |x| && (i == |x| || x[i] == '(') && '(' !in x[..i] && r == Strip(x[..i])
  {
    FindChar(x, '(', 0);
    assert x[0..] == x;
    match Find(x, "(", 0)
    case None =>
      assert x[..|x|] == x;
      StripStripped(x);
      assert '(' !in x[..|x|] && x == Strip(x[..|x|]);
      x
    case Some(i) =>
      var r := Strip(x[..i]);
      assert '(' !in r by { StripIsInfix(x[..i]); AbsentInInfix(x[..i], r, '('); }
      assert x[i] == '(' && '(' !in x[..i];
      r
  }

  /** A character missing from a text is missing from every piece of it. */
  lemma AbsentInInfix(s: string, r: string, c: char)
    requires c !in s && IsInfix(r, s)
    ensures c !in r
  {
    var i, j :| 0 <= i <= j <= |s| && r == s[i..j];
    forall k | 0 <= k < |r|
      ensures r[k] != c
    {
      assert r[k] == s[i + k];
    }
  }

  /** The title with its version in parentheses, when there is a version. */
  function WithVersion(title: string, version: string): string {
    if version == "" then title else title + " (" + version + ")"
  }

  /** The version already says "remix" (in any case). */
  predicate NamesRemix(version: string) {
    Contains(Lowered(version), "remix")
  }

  /** The composed title: the version in parentheses when there is one,
      then the remixers, joined by ", ", in a "( Remix)" group unless the
      version already names a remix. */
  function FullTitle(title: string, version: string, remixers: seq<string>): (r: string)
    ensures |title| <= |r| && r[..|title|] == title
  {
    var base := WithVersion(title, version);
    if |remixers| > 0 && !NamesRemix(version) then base + " (" + Join(remixers, ", ") + " Remix)"
    else base
  }

  /** The title is left as it is exactly when there is neither a version
      nor a remixer. */
  lemma FullTitleUnchanged(title: string, version: string, remixers: seq<string>)
    ensures FullTitle(title, version, remixers) == title <==> version == "" && |remixers| == 0
  {
    if version == "" {
      assert !NamesRemix(version);
    }
  }

  /** A version that already names a remix makes the remixers irrelevant
      to the title. */
  lemma RemixVersionIgnoresRemixers(title: string, version: string, rs1: seq<string>, rs2: seq<string>)
    requires NamesRemix(version)
    ensures FullTitle(title, version, rs1) == FullTitle(title, version, rs2) == WithVersion(title, version)
  {
  }

  /** Without remixers the title is the track name, followed by the
      version in parentheses when there is one. */
  lemma FullTitleNoRemixers(title: string, version: string)
    ensures FullTitle(title, version, []) == WithVersion(title, version)
    ensures version != "" ==> FullTitle(title, version, []) == title + " (" + version + ")"
  {
  }

  /** Otherwise the remixers are credited after the versioned title. */
  lemma RemixersCredited(title: string, version: string, remixers: seq<string>)
    requires |remixers| > 0 && !NamesRemix(version)
    ensures FullTitle(title, version, remixers) ==
      WithVersion(title, version) + " (" + Join(remixers, ", ") + " Remix)"
  {
  }

  // ---------------------------------------------------------------------
  // One row

  /** The row is emitted: it has a title that is not blank and at least
      one artist link. */
  predicate Emitted(row: Row) {
    row.Row? && row.title.Some? && Strip(row.title.value) != "" && |row.artists| > 0
  }

  /** The record one row contributes. */
  function Record(row: Row): (r: Option<Track>)
    ensures r.Some? <==> Emitted(row)
    ensures r.Some? ==> r.value.Pair?
    ensures r.Some? ==> var t := Strip(row.title.value);
      |t| <= |r.value.title| && r.value.title[..|t|] == t
  {
    if Emitted(row) then
      var title := Strip(row.title.value);
      Some(Pair(FullTitle(title, Version(row.version), StripAll(row.remixers)),
                Join(StripAll(row.artists), ", ")))
    else None
  }

  /** The artist field is made from the artist links only: changing the
      remixers never changes it. */
  lemma ArtistIgnoresRemixers(t: Option<string>, v: Option<string>, artists: seq<string>, rs1: seq<string>, rs2: seq<string>)
    requires Emitted(Row(t, v, artists, rs1))
    ensures Record(Row(t, v, artists, rs2)).Some?
    ensures Record(Row(t, v, artists, rs1)).value.artist == Record(Row(t, v, artists, rs2)).value.artist
  {
  }

  /** The artist names, stripped, in link order, separated by ", ": one
      link gives its name alone, and further links are appended after ", ". */
  lemma ArtistField(row: Row)
    requires Emitted(row)
    ensures |row.artists| == 1 ==> Record(row).value.artist == Strip(row.artists[0])
    ensures |row.artists| >= 2 ==> (Record(row).value.artist ==
      Strip(row.artists[0]) + ", " + Join(StripAll(row.artists[1..]), ", "))
  {
    RecordArtist(row);
    if |row.artists| >= 2 {
      ArtistsJoined(row.artists);
    }
  }

  /** The artist field of an emitted row is the stripped artist link
      texts joined by ", ", whatever the title, version and remixers. */
  lemma RecordArtist(row: Row)
    requires Emitted(row)
    ensures Record(row).value.artist == Join(StripAll(row.artists), ", ")
  {
  }

  lemma ArtistsJoined(artists: seq<string>)
    requires |artists| >= 2
    ensures Join(StripAll(artists), ", ") == Strip(artists[0]) + ", " + Join(StripAll(artists[1..]), ", ")
  {
    var xs := StripAll(artists);
    assert xs[0] == Strip(artists[0]);
    assert xs[1..] == StripAll(artists[1..]);
  }

  // ---------------------------------------------------------------------
  // scrape

  /** The ten records stored when the page yields none or the request
      fails. */
  const Fallback: seq<Track> := [
    Pair("Beat Of An Era", "Jimpster"),
    Pair("Whistle Me (Fouk Remix)", "Elisa Elisa"),
    Pair("Grooveline (Extended Mix)", "T.Markakis"),
    Pair("Casey Screams", "Megatronic"),
    Pair("Forbidden Experience", "The Deepshakerz"),
    Pair("Tudo Bem (Original Mix)", "Pablo Fierro"),
    Pair("In The Morning", "Frag Maddin"),
    Pair("Winter Blues (Original Mix)", "Fred Everything"),
    Pair("All Goes Down", "Soledrifter"),
    Pair("Queens Speech (Original Mix)", "Demuir")
  ]

  /** The scraper after the call, and the list `scrape` returns (this
      scraper returns the records, not a success flag). */
  datatype Listing = Listing(scraper: Scraper, returned: seq<Track>)

  /** `scrape()` on the page the request returned. The stored list is
      cleared, then refilled from the emitted rows in page order; when none
      is emitted, or the request fails, it is the fallback list. */
  function Scrape(s: Scraper, page: Page<Row>): (r: Listing)
    ensures r.returned == r.scraper.tracks && |r.returned| > 0
    ensures page.FetchError? ==> r.returned == Fallback
    ensures page.Page? && (exists k :: 0 <= k < |page.rows| && Emitted(page.rows[k])) ==>
      r.returned == FilterMap(page.rows, Record)
    ensures page.Page? && (forall k :: 0 <= k < |page.rows| ==> !Emitted(page.rows[k])) ==>
      r.returned == Fallback
  {
    var tracks :=
      match page
      case FetchError => Fallback
      case Page(rows) =>
        var found := FilterMap(rows, Record);
        if |found| == 0 then Fallback else found;
    Listing(Scraper(tracks), tracks)
  }

  /** What the scraper held before the call never matters. */
  lemma ScrapeForgets(s1: Scraper, s2: Scraper, page: Page<Row>)
    ensures Scrape(s1, page) == Scrape(s2, page)
  {
  }

  /** A failed request and a page with no track rows give the same list. */
  lemma FallbackEitherWay(s: Scraper)
    ensures Scrape(s, FetchError).returned == Scrape(s, Page([])).returned == Fallback
    ensures |Fallback| == 10
  {
  }

  /** A row whose processing raises costs only its own record (when the
      rows on each side emit one, row i before it and row j after it). */
  lemma UnreadableSkipped(s: Scraper, a: seq<Row>, b: seq<Row>, i: nat, j: nat)
    requires i < |a| && Emitted(a[i])
    requires j < |b| && Emitted(b[j])
    ensures Scrape(s, Page(a + [Unreadable] + b)).returned ==
      Scrape(s, Page(a)).returned + Scrape(s, Page(b)).returned
  {
    var rows := a + [Unreadable] + b;
    assert rows[i] == a[i];
    var fa := FoundList(s, a, i);
    var fb := FoundList(s, b, j);
    var fr := FoundList(s, rows, i);
    DropUnreadable(a, b);
  }

  /** The list a page with an emitted row k yields: its records. */
  lemma FoundList(s: Scraper, rows: seq<Row>, k: nat) returns (found: seq<Track>)
    requires k < |rows| && Emitted(rows[k])
    ensures found == FilterMap(rows, Record) == Scrape(s, Page(rows)).returned
  {
    ScrapeFound(s, rows, k);
    found := FilterMap(rows, Record);
  }

  lemma DropUnreadable(a: seq<Row>, b: seq<Row>)
    ensures FilterMap(a + [Unreadable] + b, Record) == FilterMap(a, Record) + FilterMap(b, Record)
  {
    FilterMapSkip(a, Unreadable, b, Record);
  }

  /** One emitted row is enough for the page's records to be the list. */
  lemma ScrapeFound(s: Scraper, rows: seq<Row>, k: nat)
    requires k < |rows| && Emitted(rows[k])
    ensures Scrape(s, Page(rows)).returned == FilterMap(rows, Record)
  {
  }
}
