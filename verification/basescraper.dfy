/** The state every chart scraper shares (`BaseMusicScraper`) and the text
    `save_tracks_to_file` writes, as a pure function of the stored records.

    A record is a Python tuple. The scrapers store either
    `(position, title, artist)` or `(title, artist)`; any other tuple length
    is kept as `Other`, which the file writer skips but still numbers. */
module BaseScraper {
  import opened Wrappers
  import opened Text
  import opened Lists

  datatype Track =
    | Ranked(position: string, title: string, artist: string)
    | Pair(title: string, artist: string)
    | Other

  /** What a scraper holds between calls: its `tracks_data` list. */
  datatype Scraper = Scraper(tracks: seq<Track>)

  /** The parsed page a scraper works on: the rows its CSS selector found,
      or the request failing before any row is seen. */
  datatype Page<R> = Page(rows: seq<R>) | FetchError

  /** A scraper as `__init__` leaves it. */
  function NewScraper(): (s: Scraper)
    ensures |s.tracks| == 0
  {
    Scraper([])
  }

  /** `get_tracks_data`: the stored list, as stored. */
  function TracksData(s: Scraper): seq<Track> {
    s.tracks
  }

  // ---------------------------------------------------------------------
  // The scrape shape the Billboard and SoundCloud scrapers share

  /** The scraper after `scrape`, and the boolean it returns. */
  datatype Outcome = Outcome(scraper: Scraper, ok: bool)

  /** A failed request or a page without rows returns False and leaves the
      stored list alone; otherwise the list is cleared and refilled with the
      record of every row that yields one, in page order, and the call
      succeeds when at least one did. */
  function ScrapeRows<R>(s: Scraper, page: Page<R>, record: R -> Option<Track>): (r: Outcome)
    ensures page.FetchError? || |page.rows| == 0 ==> r == Outcome(s, false)
    ensures page.Page? && |page.rows| > 0 ==> r.scraper.tracks == FilterMap(page.rows, record)
    ensures r.ok <==> page.Page? && exists k :: 0 <= k < |page.rows| && record(page.rows[k]).Some?
  {
    match page
    case FetchError => Outcome(s, false)
    case Page(rows) =>
      if |rows| == 0 then Outcome(s, false)
      else
        var tracks := FilterMap(rows, record);
        Outcome(Scraper(tracks), |tracks| > 0)
  }

  /** A page that has rows replaces whatever the scraper held before. */
  lemma ScrapeRowsForgets<R>(s1: Scraper, s2: Scraper, rows: seq<R>, record: R -> Option<Track>)
    requires |rows| > 0
    ensures ScrapeRows(s1, Page(rows), record).scraper == ScrapeRows(s2, Page(rows), record).scraper
  {
  }

  /** Records keep page order: the records of a page split in two are the
      records of the first part followed by those of the second. A row that
      yields no record, for whatever reason, removes only itself. */
  lemma ScrapeRowsInOrder<R>(s: Scraper, a: seq<R>, b: seq<R>, record: R -> Option<Track>)
    requires |a| > 0 && |b| > 0
    ensures ScrapeRows(s, Page(a + b), record).scraper.tracks ==
      ScrapeRows(s, Page(a), record).scraper.tracks + ScrapeRows(s, Page(b), record).scraper.tracks
  {
    FilterMapAppend(a, b, record);
  }

  /** Every stored record is the record of some row of the page. */
  lemma ScrapeRowsOrigin<R>(s: Scraper, rows: seq<R>, record: R -> Option<Track>, j: nat)
    requires |rows| > 0 && j < |ScrapeRows(s, Page(rows), record).scraper.tracks|
    ensures exists i :: (0 <= i < |rows| &&
      record(rows[i]) == Some(ScrapeRows(s, Page(rows), record).scraper.tracks[j]))
  {
    FilterMapOrigin(rows, record, j);
  }

  // ---------------------------------------------------------------------
  // save_tracks_to_file

  /** The line written for the i-th record (numbered from 1). */
  function Line(i: nat, t: Track): string {
    match t
    case Ranked(p, title, artist) =>
      NatToString(i) + ". #" + p + ": " + title + " - " + artist + "\n"
    case Pair(title, artist) =>
      NatToString(i) + ". " + title + " - " + artist + "\n"
    case Other => ""
  }

  /** The lines `line` writes for the items of `ts`, the first numbered
      `i` and each next one numbered one higher. */
  function Numbered<T>(line: (nat, T) -> string, ts: seq<T>, i: nat): string
    decreases |ts|
  {
    if |ts| == 0 then "" else line(i, ts[0]) + Numbered(line, ts[1..], i + 1)
  }

  /** The lines of `ts`, the first numbered `i`. */
  function Lines(ts: seq<Track>, i: nat): string {
    Numbered(Line, ts, i)
  }

  /** The text of the file for `tracks` under heading `title`; None when
      the list is empty, in which case no file is opened. */
  function SaveText(tracks: seq<Track>, title: string): (r: Option<string>)
    ensures r.None? <==> |tracks| == 0
    ensures r.Some? ==> |title| + 2 <= |r.value| && r.value[..|title| + 2] == title + "\n\n"
    ensures r.Some? ==> r.value[|title| + 2..] == Lines(tracks, 1)
  {
    if |tracks| == 0 then None
    else
      var text := title + "\n\n" + Lines(tracks, 1);
      assert text[..|title| + 2] == title + "\n\n";
      Some(text)
  }

  /** A fresh scraper reports no tracks and writes no file. */
  lemma FreshScraper(title: string)
    ensures TracksData(NewScraper()) == []
    ensures SaveText(TracksData(NewScraper()), title) == None
  {
  }

  lemma {:induction false} NumberedAppend<T>(line: (nat, T) -> string, a: seq<T>, b: seq<T>, i: nat)
    ensures Numbered(line, a + b, i) == Numbered(line, a, i) + Numbered(line, b, i + |a|)
    decreases |a|
  {
    if |a| > 0 {
      assert (a + b)[0] == a[0];
      assert (a + b)[1..] == a[1..] + b;
      NumberedAppend(line, a[1..], b, i + 1);
    } else {
      assert a + b == b;
    }
  }

  lemma NumberedAt<T>(line: (nat, T) -> string, ts: seq<T>, k: nat, i: nat)
    requires k < |ts|
    ensures Numbered(line, ts, i) ==
      Numbered(line, ts[..k], i) + line(i + k, ts[k]) + Numbered(line, ts[k + 1..], i + k + 1)
  {
    var pre, rest := ts[..k], ts[k + 1..];
    var tail := [ts[k]] + rest;
    assert ts == pre + tail;
    NumberedAppend(line, pre, tail, i);
    assert tail[0] == ts[k] && tail[1..] == rest;
  }

  /** Writing the lines of two lists one after the other is writing the
      lines of their concatenation, the second list's numbers continuing
      from the first. */
  lemma LinesAppend(a: seq<Track>, b: seq<Track>, i: nat)
    ensures Lines(a + b, i) == Lines(a, i) + Lines(b, i + |a|)
  {
    NumberedAppend(Line, a, b, i);
  }

  /** The record at index k is written as line number k + 1, after the
      lines of the records before it, whatever those are: a record that
      writes no line still takes its number. In the file these lines follow
      the heading (SaveText). */
  lemma TrackLine(tracks: seq<Track>, k: nat)
    requires k < |tracks|
    ensures Lines(tracks, 1) ==
      Lines(tracks[..k], 1) + Line(k + 1, tracks[k]) + Lines(tracks[k + 1..], k + 2)
  {
    NumberedAt(Line, tracks, k, 1);
  }

  /** A line begins with its number, which reads back as that number, and
      a ". " after it. */
  lemma LineNumber(i: nat, t: Track)
    requires !t.Other?
    ensures var n := NatToString(i);
      |n| + 2 <= |Line(i, t)| && Line(i, t)[..|n| + 2] == n + ". " && DecimalValue(n) == i
  {
    var n := NatToString(i);
    match t
    case Ranked(p, title, artist) =>
      assert Line(i, t) == n + ". " + ("#" + p + ": " + title + " - " + artist + "\n");
    case Pair(title, artist) =>
      assert Line(i, t) == n + ". " + (title + " - " + artist + "\n");
    DecimalRoundTrip(i);
  }

  // ---------------------------------------------------------------------
  // One line per written record

  function CountChar(s: string, c: char): nat
    decreases |s|
  {
    if |s| == 0 then 0 else (if s[0] == c then 1 else 0) + CountChar(s[1..], c)
  }

  lemma {:induction false} CountCharAppend(a: string, b: string, c: char)
    ensures CountChar(a + b, c) == CountChar(a, c) + CountChar(b, c)
    decreases |a|
  {
    if |a| > 0 {
      assert (a + b)[0] == a[0];
      assert (a + b)[1..] == a[1..] + b;
      CountCharAppend(a[1..], b, c);
    } else {
      assert a + b == b;
    }
  }

  lemma {:induction false} CountCharAbsent(s: string, c: char)
    requires c !in s
    ensures CountChar(s, c) == 0
    decreases |s|
  {
    if |s| > 0 {
      assert forall k :: 0 <= k < |s| - 1 ==> s[1..][k] == s[k + 1];
      CountCharAbsent(s[1..], c);
    }
  }

  predicate FieldsOneLine(t: Track) {
    match t
    case Ranked(p, title, artist) => '\n' !in p && '\n' !in title && '\n' !in artist
    case Pair(title, artist) => '\n' !in title && '\n' !in artist
    case Other => true
  }

  /** How many of `ts` are 2- or 3-tuples. */
  function Written(ts: seq<Track>): nat
    decreases |ts|
  {
    if |ts| == 0 then 0 else (if ts[0].Other? then 0 else 1) + Written(ts[1..])
  }

  lemma LineBreaks(i: nat, t: Track)
    requires FieldsOneLine(t)
    ensures CountChar(Line(i, t), '\n') == if t.Other? then 0 else 1
  {
    var n := NatToString(i);
    assert forall k :: 0 <= k < |n| ==> n[k] != '\n';
    match t
    case Ranked(p, title, artist) =>
      var body := n + ". #" + p + ": " + title + " - " + artist;
      assert '\n' !in body;
      CountCharAbsent(body, '\n');
      CountCharAppend(body, "\n", '\n');
    case Pair(title, artist) =>
      var body := n + ". " + title + " - " + artist;
      assert '\n' !in body;
      CountCharAbsent(body, '\n');
      CountCharAppend(body, "\n", '\n');
    case Other =>
  }

  /** When no field holds a line break, the lines part of the file has
      exactly one line per 2- or 3-tuple. */
  lemma {:induction false} LinesCount(ts: seq<Track>, i: nat)
    requires forall k :: 0 <= k < |ts| ==> FieldsOneLine(ts[k])
    ensures CountChar(Lines(ts, i), '\n') == Written(ts)
    decreases |ts|
  {
    if |ts| > 0 {
      LineBreaks(i, ts[0]);
      assert forall k :: 0 <= k < |ts| - 1 ==> ts[1..][k] == ts[k + 1];
      LinesCount(ts[1..], i + 1);
      CountCharAppend(Line(i, ts[0]), Lines(ts[1..], i + 1), '\n');
    }
  }

  /** The whole file: the heading line, a blank line, then one line per
      written record. */
  lemma SaveTextLineCount(tracks: seq<Track>, title: string)
    requires |tracks| > 0 && '\n' !in title
    requires forall k :: 0 <= k < |tracks| ==> FieldsOneLine(tracks[k])
    ensures CountChar(SaveText(tracks, title).value, '\n') == 2 + Written(tracks)
  {
    LinesCount(tracks, 1);
    CountCharAbsent(title, '\n');
    CountCharAppend(title, "\n\n", '\n');
    CountCharAppend(title + "\n\n", Lines(tracks, 1), '\n');
  }
}
