/** The Billboard Hot 100 scraper (`BillboardScraper.scrape`): chart rows
    become `(position, title, artist)` records. */
module Billboard {
  import opened Wrappers
  import opened Text
  import opened Lists
  import opened BaseScraper

  /** One `ul.o-chart-results-list-row`: the text of each element the
      scraper looks up in it, None when the element is absent. */
  datatype Row = Row(rank: Option<string>, title: Option<string>, artist: Option<string>)

  /** The position written when a row has no rank element. */
  const Unranked: string := "N/A"

  predicate Complete(row: Row) {
    row.title.Some? && row.artist.Some?
  }

  /** The record one row contributes: none unless both the title and the
      artist element exist; a missing rank does not drop the row. */
  function Record(row: Row): (r: Option<Track>)
    ensures r.Some? <==> Complete(row)
    ensures r.Some? ==> r.value.Ranked?
    ensures r.Some? ==> Stripped(r.value.position) && Stripped(r.value.title) && Stripped(r.value.artist)
    ensures r.Some? && row.rank.None? ==> r.value.position == Unranked
  {
    if Complete(row) then
      var position := if row.rank.Some? then Strip(row.rank.value) else Unranked;
      assert Stripped(Unranked) by { assert !IsSpace(Unranked[0]) && !IsSpace(Unranked[2]); }
      Some(Ranked(position, Strip(row.title.value), Strip(row.artist.value)))
    else None
  }

  /** `scrape(target_date)` on the page the request returned: False with
      the list untouched when the request fails or no chart row is found;
      otherwise the list holds the records of the complete rows, and the
      result is True exactly when there is one. */
  function Scrape(s: Scraper, page: Page<Row>): (r: Outcome)
    ensures page.FetchError? || |page.rows| == 0 ==> r == Outcome(s, false)
    ensures page.Page? && |page.rows| > 0 ==> r.scraper.tracks == FilterMap(page.rows, Record)
    ensures r.ok <==> page.Page? && exists k :: 0 <= k < |page.rows| && Complete(page.rows[k])
    ensures r.ok ==> forall k :: 0 <= k < |r.scraper.tracks| ==> r.scraper.tracks[k].Ranked?
  {
    if page.Page? then RecordsRanked(page.rows); ScrapeRows(s, page, Record)
    else ScrapeRows(s, page, Record)
  }

  lemma RecordsRanked(rows: seq<Row>)
    ensures forall k :: 0 <= k < |FilterMap(rows, Record)| ==> FilterMap(rows, Record)[k].Ranked?
  {
    forall k | 0 <= k < |FilterMap(rows, Record)|
      ensures FilterMap(rows, Record)[k].Ranked?
    {
      FilterMapOrigin(rows, Record, k);
    }
  }

  /** When every row is complete, the k-th record is made from the k-th
      row: its stripped rank text, or "N/A", then its stripped title and
      artist. */
  lemma ScrapeCompleteRows(s: Scraper, rows: seq<Row>, k: nat)
    requires k < |rows|
    requires forall i :: 0 <= i < |rows| ==> Complete(rows[i])
    ensures var tracks := Scrape(s, Page(rows)).scraper.tracks;
      |tracks| == |rows| &&
      tracks[k] == Ranked(
        Strip(rows[k].rank.GetOr(Unranked)),
        Strip(rows[k].title.value), Strip(rows[k].artist.value))
  {
    assert forall i :: 0 <= i < |rows| ==> Record(rows[i]).Some?;
    FilterMapTotalAt(rows, Record, k);
    RecordOfComplete(rows[k]);
  }

  lemma RecordOfComplete(row: Row)
    requires Complete(row)
    ensures Record(row) == Some(Ranked(
      Strip(row.rank.GetOr(Unranked)), Strip(row.title.value), Strip(row.artist.value)))
  {
    if row.rank.None? {
      assert Stripped(Unranked) by { assert !IsSpace(Unranked[0]) && !IsSpace(Unranked[2]); }
      StripStripped(Unranked);
    }
  }
}
