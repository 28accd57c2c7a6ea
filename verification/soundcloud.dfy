/** The SoundCloud chart scraper (`SoundCloudScraper.scrape`): chart items
    become `(title, artist)` records. */
module SoundCloud {
  import opened Wrappers
  import opened Text
  import opened Lists
  import opened BaseScraper

  /** The `h2[itemprop="name"]` heading of an item: the text of its title
      link and of its second link (the artist), None when absent. */
  datatype Heading = Heading(titleLink: Option<string>, artistLink: Option<string>)

  /** One `li article` of the chart. `Unreadable` is an item whose
      extraction raises; the scraper reports it and moves on. */
  datatype Item = Item(heading: Option<Heading>) | Unreadable

  predicate Complete(item: Item) {
    item.Item? && item.heading.Some? &&
    item.heading.value.titleLink.Some? && item.heading.value.artistLink.Some?
  }

  /** The record one item contributes: its stripped title and artist, when
      the heading and both links exist. */
  function Record(item: Item): (r: Option<Track>)
    ensures r.Some? <==> Complete(item)
    ensures r.Some? ==> r.value.Pair? && Stripped(r.value.title) && Stripped(r.value.artist)
  {
    if Complete(item) then
      var h := item.heading.value;
      Some(Pair(Strip(h.titleLink.value), Strip(h.artistLink.value)))
    else None
  }

  /** `scrape()` on the page the request returned: False with the list
      untouched when no chart item is found (or the request fails);
      otherwise the list holds the records of the complete items, and the
      result is True exactly when there is one. */
  function Scrape(s: Scraper, page: Page<Item>): (r: Outcome)
    ensures page.FetchError? || |page.rows| == 0 ==> r == Outcome(s, false)
    ensures page.Page? && |page.rows| > 0 ==> r.scraper.tracks == FilterMap(page.rows, Record)
    ensures r.ok <==> page.Page? && exists k :: 0 <= k < |page.rows| && Complete(page.rows[k])
  {
    ScrapeRows(s, page, Record)
  }

  /** An item whose extraction raises costs only its own record: the
      records around it are kept, in order. */
  lemma UnreadableSkipped(s: Scraper, a: seq<Item>, b: seq<Item>)
    requires |a| > 0 && |b| > 0
    ensures Scrape(s, Page(a + [Unreadable] + b)).scraper.tracks ==
      Scrape(s, Page(a)).scraper.tracks + Scrape(s, Page(b)).scraper.tracks
  {
    FilterMapSkip(a, Unreadable, b, Record);
  }

  /** When every item is complete, the k-th record is made from the k-th
      item's stripped title and artist text. */
  lemma ScrapeCompleteItems(s: Scraper, items: seq<Item>, k: nat)
    requires k < |items|
    requires forall i :: 0 <= i < |items| ==> Complete(items[i])
    ensures var tracks := Scrape(s, Page(items)).scraper.tracks;
      |tracks| == |items| &&
      tracks[k] == Pair(Strip(items[k].heading.value.titleLink.value),
                        Strip(items[k].heading.value.artistLink.value))
  {
    assert forall i :: 0 <= i < |items| ==> Record(items[i]).Some?;
    FilterMapTotalAt(items, Record, k);
  }
}
