/** The Apple Music EDM playlist scraper (`AppleMusicEDMScraper.scrape`):
    the playlist's JSON-LD tracks become `(clean title, artist)` records;
    when that yields nothing the page's meta tags are consulted, and when
    that yields nothing either a fixed list of ten tracks stands in. */
module AppleMusic {
  import opened Wrappers
  import opened Text
  import opened BaseScraper
  import opened Titles
  import opened Artists

  /** One entry of the JSON-LD `track` array: an object with a string
      `name`, an object without one (read as ""), or an entry that raises:
      a value that is not an object, on which `.get` raises, or an object
      whose `name` is not a string (null, a number), on which the title
      regexes raise `TypeError`. */
  datatype JsonTrack = Named(name: string) | Unnamed | NotAnObject

  /** The `schema:music-playlist` script: absent, text that fails to parse
      as JSON (reported, then ignored), a document whose `track` entries
      are given, or content that raises outside the JSON error handler (no
      text, a document that is not an object, or a `track` value that is a
      number or null, on which `len` raises).

      An absent `track` key reads as the empty array. A `track` value that
      is a string or an object is iterated over like an array: its entries
      (characters or keys) are not objects, so an empty one is
      `Document([])` and a non-empty one raises at its first entry. */
  datatype JsonLd = NoScript | Malformed | Document(tracks: seq<JsonTrack>) | Unusable

  /** The parsed page: its JSON-LD script and the records the meta-tag
      path would append, which the model takes as given. */
  datatype Response = Response(jsonLd: JsonLd, metaTracks: seq<Track>) | FetchError

  /** The name a track entry is read as. */
  function NameOf(t: JsonTrack): string
    requires !t.NotAnObject?
  {
    if t.Named? then t.name else ""
  }

  /** The record for a track name: its cleaned title and the artist read
      from it. */
  function PairOf(name: string): (r: Track)
    ensures r.Pair? && IsClean(r.title) && Stripped(r.artist) && IsInfix(r.artist, name)
  {
    Pair(CleanTitle(name), ExtractArtist(name))
  }

  /** The names read before the first entry that is not an object (all of
      them when there is none). */
  function ReadNames(ts: seq<JsonTrack>): (r: seq<string>)
    ensures |r| <= |ts|
    ensures forall k :: 0 <= k < |r| ==> !ts[k].NotAnObject? && r[k] == NameOf(ts[k])
    ensures |r| < |ts| ==> ts[|r|].NotAnObject?
    decreases |ts|
  {
    if |ts| == 0 || ts[0].NotAnObject? then []
    else [NameOf(ts[0])] + ReadNames(ts[1..])
  }

  /** The records for a list of names, in order. */
  function Pairs(names: seq<string>): (r: seq<Track>)
    ensures |r| == |names| && forall k :: 0 <= k < |names| ==> r[k] == PairOf(names[k])
  {
    seq(|names|, k requires 0 <= k < |names| => PairOf(names[k]))
  }

  /** The records the JSON-LD path appends. */
  function JsonPairs(ts: seq<JsonTrack>): seq<Track> {
    Pairs(ReadNames(ts))
  }

  /** Some entry of the array raises. */
  predicate Raises(ts: seq<JsonTrack>) {
    exists k :: 0 <= k < |ts| && ts[k].NotAnObject?
  }

  /** The ten records stored when neither path yields one. */
  const Fallback: seq<Track> := [
    Pair("Hypnotized", "John Summit"),
    Pair("Forever Yours", "Avicii"),
    Pair("7 Seconds", "Shamiya Battles"),
    Pair("Forever Young", "Various Artists"),
    Pair("Another World", "Various Artists"),
    Pair("Finally", "Various Artists"),
    Pair("Falling Up", "Various Artists"),
    Pair("Go Back", "Various Artists"),
    Pair("I Adore You", "Daecolm"),
    Pair("Right Here All Along", "Hannah Boleyn")
  ]

  /** The records after the JSON-LD path: appended to what the scraper
      already held, which is never cleared. */
  function AfterJson(held: seq<Track>, j: JsonLd): seq<Track> {
    if j.Document? then held + JsonPairs(j.tracks) else held
  }

  /** The call escapes to the outer handler and returns False. */
  predicate Escapes(j: JsonLd) {
    j.Unusable? || (j.Document? && Raises(j.tracks))
  }

  /** `scrape()` on the response. A failed request, or JSON-LD content
      that raises, returns False; records appended before the raise stay.
      Every other path returns True with a non-empty list. */
  function Scrape(s: Scraper, resp: Response): (r: Outcome)
    ensures resp.FetchError? ==> r == Outcome(s, false)
    ensures r.ok <==> resp.Response? && !Escapes(resp.jsonLd)
    ensures r.ok ==> |r.scraper.tracks| > 0
    ensures |s.tracks| <= |r.scraper.tracks| && r.scraper.tracks[..|s.tracks|] == s.tracks
  {
    match resp
    case FetchError => Outcome(s, false)
    case Response(j, meta) =>
      var afterJson := AfterJson(s.tracks, j);
      assert afterJson[..|s.tracks|] == s.tracks;
      if Escapes(j) then Outcome(Scraper(afterJson), false)
      else
        var afterMeta := if |afterJson| == 0 then meta else afterJson;
        var tracks := if |afterMeta| == 0 then Fallback else afterMeta;
        Outcome(Scraper(tracks), true)
  }

  /** The meta tags are consulted only when the list is still empty after
      the JSON-LD path: otherwise they make no difference. */
  lemma MetaOnlyWhenEmpty(s: Scraper, j: JsonLd, m1: seq<Track>, m2: seq<Track>)
    requires |AfterJson(s.tracks, j)| > 0
    ensures Scrape(s, Response(j, m1)) == Scrape(s, Response(j, m2))
  {
  }

  /** When the JSON-LD path leaves the list empty, the meta-tag records,
      if there are any, become the list and the call succeeds. */
  lemma MetaWhenEmpty(s: Scraper, j: JsonLd, meta: seq<Track>)
    requires !Escapes(j) && |AfterJson(s.tracks, j)| == 0 && |meta| > 0
    ensures Scrape(s, Response(j, meta)) == Outcome(Scraper(meta), true)
  {
  }

  /** With nothing held, no JSON-LD records and no meta records, the list
      becomes exactly the fallback list and the call succeeds. */
  lemma FallbackWhenNothing(j: JsonLd)
    requires !Escapes(j) && |AfterJson([], j)| == 0
    ensures Scrape(NewScraper(), Response(j, [])) == Outcome(Scraper(Fallback), true)
    ensures |Fallback| == 10
  {
  }

  /** Each JSON-LD entry appends its record after what was held, in array
      order. */
  lemma JsonTrackAt(s: Scraper, ts: seq<JsonTrack>, meta: seq<Track>, k: nat)
    requires !Raises(ts) && k < |ts|
    ensures var tracks := Scrape(s, Response(Document(ts), meta)).scraper.tracks;
      |tracks| == |s.tracks| + |ts| && tracks[|s.tracks| + k] == PairOf(NameOf(ts[k]))
  {
    AllNamesRead(ts);
    JsonPairAt(ts, k);
    ScrapeKeepsJson(s, Document(ts), meta);
  }

  lemma JsonPairAt(ts: seq<JsonTrack>, k: nat)
    requires k < |ReadNames(ts)|
    ensures JsonPairs(ts)[k] == PairOf(NameOf(ts[k]))
  {
  }

  /** Once the JSON-LD path has produced records, they are the list. */
  lemma ScrapeKeepsJson(s: Scraper, j: JsonLd, meta: seq<Track>)
    requires !Escapes(j) && |AfterJson(s.tracks, j)| > 0
    ensures Scrape(s, Response(j, meta)) == Outcome(Scraper(AfterJson(s.tracks, j)), true)
  {
  }

  lemma AllNamesRead(ts: seq<JsonTrack>)
    requires !Raises(ts)
    ensures |ReadNames(ts)| == |ts|
  {
  }

  /** Records appended before an entry that raises are kept, and the call
      returns False. */
  lemma RaiseKeepsAppended(s: Scraper, a: seq<JsonTrack>, b: seq<JsonTrack>, meta: seq<Track>)
    requires !Raises(a)
    ensures var r := Scrape(s, Response(Document(a + [NotAnObject] + b), meta));
      !r.ok && r.scraper.tracks == s.tracks + JsonPairs(a)
  {
    var ts := a + [NotAnObject] + b;
    assert ts[|a|].NotAnObject?;
    assert ts == a + ([NotAnObject] + b);
    ReadNamesPrefix(a, [NotAnObject] + b);
  }

  /** The names read from an array with no raising entry in front, and a
      raising entry right after it, are those of the front. */
  lemma {:induction false} ReadNamesPrefix(a: seq<JsonTrack>, b: seq<JsonTrack>)
    requires !Raises(a)
    requires |b| > 0 && b[0].NotAnObject?
    ensures ReadNames(a + b) == ReadNames(a)
    decreases |a|
  {
    if |a| == 0 {
      assert a + b == b;
    } else {
      assert (a + b)[0] == a[0] && !a[0].NotAnObject?;
      assert (a + b)[1..] == a[1..] + b;
      assert !Raises(a[1..]) by {
        forall k | 0 <= k < |a| - 1
          ensures !a[1..][k].NotAnObject?
        {
          assert a[1..][k] == a[k + 1];
        }
      }
      ReadNamesPrefix(a[1..], b);
    }
  }
}
