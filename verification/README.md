# Chart scrapers and playlist builder, modelled in Dafny

The repository turns music charts into streaming-service playlists. Four
scrapers read a chart page each and store the chart's records as tuples:

- Billboard Hot 100 stores `(position, title, artist)`.
- SoundCloud's top chart stores `(title, artist)`.
- Traxsource's Deep House top list stores `(title, artist)`. Titles are
  composed from the track name, its version and its remixers, and a fixed
  list of ten tracks stands in when nothing is found.
- Apple Music's EDM playlist reads the page's JSON-LD tracks. It cleans
  each title (`_clean_title`) and guesses the artist from the title
  (`_extract_artist_from_title`). The meta tags come second and a fixed
  list of ten tracks comes last.

The playlist builder then searches for each record and creates a playlist
from the URIs it finds, adding them in batches of 100.

The model is pure Dafny: immutable datatypes and total functions, plus one
method for the search loop.

| module | file | what it holds |
|---|---|---|
| `Wrappers`, `Lists`, `Text` | wrappers.dfy, lists.dfy, text.dfy | Option; filter-map, flatten, first-match search; Python's `strip`, `in`, `find`, `join`, `lower`, and decimal numerals |
| `BaseScraper` | basescraper.dfy | the record type, the stored list, the shared scrape shape, `save_tracks_to_file` as text |
| `Titles` | titles.dfy | `_clean_title` |
| `Artists`, `ArtistCases` | artists.dfy, artist_cases.dfy | `_extract_artist_from_title`: the five patterns, and what each kind of title yields |
| `Billboard`, `SoundCloud`, `Traxsource`, `AppleMusic` | one file each | each scraper's `scrape` |
| `Playlists` | playlists.dfy | `search_song`, `create_playlist` |

Outside input becomes a parameter:

- **Pages.** A page is given as the rows the scraper's CSS selector finds.
  Each row holds the text of each element the scraper looks up, with None
  for a missing element. `FetchError` stands for a failed request.
- **Apple Music's page.** It is given as its JSON-LD script and the records
  the meta-tag path would produce.
- **The streaming-service client.** It is a value holding three functions:
  `search`, `create` and `add`. A run of `create_playlist` returns its
  result together with the list of calls it made, in order.

Regular expressions are written as explicit scans. Case-insensitive matching
lower-cases ASCII letters. Whitespace is the ASCII whitespace set.

## Model

| member | source | states |
|---|---|---|
| Titles.CleanTitle | scrapers/AppleMusic_EDM.py:204-228 | the cleaned title has no parenthesised or bracketed group, no "feat.", "ft.", "remix" or "radio edit" in any case, and no surrounding whitespace |
| Titles.CleanTitleFixes | scrapers/AppleMusic_EDM.py:215-228 | a title is left unchanged exactly when it is already clean, in both directions |
| Titles.CleanTitleIdempotent | scrapers/AppleMusic_EDM.py:215-228 | cleaning twice is cleaning once |
| Titles.DropGroupsRemoves | scrapers/AppleMusic_EDM.py:216-217 | a group `(g)` or `[g]` whose inside holds no closing bracket, with no opening bracket before it, is deleted together with its content |
| Titles.DropGroupsLeavesNone | scrapers/AppleMusic_EDM.py:216-217 | after a deletion step no group of that kind is left |
| Titles.DropGroupsFixes | scrapers/AppleMusic_EDM.py:216-217 | text without a group passes a deletion step unchanged |
| Titles.CutAt | scrapers/AppleMusic_EDM.py:220-225 | a suffix cut keeps exactly the text before the first case-insensitive occurrence of the marker: the kept prefix holds no occurrence, one starts right after it, and text without the marker is left alone |
| Titles.CleanTitleRadioEdit | scrapers/AppleMusic_EDM.py:215-228 | "Song (Radio Edit)" cleans to "Song" |
| Titles.CleanTitleBracketRemix | scrapers/AppleMusic_EDM.py:215-228 | "Song [Remix]" cleans to "Song" |
| Titles.CleanTitleFeat | scrapers/AppleMusic_EDM.py:219-228 | "Song feat. X" cleans to "Song" |
| Artists.RemixPattern | scrapers/AppleMusic_EDM.py:165-169 | pattern 1 applies exactly when its leftmost match exists; its answer is a stripped piece of the title |
| Artists.FeatPattern | scrapers/AppleMusic_EDM.py:171-175 | pattern 2 applies exactly when its leftmost match exists; its answer is a stripped piece of the title |
| Artists.DashPattern | scrapers/AppleMusic_EDM.py:177-182 | pattern 3 applies exactly when the title holds " - "; its answer is stripped and holds no " - " |
| Artists.PossessivePattern | scrapers/AppleMusic_EDM.py:184-189 | pattern 4 applies exactly when the title holds "'s"; its answer is stripped and holds no "'s" |
| Artists.ConjPattern | scrapers/AppleMusic_EDM.py:191-200 | pattern 5 yields one word holding no whitespace, and a non-empty one only when a match exists that does not start the title |
| Artists.ExtractArtist | scrapers/AppleMusic_EDM.py:153-202 | the artist is a stripped piece of the title |
| ArtistCases.ExtractArtistRemix | scrapers/AppleMusic_EDM.py:165-169 | a title whose first `(` opens `(g remix)`, with "remix" in any case, yields g stripped |
| ArtistCases.ExtractArtistRemixExample | scrapers/AppleMusic_EDM.py:165-169 | "Song (DJ Foo Remix)" yields "DJ Foo" |
| ArtistCases.ExtractArtistFeat | scrapers/AppleMusic_EDM.py:171-175 | a title `a(feat. g)b` whose only `(` opens the group, with no `f` in a, yields g stripped when g is free of `)` and `]`, does not start with whitespace and does not end in `x` |
| ArtistCases.ExtractArtistDash | scrapers/AppleMusic_EDM.py:177-182 | a title `a - b` without `(` or `f`/`F`, whose first " - " follows a, yields the piece of b before b's own first " - " (all of b when it has none), stripped: "A - B - C" yields "B" |
| ArtistCases.ExtractArtistDashExample | scrapers/AppleMusic_EDM.py:177-182 | "Song - Bar" yields "Bar" |
| ArtistCases.ExtractArtistPossessive | scrapers/AppleMusic_EDM.py:184-189 | a title `a's b` without `(`, `f`/`F` or " - ", whose first "'s" follows a, yields a stripped |
| ArtistCases.ExtractArtistConj | scrapers/AppleMusic_EDM.py:191-200 | a title `x & y` with x one word, which the first four patterns do not match, yields x |
| ArtistCases.ExtractArtistNone | scrapers/AppleMusic_EDM.py:163-202 | a title without `(`, `f`/`F`, " - " or "'s" yields "" when it has no `\s+(&\|and)\s+` match or only one at its very start ("Bad Romance", "Rock&Roll") |
| ArtistCases.ExtractArtistPlainTitle | scrapers/AppleMusic_EDM.py:163-202 | "Plain Title" yields "" |
| BaseScraper.NewScraper | scrapers/base_scraper.py:32-40 | a new scraper holds no records |
| BaseScraper.FreshScraper | scrapers/base_scraper.py:55-74 | a new scraper reports no records and writes no file |
| BaseScraper.ScrapeRows | scrapers/billboard.py:58-93 | a failed request or a page without rows returns False and keeps the old list; otherwise the list is replaced by the records of the rows that yield one, and the call succeeds exactly when some row does |
| BaseScraper.ScrapeRowsForgets | scrapers/billboard.py:67 | a page with rows replaces whatever the scraper held |
| BaseScraper.ScrapeRowsInOrder | scrapers/billboard.py:68-82 | the records keep page order: a split page gives the records of each part, concatenated |
| BaseScraper.ScrapeRowsOrigin | scrapers/billboard.py:68-82 | every stored record is the record of some row |
| BaseScraper.SaveText | scrapers/base_scraper.py:64-85 | nothing is written for an empty list; otherwise the text starts with the heading and a blank line, followed by the record lines |
| BaseScraper.LinesAppend | scrapers/base_scraper.py:79-85 | the lines of two lists written one after the other are the lines of the joined list, numbering continuing |
| BaseScraper.TrackLine | scrapers/base_scraper.py:79-85 | the k-th record's line carries number k+1, whatever the records before it; a record of another length writes nothing but still takes its number |
| BaseScraper.LineNumber | scrapers/base_scraper.py:80-85 | a written line starts with its number and ". ", and the number reads back as the record's position |
| BaseScraper.SaveTextLineCount | scrapers/base_scraper.py:78-85 | when no field holds a line break, the file has 2 + (number of 2- and 3-tuples) line breaks |
| Billboard.Record | scrapers/billboard.py:68-82 | a row yields a record exactly when both its title and artist elements exist; all fields are stripped, and a missing rank gives "N/A" |
| Billboard.Scrape | scrapers/billboard.py:43-97 | the shared scrape shape; True exactly when some row has both title and artist, and then every record is a 3-tuple |
| Billboard.ScrapeCompleteRows | scrapers/billboard.py:68-82 | on a page of complete rows, record k is (stripped rank or "N/A", stripped title, stripped artist) of row k |
| SoundCloud.Record | scrapers/soundcloud.py:76-93 | an item yields a record exactly when its heading and both links exist; both fields are stripped |
| SoundCloud.Scrape | scrapers/soundcloud.py:52-107 | the shared scrape shape; True exactly when some item is complete |
| SoundCloud.UnreadableSkipped | scrapers/soundcloud.py:77-93 | an item whose extraction raises drops only itself; the records on both sides keep their order |
| SoundCloud.ScrapeCompleteItems | scrapers/soundcloud.py:76-90 | on a chart of complete items, record k is the stripped title and artist of item k |
| Traxsource.Version | scrapers/traxsource_deep_house.py:73-81 | the version is stripped and holds no "("; it is "" without a version element, and otherwise the stripped text before the first "(" |
| Traxsource.FullTitle | scrapers/traxsource_deep_house.py:97-104 | the composed title starts with the track name |
| Traxsource.FullTitleUnchanged | scrapers/traxsource_deep_house.py:97-104 | the track name is left as it is exactly when there is neither a version nor a remixer |
| Traxsource.FullTitleNoRemixers | scrapers/traxsource_deep_house.py:98 | without remixers the title is the track name, or "title (version)" when the version is not empty |
| Traxsource.RemixVersionIgnoresRemixers | scrapers/traxsource_deep_house.py:101-104 | a version naming a remix in any case makes the remixers irrelevant to the title |
| Traxsource.RemixersCredited | scrapers/traxsource_deep_house.py:101-104 | otherwise the remixers, joined by ", ", follow in a "(... Remix)" group |
| Traxsource.Record | scrapers/traxsource_deep_house.py:66-110 | a row yields a record exactly when it has a non-blank title and at least one artist; the title starts with the stripped track name |
| Traxsource.ArtistIgnoresRemixers | scrapers/traxsource_deep_house.py:83-99 | the artist field does not depend on the remixers |
| Traxsource.RecordArtist | scrapers/traxsource_deep_house.py:84-99 | the artist field of an emitted row is the stripped artist names joined by ", ", whatever the other fields |
| Traxsource.ArtistField | scrapers/traxsource_deep_house.py:84-99 | one artist link gives its stripped name alone; with more, the first stripped name, ", ", then the rest joined the same way |
| Traxsource.Scrape | scrapers/traxsource_deep_house.py:41-177 | the returned list is the stored one and never empty; it is the fallback list on a failed request or when no row yields a record, and otherwise the records in page order |
| Traxsource.ScrapeForgets | scrapers/traxsource_deep_house.py:61 | the records held before the call never matter |
| Traxsource.FallbackEitherWay | scrapers/traxsource_deep_house.py:115-162 | a failed request and an empty page give the same ten fallback records |
| Traxsource.UnreadableSkipped | scrapers/traxsource_deep_house.py:64-112 | when rows on both sides of it are emitted, a row whose processing raises drops only itself and the records around it keep their order |
| AppleMusic.PairOf | scrapers/AppleMusic_EDM.py:75-86 | a JSON-LD track becomes a 2-tuple of a clean title and an artist that is a stripped piece of the name |
| AppleMusic.Scrape | scrapers/AppleMusic_EDM.py:30-151 | False on a failed request or JSON-LD content that raises, True otherwise and then with a non-empty list; records held before are never dropped |
| AppleMusic.MetaOnlyWhenEmpty | scrapers/AppleMusic_EDM.py:92-93 | the meta tags make no difference once the list holds records after the JSON-LD path |
| AppleMusic.MetaWhenEmpty | scrapers/AppleMusic_EDM.py:92-121 | when the JSON-LD path leaves the list empty, the meta-tag records, if any, become the list and the call returns True |
| AppleMusic.FallbackWhenNothing | scrapers/AppleMusic_EDM.py:122-136 | with no records from either path, the list is the ten fallback records and the call succeeds |
| AppleMusic.JsonTrackAt | scrapers/AppleMusic_EDM.py:75-86 | the k-th JSON-LD track appends its record at position k after the records already held |
| AppleMusic.RaiseKeepsAppended | scrapers/AppleMusic_EDM.py:75-86 | a track entry that raises ends the call with False, keeping the records appended before it |
| Playlists.Query | playlist_builder.py:67-70 | the query starts with "track:" and the title, and adds nothing else exactly when the artist is empty |
| Playlists.QueryRoundTrip | playlist_builder.py:67-70 | a title without " artist:" and any artist can be read back from the query |
| Playlists.SearchSong | playlist_builder.py:52-86 | None without a client, when the search fails or when it finds nothing; otherwise the first item's URI |
| Playlists.Take | playlist_builder.py:110 | `tracks[:limit]` is a prefix of min(limit, n) records, or of n + limit records (at least 0) when the limit is negative |
| Playlists.Uris | playlist_builder.py:109-121 | at most one URI per record, and none of them empty |
| Playlists.CollectUris | playlist_builder.py:109-121 | the search loop makes one search per record, in order, and keeps exactly the non-empty URIs found |
| Playlists.Batches | playlist_builder.py:139-140 | every batch holds 1 to 100 URIs |
| Playlists.BatchesFlatten | playlist_builder.py:139-140 | the batches put back together are the URIs, in order |
| Playlists.BatchesCount | playlist_builder.py:139 | there are ceil(n / 100) batches |
| Playlists.BatchAt | playlist_builder.py:139-140 | batch k is `uris[100k : 100k + 100]` |
| Playlists.AddAll | playlist_builder.py:139-146 | batch k is added by call k; the adds stop right after the first one that raises, and succeed exactly when every one does |
| Playlists.FirstOther | playlist_builder.py:110-116 | the first record that is neither a 2- nor a 3-tuple, when there is one |
| Playlists.CreatePlaylist | playlist_builder.py:88-146 | None, with no calls, for an empty list or no client; a ValueError exactly when a record among the first `limit` is neither a 2- nor a 3-tuple; a URL only when some URI was found |
| Playlists.CreateNothingFound | playlist_builder.py:123-128 | with no URI found, the run only searches and returns None |
| Playlists.CreateFails | playlist_builder.py:130-146 | when creating the playlist raises, the run returns None after the searches and the creation call, and adds nothing |
| Playlists.CreateSearchesFirst | playlist_builder.py:108-121 | the run starts with one search per record among the first `limit`, in order |
| Playlists.CreateSucceeds | playlist_builder.py:125-143 | when creation and every add succeed, the run returns the URL after the searches, one creation and ceil(n / 100) adds to that playlist, whose items together are the URIs in order |
| Playlists.CreateAddRaises | playlist_builder.py:139-146 | when adding batch j raises, the run returns None and has added exactly batches 0 to j |

## Left out

- **I/O.** The HTTP requests, the HTML parsing and the CSS selectors are
  left out: each page is given as the rows it yields. Also left out:
  - the debug HTML dumps;
  - the file writes in `save_tracks_to_file` and Traxsource's own save
    (scrapers/traxsource_deep_house.py:131-145, 163-175);
  - the dated file names;
  - every `print`.
  `save_tracks_to_file` is modelled as the text it would write.
- **Exceptions from I/O.** A file-system exception from the debug dumps
  is not modelled.
  - In the Billboard, SoundCloud and Apple Music scrapers it would be
    caught by the outer handler, and the call would return False.
  - In the Traxsource scraper only `RequestException` is caught
    (scrapers/traxsource_deep_house.py:41, 148). An `OSError` from the
    dump at scrapers/traxsource_deep_house.py:47-48 would propagate out of
    `scrape()` to its caller, with the stored list unchanged.
- **Apple Music's meta-tag path**
  (scrapers/AppleMusic_EDM.py:95-120: URL splitting, `.title()` casing,
  the artist lookup). It is not modelled: the page carries the records that
  path would append. Only when it runs and how its result is used are
  modelled.
- **The Spotify OAuth set-up** (playlist_builder.py:28-50). It is left
  out: a client that could not be set up is `None`. The `me()` lookup is
  folded into `create`. An exception anywhere in creating or adding is
  that call returning None or false. The create response is assumed to
  be well-formed: `create` yields a playlist whose URL is the
  `external_urls.spotify` read at playlist_builder.py:143. The model cannot
  express a response without that key, which in the code would add every
  batch and then return None.
- **The following files are not part of this model:**
  - main.py (menu and orchestration);
  - env_variables.py (configuration);
  - scrapers/__init__.py.
- **The older `create_playlist` methods** on the Billboard and SoundCloud
  scrapers (scrapers/billboard.py:99-127, scrapers/soundcloud.py:109-136).
  They are left out because they call a `make_playlist` that the scrapers
  do not define. The playlist builder supersedes them.
- **Text.** Non-ASCII text, Unicode whitespace and case, and line breaks
  inside titles (`.` and `$` in the regexes) are left out. The regex
  scans assume ASCII, single-line text.
- **Failed scrapes.** When a Billboard or SoundCloud request fails, or the
  page has no rows, the records already held are kept (the list is
  cleared only after rows are found). The model follows the code: a failed
  scrape empties the list only for a fresh scraper.
- **Title case.** The comment at scrapers/AppleMusic_EDM.py:227 mentions
  title case, but the code only strips. The model strips.
- Artists.ExtractArtist: its contract states only that the answer is a
  stripped piece of the title. What each pattern yields is stated by the
  ArtistCases lemmas, each for a class of titles.
- ArtistCases.ExtractArtistFeat: proved only for titles whose only `(`
  opens the feat group, with no `f` before it and a group that does not
  end in `x` (so no "remix" can be read across it). The group g must also
  hold no `]`: the source's `[^)\]]+` stops at the first `]`, so
  "(feat. A]B)" yields "A", and the lemma does not state that case.
- ArtistCases.ExtractArtistDash, ArtistCases.ExtractArtistPossessive,
  ArtistCases.ExtractArtistConj, ArtistCases.ExtractArtistNone: proved for
  titles without `(` and without `f` in any case, which rules out the
  earlier patterns by inspection. A title that mixes patterns is decided
  by `Artists.ArtistSpan`, whose order follows the source, but no lemma
  states its answer.
- ArtistCases.ExtractArtistDash: beyond that, it asks that the title's first " - " be
  the one after a (`Find(t, " - ", 0) == Some(|a|)`). That is only how a is
  chosen, so every dash title without `(` or `f` is covered.
- ArtistCases.ExtractArtistPossessive: beyond that, it asks for no "'s" in a, which
  again only fixes a as the text before the first "'s".
- ArtistCases.ExtractArtistNone: beyond that, it asks that the title have no
  conjunction match, or only one at its very start. A title with a later
  match is covered by ExtractArtistConj when the word before it is the
  whole of x.
- ArtistCases.ExtractArtistRemix: proved when the title's first `(` opens
  the remix group.
- AppleMusic.Scrape: the JSON-LD content that raises outside the decode
  handler is one case, `Unusable`. That content is a script without text,
  a document that is not an object, or a `track` value that is a number or
  null. A `track` value that is a string or an object is iterated over: an
  empty one is an empty track list, and a non-empty one raises at its first
  entry. A track whose `name` is not a string also raises, and is modelled
  like an entry that is not an object.
