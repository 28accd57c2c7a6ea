/** The playlist builder (`PlaylistBuilder`): searching the streaming
    service for each record and collecting the found tracks into a new
    playlist, added in batches of at most 100.

    The service client is given as three functions standing for its calls
    (search, create a playlist, add items); a run of `create_playlist` is
    its return value together with the calls it made, in order. */
module Playlists {
  import opened Wrappers
  import opened Text
  import opened Lists
  import opened BaseScraper

  // ---------------------------------------------------------------------
  // The search query

  const TrackKey: string := "track:"
  const ArtistKey: string := " artist:"

  /** The query `search_song` sends: the title after "track:", then the
      artist after " artist:" only when there is an artist. */
  function Query(title: string, artist: string): (q: string)
    ensures |TrackKey| + |title| <= |q| && q[..|TrackKey| + |title|] == TrackKey + title
    ensures q == TrackKey + title <==> artist == ""
  {
    var q := TrackKey + title + (if artist == "" then "" else ArtistKey + artist);
    assert q[..|TrackKey| + |title|] == TrackKey + title;
    q
  }

  /** Reads a query back: the text after "track:" up to the first
      " artist:" is the title and the rest the artist. */
  function ParseQuery(q: string): (r: Option<(string, string)>)
    ensures r.Some? <==> |q| >= |TrackKey| && q[..|TrackKey|] == TrackKey
  {
    if |q| < |TrackKey| || q[..|TrackKey|] != TrackKey then None
    else
      var rest := q[|TrackKey|..];
      match Find(rest, ArtistKey, 0)
      case None => Some((rest, ""))
      case Some(i) => Some((rest[..i], rest[i + |ArtistKey|..]))
  }

  /** A title without " artist:" in it, and any artist, survive the trip
      through the query. */
  lemma QueryRoundTrip(title: string, artist: string)
    requires !Contains(title, ArtistKey)
    ensures ParseQuery(Query(title, artist)) == Some((title, artist))
  {
    var q := Query(title, artist);
    assert q[..|TrackKey|] == TrackKey;
    var rest := q[|TrackKey|..];
    if artist == "" {
      assert rest == title;
      FindFromStart(title, ArtistKey);
    } else {
      assert rest == title + ArtistKey + artist;
      ArtistKeyAfterTitle(title, artist, rest);
      assert rest[..|title|] == title;
      assert rest[|title| + |ArtistKey|..] == artist;
    }
  }

  /** In `title + " artist:" + artist` the first " artist:" is the one after
      the title: none lies inside the title, and none can straddle its end,
      because the key's only space is its first character. */
  lemma ArtistKeyAfterTitle(title: string, artist: string, rest: string)
    requires rest == title + ArtistKey + artist
    requires !Contains(title, ArtistKey)
    ensures Find(rest, ArtistKey, 0) == Some(|title|)
  {
    assert rest[|title|..|title| + |ArtistKey|] == ArtistKey;
    forall k | 0 <= k < |title|
      ensures !MatchesAt(rest, ArtistKey, k)
    {
      if k + |ArtistKey| <= |title| {
        assert rest[k..k + |ArtistKey|] == title[k..k + |ArtistKey|];
        assert !MatchesAt(title, ArtistKey, k);
      } else {
        var d := |title| - k;
        assert 0 < d < |ArtistKey|;
        assert rest[k + d] == ' ';
        MismatchNoMatch(rest, ArtistKey, k, d);
      }
    }
    FindLeftmost(rest, ArtistKey, 0, |title|);
  }

  // ---------------------------------------------------------------------
  // The service client

  /** What a search returns: its items (an item whose fields cannot be
      read is None), or the call raising. */
  datatype SearchReply = Items(items: seq<Option<string>>) | SearchFailed

  datatype PlaylistRef = PlaylistRef(id: string, url: string)

  /** The client's calls: `search` by query; `create` by name and
      description, None when creating raises; `add` of a batch of items to
      a playlist, false when it raises. */
  datatype Client = Client(
    search: string -> SearchReply,
    create: (string, string) -> Option<PlaylistRef>,
    add: (string, seq<string>) -> bool)

  /** `search_song`: the URI of the first item found, and None when there
      is no client, no item, or the call or the item lookup raises. */
  function SearchSong(client: Option<Client>, title: string, artist: string): (r: Option<string>)
    ensures client.None? ==> r.None?
    ensures r.Some? ==> (client.Some? &&
      var reply := client.value.search(Query(title, artist));
      reply.Items? && |reply.items| > 0 && reply.items[0] == r)
    ensures client.Some? ==> var reply := client.value.search(Query(title, artist));
      reply.Items? && |reply.items| > 0 ==> r == reply.items[0]
  {
    if client.None? then None
    else
      match client.value.search(Query(title, artist))
      case SearchFailed => None
      case Items(items) => if |items| == 0 then None else items[0]
  }

  // ---------------------------------------------------------------------
  // create_playlist

  /** Where Python's `xs[:limit]` ends: a negative limit counts from the
      end. */
  function SliceEnd(n: nat, limit: int): (e: nat)
    ensures e <= n
  {
    if 0 <= limit then (if limit < n then limit else n)
    else if n + limit < 0 then 0 else n + limit
  }

  /** `xs[:limit]`: the first min(limit, len) elements, or for a negative
      limit all but the last -limit of them. */
  function Take<T>(xs: seq<T>, limit: int): (r: seq<T>)
    ensures |r| <= |xs| && r == xs[..|r|]
    ensures 0 <= limit ==> |r| == if limit < |xs| then limit else |xs|
    ensures limit < 0 ==> |r| == if |xs| + limit < 0 then 0 else |xs| + limit
  {
    xs[..SliceEnd(|xs|, limit)]
  }

  /** The title and artist a record is searched by: fields 2 and 3 of a
      3-tuple, fields 1 and 2 of a 2-tuple. */
  function TitleArtist(t: Track): (string, string)
    requires !t.Other?
  {
    (t.title, t.artist)
  }

  /** The URI a record contributes: a found URI that is not empty (the
      loop keeps it only when it is truthy). */
  function Resolve(client: Client, t: Track): Option<string> {
    if t.Other? then None
    else
      var (title, artist) := TitleArtist(t);
      match SearchSong(Some(client), title, artist)
      case Some(u) => if u != "" then Some(u) else None
      case None => None
  }

  function Uris(client: Client, ts: seq<Track>): (r: seq<string>)
    ensures |r| <= |ts|
    ensures forall k :: 0 <= k < |r| ==> r[k] != ""
  {
    var f := (t: Track) => Resolve(client, t);
    var r := FilterMap(ts, f);
    forall k | 0 <= k < |r|
      ensures r[k] != ""
    {
      FilterMapOrigin(ts, f, k);
    }
    r
  }

  /** The calls the client sees. */
  datatype Call = Search(query: string) | Create(name: string, description: string) | Add(playlist: string, items: seq<string>)

  function SearchCall(t: Track): Call
    requires !t.Other?
  {
    var (title, artist) := TitleArtist(t);
    Search(Query(title, artist))
  }

  predicate Searchable(ts: seq<Track>) {
    forall k :: 0 <= k < |ts| ==> !ts[k].Other?
  }

  function SearchCalls(ts: seq<Track>): (r: seq<Call>)
    requires Searchable(ts)
    ensures |r| == |ts| && forall k :: 0 <= k < |ts| ==> r[k] == SearchCall(ts[k])
  {
    seq(|ts|, k requires 0 <= k < |ts| => SearchCall(ts[k]))
  }

  /** The index of the first record that is neither a 2- nor a 3-tuple:
      unpacking it raises `ValueError`, which nothing catches. */
  function FirstOther(ts: seq<Track>): (r: Option<nat>)
    ensures r.None? <==> Searchable(ts)
    ensures r.Some? ==> r.value < |ts| && ts[r.value].Other? && Searchable(ts[..r.value])
  {
    var isOther := (k: nat) => k < |ts| && ts[k].Other?;
    assert forall k: nat :: isOther(k) == (k < |ts| && ts[k].Other?);
    var r := FirstWhere(|ts|, isOther, 0);
    if r.Some? then
      assert forall k :: 0 <= k < r.value ==> ts[..r.value][k] == ts[k];
      r
    else r
  }

  /** The batches `range(0, n, 100)` slices the URIs into. */
  const BatchSize: nat := 100

  function Batches(uris: seq<string>): (r: seq<seq<string>>)
    ensures forall k :: 0 <= k < |r| ==> 1 <= |r[k]| <= BatchSize
    decreases |uris|
  {
    if |uris| == 0 then []
    else if |uris| <= BatchSize then [uris]
    else [uris[..BatchSize]] + Batches(uris[BatchSize..])
  }

  /** The batches put back together are the URIs, in order. */
  lemma {:induction false} BatchesFlatten(uris: seq<string>)
    ensures Flatten(Batches(uris)) == uris
    decreases |uris|
  {
    if |uris| > BatchSize {
      var rest := uris[BatchSize..];
      BatchesFlatten(rest);
      assert Batches(uris)[1..] == Batches(rest);
      assert uris == uris[..BatchSize] + rest;
    } else if |uris| > 0 {
      assert Flatten(Batches(uris)[1..]) == [];
    }
  }

  /** There are ceil(n / 100) batches. */
  lemma {:induction false} BatchesCount(uris: seq<string>)
    ensures |Batches(uris)| == (|uris| + BatchSize - 1) / BatchSize
    decreases |uris|
  {
    if |uris| > BatchSize {
      BatchesCount(uris[BatchSize..]);
    }
  }

  /** Where batch k ends in a list of n URIs. */
  function BatchEnd(n: nat, lo: nat): nat {
    if lo + BatchSize < n then lo + BatchSize else n
  }

  /** Batch k is the slice `uris[100k : 100k + 100]`. */
  lemma {:induction false} BatchAt(uris: seq<string>, k: nat)
    requires k < |Batches(uris)|
    ensures BatchSize * k < |uris|
    ensures Batches(uris)[k] == uris[BatchSize * k..BatchEnd(|uris|, BatchSize * k)]
    decreases |uris|
  {
    if k > 0 {
      var rest := uris[BatchSize..];
      assert Batches(uris)[k] == Batches(rest)[k - 1];
      BatchAt(rest, k - 1);
      var lo := BatchSize * (k - 1);
      assert BatchSize * k == lo + BatchSize;
      ShiftedSlice(uris, BatchSize, lo, BatchEnd(|rest|, lo));
    }
  }

  lemma ShiftedSlice(s: seq<string>, d: nat, lo: nat, hi: nat)
    requires d <= |s| && lo <= hi <= |s| - d
    ensures s[d..][lo..hi] == s[lo + d..hi + d]
  {
  }

  /** Adding the batches one by one, stopping at the first call that
      raises: whether every call went through, and the calls made (the
      failing one included). */
  function AddAll(client: Client, id: string, batches: seq<seq<string>>): (r: (bool, seq<Call>))
    ensures |r.1| <= |batches|
    ensures forall k :: 0 <= k < |r.1| ==> r.1[k] == Add(id, batches[k])
    ensures forall k :: 0 <= k < |r.1| - 1 ==> client.add(id, batches[k])
    ensures r.0 <==> |r.1| == |batches| && forall k :: 0 <= k < |batches| ==> client.add(id, batches[k])
    ensures !r.0 ==> 0 < |r.1| && !client.add(id, batches[|r.1| - 1])
    decreases |batches|
  {
    if |batches| == 0 then (true, [])
    else if !client.add(id, batches[0]) then (false, [Add(id, batches[0])])
    else
      var rest := AddAll(client, id, batches[1..]);
      (rest.0, [Add(id, batches[0])] + rest.1)
  }

  /** The items of a list of `Add` calls. */
  function AddedItems(calls: seq<Call>): (r: seq<seq<string>>)
    requires forall k :: 0 <= k < |calls| ==> calls[k].Add?
    ensures |r| == |calls| && forall k :: 0 <= k < |calls| ==> r[k] == calls[k].items
  {
    seq(|calls|, k requires 0 <= k < |calls| && calls[k].Add? => calls[k].items)
  }

  /** What `create_playlist` returns, or the `ValueError` escaping it. */
  datatype Result = Returned(url: Option<string>) | Raised

  datatype Run = Run(result: Result, calls: seq<Call>)

  /** `create_playlist(tracks_data, playlist_name, description, limit)`. */
  function CreatePlaylist(client: Option<Client>, tracks: seq<Track>, name: string, description: string, limit: int): (r: Run)
    ensures |tracks| == 0 || client.None? ==> r == Run(Returned(None), [])
    ensures r.result == Raised <==> |tracks| > 0 && client.Some? && !Searchable(Take(tracks, limit))
    ensures r.result.Returned? && r.result.url.Some? ==>
      client.Some? && var ts := Take(tracks, limit);
      Searchable(ts) && |Uris(client.value, ts)| > 0
  {
    if |tracks| == 0 || client.None? then Run(Returned(None), [])
    else
      var c := client.value;
      var ts := Take(tracks, limit);
      match FirstOther(ts)
      case Some(i) => Run(Raised, SearchCalls(ts[..i]))
      case None =>
        var searches := SearchCalls(ts);
        var uris := Uris(c, ts);
        if |uris| == 0 then Run(Returned(None), searches)
        else
          match c.create(name, description)
          case None => Run(Returned(None), searches + [Create(name, description)])
          case Some(p) =>
            var (ok, adds) := AddAll(c, p.id, Batches(uris));
            Run(Returned(if ok then Some(p.url) else None), searches + [Create(name, description)] + adds)
  }

  /** With records to search but no URI found, the run makes the searches
      and nothing else, and returns None: no playlist is created. */
  lemma CreateNothingFound(c: Client, tracks: seq<Track>, name: string, description: string, limit: int)
    requires |tracks| > 0 && Searchable(Take(tracks, limit))
    requires |Uris(c, Take(tracks, limit))| == 0
    ensures CreatePlaylist(Some(c), tracks, name, description, limit) ==
      Run(Returned(None), SearchCalls(Take(tracks, limit)))
  {
  }

  /** When creating the playlist raises, the run returns None after the
      searches and the one creation call: nothing is added. */
  lemma CreateFails(c: Client, tracks: seq<Track>, name: string, description: string, limit: int)
    requires |tracks| > 0 && Searchable(Take(tracks, limit))
    requires |Uris(c, Take(tracks, limit))| > 0
    requires c.create(name, description).None?
    ensures CreatePlaylist(Some(c), tracks, name, description, limit) ==
      Run(Returned(None), SearchCalls(Take(tracks, limit)) + [Create(name, description)])
  {
  }

  /** Only the first `limit` records are searched, one search each, in
      order, before anything else. */
  lemma CreateSearchesFirst(c: Client, tracks: seq<Track>, name: string, description: string, limit: int)
    requires |tracks| > 0 && Searchable(Take(tracks, limit))
    ensures var ts := Take(tracks, limit);
      var r := CreatePlaylist(Some(c), tracks, name, description, limit);
      |ts| <= |r.calls| && r.calls[..|ts|] == SearchCalls(ts)
  {
  }

  /** When the playlist is created and every batch is added, the run
      returns the playlist's URL; after the searches come one creation and
      ceil(n / 100) additions to that playlist, whose items put together
      are the found URIs in order. */
  lemma CreateSucceeds(c: Client, tracks: seq<Track>, name: string, description: string, limit: int, p: PlaylistRef)
    requires |tracks| > 0 && Searchable(Take(tracks, limit))
    requires |Uris(c, Take(tracks, limit))| > 0
    requires c.create(name, description) == Some(p)
    requires forall b :: c.add(p.id, b)
    ensures var ts := Take(tracks, limit);
      var uris := Uris(c, ts);
      var r := CreatePlaylist(Some(c), tracks, name, description, limit);
      var n := |ts| + 1;
      r.result == Returned(Some(p.url)) &&
      |r.calls| == n + (|uris| + BatchSize - 1) / BatchSize &&
      r.calls[..|ts|] == SearchCalls(ts) && r.calls[|ts|] == Create(name, description) &&
      (forall k :: n <= k < |r.calls| ==> r.calls[k].Add? && r.calls[k].playlist == p.id) &&
      Flatten(AddedItems(r.calls[n..])) == uris
  {
    var ts := Take(tracks, limit);
    var uris := Uris(c, ts);
    var adds := AddAll(c, p.id, Batches(uris)).1;
    var r := CreatePlaylist(Some(c), tracks, name, description, limit);
    assert r.calls == SearchCalls(ts) + [Create(name, description)] + adds;
    assert r.calls[|ts| + 1..] == adds;
    assert AddedItems(adds) == Batches(uris);
    BatchesFlatten(uris);
    BatchesCount(uris);
  }

  /** When adding batch j raises, the run returns None, and the batches
      before it, already added, stay added: the run's additions are the
      first j + 1 batches. */
  lemma CreateAddRaises(c: Client, tracks: seq<Track>, name: string, description: string, limit: int, p: PlaylistRef, j: nat)
    requires |tracks| > 0 && Searchable(Take(tracks, limit))
    requires |Uris(c, Take(tracks, limit))| > 0
    requires c.create(name, description) == Some(p)
    requires var bs := Batches(Uris(c, Take(tracks, limit)));
      j < |bs| && !c.add(p.id, bs[j]) && forall k :: 0 <= k < j ==> c.add(p.id, bs[k])
    ensures var ts := Take(tracks, limit);
      var r := CreatePlaylist(Some(c), tracks, name, description, limit);
      var n := |ts| + 1;
      r.result == Returned(None) && n <= |r.calls| &&
      (forall k :: n <= k < |r.calls| ==> r.calls[k].Add?) &&
      AddedItems(r.calls[n..]) == Batches(Uris(c, ts))[..j + 1]
  {
    var ts := Take(tracks, limit);
    var bs := Batches(Uris(c, ts));
    var added := AddAll(c, p.id, bs);
    AddAllStopsAt(c, p.id, bs, j);
    CreateShape(c, tracks, name, description, limit, p);
    var r := CreatePlaylist(Some(c), tracks, name, description, limit);
    assert r.calls[|ts| + 1..] == added.1;
    AddedPrefix(c, p.id, bs, j);
  }

  lemma AddedPrefix(c: Client, id: string, bs: seq<seq<string>>, j: nat)
    requires j < |bs| && |AddAll(c, id, bs).1| == j + 1
    ensures AddedItems(AddAll(c, id, bs).1) == bs[..j + 1]
  {
  }

  /** The run once the playlist exists: the searches, the creation, then
      the additions. */
  lemma CreateShape(c: Client, tracks: seq<Track>, name: string, description: string, limit: int, p: PlaylistRef)
    requires |tracks| > 0 && Searchable(Take(tracks, limit))
    requires |Uris(c, Take(tracks, limit))| > 0
    requires c.create(name, description) == Some(p)
    ensures var ts := Take(tracks, limit);
      var added := AddAll(c, p.id, Batches(Uris(c, ts)));
      CreatePlaylist(Some(c), tracks, name, description, limit) ==
        Run(Returned(if added.0 then Some(p.url) else None),
            SearchCalls(ts) + [Create(name, description)] + added.1)
  {
  }

  /** Adding stops right after the first batch whose call raises. */
  lemma AddAllStopsAt(c: Client, id: string, bs: seq<seq<string>>, j: nat)
    requires j < |bs| && !c.add(id, bs[j]) && forall k :: 0 <= k < j ==> c.add(id, bs[k])
    ensures !AddAll(c, id, bs).0 && |AddAll(c, id, bs).1| == j + 1
  {
  }

  // ---------------------------------------------------------------------
  // The search loop, as the source writes it

  /** The loop over the first `limit` records: searches each in order and
      keeps the non-empty URIs found. */
  method CollectUris(client: Client, ts: seq<Track>) returns (uris: seq<string>, calls: seq<Call>)
    requires Searchable(ts)
    ensures uris == Uris(client, ts)
    ensures calls == SearchCalls(ts)
  {
    uris, calls := [], [];
    for i := 0 to |ts|
      invariant uris == Uris(client, ts[..i])
      invariant |calls| == i && forall k :: 0 <= k < i ==> calls[k] == SearchCall(ts[k])
    {
      var t := ts[i];
      var title, artist := t.title, t.artist;
      calls := calls + [Search(Query(title, artist))];
      var uri := SearchSong(Some(client), title, artist);
      if uri.Some? && uri.value != "" {
        uris := uris + [uri.value];
      }
      KeptStep(client, ts, i, uri);
    }
    assert ts[..|ts|] == ts;
  }

  /** One pass of the loop appends what the record contributes. */
  lemma KeptStep(client: Client, ts: seq<Track>, i: nat, uri: Option<string>)
    requires i < |ts| && !ts[i].Other?
    requires uri == SearchSong(Some(client), ts[i].title, ts[i].artist)
    ensures Uris(client, ts[..i + 1]) ==
      Uris(client, ts[..i]) + (if uri.Some? && uri.value != "" then [uri.value] else [])
  {
    var f := (t: Track) => Resolve(client, t);
    assert ts[..i + 1] == ts[..i] + [ts[i]];
    FilterMapAppend(ts[..i], [ts[i]], f);
    FilterMapSingle(ts[i], f);
  }
}
