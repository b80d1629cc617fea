/**
 * The serverless video endpoint: channel-identifier resolution, the paginated catalog
 * fetch through the Data API, the scrape fallback with per-video oEmbed hydration,
 * the newest-first sort and the response envelope.
 *
 * Every upstream response is an input value. `publishedAt` is an abstract integer
 * timestamp (larger is newer).
 */
module YouTubeApi {
  import opened Wrappers
  import opened Seqs
  import opened WatchLinks

  const ChannelHandle: string := "nandathirdeye1152"
  const ChannelName: string := "Nanda Third Eye"
  const ChannelUrl: string := "https://www.youtube.com/@nandathirdeye1152"
  const UntitledVideo: string := "Untitled Video"

  /** The record the endpoint returns for one video. */
  datatype VideoRecord = VideoRecord(
    id: string,
    title: string,
    publishedAt: int,
    channelName: string,
    channelUrl: string,
    description: Option<string>,
    thumbnailUrl: Option<string>)

  function RecordIds(vs: seq<VideoRecord>): (ids: seq<string>)
    ensures |ids| == |vs| && forall k :: 0 <= k < |vs| ==> ids[k] == vs[k].id
  {
    seq(|vs|, k requires 0 <= k < |vs| => vs[k].id)
  }

  // ----- channel identifier ---------------------------------------------------

  /**
   * The answer to one lookup request: the identifiers of its `items` (an absent or
   * empty `items` gives the empty list), or a failure of the request or of its JSON.
   */
  datatype Lookup = Answered(ids: seq<string>) | LookupFailed

  /**
   * getChannelId: the first channel of the channel-type search if there is one, else
   * the first channel of the handle lookup, else none. Both requests run inside one
   * try block, so a failed search yields none without trying the handle lookup.
   */
  function GetChannelId(search: Lookup, byHandle: Lookup): (r: Option<string>)
    ensures search.Answered? && search.ids != [] ==> r == Some(search.ids[0])
    ensures r.Some? && !(search.Answered? && search.ids != []) ==>
      search == Answered([]) && byHandle.Answered? && byHandle.ids != [] && r == Some(byHandle.ids[0])
    ensures r.None? <==>
      search.LookupFailed? || (search == Answered([]) && (byHandle.LookupFailed? || byHandle.ids == []))
  {
    match search
    case LookupFailed => None
    case Answered(found) =>
      if |found| > 0 then Some(found[0])
      else match byHandle
        case LookupFailed => None
        case Answered(handles) => if |handles| > 0 then Some(handles[0]) else None
  }

  /** The handle lookup decides nothing unless the search answered with no channel. */
  lemma HandleLookupOnlyAfterEmptySearch(search: Lookup, h1: Lookup, h2: Lookup)
    requires search != Answered([])
    ensures GetChannelId(search, h1) == GetChannelId(search, h2)
  {
  }

  // ----- catalog fetch --------------------------------------------------------

  /** One entry of a playlist page, with the snippet fields the endpoint reads. */
  datatype PlaylistItem = PlaylistItem(
    videoId: string,
    title: string,
    publishedAt: int,
    channelTitle: Option<string>,
    description: Option<string>,
    maxresUrl: Option<string>,
    highUrl: Option<string>)

  /** One playlist page response (an absent `items` is the empty list). */
  datatype PlaylistPage = PlaylistPage(hasError: bool, items: seq<PlaylistItem>, nextPageToken: Option<string>)

  /** `while (nextPageToken)`: another page is requested only for a non-empty token. */
  predicate Continues(page: PlaylistPage) {
    Truthy(page.nextPageToken)
  }

  /** The record built for one playlist item. */
  function FromPlaylistItem(item: PlaylistItem): (v: VideoRecord)
    ensures v.id == item.videoId && v.title == item.title && v.publishedAt == item.publishedAt
    ensures v.description == item.description
    ensures Truthy(item.channelTitle) ==> v.channelName == item.channelTitle.value
    ensures !Truthy(item.channelTitle) ==> v.channelName == ChannelName
    ensures v.channelName != ""
    ensures v.channelUrl == ChannelUrl
    ensures Truthy(item.maxresUrl) ==> v.thumbnailUrl == item.maxresUrl
    ensures !Truthy(item.maxresUrl) ==> v.thumbnailUrl == item.highUrl
  {
    VideoRecord(
      item.videoId, item.title, item.publishedAt,
      Or(item.channelTitle, ChannelName), ChannelUrl,
      item.description, OrElse(item.maxresUrl, item.highUrl))
  }

  function ItemRecords(items: seq<PlaylistItem>): (vs: seq<VideoRecord>)
    ensures |vs| == |items|
  {
    seq(|items|, k requires 0 <= k < |items| => FromPlaylistItem(items[k]))
  }

  /** The records of every item of `pages`, page by page and item by item. */
  function PageRecords(pages: seq<PlaylistPage>): seq<VideoRecord> {
    if pages == [] then []
    else PageRecords(pages[..|pages| - 1]) + ItemRecords(pages[|pages| - 1].items)
  }

  function ItemCount(pages: seq<PlaylistPage>): nat {
    if pages == [] then 0
    else ItemCount(pages[..|pages| - 1]) + |pages[|pages| - 1].items|
  }

  /**
   * The number of pages whose items the do-while loop keeps, when `pages[k]` answers
   * the k-th request and a request past the end of `pages` fails. It is the first
   * point at which the loop stops: a failed request, a page that reports an error
   * (whose items are not kept), or the page after one without a continuation token.
   */
  function ProcessedCount(pages: seq<PlaylistPage>): (k: nat)
    ensures k <= |pages|
    ensures forall j :: 0 <= j < k ==> !pages[j].hasError
    ensures forall j :: 0 <= j < k - 1 ==> Continues(pages[j])
    ensures k == |pages| || pages[k].hasError || (k > 0 && !Continues(pages[k - 1]))
  {
    if pages == [] || pages[0].hasError then 0
    else if !Continues(pages[0]) then 1
    else 1 + ProcessedCount(pages[1..])
  }

  /** The contract of ProcessedCount determines it: any stopping point meeting it is that count. */
  lemma ProcessedCountUnique(pages: seq<PlaylistPage>, k: nat)
    requires k <= |pages|
    requires forall j :: 0 <= j < k ==> !pages[j].hasError
    requires forall j :: 0 <= j < k - 1 ==> Continues(pages[j])
    requires k == |pages| || pages[k].hasError || (k > 0 && !Continues(pages[k - 1]))
    ensures k == ProcessedCount(pages)
  {
  }

  /**
   * The result of fetchAllVideos: nothing when the channel lookup finds no uploads
   * playlist (its 'Channel not found' is caught inside), otherwise the records of
   * every page processed.
   */
  function CatalogVideos(uploads: Option<string>, pages: seq<PlaylistPage>): seq<VideoRecord> {
    if uploads.None? then [] else PageRecords(pages[..ProcessedCount(pages)])
  }

  lemma {:induction false} PageRecordsLength(pages: seq<PlaylistPage>)
    ensures |PageRecords(pages)| == ItemCount(pages)
  {
    if pages != [] {
      PageRecordsLength(pages[..|pages| - 1]);
    }
  }

  /** Item `m` of page `j` sits at offset ItemCount(pages[..j]) + m of the collected records. */
  lemma {:induction false} PageRecordsAt(pages: seq<PlaylistPage>, j: nat, m: nat)
    requires j < |pages| && m < |pages[j].items|
    ensures ItemCount(pages[..j]) + m < |PageRecords(pages)|
    ensures PageRecords(pages)[ItemCount(pages[..j]) + m] == FromPlaylistItem(pages[j].items[m])
  {
    var init := pages[..|pages| - 1];
    PageRecordsLength(init);
    if j == |pages| - 1 {
      assert pages[..j] == init;
    } else {
      PageRecordsAt(init, j, m);
      assert init[..j] == pages[..j];
      assert init[j] == pages[j];
    }
  }

  /** The catalog's length is the sum of the item counts of the pages processed. */
  lemma CatalogVideosLength(uploads: Option<string>, pages: seq<PlaylistPage>)
    ensures uploads.None? ==> CatalogVideos(uploads, pages) == []
    ensures uploads.Some? ==>
      |CatalogVideos(uploads, pages)| == ItemCount(pages[..ProcessedCount(pages)])
  {
    PageRecordsLength(pages[..ProcessedCount(pages)]);
  }

  /**
   * The catalog keeps, in order, every item of every page processed: item `m` of page
   * `j` is record ItemCount(pages[..j]) + m.
   */
  lemma CatalogVideosAt(uploads: Option<string>, pages: seq<PlaylistPage>, j: nat, m: nat)
    requires uploads.Some?
    requires j < ProcessedCount(pages) && m < |pages[j].items|
    ensures ItemCount(pages[..j]) + m < |CatalogVideos(uploads, pages)|
    ensures CatalogVideos(uploads, pages)[ItemCount(pages[..j]) + m] == FromPlaylistItem(pages[j].items[m])
  {
    var done := pages[..ProcessedCount(pages)];
    PageRecordsAt(done, j, m);
    assert done[..j] == pages[..j];
    assert done[j] == pages[j];
  }

  /** Every record of the catalog has the configured channel URL and a non-empty channel name. */
  lemma {:induction false} PageRecordsChannel(pages: seq<PlaylistPage>)
    ensures forall v :: v in PageRecords(pages) ==> v.channelUrl == ChannelUrl && v.channelName != ""
  {
    if pages != [] {
      PageRecordsChannel(pages[..|pages| - 1]);
      var items := pages[|pages| - 1].items;
      forall v | v in ItemRecords(items) ensures v.channelUrl == ChannelUrl && v.channelName != "" {
        var k :| 0 <= k < |items| && ItemRecords(items)[k] == v;
        assert v == FromPlaylistItem(items[k]);
      }
    }
  }

  /**
   * fetchAllVideos: the channel lookup, then a do-while loop over the playlist pages
   * that appends the records of each page's items.
   */
  method FetchAllVideos(uploads: Option<string>, pages: seq<PlaylistPage>) returns (videos: seq<VideoRecord>)
    ensures videos == CatalogVideos(uploads, pages)
  {
    videos := [];
    if uploads.None? {
      return;
    }
    var i := 0;
    var more := true;
    while more
      invariant 0 <= i <= |pages|
      invariant videos == PageRecords(pages[..i])
      invariant forall j :: 0 <= j < i ==> !pages[j].hasError
      invariant more ==> forall j :: 0 <= j < i ==> Continues(pages[j])
      invariant !more ==> i == ProcessedCount(pages)
      decreases |pages| - i, more
    {
      if i == |pages| {
        // the request fails; the exception ends the fetch with what was collected
        more := false;
        ProcessedCountUnique(pages, i);
      } else if pages[i].hasError {
        more := false;
        ProcessedCountUnique(pages, i);
      } else {
        var items := pages[i].items;
        var n := 0;
        while n < |items|
          invariant 0 <= n <= |items|
          invariant videos == PageRecords(pages[..i]) + ItemRecords(items[..n])
        {
          assert ItemRecords(items[..n + 1]) == ItemRecords(items[..n]) + [FromPlaylistItem(items[n])];
          videos := videos + [FromPlaylistItem(items[n])];
          n := n + 1;
        }
        assert items[..n] == items;
        assert pages[..i + 1][..i] == pages[..i];
        i := i + 1;
        more := Continues(pages[i - 1]);
        if !more {
          ProcessedCountUnique(pages, i);
        }
      }
    }
  }

  // ----- scrape fallback --------------------------------------------------------

  /** The fields of an oEmbed answer that the fallback reads. */
  datatype OembedData = OembedData(title: Option<string>, authorName: Option<string>, authorUrl: Option<string>)

  /** The channel page request: a response with its `ok` flag and text, or a failed request. */
  datatype ChannelPage = ChannelPage(ok: bool, html: string) | ChannelPageUnreachable

  /** The record built from one oEmbed answer, dated with the instant `at` that answer arrived. */
  function FromOembed(id: string, data: OembedData, at: int): (v: VideoRecord)
    ensures v.id == id && v.publishedAt == at
    ensures v.title == Or(data.title, UntitledVideo) && v.title != ""
    ensures v.channelName == Or(data.authorName, ChannelName) && v.channelName != ""
    ensures v.channelUrl == Or(data.authorUrl, ChannelUrl) && v.channelUrl != ""
    ensures v.description.None? && v.thumbnailUrl.None?
  {
    VideoRecord(id, Or(data.title, UntitledVideo), at,
      Or(data.authorName, ChannelName), Or(data.authorUrl, ChannelUrl), None, None)
  }

  /** The identifiers whose oEmbed request succeeded, in the order of `ids`. */
  function Hydratable(ids: seq<string>, oembed: string -> Option<OembedData>): (r: seq<string>)
    ensures |r| <= |ids|
    ensures forall x :: x in r <==> x in ids && oembed(x).Some?
    ensures NoDuplicates(ids) ==> NoDuplicates(r)
  {
    if ids == [] then []
    else if oembed(ids[0]).Some? then [ids[0]] + Hydratable(ids[1..], oembed)
    else Hydratable(ids[1..], oembed)
  }

  /** For distinct identifiers, the kept ones come in the order they have in `ids`. */
  lemma {:induction false} HydratableOrder(ids: seq<string>, oembed: string -> Option<OembedData>)
    requires NoDuplicates(ids)
    ensures forall i, j :: 0 <= i < j < |Hydratable(ids, oembed)| ==>
      FirstIndex(ids, Hydratable(ids, oembed)[i]) < FirstIndex(ids, Hydratable(ids, oembed)[j])
  {
    if ids != [] {
      var r := Hydratable(ids, oembed);
      var rest := Hydratable(ids[1..], oembed);
      assert NoDuplicates(ids[1..]);
      HydratableOrder(ids[1..], oembed);
      forall k | 0 <= k < |rest| ensures FirstIndex(ids, rest[k]) == 1 + FirstIndex(ids[1..], rest[k]) {
        var m := FirstIndex(ids[1..], rest[k]);
        assert ids[m + 1] == rest[k];
      }
      if oembed(ids[0]).Some? {
        assert r == [ids[0]] + rest;
        forall i, j | 0 <= i < j < |r| ensures FirstIndex(ids, r[i]) < FirstIndex(ids, r[j]) {
          assert r[j] == rest[j - 1];
          if i > 0 {
            assert r[i] == rest[i - 1];
            assert FirstIndex(ids[1..], rest[i - 1]) < FirstIndex(ids[1..], rest[j - 1]);
          }
        }
      } else {
        assert r == rest;
        forall i, j | 0 <= i < j < |r| ensures FirstIndex(ids, r[i]) < FirstIndex(ids, r[j]) {
          assert FirstIndex(ids[1..], rest[i]) < FirstIndex(ids[1..], rest[j]);
        }
      }
    }
  }

  /**
   * The oEmbed fan-out and the filter of its results: one record for each identifier
   * whose request succeeded, in the order of `ids`; the others are dropped. Each record
   * is dated with `arrival(id)`, the instant its own oEmbed answer came back.
   */
  function Hydrate(ids: seq<string>, oembed: string -> Option<OembedData>, arrival: string -> int): (vs: seq<VideoRecord>)
    ensures RecordIds(vs) == Hydratable(ids, oembed)
    ensures forall k :: 0 <= k < |vs| ==>
      oembed(vs[k].id).Some? && vs[k] == FromOembed(vs[k].id, oembed(vs[k].id).value, arrival(vs[k].id))
  {
    if ids == [] then []
    else
      var rest := Hydrate(ids[1..], oembed, arrival);
      match oembed(ids[0])
      case Some(data) =>
        var vs := [FromOembed(ids[0], data, arrival(ids[0]))] + rest;
        assert RecordIds(vs) == [ids[0]] + RecordIds(rest);
        vs
      case None => rest
  }

  /** fetchVideosFallback: nothing unless the channel page answered with `ok`. */
  function FetchVideosFallback(page: ChannelPage, oembed: string -> Option<OembedData>, arrival: string -> int): seq<VideoRecord> {
    match page
    case ChannelPageUnreachable => []
    case ChannelPage(ok, html) => if ok then Hydrate(ExtractVideoIds(html), oembed, arrival) else []
  }

  /**
   * The fallback returns at most 50 records with distinct, well-formed identifiers,
   * each a hydrated identifier of the page in extraction order, each with its
   * defaults filled in and its own arrival instant as its date; a failed page gives none.
   */
  lemma FallbackProperties(page: ChannelPage, oembed: string -> Option<OembedData>, arrival: string -> int)
    ensures !(page.ChannelPage? && page.ok) ==> FetchVideosFallback(page, oembed, arrival) == []
    ensures page.ChannelPage? && page.ok ==>
      RecordIds(FetchVideosFallback(page, oembed, arrival)) == Hydratable(ExtractVideoIds(page.html), oembed)
    ensures |FetchVideosFallback(page, oembed, arrival)| <= MaxScrapedVideos
    ensures NoDuplicates(RecordIds(FetchVideosFallback(page, oembed, arrival)))
    ensures forall v :: v in FetchVideosFallback(page, oembed, arrival) ==>
      && IsVideoId(v.id)
      && oembed(v.id).Some?
      && v == FromOembed(v.id, oembed(v.id).value, arrival(v.id))
      && v.publishedAt == arrival(v.id)
      && v.title != ""
  {
    if page.ChannelPage? && page.ok {
      var ids := ExtractVideoIds(page.html);
      var vs := FetchVideosFallback(page, oembed, arrival);
      ExtractVideoIdsProperties(page.html);
      assert |RecordIds(vs)| == |vs|;
      forall v | v in vs
        ensures IsVideoId(v.id) && oembed(v.id).Some? && v == FromOembed(v.id, oembed(v.id).value, arrival(v.id))
      {
        var k :| 0 <= k < |vs| && vs[k] == v;
        assert RecordIds(vs)[k] == v.id;
        assert v.id in Hydratable(ids, oembed);
      }
    }
  }

  // ----- sort -----------------------------------------------------------------

  /** Newest first: `publishedAt` never increases along the list. */
  predicate SortedByRecency(vs: seq<VideoRecord>) {
    forall i, j :: 0 <= i < j < |vs| ==> vs[i].publishedAt >= vs[j].publishedAt
  }

  /** Inserts `v` before the first record that is not newer than it. */
  function InsertByRecency(v: VideoRecord, vs: seq<VideoRecord>): (r: seq<VideoRecord>)
    ensures |r| == |vs| + 1
    ensures multiset(r) == multiset(vs) + multiset{v}
  {
    if vs == [] || v.publishedAt >= vs[0].publishedAt then [v] + vs
    else
      assert vs == [vs[0]] + vs[1..];
      [vs[0]] + InsertByRecency(v, vs[1..])
  }

  /** Inserting a record no newer than `bound` into records no newer than `bound` keeps them so. */
  lemma {:induction false} InsertBounded(v: VideoRecord, vs: seq<VideoRecord>, bound: int)
    requires v.publishedAt <= bound
    requires forall k :: 0 <= k < |vs| ==> vs[k].publishedAt <= bound
    ensures forall k :: 0 <= k < |InsertByRecency(v, vs)| ==> InsertByRecency(v, vs)[k].publishedAt <= bound
  {
    if vs != [] && v.publishedAt < vs[0].publishedAt {
      InsertBounded(v, vs[1..], bound);
    }
  }

  lemma {:induction false} InsertKeepsSorted(v: VideoRecord, vs: seq<VideoRecord>)
    requires SortedByRecency(vs)
    ensures SortedByRecency(InsertByRecency(v, vs))
  {
    if vs != [] && v.publishedAt < vs[0].publishedAt {
      var rest := InsertByRecency(v, vs[1..]);
      InsertKeepsSorted(v, vs[1..]);
      InsertBounded(v, vs[1..], vs[0].publishedAt);
      SortedCons(vs[0], rest);
    }
  }

  /** A record no older than every record of a newest-first list can head it. */
  lemma SortedCons(v: VideoRecord, vs: seq<VideoRecord>)
    requires SortedByRecency(vs)
    requires forall k :: 0 <= k < |vs| ==> vs[k].publishedAt <= v.publishedAt
    ensures SortedByRecency([v] + vs)
  {
    var r := [v] + vs;
    forall i, j | 0 <= i < j < |r| ensures r[i].publishedAt >= r[j].publishedAt {
      assert r[j] == vs[j - 1];
      if i > 0 {
        assert r[i] == vs[i - 1];
      }
    }
  }

  /**
   * `videos.sort((a, b) => b.publishedAt - a.publishedAt)`: a stable sort, newest first,
   * that rearranges the records and neither adds nor drops any.
   */
  function SortByRecency(vs: seq<VideoRecord>): (r: seq<VideoRecord>)
    ensures |r| == |vs|
    ensures multiset(r) == multiset(vs)
    ensures SortedByRecency(r)
  {
    if vs == [] then []
    else
      assert vs == [vs[0]] + vs[1..];
      InsertKeepsSorted(vs[0], SortByRecency(vs[1..]));
      InsertByRecency(vs[0], SortByRecency(vs[1..]))
  }

  /** A list whose records all share one timestamp comes out of the sort unchanged. */
  lemma {:induction false} SortKeepsOrderOfEqualTimes(vs: seq<VideoRecord>, t: int)
    requires forall k :: 0 <= k < |vs| ==> vs[k].publishedAt == t
    ensures SortByRecency(vs) == vs
  {
    if vs != [] {
      SortKeepsOrderOfEqualTimes(vs[1..], t);
      assert vs == [vs[0]] + vs[1..];
    }
  }

  /** The records of `vs` dated `t`, in the order they have in `vs`. */
  function RecordsAt(vs: seq<VideoRecord>, t: int): (r: seq<VideoRecord>)
    ensures |r| <= |vs|
    ensures forall k :: 0 <= k < |r| ==> r[k].publishedAt == t
  {
    if vs == [] then []
    else (if vs[0].publishedAt == t then [vs[0]] else []) + RecordsAt(vs[1..], t)
  }

  /** Inserting `v` adds it to the records of its own date, at their front, and to no others. */
  lemma {:induction false} InsertRecordsAt(v: VideoRecord, vs: seq<VideoRecord>, t: int)
    ensures RecordsAt(InsertByRecency(v, vs), t) ==
      (if v.publishedAt == t then [v] else []) + RecordsAt(vs, t)
  {
    var r := InsertByRecency(v, vs);
    if vs == [] || v.publishedAt >= vs[0].publishedAt {
      assert r == [v] + vs;
      assert r[1..] == vs;
    } else {
      var rest := InsertByRecency(v, vs[1..]);
      InsertRecordsAt(v, vs[1..], t);
      assert r == [vs[0]] + rest;
      assert r[1..] == rest;
    }
  }

  /**
   * The sort is stable: for every date, the records of that date keep their relative
   * order.
   */
  lemma {:induction false} SortIsStable(vs: seq<VideoRecord>, t: int)
    ensures RecordsAt(SortByRecency(vs), t) == RecordsAt(vs, t)
  {
    if vs != [] {
      SortIsStable(vs[1..], t);
      InsertRecordsAt(vs[0], SortByRecency(vs[1..]), t);
    }
  }

  /**
   * When every oEmbed answer arrives at one instant, the newest-first sort leaves the
   * fallback records in extraction order.
   */
  lemma FallbackOrderWithOneArrival(page: ChannelPage, oembed: string -> Option<OembedData>, arrival: string -> int, t: int)
    requires forall id :: arrival(id) == t
    ensures SortByRecency(FetchVideosFallback(page, oembed, arrival)) == FetchVideosFallback(page, oembed, arrival)
  {
    var vs := FetchVideosFallback(page, oembed, arrival);
    FallbackProperties(page, oembed, arrival);
    forall k | 0 <= k < |vs| ensures vs[k].publishedAt == t {
      assert vs[k] in vs;
    }
    SortKeepsOrderOfEqualTimes(vs, t);
  }

  // ----- handler --------------------------------------------------------------

  /** Every upstream answer one request of the endpoint can receive. */
  datatype Upstream = Upstream(
    search: Lookup,                        // channel-type search for the handle
    byHandle: Lookup,                      // channels lookup by handle
    uploads: Option<string>,               // uploads playlist of the resolved channel
    playlist: seq<PlaylistPage>,           // the k-th playlist page requested
    channelPage: ChannelPage,              // the public /videos page
    oembed: string -> Option<OembedData>,  // the oEmbed answer for each video id
    arrival: string -> int,                // the instant each video's oEmbed answer arrived
    now: int)                              // the instant the response is built

  /** The upstream stages the handler enters, in order. */
  datatype Stage = ChannelIdLookup | CatalogFetch | ScrapeFallback

  datatype ChannelInfo = ChannelInfo(name: string, url: string, handle: string)

  /** The three bodies the endpoint sends: 405, 200 and 500. */
  datatype Response =
    | MethodNotAllowed
    | Success(channel: ChannelInfo, videos: seq<VideoRecord>, totalCount: nat, usedApi: bool, fetchedAt: int)
    | ServerError

  function Status(r: Response): (code: int)
    ensures r.MethodNotAllowed? ==> code == 405
    ensures r.Success? ==> code == 200
    ensures r.ServerError? ==> code == 500
  {
    match r
    case MethodNotAllowed => 405
    case Success(_, _, _, _, _) => 200
    case ServerError => 500
  }

  /** The catalog the API path yields, when an API key is set and a channel id resolves. */
  function ApiVideos(apiKey: Option<string>, net: Upstream): Option<seq<VideoRecord>> {
    if Truthy(apiKey) && Truthy(GetChannelId(net.search, net.byHandle))
    then Some(CatalogVideos(net.uploads, net.playlist))
    else None
  }

  /** The fallback runs exactly when the API path yields no video. */
  predicate FallbackNeeded(apiKey: Option<string>, net: Upstream) {
    ApiVideos(apiKey, net).None? || ApiVideos(apiKey, net).value == []
  }

  /** The list the response is drawn from: the API path's, else the fallback's; never both. */
  function ChosenVideos(apiKey: Option<string>, net: Upstream): seq<VideoRecord> {
    if FallbackNeeded(apiKey, net) then FetchVideosFallback(net.channelPage, net.oembed, net.arrival)
    else ApiVideos(apiKey, net).value
  }

  /**
   * `usedApi` reports that a channel id resolved, not that the API supplied the videos:
   * with an empty catalog the flag is set and the fallback still runs.
   */
  lemma UsedApiDespiteEmptyCatalog(apiKey: Option<string>, net: Upstream)
    requires Truthy(apiKey) && Truthy(GetChannelId(net.search, net.byHandle))
    requires CatalogVideos(net.uploads, net.playlist) == []
    ensures ApiVideos(apiKey, net).Some? && FallbackNeeded(apiKey, net)
  {
  }

  /**
   * The API path of the handler: the channel id first, then the catalog when an id
   * resolves. `usedApi` is set as soon as an id resolves.
   */
  method FetchFromApi(apiKey: Option<string>, net: Upstream) returns (videos: seq<VideoRecord>, usedApi: bool, stages: seq<Stage>)
    ensures usedApi <==> ApiVideos(apiKey, net).Some?
    ensures videos == if usedApi then ApiVideos(apiKey, net).value else []
    ensures stages == (if Truthy(apiKey) then [ChannelIdLookup] else []) + (if usedApi then [CatalogFetch] else [])
  {
    videos, usedApi, stages := [], false, [];
    if Truthy(apiKey) {
      stages := [ChannelIdLookup];
      var channelId := GetChannelId(net.search, net.byHandle);
      if Truthy(channelId) {
        stages := stages + [CatalogFetch];
        videos := FetchAllVideos(net.uploads, net.playlist);
        usedApi := true;
      }
    }
  }

  /**
   * The body of the handler's `try` for a GET request: the API path, the fallback when
   * the API path yields nothing, the newest-first sort and the 200 envelope.
   */
  method ServeGet(apiKey: Option<string>, net: Upstream) returns (resp: Response, stages: seq<Stage>)
    ensures resp.Success?
    ensures ChannelIdLookup in stages <==> Truthy(apiKey)
    ensures CatalogFetch in stages <==> ApiVideos(apiKey, net).Some?
    ensures ScrapeFallback in stages <==> FallbackNeeded(apiKey, net)
    ensures resp.usedApi <==> ApiVideos(apiKey, net).Some?
    ensures SortedByRecency(resp.videos)
    ensures multiset(resp.videos) == multiset(ChosenVideos(apiKey, net))
    ensures resp.totalCount == |resp.videos|
    ensures forall t :: RecordsAt(resp.videos, t) == RecordsAt(ChosenVideos(apiKey, net), t)
    ensures resp.channel == ChannelInfo(ChannelName, ChannelUrl, ChannelHandle) && resp.fetchedAt == net.now
  {
    var videos, usedApi;
    videos, usedApi, stages := FetchFromApi(apiKey, net);
    if |videos| == 0 {
      stages := stages + [ScrapeFallback];
      videos := FetchVideosFallback(net.channelPage, net.oembed, net.arrival);
    }
    assert videos == ChosenVideos(apiKey, net);
    forall t ensures RecordsAt(SortByRecency(videos), t) == RecordsAt(videos, t) {
      SortIsStable(videos, t);
    }
    videos := SortByRecency(videos);
    resp := Success(ChannelInfo(ChannelName, ChannelUrl, ChannelHandle), videos, |videos|, usedApi, net.now);
  }

  /**
   * handler: the method guard, then the GET body. No stage lets a failure through, so a
   * GET request always receives the 200 body.
   */
  method Handler(requestMethod: string, apiKey: Option<string>, net: Upstream) returns (resp: Response, stages: seq<Stage>)
    ensures requestMethod != "GET" ==> resp == MethodNotAllowed && Status(resp) == 405 && stages == []
    ensures requestMethod == "GET" ==> resp.Success? && Status(resp) == 200
    ensures ChannelIdLookup in stages <==> requestMethod == "GET" && Truthy(apiKey)
    ensures CatalogFetch in stages <==> requestMethod == "GET" && ApiVideos(apiKey, net).Some?
    ensures ScrapeFallback in stages <==> requestMethod == "GET" && FallbackNeeded(apiKey, net)
    ensures resp.Success? ==> (resp.usedApi <==> ApiVideos(apiKey, net).Some?)
    ensures resp.Success? ==>
      && SortedByRecency(resp.videos)
      && multiset(resp.videos) == multiset(ChosenVideos(apiKey, net))
      && resp.totalCount == |resp.videos|
    ensures resp.Success? ==> forall t :: RecordsAt(resp.videos, t) == RecordsAt(ChosenVideos(apiKey, net), t)
    ensures resp.Success? ==>
      resp.channel == ChannelInfo(ChannelName, ChannelUrl, ChannelHandle) && resp.fetchedAt == net.now
  {
    if requestMethod != "GET" {
      resp, stages := MethodNotAllowed, [];
      return;
    }
    resp, stages := ServeGet(apiKey, net);
  }
}
