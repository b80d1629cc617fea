# Video-appearance pipeline of the political-analyst portfolio site

This project models the one piece of the site with real control flow, in Dafny: the
serverless `/api/youtube` endpoint and the client code that classifies what it returns.

The endpoint (`api/youtube.ts`) works in three steps:

- It resolves the channel identifier: a channel-type search first, then a lookup by handle.
- It pages through the channel's uploads playlist with the Data API. Each playlist item becomes a video record.
- When that path yields nothing, it falls back to scraping. It pulls `watch?v=` identifiers out of the public channel page, deduplicates them, keeps at most 50, and fills in each one from the oEmbed endpoint.

It then sorts the records newest first and wraps them in the response envelope.

The client (`src/lib/youtube-hooks.ts`) turns each record into an appearance. Two ordered
keyword rule lists give the topic and the role, with the first matching rule winning. The
first six positions are marked featured. The hooks then choose between this converted data
and the placeholder data, and derive the featured list (at most six) and the recent list
(the first three).

Every upstream answer is an input value: lookups, the uploads playlist, the playlist pages
in request order, the channel page, a function giving each video's oEmbed answer, a
function giving the instant each of those answers arrived, and the instant the response
is built.

Modules:

- `Wrappers`, `Seqs` (wrappers.dfy): option values, JavaScript's `||` on optional strings, and small sequence helpers.
- `WatchLinks` (watch_links.dfy): the regular-expression scan, prefix removal, length filter, `Set` deduplication and the cap of 50.
- `YouTubeApi` (youtube_api.dfy): records, `getChannelId`, `fetchAllVideos` (a method with the do-while loop and the inner item loop), the fallback, the sort and `handler` (a method).
- `YouTubeHooks` (youtube_hooks.dfy): the classifier and the hooks' selection logic.

Behaviour of the code worth noting, all of it modelled as the code does it:

- The scraping fallback keeps up to 50 identifiers (api/youtube.ts:128), although the comment above the function (api/youtube.ts:104) speaks of about 30 videos.
- `usedApi` is true whenever a channel identifier resolved, even when the catalog came back empty and the fallback supplied the videos (`UsedApiDespiteEmptyCatalog`).
- When there is no uploads playlist, `fetchAllVideos` throws 'Channel not found' and catches it itself, so the result is an empty list and nothing propagates.
- `getChannelId` wraps both lookups in one `try`. If the search request fails, the result is null straight away and the handle lookup is never tried.
- The API path copies `snippet.title` as it is. Only the fallback path fills in a missing title. On the fallback path, `channelUrl` is the oEmbed `author_url` when that is present.
- Each fallback record is dated with `new Date()` read when that video's own oEmbed answer arrives (api/youtube.ts:141). The newest-first sort therefore orders the fallback records by arrival, latest first, and keeps extraction order only among records with the same instant (`SortIsStable`, `FallbackOrderWithOneArrival`).
- The endpoint's 500 response cannot occur in the model. Every stage catches its own failures, so a GET request always gets the 200 body (`Handler`).

## Model

| member | source | states |
|---|---|---|
| WatchLinks.MatchPositionsSound | api/youtube.ts:123 | every position the global match reports is an occurrence of `watch?v=` followed by 11 characters of `[A-Za-z0-9_-]`, at or after the scan start |
| WatchLinks.MatchPositionsDisjoint | api/youtube.ts:123 | the matches come left to right and never overlap (each starts at least 19 characters after the previous one) |
| WatchLinks.MatchPositionsComplete | api/youtube.ts:123 | every occurrence of the pattern is either reported or lies inside a reported match |
| WatchLinks.StripMatchedText | api/youtube.ts:126 | removing the first `watch?v=` from a matched text leaves exactly its 11-character identifier |
| WatchLinks.KeepIdLength | api/youtube.ts:127 | the length filter keeps only 11-character entries of its input |
| WatchLinks.KeepIdLengthKeepsAll | api/youtube.ts:127 | when every entry has 11 characters the length filter drops nothing |
| WatchLinks.RawIdsAreMatchedIds | api/youtube.ts:123-127 | the raw identifier list is, position by position, the 11 characters after the prefix of each match in order |
| WatchLinks.RawIdsWellFormed | api/youtube.ts:123-127 | each raw identifier is a well-formed identifier that occurs in the markup right after `watch?v=` |
| WatchLinks.DedupFrom | api/youtube.ts:124 | the deduplication has no repeats and holds exactly the elements of the input not seen before |
| WatchLinks.DedupFromOrder | api/youtube.ts:124 | the deduplicated elements appear in the order of their first occurrence in the input |
| WatchLinks.DedupCharacterised | api/youtube.ts:124-128 | `[...new Set(s)]` holds every element of `s` once, in first-occurrence order |
| WatchLinks.ExtractVideoIdsProperties | api/youtube.ts:123-128 | the extracted identifiers number at most 50, are distinct, are well-formed, follow `watch?v=` in the markup, keep first-seen order, and form a prefix of the deduplicated match list (all of it when it has at most 50 entries) |
| YouTubeApi.GetChannelId | api/youtube.ts:23-47 | the search's first channel when the search found one; otherwise the handle lookup's first channel after an empty search; none exactly when the search failed, or the search was empty and the handle lookup failed or was empty |
| YouTubeApi.HandleLookupOnlyAfterEmptySearch | api/youtube.ts:29-40 | the handle lookup affects the result only when the search answered with no channel |
| YouTubeApi.FromPlaylistItem | api/youtube.ts:81-90 | id, title, date and description copied; channel name is `channelTitle` when non-empty, else the channel's name, so it is never empty; channel URL always the configured URL; thumbnail is the maxres URL when non-empty, else the high URL as given |
| YouTubeApi.ProcessedCount | api/youtube.ts:68-95 | the number of pages whose items are kept is the first point where the loop stops: a failed request, an error page (items not kept), or the page after one without a continuation token |
| YouTubeApi.ProcessedCountUnique | api/youtube.ts:68-95 | that stopping point is determined by the contract alone: any count meeting it equals ProcessedCount |
| YouTubeApi.PageRecordsLength | api/youtube.ts:79-92 | collecting the records of a run of pages yields as many records as the pages have items |
| YouTubeApi.PageRecordsAt | api/youtube.ts:79-92 | item m of page j lands at position (items before page j) + m of the collected records |
| YouTubeApi.CatalogVideosLength | api/youtube.ts:50-102 | with no uploads playlist the catalog is empty and nothing is raised; otherwise its length is the total item count of the pages processed |
| YouTubeApi.CatalogVideosAt | api/youtube.ts:68-95 | the catalog keeps every item of every processed page, in page order and item order |
| YouTubeApi.PageRecordsChannel | api/youtube.ts:86-87 | every catalog record has the configured channel URL and a non-empty channel name |
| YouTubeApi.FetchAllVideos | api/youtube.ts:50-102 | the do-while loop with its inner item loop returns exactly the catalog specified by ProcessedCount and the page records |
| YouTubeApi.FromOembed | api/youtube.ts:138-144 | title defaults to 'Untitled Video', author to the channel's name and author URL to the channel URL, none of them ever empty; the date is the instant the answer arrived; no description or thumbnail |
| YouTubeApi.Hydratable | api/youtube.ts:131-153 | an identifier is kept iff it was extracted and its oEmbed request succeeded; the result is no longer than the input, and distinct inputs stay distinct |
| YouTubeApi.HydratableOrder | api/youtube.ts:131-153 | for distinct identifiers, the kept ones come in the order they have in the input |
| YouTubeApi.Hydrate | api/youtube.ts:131-153 | one record per identifier whose hydration succeeded, exactly the identifiers `Hydratable` keeps; failed identifiers are dropped and every record is built from its own oEmbed answer and dated with that answer's arrival instant |
| YouTubeApi.FallbackProperties | api/youtube.ts:105-160 | a failed or non-ok channel page gives an empty list; otherwise at most 50 records with distinct, well-formed ids, exactly the hydrated extracted ids in order, each with its defaults, its own arrival instant as its date and a non-empty title |
| YouTubeApi.InsertByRecency | api/youtube.ts:197 | insertion adds exactly the one record to the multiset |
| YouTubeApi.InsertKeepsSorted | api/youtube.ts:197 | inserting into a newest-first list keeps it newest first |
| YouTubeApi.SortByRecency | api/youtube.ts:197 | the sort result is a permutation of its input and ordered by `publishedAt`, newest first |
| YouTubeApi.SortKeepsOrderOfEqualTimes | api/youtube.ts:197 | a list whose records all carry one timestamp is returned unchanged |
| YouTubeApi.InsertRecordsAt | api/youtube.ts:197 | inserting a record adds it to the front of the records of its own date and leaves the records of every other date as they were |
| YouTubeApi.SortIsStable | api/youtube.ts:197 | the sort is stable: for every timestamp, the records carrying it keep their relative order |
| YouTubeApi.FallbackOrderWithOneArrival | api/youtube.ts:131-197 | when every oEmbed answer arrives at one instant, the sort leaves the fallback records in extraction order |
| YouTubeApi.UsedApiDespiteEmptyCatalog | api/youtube.ts:183-194 | a resolved channel with an empty catalog sets `usedApi` and still runs the fallback |
| YouTubeApi.Status | api/youtube.ts:168-170 | the method-guard body carries 405, the success body 200 and the failure body 500 |
| YouTubeApi.FetchFromApi | api/youtube.ts:173-188 | the API path: with a key set, the channel-id lookup runs, and the catalog fetch runs iff an id resolves; `usedApi` iff an id resolved; the videos are the catalog then, and empty otherwise |
| YouTubeApi.ServeGet | api/youtube.ts:172-210 | a GET request gets the 200 body; the catalog fetch runs iff the API path resolved an id; the fallback runs iff the API path yielded no video; the videos are a newest-first permutation of the chosen list in which the records of each timestamp keep the chosen list's order; `totalCount` is their number |
| YouTubeApi.Handler | api/youtube.ts:162-219 | non-GET gives the 405 body and contacts no upstream; GET always gives the 200 body; the id lookup runs iff a key is set; the catalog fetch runs iff a channel id also resolved; the fallback runs iff the API path yielded no video; `usedApi` iff the API path ran; the videos are a newest-first permutation of the chosen path's list in which the records of each timestamp keep that list's order; `totalCount` is their number; channel info and `fetchedAt` as configured |
| YouTubeHooks.Lower | src/lib/youtube-hooks.ts:22 | lower-casing maps each character on its own and keeps the length |
| YouTubeHooks.IncludesIffOccurs | src/lib/youtube-hooks.ts:28-54 | `includes` holds iff the keyword occurs at some position of the title |
| YouTubeHooks.LowerKeepsIncludes | src/lib/youtube-hooks.ts:22 | a keyword included in a title is included, lower-cased, in the lower-cased title, so matching ignores letter case |
| YouTubeHooks.FirstFiring | src/lib/youtube-hooks.ts:28-57 | the chosen rule fires and no earlier rule fires; when none fires the index is past the end |
| YouTubeHooks.Classify | src/lib/youtube-hooks.ts:28-57 | an if / else-if chain yields the outcome of the first rule that fires, and the default when none does |
| YouTubeHooks.ClassifyOutcome | src/lib/youtube-hooks.ts:24-57 | the chosen value is the default or one of the rules' outcomes |
| YouTubeHooks.TopicInVocabulary | src/lib/youtube-hooks.ts:24-44 | every topic is 'Political Analysis' or one of the eight rule topics |
| YouTubeHooks.TopicIsFirstMatch | src/lib/youtube-hooks.ts:28-44 | the topic is the outcome of the first topic rule, in the order election, DMK, BJP, TVK, NTK, legal, social, geopolitics, that fires on the lower-cased title |
| YouTubeHooks.ElectionOutranksEverything | src/lib/youtube-hooks.ts:28-29 | a lower-cased title containing "election" gets 'Election Analysis' whatever else it contains |
| YouTubeHooks.ElectionBeforeCourt | src/lib/youtube-hooks.ts:22-44 | a title containing "Election" and "Court" gets 'Election Analysis', not the legal topic |
| YouTubeHooks.SpeakerOnlyFromChannelName | src/lib/youtube-hooks.ts:47-57 | the speaker role arises only from the exact channel name |
| YouTubeHooks.RoleByChannelName | src/lib/youtube-hooks.ts:47-57 | when no title rule (news channel, debate/"vs", panel, interview) fires, the role is 'speaker' for the exact channel name and 'commentary' otherwise |
| YouTubeHooks.ChannelNameIsCaseSensitive | src/lib/youtube-hooks.ts:55 | "Nanda Third Eye" gives 'speaker' and "nanda third eye" gives 'commentary' |
| YouTubeHooks.ClassificationIgnoresCase | src/lib/youtube-hooks.ts:22 | two titles equal after lower-casing get the same topic and role |
| YouTubeHooks.ConvertToAppearance | src/lib/youtube-hooks.ts:20-70 | `_id` is "yt-" followed by the id; id, title, channel name, channel URL and date are copied; `featured` iff index < 6; topic and role are those of the rules, and the topic is in the vocabulary |
| YouTubeHooks.ConvertAll | src/lib/youtube-hooks.ts:91-93 | the i-th appearance is the conversion of the i-th video at index i, so length and order are preserved |
| YouTubeHooks.LoadVideos | src/lib/youtube-hooks.ts:79-108 | converted data and `lastFetched` iff the reply is ok, successful and non-empty; otherwise the placeholder data; an error iff the request failed or was not ok |
| YouTubeHooks.FilterFeatured | src/lib/youtube-hooks.ts:121 | the filter yields no more appearances than the data, each one featured |
| YouTubeHooks.FilterFeaturedMembers | src/lib/youtube-hooks.ts:121 | the filter keeps exactly the featured appearances: an appearance is in the result iff it is in the data and featured |
| YouTubeHooks.FilterFeaturedPositions | src/lib/youtube-hooks.ts:121 | the filter keeps data order and multiplicity: its result is the data at strictly increasing positions, and those positions are exactly the featured ones |
| YouTubeHooks.FeaturedVideos | src/lib/youtube-hooks.ts:118-125 | the first six featured appearances in data order, or all of them when there are fewer; each is featured and from the data |
| YouTubeHooks.RecentVideos | src/lib/youtube-hooks.ts:128-135 | the first three appearances, or all of them when there are fewer |
| YouTubeHooks.ConvertAllFeatured | src/lib/youtube-hooks.ts:68 | a converted appearance is featured iff its position is below six |
| YouTubeHooks.FeaturedOfConverted | src/lib/youtube-hooks.ts:68-121 | for converted data the featured list is exactly its first six appearances, in order |

## Left out

- Network I/O: the `fetch` calls, URL construction, the User-Agent header and JSON parsing are not modelled. Each response is an input value. Playlist pages are given in request order, and a request past the last given page counts as a failed request. The loop catches that failure and returns what it has collected.
- Page contents keyed by continuation token: the model does not tie a page's content to the token value. The page list gives the answer to the k-th request. Only the token's presence decides whether another request is made.
- The page size parameter `maxResults = 50` is not modelled. It only appears in the request URL.
- Malformed upstream JSON is not modelled: for example, a playlist item without `snippet.resourceId` would throw in the middle of a page. The model's playlist items and lookup answers are always well formed.
- `Promise.all` concurrency: modelled as a map over the identifiers. The order in which the answers complete matters only through each record's date, which is the input `arrival` instant of its identifier; the interleaving itself is not modelled.
- Dates: `publishedAt` is an abstract integer timestamp, and ISO-8601 parsing and formatting are not modelled. Invalid dates, which would compare as NaN in the sort, are not modelled. Each fallback record's date is the `arrival` instant of its identifier, and `fetchedAt` is one further instant `now`. The model does not relate these instants to one another (in the source `fetchedAt` is read after every oEmbed answer has arrived).
- Lower-casing covers ASCII letters only. The Tamil keywords have no letter case, so matching them is unaffected.
- Response headers (CORS, Cache-Control) and console logging: not modelled.
- React state management (`useState`, `useEffect`, `useCallback`, the loading flag, refetch): not modelled. `LoadVideos` gives the hook's state after its first fetch.
- `src/lib/placeholder-data` is not part of this model. The placeholder appearances are a parameter.
- The CMS hooks (`src/lib/hooks.ts`), the Sanity client and queries, the studio schemas, and the pages and components are not part of this model. They are UI and content-store glue.
- Handler: the model has no exception path, so the 500 branch (api/youtube.ts:211-218) is kept only as a body in `Response`, without its `error` and `videos` fields. The model proves that a GET request never reaches it.
