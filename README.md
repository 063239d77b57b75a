# letterboxd-jellyfin-go, modelled in Dafny

This project models the watchlist synchronisation of letterboxd-jellyfin-go.
For every configured user the program does four things:

1. It scrapes the user's Letterboxd watchlist. Once a day it does a full scrape. Otherwise it reads newest-first, page by page, until it reaches the id stored as the user's cursor.
2. It sends every scraped TMDB id to Radarr, which looks the movie up and is asked to download it.
3. It removes the movies the user has already watched from the user's Jellyfin collection.
4. It adds to that collection, twenty at a time, the acquired movies that are already in the Jellyfin library.

The configuration is written back once, after the last user.

Network access, JSON decoding and HTML parsing are replaced by their results, as follows.

- An HTML document is a `GoSoup.Node` tree.
- A Letterboxd fetch is an attempt-indexed function from endpoint to parsed tree or error.
- A watchlist is a `seq<Page>`. Each page is `None` when its fetch failed, or holds the outcome of resolving each of its posters.
- Radarr is a function from a request to the decoded lookup records or the fetch error.
- Jellyfin's user list and library arrive decoded. The collection views arrive as a function of user id and collection id.
- Requests that only change state on a service are returned as values, in the order they are sent.

Modules, following the Go packages:

| module | file | Go source |
|---|---|---|
| `Wrappers` | wrappers.dfy | Option and Result, for nil pointers and `(value, error)` pairs |
| `Text` | text.dfy | `strings.Contains`, `strings.Join`, `strings.Split` and `fmt.Sprint` of an int |
| `Fetch` | fetch.dfy | the status check of `FetchData` |
| `GoSoup` | gosoup.dfy | `isNodeMatchingSelector`, `GetAttribute`, `GetNodeByClass` |
| `Letterboxd` | letterboxd.dfy | the retry, `getTmdbIdFromSlug`, `GetNewestUserWatchlist` |
| `Radarr` | radarr.dfy | `GetRadarrState`, `AddToRadarrDownload`, `SendTmdbIDsToRadarr` |
| `Jellyfin` | jellyfin.dfy | `GetUserId`, `RemoveSeenMoviesFromUserCollection`, `GetMovieJellyfinId`, `AddMoviesToCollection`, `joinIds` |
| `Sync` | sync.dfy | the loop of `main` over the configured users |

The loops of the source become methods with loops. Each method is proved equal to a specification function, and the lemmas beside that function state what the source promises.

- `GetNewestUserWatchlist` is proved against `Scan`. `Scan` is then proved to equal the resolved-id stream cut at the cursor.
- `GetNodeByClass` uses a `Crawler` class whose `returnNode` field grows as the crawl goes. It is proved against `Collect`. `Collect` is then related to the pre-order walk.
- `SendTmdbIDsToRadarr` is proved against `Acquired`.
- `AddMoviesToCollection` is proved against `ResolvedIds` and `Batches`.
- `Sync.Run` updates an `array<UserConf>` in place. It is stated with `Sync.Step`, the whole of one iteration as a function of the user's entry.

The model follows the code in these places:

- A full sync does not move the user's cursor (`main.go:53-61`); only the incremental scraper does.
- The ids added to a collection are not deduplicated (`jellyfin/jellyfin.go:177-182`).
- Nothing waits between requests: the source has no backoff or politeness sleep anywhere.

## Model

| member | source | states |
|---|---|---|
| `Text.Contains` | gosoup/gosoup.go:36 | `strings.Contains(s, sub)` is true exactly when `sub` occurs in `s` at some position |
| `Text.Join` | jellyfin/jellyfin.go:208 | `strings.Join` starts with the first part and is as long as all parts plus one separator between each two; no parts give "" |
| `Text.SplitJoin` | jellyfin/jellyfin.go:207-209 | splitting a comma-join on the comma gives back the parts, when no part holds a comma |
| `Text.IntToString` | radarr/radarr.go:76 | the decimal text is non-empty; it starts with a minus sign exactly for negative values, and every other character is a digit |
| `Text.NatToStringValue` | radarr/radarr.go:76 | the digits of a non-negative integer have that integer as their value |
| `Text.IntToStringRoundTrip` | radarr/radarr.go:76 | parsing the decimal text of any integer gives back the integer |
| `Text.IntToStringInjective` | letterboxd/letterboxd.go:104 | distinct integers have distinct decimal texts |
| `Fetch.StatusAccepted` | fetch/fetch.go:103-109 | the status test as written: rejected with no list unless 200, and with a list unless listed; its lemmas below give the meaning of each case |
| `Fetch.DefaultAcceptsOnly200` | fetch/fetch.go:103-105 | with no accepted-status list, a status passes exactly when it is 200 |
| `Fetch.ListAcceptsItsMembers` | fetch/fetch.go:106-108 | with a list, a status passes exactly when it is in the list, so 200 fails unless listed |
| `Fetch.EmptyListRejectsAll` | fetch/fetch.go:106 | a non-nil empty list rejects every status |
| `Fetch.CheckResponse` | fetch/fetch.go:103-117 | success exactly when the status passes and the body is read, and then the result is the body; a rejected status gives the 200 error or the wanted-code error |
| `Fetch.RejectedBodyNotRead` | fetch/fetch.go:103-111 | a rejected response fails whatever its body holds, so the body is never read |
| `GoSoup.AnyAttributeMatches` | gosoup/gosoup.go:29-40 | the attribute loop is true exactly when some attribute is an equal `id` or a `class` holding the class names |
| `GoSoup.IsNodeMatchingSelector` | gosoup/gosoup.go:26-43 | a node matches exactly when it is an element, passes the tag filter, and has an `id` equal to the selector's or a `class` holding the class names as a substring |
| `GoSoup.EmptyClassNamesMatchAnyClass` | gosoup/gosoup.go:35-37 | empty class names match every element that passes the tag filter and has a `class` attribute |
| `GoSoup.MatchIgnoresMultiple` | gosoup/gosoup.go:26-43 | whether a node matches does not depend on the Multiple flag |
| `GoSoup.FirstValue` | gosoup/gosoup.go:46-51 | the attribute loop returns the value of the first attribute with the key, or "" when there is none |
| `GoSoup.GetAttribute` | gosoup/gosoup.go:45-52 | `GetAttribute` returns the value of the node's first attribute with the key, or "" when there is none |
| `GoSoup.Collect` | gosoup/gosoup.go:60-70 | what one crawler call appends; a matching node comes before anything found below it, in either mode |
| `GoSoup.CollectAllIsMatchingPreOrder` | gosoup/gosoup.go:56-74 | with Multiple, the search returns exactly the matching nodes of the tree in document pre-order |
| `GoSoup.CollectListAllIsMatchingPreOrder` | gosoup/gosoup.go:67-69 | with Multiple, searching the children in turn gives the matching nodes of their subtrees in pre-order |
| `GoSoup.CollectOnlyMatches` | gosoup/gosoup.go:61-62 | every node the search returns matches the selector, in either mode |
| `GoSoup.CollectListOnlyMatches` | gosoup/gosoup.go:67-69 | every node returned from the children's subtrees matches the selector |
| `GoSoup.FirstModeStopsAtMatch` | gosoup/gosoup.go:63-65 | without Multiple, a matching node is returned alone and its children are not searched |
| `GoSoup.FirstModeIsSubsequence` | gosoup/gosoup.go:56-74 | the Multiple=false result is an order-preserving subsequence of the Multiple=true result on the same tree |
| `GoSoup.CollectListFirstModeIsSubsequence` | gosoup/gosoup.go:67-69 | the same, for the children searched in turn |
| `GoSoup.CollectPathsLocate` | gosoup/gosoup.go:56-74 | each returned node is the node at its recorded position in the tree |
| `GoSoup.CollectListPathsLocate` | gosoup/gosoup.go:67-69 | the same, for the nodes returned from a parent's children, from any child on |
| `GoSoup.FirstModeNoNesting` | gosoup/gosoup.go:63-68 | without Multiple, no returned node is, or lies inside, another returned node |
| `GoSoup.CollectListNoNesting` | gosoup/gosoup.go:67-69 | the same for the children, with every position under the child it came from |
| `GoSoup.TopmostMatchesAreFound` | gosoup/gosoup.go:63-68 | in either mode, every matching node with no matching node above it is returned, so without Multiple the siblings and later subtrees of a match are still searched |
| `GoSoup.FirstModeFindsOnlyTopmost` | gosoup/gosoup.go:61-68 | without Multiple, every returned position holds a match with no match above it; with the lemma before, the returned positions are exactly the topmost matches |
| `GoSoup.FirstModeSameFirst` | gosoup/gosoup.go:56-74 | both modes return nothing on the same trees, and otherwise the same first node |
| `GoSoup.CollectListSameFirst` | gosoup/gosoup.go:67-69 | the same, for the children searched in turn |
| `GoSoup.FirstModeFindsFirstInDocumentOrder` | gosoup/gosoup.go:56-74 | without Multiple, the result is empty exactly when no node of the tree matches, and its first node is the first match in document order, which `body[0]` reads |
| `GoSoup.TwoSiblingsBothFound` | gosoup/gosoup.go:63-68 | a body with two matching `div` children gives both, in order, without Multiple |
| `GoSoup.Crawler.constructor` | gosoup/gosoup.go:57 | the crawler starts with an empty result |
| `GoSoup.Crawler.Crawl` | gosoup/gosoup.go:60-70 | one call appends exactly `Collect` of its node to the captured result, in visiting order |
| `GoSoup.GetNodeByClass` | gosoup/gosoup.go:56-74 | the result is `Collect` of the parent node |
| `Letterboxd.FirstSuccess` | letterboxd/letterboxd.go:68-76 | the first of at most three attempts that succeeds, with every earlier one failed; none exactly when all three fail |
| `Letterboxd.FetchWithRetryAsWritten` | letterboxd/letterboxd.go:65-79 | as written: the node of the first success and the number of attempts made; after three failures no node, and the error is always nil |
| `Letterboxd.RetryFailureGoesUnreported` | letterboxd/letterboxd.go:67-78 | three failing attempts make the as-written retry return neither a node nor an error |
| `Letterboxd.FetchWithRetry` | letterboxd/letterboxd.go:65-79 | corrected: the first success within three attempts, else the last attempt's error after exactly three attempts |
| `Letterboxd.GetTmdbIdFromSlug` | letterboxd/letterboxd.go:81-96 | succeeds exactly when some attempt does; then gives the `data-tmdb-id` of the first `body.film` node of that page, else the last error |
| `Letterboxd.ResolvePoster` | letterboxd/letterboxd.go:122-123 | a poster resolves exactly when its film page is fetched; the id is that page's `data-tmdb-id` |
| `Letterboxd.PageUrls` | letterboxd/letterboxd.go:104 | the n-th URL requested is the watchlist URL of page n |
| `Letterboxd.PageUrlsSnoc` | letterboxd/letterboxd.go:137 | the next page requested is the one after the last, so none is skipped |
| `Letterboxd.WatchlistPageUrlInjective` | letterboxd/letterboxd.go:104 | distinct page numbers give distinct URLs, so no page is requested twice |
| `Letterboxd.LastPage` | letterboxd/letterboxd.go:102-138 | the walk never stops before the page it starts on |
| `Letterboxd.PageStep` | letterboxd/letterboxd.go:117-137 | a page adds its ids; the walk goes on exactly when the page is full and the cursor was not on it |
| `Letterboxd.FailedPageStops` | letterboxd/letterboxd.go:104-109 | a failed page fetch ends the walk on that page and adds nothing |
| `Letterboxd.ScanPage` | letterboxd/letterboxd.go:121-136 | the poster loop appends the resolved ids of the page up to the cursor, and reports whether it met the cursor |
| `Letterboxd.ScanPostersIsTakeUntil` | letterboxd/letterboxd.go:121-136 | the poster loop keeps the resolved ids before the first one equal to the cursor and skips failed posters |
| `Letterboxd.GetNewestUserWatchlist` | letterboxd/letterboxd.go:98-145 | the ids are the walk from page 1; the cursor becomes the first id when there is one and is otherwise unchanged; pages 1 to the last are requested in order |
| `Letterboxd.TakeUntilIsPrefix` | letterboxd/letterboxd.go:130-133 | the part before the cursor never holds the cursor, is a prefix, stops right before the first occurrence, and is everything when there is none |
| `Letterboxd.ScanIsStreamUntilCursor` | letterboxd/letterboxd.go:102-138 | the walk returns exactly the stream of resolved ids, page then poster order, cut before the first occurrence of the cursor |
| `Letterboxd.NewestStopsAtCursor` | letterboxd/letterboxd.go:130-136 | the result never holds the cursor, is a prefix of the stream, and is the whole stream when the cursor is not in it |
| `Letterboxd.PagesFetchedUpToFirstStop` | letterboxd/letterboxd.go:99-138 | every page before the last fetched was fetched, full and without the cursor; the last one stops the walk |
| `Letterboxd.ShortPageIsLast` | letterboxd/letterboxd.go:117-121 | a short page is the last fetched, and its posters before the cursor still count |
| `Letterboxd.CursorOnFirstPage` | letterboxd/letterboxd.go:130-133 | a first full page a, b, c, ... with the cursor on c gives exactly [a, b] and no second page |
| `Radarr.GetRadarrState` | radarr/radarr.go:42-80 | a client error gives it back with an empty status; no record gives the empty-state error; otherwise the status copies the first record's title, year, monitored flag and decimal id, has a file exactly when its path is non-empty, and is animation exactly when some genre equals "Animation" |
| `Radarr.StateTmdbIdReadsBack` | radarr/radarr.go:76 | the status's TMDB id parses back to the record's integer id |
| `Radarr.AlienFixture` | radarr/radarr_test.go:50-94 | the test's Alien record gives HasFile, Monitored, "123", 1979, no animation |
| `Radarr.CloudyFixture` | radarr/radarr_test.go:62-110 | the test's animation record gives no file, not monitored, "22794", 2009, animation |
| `Radarr.AddToRadarrDownload` | radarr/radarr.go:96-125 | the root folder is the `anime_movies` path for animation and `movies` otherwise; the body copies id, title and year with profile 11, monitored and search on; a POST to `movie` expecting 201 or 400 |
| `Radarr.AddAcceptsCreatedOrExisting` | radarr/radarr.go:123 | an add passes the status check exactly on 201 or 400 |
| `Radarr.AcquiredCount` | radarr/radarr.go:127-142 | one status per acquired position, never more than there are ids |
| `Radarr.AcquiredAtPositions` | radarr/radarr.go:130-137 | the k-th status is the lookup of the id at the k-th acquired position, and that id is non-empty with a successful lookup |
| `Radarr.AcquiredPositionsIncrease` | radarr/radarr.go:130-137 | the acquired positions are strictly increasing, so input order is kept |
| `Radarr.AcquirableIsAcquired` | radarr/radarr.go:130-137 | every non-empty id whose lookup succeeds is acquired |
| `Radarr.SendTmdbIDsToRadarr` | radarr/radarr.go:127-142 | one lookup per non-empty id in order, and one add per successful lookup built from its status; the statuses are `Acquired` |
| `Jellyfin.FirstNamed` | jellyfin/jellyfin.go:45-50 | the position of the first user with exactly that name, or none when no user has it |
| `Jellyfin.UserIdOf` | jellyfin/jellyfin.go:44-56 | success gives the non-empty id of the first user so named; failure is "no user matching" and means no such user or an empty id |
| `Jellyfin.GetUserId` | jellyfin/jellyfin.go:41-57 | the search loop gives `UserIdOf` |
| `Jellyfin.UserIdFixtures` | jellyfin/jellyfin_test.go:40-77 | "Michel Sapin" gives "456" and "Wrong User" gives the error |
| `Jellyfin.RemoveSeenMoviesFromUserCollection` | jellyfin/jellyfin.go:97-128 | one DELETE per played item with its id, in list order, and their number; -1 and no request when the views fail |
| `Jellyfin.RemoveFixture` | jellyfin/jellyfin_test.go:159-192 | of the test's unplayed and played item only the played one, `testId2`, is removed |
| `Jellyfin.MovieIdOf` | jellyfin/jellyfin.go:164-170 | the id of the first library item whose name and year both match, or not-found when none does |
| `Jellyfin.GetMovieJellyfinId` | jellyfin/jellyfin.go:163-171 | the search with early return gives `MovieIdOf` |
| `Jellyfin.ResolvedIdsConcat` | jellyfin/jellyfin.go:177-182 | resolving is a filter-map: it keeps order and distributes over concatenation |
| `Jellyfin.DuplicatesAreForwarded` | jellyfin/jellyfin.go:177-182 | the same acquired movie twice is sent twice: no deduplication |
| `Jellyfin.BatchCount` | jellyfin/jellyfin.go:184-204 | n ids make ceil(n/20) batches, none for n = 0 |
| `Jellyfin.BatchSizes` | jellyfin/jellyfin.go:184-190 | every batch holds 1 to 20 ids, and all but the last exactly 20 |
| `Jellyfin.BatchesConcat` | jellyfin/jellyfin.go:184-190 | the batches put back together are the ids: none lost, none repeated, order kept |
| `Jellyfin.FortyFiveIds` | jellyfin/jellyfin.go:184-190 | 45 ids go as 20, 20 and 5 |
| `Jellyfin.JoinIds` | jellyfin/jellyfin.go:207-209 | no ids give "", and n ids give their total length plus n - 1 commas |
| `Jellyfin.JoinIdsSplitsBack` | jellyfin/jellyfin.go:207-209 | a batch's `ids` parameter splits back into the batch when no id holds a comma |
| `Jellyfin.ResolveJellyfinIds` | jellyfin/jellyfin.go:175-182 | the first loop keeps, in order, the library id of every acquired movie found in the library |
| `Jellyfin.PostBatches` | jellyfin/jellyfin.go:184-204 | the second loop sends one POST per batch of `Batches`, in order, each with the comma-join of its batch |
| `Jellyfin.AddMoviesToCollection` | jellyfin/jellyfin.go:173-205 | the ids are the resolved ids; one POST per batch, whose `ids` is the comma-join of the batch |
| `Sync.Sub` | main.go:53 | the clock difference is exact inside the int64 range, and is the largest or smallest int64 when it overflows upward or downward |
| `Sync.NeedsFullSync` | main.go:53 | a full sync is chosen exactly when more than 24 hours passed; saturation never changes the answer |
| `Sync.ScrapeWatchlist` | main.go:53-68 | the scrape is the full one, stamped, when due, and otherwise the incremental one with the moved cursor |
| `Sync.Forward` | main.go:70-77 | after the scrape: the Radarr adds, then, if the user is found, the removals and the collection additions |
| `Sync.SyncUser` | main.go:50-77 | one pass of the loop body equals the iteration function `Step` |
| `Sync.StepSyncStamp` | main.go:53-68 | a successful full sync sets LastFullSync to the run's time; an incremental one leaves it unchanged |
| `Sync.StepMovesCursor` | main.go:63 | an incremental sync moves the cursor to the newest id of the stream before the old cursor, and keeps it when there is none |
| `Sync.StepKeepsIdentity` | main.go:49-78 | an iteration never changes the user name, collection id or Jellyfin name |
| `Sync.StepPhasesInOrder` | main.go:70-77 | within one user all acquisitions come before all removals, which come before all additions |
| `Sync.StepPanics` | main.go:57-75 | an iteration panics exactly when a due full scrape fails or the Jellyfin user has no usable id; a failed scrape changes and sends nothing, and only acquisitions precede a panic |
| `Sync.IterationExists` | main.go:46-47 | one clock reading, one library snapshot and one set of services define the iteration for every user |
| `Sync.FirstPanic` | main.go:49-78 | the first user whose iteration panics, with none before it |
| `Sync.FirstPanicIsFirst` | main.go:49-78 | that position is the only one with no panic before it and a panic on it |
| `Sync.ProgressStep` | main.go:49-78 | one more iteration, on the next user, keeps the loop's state description |
| `Sync.ReachedAtEnd` | main.go:49-78 | when the loop stops, it has reached the users up to and including the first panic |
| `Sync.RunEnds` | main.go:49-80 | at the end, the entries reached hold their iteration's result, the later ones are untouched, and the requests are those of the users reached, in order |
| `Sync.RunLoop` | main.go:49-78 | the in-place loop keeps the state description and stops only at the end or just after a panic |
| `Sync.Run` | main.go:46-80 | users are handled in index order up to the first panic; iteration i changes only entry i; the configuration is persisted once, exactly when no user panicked |

## Left out

- HTTP, proxies, headers, API keys from the environment, JSON encoding and decoding, and HTML parsing and rendering (`PrintNode`) are not modelled. Services are functions from a request to its decoded answer.
- `GetUsers`, `GetUserViews` and `GetAllMovies` are I/O. The model takes their decoded lists, and the views as a function of user id and collection id.
- The configuration file, the lock file, `.env` loading and `PersistChanges` are filesystem effects. `Sync.Run` returns the entries it would persist instead.
- Console and log output, and the wall clock, are left out. Time is an integer count of nanoseconds.
- `GetFullUserWatchlist` and the `LetterboxdScrapper` type are used by `main` but not defined in letterboxd/letterboxd.go. The full scrape is a function from user name to result, the `fullWatchlist` field of `Sync.Services`.
- `Letterboxd.GetNewestUserWatchlist`: does not model the error result, because the source always returns nil (letterboxd/letterboxd.go:144). The panic after it in `main` is unreachable.
- `Letterboxd.GetTmdbIdFromSlug`: uses the corrected retry. As written, a failed film-page fetch returns a nil node without an error, and `GetNodeByClass` then dereferences it.
- `Letterboxd.GetTmdbIdFromSlug`: requires that the film page has a `body.film` node, because `body[0]` panics otherwise.
- `Letterboxd.ResolvePoster`: requires a non-empty `data-target-link`, because `[1:]` panics on an empty one.
- Page fetches in the model fail visibly, as with the corrected retry. As written, a failed page becomes a nil node that `GetNodeByClass` dereferences.
- `Radarr.GetRadarrState`: does not model the JSON-decoding panic (radarr/radarr.go:62-65), because the records arrive decoded.
- The responses to Radarr adds and to Jellyfin DELETE and POST requests are ignored by the source. The model returns the requests and no answers.
- `Jellyfin.RemoveSeenMoviesFromUserCollection`: models the -1 result for failed views, but the source's `GetUserViews` never reports an error, so that path is dead there too.
- `time.Time.Sub` is modelled on integer nanoseconds, saturated to the int64 range as Go does. Monotonic clock readings and time zones are left out.
- The configured users form an `array<UserConf>` holding the fields the loop reads or writes. The Radarr root paths of the configuration are the `radarrRootPaths` field of `Sync.Services`. The proxy settings are left out with HTTP.
- `Sync.Run` and `Sync.RunLoop`: state the run as a function of the iteration function `step`, required to equal `Sync.Step` on every user. The proofs never unfold `Step` inside the loop.

## Findings

| source | as written | input that shows it | evidently intended | confidence | as-written member | corrected member |
|---|---|---|---|---|---|---|
| letterboxd/letterboxd.go:65-79 | `node, err :=` inside the loop declares a new `err`, so after three failed attempts the function returns `nil, nil` | three attempts that all fail | return the last attempt's error so that callers see the failure | not executed | `Letterboxd.RetryFailureGoesUnreported` | `Letterboxd.FetchWithRetry` |
