/**
 * The watchlist scraper (letterboxd/letterboxd.go): fetching a page with
 * up to three attempts, turning a film's page into its TMDB id, and walking
 * the watchlist pages newest first until a short page, a failed page or the
 * caller's cursor.
 */
module Letterboxd {
  import opened Wrappers
  import opened Text
  import opened GoSoup

  datatype LetterboxdError = ErrProxy | ErrFetch | ErrParse

  /** A full watchlist page holds this many posters; fewer means it is the last page. */
  const NumMoviesWatchlistPage: nat := 28
  const LetterboxdUrl: string := "https://letterboxd.com/"
  const MaxAttempts: nat := 3

  /** The poster nodes of a watchlist page. */
  const PosterSelector: HtmlSelector := HtmlSelector("really-lazy-load poster film-poster", "", "div", true)
  /** The body node of a film page, which carries the TMDB id. */
  const BodySelector: HtmlSelector := HtmlSelector("film", "", "body", false)

  /**
   * The site as seen by letterboxdGetFetcher: the outcome of attempt number
   * `k` (from 0) to fetch and parse `endpoint`. Proxy set-up, HTTP and HTML
   * parsing are folded into this function.
   */
  type Client = (string, nat) -> Result<Node, LetterboxdError>

  /** The successive outcomes of fetching one endpoint. */
  type Attempts = nat -> Result<Node, LetterboxdError>

  function AttemptsFor(client: Client, endpoint: string): Attempts {
    (k: nat) => client(endpoint, k)
  }

  /** The index of the first successful attempt among the first three, if there is one. */
  function FirstSuccess(attempts: Attempts): (r: Option<nat>)
    ensures r.Some? ==> r.value < MaxAttempts && attempts(r.value).Success?
    ensures r.Some? ==> forall j :: 0 <= j < r.value ==> attempts(j).Failure?
    ensures r.None? <==> forall j :: 0 <= j < MaxAttempts ==> attempts(j).Failure?
  {
    if attempts(0).Success? then Some(0)
    else if attempts(1).Success? then Some(1)
    else if attempts(2).Success? then Some(2)
    else None
  }

  /**
   * letterboxdGetFetcherWithRetry as written: the `err` assigned in the loop
   * is a new variable, so the `err` returned after three failures is the
   * outer one, still nil. Returns the node (None for nil), the error and
   * the number of attempts made.
   */
  method FetchWithRetryAsWritten(attempts: Attempts) returns (node: Option<Node>, err: Option<LetterboxdError>, made: nat)
    ensures FirstSuccess(attempts).Some? ==>
      node == Some(attempts(FirstSuccess(attempts).value).value) && made == FirstSuccess(attempts).value + 1
    ensures FirstSuccess(attempts).None? ==> node == None && made == MaxAttempts
    ensures err == None
  {
    var numFetch: nat := 0;
    var outerErr: Option<LetterboxdError> := None;
    while numFetch < MaxAttempts
      invariant numFetch <= MaxAttempts
      invariant forall j :: 0 <= j < numFetch ==> attempts(j).Failure?
    {
      var r := attempts(numFetch);
      if r.Success? {
        return Some(r.value), None, numFetch + 1;
      }
      numFetch := numFetch + 1;
    }
    return None, outerErr, numFetch;
  }

  /**
   * Three attempts that all fail: the as-written retry returns neither a
   * node nor an error, so its caller cannot see the failure.
   */
  method RetryFailureGoesUnreported() returns (node: Option<Node>, err: Option<LetterboxdError>)
    ensures node == None && err == None
  {
    var made;
    node, err, made := FetchWithRetryAsWritten(k => Failure(ErrFetch));
  }

  /**
   * letterboxdGetFetcherWithRetry as its callers expect it: the first
   * successful attempt among at most three, or the last attempt's error.
   */
  method FetchWithRetry(attempts: Attempts) returns (r: Result<Node, LetterboxdError>, made: nat)
    ensures FirstSuccess(attempts).Some? ==>
      r == attempts(FirstSuccess(attempts).value) && made == FirstSuccess(attempts).value + 1
    ensures FirstSuccess(attempts).None? ==> r == attempts(MaxAttempts - 1) && r.Failure? && made == MaxAttempts
  {
    var numFetch: nat := 0;
    r := Failure(ErrFetch);
    while numFetch < MaxAttempts
      invariant numFetch <= MaxAttempts
      invariant forall j :: 0 <= j < numFetch ==> attempts(j).Failure?
      invariant numFetch > 0 ==> r == attempts(numFetch - 1)
    {
      r := attempts(numFetch);
      if r.Success? {
        return r, numFetch + 1;
      }
      numFetch := numFetch + 1;
    }
    made := numFetch;
  }

  /** The first successful fetch of a film page, if any, has a `body` node of class "film" (`body[0]` would panic otherwise). */
  predicate BodyPresent(attempts: Attempts) {
    FirstSuccess(attempts).Some? ==>
      |Collect(attempts(FirstSuccess(attempts).value).value, BodySelector)| > 0
  }

  /** The `data-tmdb-id` of the first body.film node of the first page fetched successfully. */
  function TmdbIdOfFirstSuccess(attempts: Attempts): string
    requires FirstSuccess(attempts).Some? && BodyPresent(attempts)
  {
    GetAttribute(Collect(attempts(FirstSuccess(attempts).value).value, BodySelector)[0], "data-tmdb-id")
  }

  /**
   * getTmdbIdFromSlug, on the corrected retry: fetch the film page, select
   * its body and read `data-tmdb-id` ("" when the attribute is missing).
   */
  method GetTmdbIdFromSlug(client: Client, dataTargetLink: string) returns (r: Result<string, LetterboxdError>)
    requires BodyPresent(AttemptsFor(client, LetterboxdUrl + dataTargetLink))
    ensures var attempts := AttemptsFor(client, LetterboxdUrl + dataTargetLink);
      && (r.Success? <==> FirstSuccess(attempts).Some?)
      && (r.Success? ==> r.value == TmdbIdOfFirstSuccess(attempts))
      && (r.Failure? ==> r == Failure(attempts(MaxAttempts - 1).error))
  {
    var node, made := FetchWithRetry(AttemptsFor(client, LetterboxdUrl + dataTargetLink));
    if node.Failure? {
      return Failure(node.error);
    }
    var body := GetNodeByClass(node.value, BodySelector);
    r := Success(GetAttribute(body[0], "data-tmdb-id"));
  }

  /**
   * Lines 122-123: a poster's `data-target-link` without its leading "/"
   * (an empty link would panic on `[1:]`), resolved to a TMDB id.
   */
  method ResolvePoster(client: Client, poster: Node) returns (r: Result<string, LetterboxdError>)
    requires GetAttribute(poster, "data-target-link") != ""
    requires BodyPresent(AttemptsFor(client, LetterboxdUrl + GetAttribute(poster, "data-target-link")[1..]))
    ensures var attempts := AttemptsFor(client, LetterboxdUrl + GetAttribute(poster, "data-target-link")[1..]);
      && (r.Success? <==> FirstSuccess(attempts).Some?)
      && (r.Success? ==> r.value == TmdbIdOfFirstSuccess(attempts))
  {
    var dataTargetLink := GetAttribute(poster, "data-target-link");
    r := GetTmdbIdFromSlug(client, dataTargetLink[1..]);
  }

  // ---------------------------------------------------------------------------
  // Pagination.

  /** What resolving one poster gave: its TMDB id, or None when resolution failed. */
  type PosterResult = Option<string>

  /** One watchlist page: the results for its posters in document order, or None when the page fetch failed. */
  type Page = Option<seq<PosterResult>>

  /** Page `p` (numbered from 1). The watchlist ends after `pages`: later pages are empty. */
  function PageAt(pages: seq<Page>, p: nat): Page {
    if 1 <= p <= |pages| then pages[p - 1] else Some([])
  }

  function WatchlistPageUrl(userName: string, p: nat): string {
    LetterboxdUrl + userName + "/watchlist/page/" + IntToString(p)
  }

  /** The URLs of watchlist pages 1 to `n`, in order. */
  function PageUrls(userName: string, n: nat): (r: seq<string>)
    ensures |r| == n
    ensures forall i :: 0 <= i < n ==> r[i] == WatchlistPageUrl(userName, i + 1)
  {
    seq(n, i requires 0 <= i < n => WatchlistPageUrl(userName, i + 1))
  }

  lemma PageUrlsSnoc(userName: string, n: nat)
    ensures PageUrls(userName, n + 1) == PageUrls(userName, n) + [WatchlistPageUrl(userName, n + 1)]
  {
  }

  /** Distinct page numbers give distinct page URLs: no page is requested twice. */
  lemma WatchlistPageUrlInjective(userName: string, p: nat, q: nat)
    requires p != q
    ensures WatchlistPageUrl(userName, p) != WatchlistPageUrl(userName, q)
  {
    var prefix := LetterboxdUrl + userName + "/watchlist/page/";
    IntToStringInjective(p, q);
    assert WatchlistPageUrl(userName, p)[|prefix|..] == IntToString(p);
    assert WatchlistPageUrl(userName, q)[|prefix|..] == IntToString(q);
  }

  /** The poster loop over one page: ids it appends, and whether it met the cursor. */
  datatype PosterScan = PosterScan(ids: seq<string>, hit: bool)

  function ScanPosters(posters: seq<PosterResult>, cursor: string): PosterScan {
    if posters == [] then PosterScan([], false)
    else match posters[0]
      case None => ScanPosters(posters[1..], cursor)
      case Some(id) =>
        if id == cursor then PosterScan([], true)
        else var rest := ScanPosters(posters[1..], cursor); PosterScan([id] + rest.ids, rest.hit)
  }

  /** The walk goes on past page `p`: it was fetched, it is full and the cursor was not on it. */
  predicate Continues(pages: seq<Page>, cursor: string, p: nat) {
    match PageAt(pages, p)
    case None => false
    case Some(posters) => |posters| >= NumMoviesWatchlistPage && !ScanPosters(posters, cursor).hit
  }

  lemma ContinuesWithinPages(pages: seq<Page>, cursor: string, p: nat)
    requires Continues(pages, cursor, p)
    ensures 1 <= p <= |pages|
  {
  }

  /** The ids the scraper collects from page `p` onwards. */
  function Scan(pages: seq<Page>, cursor: string, p: nat): seq<string>
    decreases |pages| + 1 - p
  {
    var here := match PageAt(pages, p) case None => [] case Some(posters) => ScanPosters(posters, cursor).ids;
    if Continues(pages, cursor, p) then
      ContinuesWithinPages(pages, cursor, p);
      here + Scan(pages, cursor, p + 1)
    else here
  }

  /** The last page fetched when the walk starts at page `p`. */
  function LastPage(pages: seq<Page>, cursor: string, p: nat): (r: nat)
    ensures r >= p
    decreases |pages| + 1 - p
  {
    if Continues(pages, cursor, p) then
      ContinuesWithinPages(pages, cursor, p);
      LastPage(pages, cursor, p + 1)
    else p
  }

  /** One page of the walk: its ids, then the rest of the walk if it continues. */
  lemma ScanUnfold(pages: seq<Page>, cursor: string, p: nat, posters: seq<PosterResult>)
    requires PageAt(pages, p) == Some(posters)
    ensures Continues(pages, cursor, p) <==> |posters| >= NumMoviesWatchlistPage && !ScanPosters(posters, cursor).hit
    ensures Scan(pages, cursor, p) ==
      ScanPosters(posters, cursor).ids + (if Continues(pages, cursor, p) then Scan(pages, cursor, p + 1) else [])
    ensures LastPage(pages, cursor, p) == if Continues(pages, cursor, p) then LastPage(pages, cursor, p + 1) else p
  {
  }

  /** The effect of finishing page `p` on the walk's accumulated ids. */
  lemma PageStep(pages: seq<Page>, cursor: string, p: nat, posters: seq<PosterResult>,
                 before: seq<string>, after: seq<string>)
    requires PageAt(pages, p) == Some(posters)
    requires Scan(pages, cursor, 1) == before + Scan(pages, cursor, p)
    requires after == before + ScanPosters(posters, cursor).ids
    ensures Continues(pages, cursor, p) <==> |posters| >= NumMoviesWatchlistPage && !ScanPosters(posters, cursor).hit
    ensures Continues(pages, cursor, p) ==> Scan(pages, cursor, 1) == after + Scan(pages, cursor, p + 1)
    ensures !Continues(pages, cursor, p) ==> Scan(pages, cursor, 1) == after
    ensures LastPage(pages, cursor, p) == if Continues(pages, cursor, p) then LastPage(pages, cursor, p + 1) else p
  {
    ScanUnfold(pages, cursor, p, posters);
    if Continues(pages, cursor, p) {
      assert before + (ScanPosters(posters, cursor).ids + Scan(pages, cursor, p + 1))
          == (before + ScanPosters(posters, cursor).ids) + Scan(pages, cursor, p + 1);
    } else {
      assert ScanPosters(posters, cursor).ids + [] == ScanPosters(posters, cursor).ids;
    }
  }

  /** A failed page fetch ends the walk on that page and adds nothing. */
  lemma FailedPageStops(pages: seq<Page>, cursor: string, p: nat)
    requires PageAt(pages, p) == None
    ensures Scan(pages, cursor, p) == [] && LastPage(pages, cursor, p) == p
  {
  }

  /** One poster of the loop over a page. */
  lemma ScanPostersUnfold(posters: seq<PosterResult>, j: nat, cursor: string)
    requires j < |posters|
    ensures ScanPosters(posters[j..], cursor) ==
      match posters[j]
      case None => ScanPosters(posters[j + 1..], cursor)
      case Some(id) =>
        if id == cursor then PosterScan([], true)
        else PosterScan([id] + ScanPosters(posters[j + 1..], cursor).ids, ScanPosters(posters[j + 1..], cursor).hit)
  {
    assert posters[j..][0] == posters[j];
    assert posters[j..][1..] == posters[j + 1..];
  }

  /**
   * The poster loop of GetNewestUserWatchlist (lines 121-136) over one
   * page: appends each resolved id, skips failed posters, and stops at the
   * cursor, reporting whether it met it.
   */
  method ScanPage(tmdbIds: seq<string>, posters: seq<PosterResult>, latestFetched: string)
    returns (ids: seq<string>, hit: bool)
    ensures ids == tmdbIds + ScanPosters(posters, latestFetched).ids
    ensures hit == ScanPosters(posters, latestFetched).hit
  {
    ids := tmdbIds;
    hit := false;
    var j := 0;
    while j < |posters|
      invariant 0 <= j <= |posters|
      invariant tmdbIds + ScanPosters(posters, latestFetched).ids == ids + ScanPosters(posters[j..], latestFetched).ids
      invariant ScanPosters(posters, latestFetched).hit == ScanPosters(posters[j..], latestFetched).hit
    {
      ScanPostersUnfold(posters, j, latestFetched);
      match posters[j] {
        case None =>
        case Some(tmdbId) =>
          if latestFetched == tmdbId {
            hit := true;
            return;
          }
          ids := ids + [tmdbId];
      }
      j := j + 1;
    }
    assert posters[j..] == [];
  }

  /**
   * GetNewestUserWatchlist. Returns the ids, the new value of
   * `*latestFetched` and the page URLs requested, in order. Its error
   * result is always nil and is not modelled.
   */
  method GetNewestUserWatchlist(userName: string, pages: seq<Page>, latestFetched: string)
    returns (tmdbIds: seq<string>, newLatestFetched: string, requested: seq<string>)
    ensures tmdbIds == Scan(pages, latestFetched, 1)
    ensures newLatestFetched == if |tmdbIds| > 0 then tmdbIds[0] else latestFetched
    ensures |requested| == LastPage(pages, latestFetched, 1)
    ensures requested == PageUrls(userName, |requested|)
  {
    var pageIndex: int := 1;
    tmdbIds := [];
    requested := [];
    ghost var last := LastPage(pages, latestFetched, 1);
    while pageIndex > 0
      invariant 0 <= pageIndex <= |pages| + 1
      invariant pageIndex > 0 ==> Scan(pages, latestFetched, 1) == tmdbIds + Scan(pages, latestFetched, pageIndex)
      invariant pageIndex > 0 ==> LastPage(pages, latestFetched, pageIndex) == last && |requested| == pageIndex - 1
      invariant pageIndex == 0 ==> Scan(pages, latestFetched, 1) == tmdbIds && |requested| == last
      invariant requested == PageUrls(userName, |requested|)
      decreases if pageIndex > 0 then |pages| + 2 - pageIndex else 0
    {
      PageUrlsSnoc(userName, |requested|);
      requested := requested + [WatchlistPageUrl(userName, pageIndex)];
      var page := PageAt(pages, pageIndex);
      if page.None? {
        FailedPageStops(pages, latestFetched, pageIndex);
        break;
      }
      var posters := page.value;
      ghost var p := pageIndex;
      if |posters| < NumMoviesWatchlistPage {
        pageIndex := -1;
      }
      ghost var idsBefore := tmdbIds;
      var hit;
      tmdbIds, hit := ScanPage(tmdbIds, posters, latestFetched);
      if hit {
        pageIndex := -1;
      }
      PageStep(pages, latestFetched, p, posters, idsBefore, tmdbIds);
      pageIndex := pageIndex + 1;
    }
    if |tmdbIds| > 0 {
      newLatestFetched := tmdbIds[0];
    } else {
      newLatestFetched := latestFetched;
    }
  }

  // ---------------------------------------------------------------------------
  // What the walk returns, described without the walk.

  /** The ids of the posters that resolved, in order. */
  function Resolved(posters: seq<PosterResult>): seq<string> {
    if posters == [] then []
    else (match posters[0] case None => [] case Some(id) => [id]) + Resolved(posters[1..])
  }

  /**
   * Every resolved id from page `p` up to the first failed or short page,
   * in page-then-poster order, whatever the cursor: the newest-first
   * stream that the cursor cuts.
   */
  function Stream(pages: seq<Page>, p: nat): seq<string>
    decreases |pages| + 1 - p
  {
    match PageAt(pages, p)
    case None => []
    case Some(posters) =>
      if |posters| < NumMoviesWatchlistPage then Resolved(posters)
      else Resolved(posters) + Stream(pages, p + 1)
  }

  /** The part of `s` before the first occurrence of `c`. */
  function TakeUntil(s: seq<string>, c: string): seq<string>
  {
    if s == [] then []
    else if s[0] == c then []
    else [s[0]] + TakeUntil(s[1..], c)
  }

  /**
   * TakeUntil gives the longest prefix without `c`: it never holds `c`, it
   * stops right before the first `c`, and it is everything when there is none.
   */
  lemma {:induction false} TakeUntilIsPrefix(s: seq<string>, c: string)
    ensures c !in TakeUntil(s, c)
    ensures |TakeUntil(s, c)| <= |s| && TakeUntil(s, c) == s[..|TakeUntil(s, c)|]
    ensures c in s ==> |TakeUntil(s, c)| < |s| && s[|TakeUntil(s, c)|] == c
    ensures c !in s ==> TakeUntil(s, c) == s
  {
    if s != [] && s[0] != c {
      TakeUntilIsPrefix(s[1..], c);
      assert s == [s[0]] + s[1..];
    }
  }

  lemma {:induction false} TakeUntilConcat(a: seq<string>, b: seq<string>, c: string)
    ensures TakeUntil(a + b, c) == if c in a then TakeUntil(a, c) else a + TakeUntil(b, c)
  {
    if a == [] {
      assert a + b == b;
    } else {
      assert (a + b)[0] == a[0] && (a + b)[1..] == a[1..] + b;
      TakeUntilConcat(a[1..], b, c);
      assert a == [a[0]] + a[1..];
    }
  }

  /** The poster loop keeps the resolved ids before the cursor and reports whether the cursor was among them. */
  lemma {:induction false} ScanPostersIsTakeUntil(posters: seq<PosterResult>, cursor: string)
    ensures ScanPosters(posters, cursor) == PosterScan(TakeUntil(Resolved(posters), cursor), cursor in Resolved(posters))
  {
    if posters != [] {
      ScanPostersIsTakeUntil(posters[1..], cursor);
      var rest := Resolved(posters[1..]);
      match posters[0] {
        case None =>
          assert Resolved(posters) == rest;
        case Some(id) =>
          assert Resolved(posters) == [id] + rest;
          assert ([id] + rest)[1..] == rest;
      }
    }
  }

  /** A page the walk goes on past adds all its ids, before the cursor is met on a later page. */
  lemma ScanStreamContinues(pages: seq<Page>, cursor: string, p: nat, posters: seq<PosterResult>)
    requires PageAt(pages, p) == Some(posters)
    requires |posters| >= NumMoviesWatchlistPage && cursor !in Resolved(posters)
    requires Scan(pages, cursor, p + 1) == TakeUntil(Stream(pages, p + 1), cursor)
    ensures Scan(pages, cursor, p) == TakeUntil(Stream(pages, p), cursor)
  {
    var here := Resolved(posters);
    ScanPostersIsTakeUntil(posters, cursor);
    TakeUntilIsPrefix(here, cursor);
    assert Continues(pages, cursor, p);
    ContinuesWithinPages(pages, cursor, p);
    assert Scan(pages, cursor, p) == here + Scan(pages, cursor, p + 1);
    assert Stream(pages, p) == here + Stream(pages, p + 1);
    TakeUntilConcat(here, Stream(pages, p + 1), cursor);
  }

  /** A page the walk stops on adds its ids before the cursor, and the stream is cut there too. */
  lemma ScanStreamStops(pages: seq<Page>, cursor: string, p: nat, posters: seq<PosterResult>)
    requires PageAt(pages, p) == Some(posters)
    requires !(|posters| >= NumMoviesWatchlistPage && cursor !in Resolved(posters))
    ensures Scan(pages, cursor, p) == TakeUntil(Stream(pages, p), cursor)
  {
    var here := Resolved(posters);
    ScanPostersIsTakeUntil(posters, cursor);
    assert !Continues(pages, cursor, p);
    assert Scan(pages, cursor, p) == TakeUntil(here, cursor);
    if |posters| >= NumMoviesWatchlistPage {
      assert Stream(pages, p) == here + Stream(pages, p + 1);
      TakeUntilConcat(here, Stream(pages, p + 1), cursor);
    }
  }

  /**
   * The walk returns exactly the resolved ids that come before the first
   * occurrence of the cursor in the stream, in the same order.
   */
  lemma {:induction false} ScanIsStreamUntilCursor(pages: seq<Page>, cursor: string, p: nat)
    ensures Scan(pages, cursor, p) == TakeUntil(Stream(pages, p), cursor)
    decreases |pages| + 1 - p
  {
    match PageAt(pages, p)
    case None =>
    case Some(posters) =>
      if |posters| >= NumMoviesWatchlistPage && cursor !in Resolved(posters) {
        ScanPostersIsTakeUntil(posters, cursor);
        assert Continues(pages, cursor, p);
        ContinuesWithinPages(pages, cursor, p);
        ScanIsStreamUntilCursor(pages, cursor, p + 1);
        ScanStreamContinues(pages, cursor, p, posters);
      } else {
        ScanStreamStops(pages, cursor, p, posters);
      }
  }

  /**
   * The result never holds the cursor, is a prefix of the stream, and is
   * the whole stream when the cursor is not in it.
   */
  lemma NewestStopsAtCursor(pages: seq<Page>, cursor: string)
    ensures cursor !in Scan(pages, cursor, 1)
    ensures |Scan(pages, cursor, 1)| <= |Stream(pages, 1)|
    ensures Scan(pages, cursor, 1) == Stream(pages, 1)[..|Scan(pages, cursor, 1)|]
    ensures cursor !in Stream(pages, 1) ==> Scan(pages, cursor, 1) == Stream(pages, 1)
    ensures cursor in Stream(pages, 1) ==> Stream(pages, 1)[|Scan(pages, cursor, 1)|] == cursor
  {
    ScanIsStreamUntilCursor(pages, cursor, 1);
    TakeUntilIsPrefix(Stream(pages, 1), cursor);
  }

  /**
   * Pages are fetched as p, p+1, ..., LastPage: each one before the last
   * was full and did not hold the cursor, and the last one stops the walk.
   */
  lemma {:induction false} PagesFetchedUpToFirstStop(pages: seq<Page>, cursor: string, p: nat)
    ensures forall q :: p <= q < LastPage(pages, cursor, p) ==> Continues(pages, cursor, q)
    ensures !Continues(pages, cursor, LastPage(pages, cursor, p))
    decreases |pages| + 1 - p
  {
    if Continues(pages, cursor, p) {
      ContinuesWithinPages(pages, cursor, p);
      PagesFetchedUpToFirstStop(pages, cursor, p + 1);
    }
  }

  /** A short page is the last one fetched, and all of its posters up to the cursor still count. */
  lemma ShortPageIsLast(pages: seq<Page>, cursor: string, p: nat, posters: seq<PosterResult>)
    requires PageAt(pages, p) == Some(posters) && |posters| < NumMoviesWatchlistPage
    ensures LastPage(pages, cursor, p) == p
    ensures Scan(pages, cursor, p) == TakeUntil(Resolved(posters), cursor)
  {
    ScanPostersIsTakeUntil(posters, cursor);
  }

  /** Page 1 full with ids a, b, c, ... and the cursor on c: the result is [a, b]. */
  lemma CursorOnFirstPage()
    ensures var posters := [Some("a"), Some("b"), Some("c")] + seq(25, i => Some("x"));
      && Scan([Some(posters)], "c", 1) == ["a", "b"]
      && LastPage([Some(posters)], "c", 1) == 1
  {
    var posters := [Some("a"), Some("b"), Some("c")] + seq(25, i => Some("x"));
    assert posters[1..][1..][1..] == seq(25, i => Some("x"));
    assert ScanPosters(posters[1..][1..], "c") == PosterScan([], true);
    assert ScanPosters(posters, "c") == PosterScan(["a", "b"], true);
  }
}
