/**
 * The acquisition-service client (radarr/radarr.go): turning the lookup
 * of a TMDB id into a RadarrStatus, building the add request, and the loop
 * that does both for every scraped id.
 */
module Radarr {
  import opened Wrappers
  import opened Text
  import opened Fetch

  const RadarrUrl: string := "http://localhost:7878/api/v3/"
  const QualityProfileId: int := 11

  datatype MovieLookupFile = MovieLookupFile(relativePath: string)

  /** One element of the decoded `movie/lookup` answer. */
  datatype RadarrMovieLookupResp = RadarrMovieLookupResp(
    movieFile: MovieLookupFile,
    monitored: bool,
    title: string,
    tmdbId: int,
    year: int,
    genres: seq<string>)

  datatype RadarrStatus = RadarrStatus(
    hasFile: bool,
    monitored: bool,
    title: string,
    tmdbId: string,
    productionYear: int,
    isAnimation: bool)

  /** Go's zero value `RadarrStatus{}`. */
  const EmptyStatus: RadarrStatus := RadarrStatus(false, false, "", "", 0, false)

  datatype RadarrError = ClientError(cause: FetchError) | EmptyState

  /** GetRadarrState's two results: the status and the error (None for nil). */
  datatype StateResult = StateResult(state: RadarrStatus, err: Option<RadarrError>)

  /**
   * The acquisition service as seen through `FetchData`: a request gives
   * the decoded lookup records, or the helper's error.
   */
  type LookupClient = FetcherParams -> Result<seq<RadarrMovieLookupResp>, FetchError>

  /** The lookup request for one TMDB id (no accepted-status list, so only 200 passes). */
  function LookupParams(tmdbId: string): FetcherParams {
    FetcherParams("GET", RadarrUrl + "movie/lookup", map["term" := "tmdb:" + tmdbId], false, None)
  }

  /** GetRadarrState: the status built from the first lookup record. */
  function GetRadarrState(client: LookupClient, tmdbId: string): (r: StateResult)
    ensures var resp := client(LookupParams(tmdbId));
      && (resp.Failure? ==> r == StateResult(EmptyStatus, Some(ClientError(resp.error))))
      && (resp.Success? && |resp.value| == 0 ==> r == StateResult(EmptyStatus, Some(EmptyState)))
      && (resp.Success? && |resp.value| > 0 ==>
            var rec := resp.value[0];
            && r.err == None
            && r.state.title == rec.title
            && r.state.productionYear == rec.year
            && r.state.monitored == rec.monitored
            && r.state.tmdbId == IntToString(rec.tmdbId)
            && (r.state.hasFile <==> rec.movieFile.relativePath != "")
            && (r.state.isAnimation <==> exists k :: 0 <= k < |rec.genres| && rec.genres[k] == "Animation"))
  {
    match client(LookupParams(tmdbId))
    case Failure(e) => StateResult(EmptyStatus, Some(ClientError(e)))
    case Success(parsedBody) =>
      if |parsedBody| == 0 then StateResult(EmptyStatus, Some(EmptyState))
      else
        var rec := parsedBody[0];
        StateResult(
          RadarrStatus(
            hasFile := rec.movieFile != MovieLookupFile("") && rec.movieFile.relativePath != "",
            monitored := rec.monitored,
            title := rec.title,
            tmdbId := IntToString(rec.tmdbId),
            productionYear := rec.year,
            isAnimation := "Animation" in rec.genres),
          None)
  }

  /** The status's TMDB id reads back as the record's integer id. */
  lemma StateTmdbIdReadsBack(client: LookupClient, tmdbId: string)
    requires client(LookupParams(tmdbId)).Success? && |client(LookupParams(tmdbId)).value| > 0
    ensures ParseInt(GetRadarrState(client, tmdbId).state.tmdbId) == client(LookupParams(tmdbId)).value[0].tmdbId
  {
    IntToStringRoundTrip(client(LookupParams(tmdbId)).value[0].tmdbId);
  }

  /** The lookup fixture of radarr_test.go: a movie that already has a file. */
  const AlienRecord: RadarrMovieLookupResp :=
    RadarrMovieLookupResp(MovieLookupFile("folder/to/alien"), true, "Alien", 123, 1979,
                          ["Horror", "Science Fiction"])

  /** The second fixture: an animation movie without a file. */
  const CloudyRecord: RadarrMovieLookupResp :=
    RadarrMovieLookupResp(MovieLookupFile(""), false, "Cloudy with a Chance of Meatballs", 22794, 2009,
                          ["Animation", "Comedy", "Family"])

  /** The first case of the test table: a movie with a file, not animation. */
  lemma AlienFixture(client: LookupClient)
    requires client(LookupParams("123")) == Success([AlienRecord])
    ensures GetRadarrState(client, "123") == StateResult(RadarrStatus(true, true, "Alien", "123", 1979, false), None)
  {
    assert NatToString(12) == NatToString(1) + [DigitChar(2)];
    assert NatToString(123) == NatToString(12) + [DigitChar(3)];
    assert "Animation" !in AlienRecord.genres;
  }

  /** The second case: an animation movie without a file. */
  lemma CloudyFixture(client: LookupClient)
    requires client(LookupParams("22794")) == Success([CloudyRecord])
    ensures GetRadarrState(client, "22794")
         == StateResult(RadarrStatus(false, false, "Cloudy with a Chance of Meatballs", "22794", 2009, true), None)
  {
    assert NatToString(22) == NatToString(2) + [DigitChar(2)];
    assert NatToString(227) == NatToString(22) + [DigitChar(7)];
    assert NatToString(2279) == NatToString(227) + [DigitChar(9)];
    assert NatToString(22794) == NatToString(2279) + [DigitChar(4)];
    assert CloudyRecord.genres[0] == "Animation";
  }

  datatype RadarrAddBodyAddOptions = RadarrAddBodyAddOptions(searchForMovie: bool)

  datatype RadarrAddBody = RadarrAddBody(
    tmdbId: string,
    title: string,
    year: int,
    qualityProfileId: int,
    monitored: bool,
    rootFolderPath: string,
    addOptions: RadarrAddBodyAddOptions)

  /** A request to the service together with its JSON body. */
  datatype AddRequest = AddRequest(params: FetcherParams, body: RadarrAddBody)

  /** Go's map read: the value under `key`, or "" when it is absent. */
  function MapGet(m: map<string, string>, key: string): string {
    if key in m then m[key] else ""
  }

  /**
   * AddToRadarrDownload: the add request for a movie, routed to the
   * `anime_movies` root path for animation and to `movies` otherwise.
   */
  function AddToRadarrDownload(movie: RadarrStatus, radarrRootPaths: map<string, string>): (r: AddRequest)
    ensures r.body.rootFolderPath == MapGet(radarrRootPaths, if movie.isAnimation then "anime_movies" else "movies")
    ensures r.body.tmdbId == movie.tmdbId && r.body.title == movie.title && r.body.year == movie.productionYear
    ensures r.body.qualityProfileId == QualityProfileId && r.body.monitored && r.body.addOptions.searchForMovie
    ensures r.params.verb == "POST" && r.params.url == RadarrUrl + "movie"
    ensures r.params.wantErrCodes == Some([201, 400])
  {
    var rootFolderPath := if movie.isAnimation then MapGet(radarrRootPaths, "anime_movies")
                          else MapGet(radarrRootPaths, "movies");
    AddRequest(
      FetcherParams("POST", RadarrUrl + "movie", map[], false, Some([201, 400])),
      RadarrAddBody(movie.tmdbId, movie.title, movie.productionYear, QualityProfileId, true,
                    rootFolderPath, RadarrAddBodyAddOptions(true)))
  }

  /** An add passes the status check exactly when the service answers created (201) or already there (400). */
  lemma AddAcceptsCreatedOrExisting(movie: RadarrStatus, radarrRootPaths: map<string, string>, statusCode: int)
    ensures StatusAccepted(AddToRadarrDownload(movie, radarrRootPaths).params.wantErrCodes, statusCode)
        <==> statusCode == 201 || statusCode == 400
  {
  }

  // ---------------------------------------------------------------------------
  // SendTmdbIDsToRadarr.

  /** An id for which SendTmdbIDsToRadarr issues an add: non-empty, and its lookup gave a status. */
  predicate Acquirable(client: LookupClient, tmdbId: string) {
    tmdbId != "" && GetRadarrState(client, tmdbId).err.None?
  }

  /** The statuses SendTmdbIDsToRadarr collects from `tmdbIds`, in order. */
  function Acquired(client: LookupClient, tmdbIds: seq<string>): seq<RadarrStatus>
  {
    if tmdbIds == [] then []
    else
      var last := tmdbIds[|tmdbIds| - 1];
      Acquired(client, tmdbIds[..|tmdbIds| - 1])
        + (if Acquirable(client, last) then [GetRadarrState(client, last).state] else [])
  }

  /** The positions in `tmdbIds` of the ids that are acquired, in order. */
  function AcquiredPositions(client: LookupClient, tmdbIds: seq<string>): seq<nat>
  {
    if tmdbIds == [] then []
    else
      var n := |tmdbIds| - 1;
      AcquiredPositions(client, tmdbIds[..n]) + (if Acquirable(client, tmdbIds[n]) then [n] else [])
  }

  /** The non-empty ids, in order: those SendTmdbIDsToRadarr looks up. */
  function NonEmpty(tmdbIds: seq<string>): seq<string>
  {
    if tmdbIds == [] then []
    else
      var last := tmdbIds[|tmdbIds| - 1];
      NonEmpty(tmdbIds[..|tmdbIds| - 1]) + (if last != "" then [last] else [])
  }

  /** There is one acquired status per acquired position, so never more than there are ids. */
  lemma {:induction false} AcquiredCount(client: LookupClient, tmdbIds: seq<string>)
    ensures |Acquired(client, tmdbIds)| == |AcquiredPositions(client, tmdbIds)| <= |tmdbIds|
  {
    if tmdbIds != [] {
      AcquiredCount(client, tmdbIds[..|tmdbIds| - 1]);
    }
  }

  /**
   * The k-th acquired status is the status of the id at the k-th acquired
   * position, and that id is acquirable.
   */
  lemma {:induction false} AcquiredAtPositions(client: LookupClient, tmdbIds: seq<string>)
    ensures forall k :: 0 <= k < |AcquiredPositions(client, tmdbIds)| ==>
      && AcquiredPositions(client, tmdbIds)[k] < |tmdbIds|
      && Acquirable(client, tmdbIds[AcquiredPositions(client, tmdbIds)[k]])
      && k < |Acquired(client, tmdbIds)|
      && Acquired(client, tmdbIds)[k] == GetRadarrState(client, tmdbIds[AcquiredPositions(client, tmdbIds)[k]]).state
  {
    if tmdbIds != [] {
      var n := |tmdbIds| - 1;
      AcquiredAtPositions(client, tmdbIds[..n]);
      AcquiredCount(client, tmdbIds[..n]);
      var ps := AcquiredPositions(client, tmdbIds[..n]);
      assert forall k :: 0 <= k < |ps| ==> tmdbIds[..n][ps[k]] == tmdbIds[ps[k]];
    }
  }

  /** The acquired positions are strictly increasing: input order is kept. */
  lemma {:induction false} AcquiredPositionsIncrease(client: LookupClient, tmdbIds: seq<string>)
    ensures forall k :: 0 <= k < |AcquiredPositions(client, tmdbIds)| ==> AcquiredPositions(client, tmdbIds)[k] < |tmdbIds|
    ensures forall k, l :: 0 <= k < l < |AcquiredPositions(client, tmdbIds)| ==>
      AcquiredPositions(client, tmdbIds)[k] < AcquiredPositions(client, tmdbIds)[l]
  {
    if tmdbIds != [] {
      AcquiredPositionsIncrease(client, tmdbIds[..|tmdbIds| - 1]);
    }
  }

  /** Every acquirable id in the input is acquired: no success is dropped. */
  lemma {:induction false} AcquirableIsAcquired(client: LookupClient, tmdbIds: seq<string>)
    ensures forall j :: 0 <= j < |tmdbIds| && Acquirable(client, tmdbIds[j]) ==> j in AcquiredPositions(client, tmdbIds)
  {
    if tmdbIds != [] {
      var n := |tmdbIds| - 1;
      AcquirableIsAcquired(client, tmdbIds[..n]);
      var ps := AcquiredPositions(client, tmdbIds[..n]);
      assert AcquiredPositions(client, tmdbIds) == ps + (if Acquirable(client, tmdbIds[n]) then [n] else []);
      forall j | 0 <= j < n && Acquirable(client, tmdbIds[j])
        ensures j in AcquiredPositions(client, tmdbIds)
      {
        assert tmdbIds[..n][j] == tmdbIds[j];
        assert j in ps;
      }
    }
  }

  /**
   * SendTmdbIDsToRadarr: looks up every non-empty id and, for each lookup
   * that gives a status, issues one add and keeps the status.
   */
  method SendTmdbIDsToRadarr(client: LookupClient, tmdbIds: seq<string>, radarrRootPaths: map<string, string>)
    returns (states: seq<RadarrStatus>, lookups: seq<FetcherParams>, adds: seq<AddRequest>)
    ensures states == Acquired(client, tmdbIds)
    ensures |lookups| == |NonEmpty(tmdbIds)|
    ensures forall k :: 0 <= k < |lookups| ==> lookups[k] == LookupParams(NonEmpty(tmdbIds)[k])
    ensures |adds| == |states|
    ensures forall k :: 0 <= k < |adds| ==> adds[k] == AddToRadarrDownload(states[k], radarrRootPaths)
  {
    states, lookups, adds := [], [], [];
    ghost var looked: seq<string> := [];
    var i := 0;
    while i < |tmdbIds|
      invariant 0 <= i <= |tmdbIds|
      invariant states == Acquired(client, tmdbIds[..i])
      invariant looked == NonEmpty(tmdbIds[..i])
      invariant |lookups| == |looked|
      invariant forall k :: 0 <= k < |lookups| ==> lookups[k] == LookupParams(looked[k])
      invariant |adds| == |states|
      invariant forall k :: 0 <= k < |adds| ==> adds[k] == AddToRadarrDownload(states[k], radarrRootPaths)
    {
      var tmdbId := tmdbIds[i];
      assert tmdbIds[..i + 1][..i] == tmdbIds[..i];
      assert Acquired(client, tmdbIds[..i + 1])
        == states + (if Acquirable(client, tmdbId) then [GetRadarrState(client, tmdbId).state] else []);
      if tmdbId != "" {
        lookups := lookups + [LookupParams(tmdbId)];
        looked := looked + [tmdbId];
        var result := GetRadarrState(client, tmdbId);
        if result.err.None? {
          adds := adds + [AddToRadarrDownload(result.state, radarrRootPaths)];
          states := states + [result.state];
        }
      }
      i := i + 1;
    }
    assert tmdbIds[..i] == tmdbIds;
  }
}
