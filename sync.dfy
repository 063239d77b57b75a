/**
 * The per-user loop of main.go: for every configured user, scrape the
 * watchlist (in full once a day, otherwise only what is newer than the
 * user's cursor), send the ids to the acquisition service, then clean and
 * fill the user's collection on the media server; the configuration is
 * written back once, after the last user.
 */
module Sync {
  import opened Wrappers
  import opened Fetch
  import opened Letterboxd
  import opened Radarr
  import opened Jellyfin

  /** One configured user, with its last full sync as nanoseconds on the wall clock. */
  datatype UserConf = UserConf(
    username: string,
    latestWatchlistMovie: string,
    collectionId: string,
    jellyfinUserName: string,
    lastFullSync: int)

  /** `24*time.Hour` in nanoseconds. */
  const Day: int := 24 * 3600 * 1_000_000_000

  const MaxDuration: int := 0x7fff_ffff_ffff_ffff
  const MinDuration: int := -0x8000_0000_0000_0000

  /** time.Time.Sub: the difference, saturated to the range of a Duration (int64). */
  function Sub(now: int, t: int): (r: int)
    ensures MinDuration <= r <= MaxDuration
    ensures MinDuration <= now - t <= MaxDuration ==> r == now - t
    ensures now - t > MaxDuration ==> r == MaxDuration
    ensures now - t < MinDuration ==> r == MinDuration
  {
    var d := now - t;
    if d > MaxDuration then MaxDuration else if d < MinDuration then MinDuration else d
  }

  /** The full-sync test: saturation never changes it, and exactly one day is not enough. */
  function NeedsFullSync(now: int, lastFullSync: int): (r: bool)
    ensures r <==> now - lastFullSync > Day
  {
    Sub(now, lastFullSync) > Day
  }

  /**
   * What the loop reaches outside itself. The watchlist pages are each
   * user's pages as the incremental scraper sees them; the full scraper is
   * not part of this model and is a function from user name to its result.
   */
  datatype Services = Services(
    watchlistPages: string -> seq<Page>,
    fullWatchlist: string -> Result<seq<string>, LetterboxdError>,
    radarr: LookupClient,
    radarrRootPaths: map<string, string>,
    jellyfinUsers: seq<User>,
    userViews: (string, string) -> Result<seq<UserView>, JellyfinError>)

  /** The requests that change something on a service, in the order they are sent. */
  datatype Request =
    | Acquire(add: AddRequest)
    | Remove(delete: FetcherParams)
    | AddToCollection(post: FetcherParams)

  /** The phase a request belongs to: acquisitions, then removals, then additions. */
  function Phase(r: Request): nat {
    match r
    case Acquire(_) => 0
    case Remove(_) => 1
    case AddToCollection(_) => 2
  }

  /** The scrape of one user: the ids and the user's updated entry. */
  datatype Scrape = Scrape(tmdbIds: seq<string>, user: UserConf)

  function ScrapeUser(u: UserConf, now: int, svc: Services): Result<Scrape, LetterboxdError> {
    if NeedsFullSync(now, u.lastFullSync) then
      match svc.fullWatchlist(u.username)
      case Failure(e) => Failure(e)
      case Success(ids) => Success(Scrape(ids, u.(lastFullSync := now)))
    else
      var ids := Scan(svc.watchlistPages(u.username), u.latestWatchlistMovie, 1);
      Success(Scrape(ids, u.(latestWatchlistMovie := if |ids| > 0 then ids[0] else u.latestWatchlistMovie)))
  }

  function Acquisitions(states: seq<RadarrStatus>, radarrRootPaths: map<string, string>): seq<Request> {
    seq(|states|, k requires 0 <= k < |states| => Acquire(AddToRadarrDownload(states[k], radarrRootPaths)))
  }

  function Removals(userViews: Result<seq<UserView>, JellyfinError>, collectionId: string): seq<Request> {
    match userViews
    case Failure(_) => []
    case Success(views) =>
      var played := PlayedIds(views);
      seq(|played|, k requires 0 <= k < |played| => Remove(DeleteParams(collectionId, played[k])))
  }

  function Additions(ids: seq<string>, collectionId: string): seq<Request> {
    var b := Batches(ids);
    seq(|b|, k requires 0 <= k < |b| => AddToCollection(AddParams(collectionId, JoinIds(b[k]))))
  }

  /** One iteration of the loop: the user's new entry, the requests sent, and whether it panicked. */
  datatype Outcome = Outcome(user: UserConf, requests: seq<Request>, panicked: bool)

  /**
   * The rest of the loop body once the watchlist is scraped: the ids go to
   * Radarr, then, if the Jellyfin user is found, the seen movies leave the
   * collection and the resolved ones join it.
   */
  function Forwarded(u: UserConf, scrape: Scrape, allMovies: seq<MoviesItem>, svc: Services): Outcome {
    var states := Acquired(svc.radarr, scrape.tmdbIds);
    var acquisitions := Acquisitions(states, svc.radarrRootPaths);
    match UserIdOf(svc.jellyfinUsers, u.jellyfinUserName)
    case Failure(_) => Outcome(scrape.user, acquisitions, true)
    case Success(userId) =>
      Outcome(scrape.user,
              acquisitions
                + Removals(svc.userViews(userId, u.collectionId), u.collectionId)
                + Additions(ResolvedIds(allMovies, states), u.collectionId),
              false)
  }

  /** One iteration of the loop: a panic when the scrape fails, otherwise the forwarded outcome. */
  function Step(u: UserConf, now: int, allMovies: seq<MoviesItem>, svc: Services): Outcome {
    match ScrapeUser(u, now, svc)
    case Failure(_) => Outcome(u, [], true)
    case Success(scrape) => Forwarded(u, scrape, allMovies, svc)
  }

  /** The first part of the loop body: the full or incremental scrape of the user's watchlist. */
  method ScrapeWatchlist(u: UserConf, now: int, svc: Services) returns (r: Result<Scrape, LetterboxdError>)
    ensures r == ScrapeUser(u, now, svc)
  {
    if Sub(now, u.lastFullSync) > Day {
      var full := svc.fullWatchlist(u.username);
      if full.Failure? {
        return Failure(full.error);
      }
      return Success(Scrape(full.value, u.(lastFullSync := now)));
    } else {
      var tmdbIds, latest, requested := GetNewestUserWatchlist(u.username, svc.watchlistPages(u.username), u.latestWatchlistMovie);
      return Success(Scrape(tmdbIds, u.(latestWatchlistMovie := latest)));
    }
  }

  /** The rest of the loop body, after the scrape. */
  method Forward(u: UserConf, scrape: Scrape, allMovies: seq<MoviesItem>, svc: Services) returns (out: Outcome)
    ensures out == Forwarded(u, scrape, allMovies, svc)
  {
    var radarrStates, lookups, adds := SendTmdbIDsToRadarr(svc.radarr, scrape.tmdbIds, svc.radarrRootPaths);
    var requests := seq(|adds|, k requires 0 <= k < |adds| => Acquire(adds[k]));
    assert requests == Acquisitions(radarrStates, svc.radarrRootPaths);

    var userId := GetUserId(svc.jellyfinUsers, u.jellyfinUserName);
    if userId.Failure? {
      return Outcome(scrape.user, requests, true);
    }

    var userViews := svc.userViews(userId.value, u.collectionId);
    var removed, deletes := RemoveSeenMoviesFromUserCollection(userViews, u.collectionId);
    var removals := seq(|deletes|, k requires 0 <= k < |deletes| => Remove(deletes[k]));
    assert removals == Removals(userViews, u.collectionId);

    var ids, posts := AddMoviesToCollection(allMovies, radarrStates, u.collectionId);
    var additions := seq(|posts|, k requires 0 <= k < |posts| => AddToCollection(posts[k]));
    assert additions == Additions(ResolvedIds(allMovies, radarrStates), u.collectionId);

    return Outcome(scrape.user, requests + removals + additions, false);
  }

  /** One iteration of the loop body: `step` names the whole iteration, as a function of the user's entry. */
  method SyncUser(u: UserConf, now: int, allMovies: seq<MoviesItem>, svc: Services, ghost step: UserConf -> Outcome)
    returns (out: Outcome)
    requires IsIteration(step, now, allMovies, svc)
    ensures out == step(u)
  {
    assert step(u) == Step(u, now, allMovies, svc);
    var scraped := ScrapeWatchlist(u, now, svc);
    if scraped.Failure? {
      out := Outcome(u, [], true);
    } else {
      out := Forward(u, scraped.value, allMovies, svc);
    }
  }

  // ---------------------------------------------------------------------------
  // What one iteration promises.

  /** A full sync stamps the time and leaves the cursor; an incremental one leaves the stamp. */
  lemma StepSyncStamp(u: UserConf, now: int, allMovies: seq<MoviesItem>, svc: Services)
    ensures var out := Step(u, now, allMovies, svc);
      && (now - u.lastFullSync > Day && svc.fullWatchlist(u.username).Success? ==>
            out.user == u.(lastFullSync := now))
      && (now - u.lastFullSync <= Day ==> out.user.lastFullSync == u.lastFullSync)
  {
  }

  /**
   * An incremental sync moves the cursor to the newest watchlist id
   * before the old cursor, and keeps it when there is none.
   */
  lemma StepMovesCursor(u: UserConf, now: int, allMovies: seq<MoviesItem>, svc: Services)
    requires now - u.lastFullSync <= Day
    ensures var newer := TakeUntil(Stream(svc.watchlistPages(u.username), 1), u.latestWatchlistMovie);
      Step(u, now, allMovies, svc).user.latestWatchlistMovie
        == if |newer| > 0 then newer[0] else u.latestWatchlistMovie
  {
    ScanIsStreamUntilCursor(svc.watchlistPages(u.username), u.latestWatchlistMovie, 1);
  }

  /** Nothing but the cursor and the stamp of a user's entry ever changes. */
  lemma StepKeepsIdentity(u: UserConf, now: int, allMovies: seq<MoviesItem>, svc: Services)
    ensures var v := Step(u, now, allMovies, svc).user;
      v.username == u.username && v.collectionId == u.collectionId && v.jellyfinUserName == u.jellyfinUserName
  {
  }

  /** Requests of one phase, then of a later one, then of a later one still, are in phase order. */
  lemma PhasesConcat(a: seq<Request>, r: seq<Request>, d: seq<Request>)
    requires forall i :: 0 <= i < |a| ==> a[i].Acquire?
    requires forall i :: 0 <= i < |r| ==> r[i].Remove?
    requires forall i :: 0 <= i < |d| ==> d[i].AddToCollection?
    ensures forall i, j :: 0 <= i < j < |a + r + d| ==> Phase((a + r + d)[i]) <= Phase((a + r + d)[j])
  {
    var rs := a + r + d;
    assert forall i :: 0 <= i < |a| ==> Phase(rs[i]) == 0;
    assert forall i :: |a| <= i < |a| + |r| ==> Phase(rs[i]) == 1;
    assert forall i :: |a| + |r| <= i < |rs| ==> Phase(rs[i]) == 2;
  }

  /** Within one user the requests go acquisitions first, then removals, then additions. */
  lemma StepPhasesInOrder(u: UserConf, now: int, allMovies: seq<MoviesItem>, svc: Services)
    ensures var rs := Step(u, now, allMovies, svc).requests;
      forall i, j :: 0 <= i < j < |rs| ==> Phase(rs[i]) <= Phase(rs[j])
  {
    match ScrapeUser(u, now, svc)
    case Failure(_) =>
    case Success(scrape) =>
      var states := Acquired(svc.radarr, scrape.tmdbIds);
      var a := Acquisitions(states, svc.radarrRootPaths);
      match UserIdOf(svc.jellyfinUsers, u.jellyfinUserName)
      case Failure(_) =>
        PhasesConcat(a, [], []);
        assert a + [] + [] == a;
      case Success(userId) =>
        PhasesConcat(a, Removals(svc.userViews(userId, u.collectionId), u.collectionId),
                     Additions(ResolvedIds(allMovies, states), u.collectionId));
  }

  /**
   * The run panics on a user exactly when the scheduled full scrape fails
   * or the media server has no usable id for the user; in the second case
   * the acquisitions have already been sent.
   */
  lemma StepPanics(u: UserConf, now: int, allMovies: seq<MoviesItem>, svc: Services)
    ensures var out := Step(u, now, allMovies, svc);
      && (out.panicked <==>
            (now - u.lastFullSync > Day && svc.fullWatchlist(u.username).Failure?)
            || UserIdOf(svc.jellyfinUsers, u.jellyfinUserName).Failure?)
      && (now - u.lastFullSync > Day && svc.fullWatchlist(u.username).Failure? ==>
            out.user == u && out.requests == [])
      && (out.panicked ==> forall i :: 0 <= i < |out.requests| ==> out.requests[i].Acquire?)
  {
  }

  // ---------------------------------------------------------------------------
  // The loop over all users.

  /**
   * `step` is one iteration of the loop for this run: the clock reading,
   * the media library and the services are shared by all users.
   */
  ghost predicate IsIteration(step: UserConf -> Outcome, now: int, allMovies: seq<MoviesItem>, svc: Services) {
    forall u {:trigger Step(u, now, allMovies, svc)} :: step(u) == Step(u, now, allMovies, svc)
  }

  /** There is such a function. */
  lemma IterationExists(now: int, allMovies: seq<MoviesItem>, svc: Services)
    ensures IsIteration(u => Step(u, now, allMovies, svc), now, allMovies, svc)
  {
  }

  /** The position of the first user whose iteration panics, or the number of users. */
  function FirstPanic(users: seq<UserConf>, step: UserConf -> Outcome): (r: nat)
    ensures r <= |users|
    ensures forall i :: 0 <= i < r ==> !step(users[i]).panicked
    ensures r < |users| ==> step(users[r]).panicked
  {
    if users == [] then 0
    else if step(users[0]).panicked then 0
    else 1 + FirstPanic(users[1..], step)
  }

  /** FirstPanic is the one position with no panic before it and a panic on it. */
  lemma FirstPanicIsFirst(users: seq<UserConf>, step: UserConf -> Outcome, k: nat)
    requires k <= |users|
    requires forall i :: 0 <= i < k ==> !step(users[i]).panicked
    requires k < |users| ==> step(users[k]).panicked
    ensures FirstPanic(users, step) == k
  {
  }

  /** The users the loop reaches: all of them up to and including the first that panics. */
  function Reached(users: seq<UserConf>, step: UserConf -> Outcome): (r: nat)
    ensures r <= |users|
  {
    if FirstPanic(users, step) < |users| then FirstPanic(users, step) + 1 else |users|
  }

  /** `outs` are the outcomes of the iterations over `users`, in order. */
  predicate OutcomesOf(users: seq<UserConf>, outs: seq<Outcome>, step: UserConf -> Outcome)
  {
    && |outs| == |users|
    && (users != [] ==>
          && outs[|outs| - 1] == step(users[|users| - 1])
          && OutcomesOf(users[..|users| - 1], outs[..|outs| - 1], step))
  }

  lemma {:induction false} OutcomesOfAt(users: seq<UserConf>, outs: seq<Outcome>, step: UserConf -> Outcome)
    requires OutcomesOf(users, outs, step)
    ensures forall i :: 0 <= i < |users| ==> outs[i] == step(users[i])
  {
    if users != [] {
      var n := |users| - 1;
      OutcomesOfAt(users[..n], outs[..n], step);
      assert forall i :: 0 <= i < n ==> outs[..n][i] == outs[i] && users[..n][i] == users[i];
    }
  }

  /** The requests of a sequence of iterations, one iteration after another. */
  function RequestsOf(outs: seq<Outcome>): seq<Request> {
    if outs == [] then [] else RequestsOf(outs[..|outs| - 1]) + outs[|outs| - 1].requests
  }

  /** The requests sent by the iterations over `users`, one user after another. */
  function RequestsSent(users: seq<UserConf>, step: UserConf -> Outcome): seq<Request> {
    if users == [] then [] else RequestsSent(users[..|users| - 1], step) + step(users[|users| - 1]).requests
  }

  lemma {:induction false} RequestsOfOutcomes(users: seq<UserConf>, outs: seq<Outcome>, step: UserConf -> Outcome)
    requires OutcomesOf(users, outs, step)
    ensures RequestsOf(outs) == RequestsSent(users, step)
  {
    if users != [] {
      RequestsOfOutcomes(users[..|users| - 1], outs[..|outs| - 1], step);
    }
  }

  /**
   * The state of the loop over the users after `index` iterations: `cur`
   * holds the updated entries up to `index` and the original ones after
   * it, `outs` the iterations' outcomes, `requests` their requests, and
   * `panicked` tells whether the last iteration panicked (none before it did).
   */
  ghost predicate Progress(olds: seq<UserConf>, cur: seq<UserConf>, outs: seq<Outcome>, requests: seq<Request>,
                           index: nat, panicked: bool, step: UserConf -> Outcome)
  {
    && index <= |olds| == |cur|
    && OutcomesOf(olds[..index], outs, step)
    && (forall i :: 0 <= i < index ==> cur[i] == outs[i].user)
    && (forall i :: index <= i < |olds| ==> cur[i] == olds[i])
    && (forall i :: 0 <= i < index - 1 ==> !outs[i].panicked)
    && (panicked ==> 0 < index)
    && (0 < index ==> (outs[index - 1].panicked <==> panicked))
    && requests == RequestsOf(outs)
  }

  /** One more iteration, on the next user, keeps Progress. */
  lemma ProgressStep(olds: seq<UserConf>, cur: seq<UserConf>, outs: seq<Outcome>, requests: seq<Request>,
                     index: nat, step: UserConf -> Outcome, out: Outcome)
    requires Progress(olds, cur, outs, requests, index, false, step)
    requires index < |olds|
    requires out == step(olds[index])
    ensures Progress(olds, cur[index := out.user], outs + [out], requests + out.requests,
                     index + 1, out.panicked, step)
  {
    assert olds[..index + 1][..index] == olds[..index];
    assert (outs + [out])[..index] == outs;
  }

  /** Under Progress, the outcomes are those of the first `index` users and so are the requests. */
  lemma ProgressOutcomes(olds: seq<UserConf>, cur: seq<UserConf>, outs: seq<Outcome>, requests: seq<Request>,
                         index: nat, panicked: bool, step: UserConf -> Outcome)
    requires Progress(olds, cur, outs, requests, index, panicked, step)
    ensures forall i :: 0 <= i < index ==> outs[i] == step(olds[i])
    ensures requests == RequestsSent(olds[..index], step)
  {
    OutcomesOfAt(olds[..index], outs, step);
    RequestsOfOutcomes(olds[..index], outs, step);
    forall i | 0 <= i < index ensures outs[i] == step(olds[i]) {
      assert olds[..index][i] == olds[i];
    }
  }

  /**
   * When the loop stops after `reached` users, each of them but the last
   * without a panic and the last one panicking exactly when the loop
   * stopped early, it has reached the users up to and including the first panic.
   */
  lemma ReachedAtEnd(olds: seq<UserConf>, step: UserConf -> Outcome, reached: nat, panicked: bool)
    requires reached <= |olds|
    requires forall i :: 0 <= i < reached - 1 ==> !step(olds[i]).panicked
    requires 0 < reached ==> (step(olds[reached - 1]).panicked <==> panicked)
    requires panicked ==> 0 < reached
    requires !panicked ==> reached == |olds|
    ensures Reached(olds, step) == reached
    ensures FirstPanic(olds, step) == |olds| <==> !panicked
  {
    if panicked {
      FirstPanicIsFirst(olds, step, reached - 1);
    } else {
      FirstPanicIsFirst(olds, step, reached);
    }
  }

  /** Under Progress, the entries reached hold their iteration's new entry and the others are as they were. */
  lemma ProgressEntries(olds: seq<UserConf>, cur: seq<UserConf>, outs: seq<Outcome>, requests: seq<Request>,
                        index: nat, panicked: bool, step: UserConf -> Outcome)
    requires Progress(olds, cur, outs, requests, index, panicked, step)
    ensures forall i :: 0 <= i < |olds| ==> cur[i] == if i < index then step(olds[i]).user else olds[i]
  {
    ProgressOutcomes(olds, cur, outs, requests, index, panicked, step);
    forall i | 0 <= i < |olds|
      ensures cur[i] == if i < index then step(olds[i]).user else olds[i]
    {
      if i < index {
        assert cur[i] == outs[i].user;
      }
    }
  }

  /** How the loop ends, stated for any iteration function. */
  lemma RunEnds(olds: seq<UserConf>, finals: seq<UserConf>, outs: seq<Outcome>, requests: seq<Request>,
                reached: nat, panicked: bool, step: UserConf -> Outcome)
    requires Progress(olds, finals, outs, requests, reached, panicked, step)
    requires !panicked ==> reached == |olds|
    ensures Reached(olds, step) == reached
    ensures FirstPanic(olds, step) == |olds| <==> !panicked
    ensures forall i :: 0 <= i < |olds| ==> finals[i] == if i < reached then step(olds[i]).user else olds[i]
    ensures requests == RequestsSent(olds[..reached], step)
  {
    ProgressOutcomes(olds, finals, outs, requests, reached, panicked, step);
    ReachedAtEnd(olds, step, reached, panicked);
    ProgressEntries(olds, finals, outs, requests, reached, panicked, step);
  }

  /**
   * The loop of main.go over the configured users, updating their entries
   * in place, up to and including the first user whose iteration panics.
   * `outs` are the iterations' outcomes and `reached` their number.
   */
  method RunLoop(users: array<UserConf>, now: int, allMovies: seq<MoviesItem>, svc: Services,
                 ghost step: UserConf -> Outcome)
    returns (requests: seq<Request>, panicked: bool, ghost outs: seq<Outcome>, reached: nat)
    requires IsIteration(step, now, allMovies, svc)
    modifies users
    ensures Progress(old(users[..]), users[..], outs, requests, reached, panicked, step)
    ensures !panicked ==> reached == users.Length
  {
    ghost var olds := users[..];
    outs := [];
    requests := [];
    panicked := false;
    var index := 0;
    while index < users.Length && !panicked
      invariant Progress(olds, users[..], outs, requests, index, panicked, step)
    {
      var out := SyncUser(users[index], now, allMovies, svc, step);
      ProgressStep(olds, users[..], outs, requests, index, step, out);
      users[index] := out.user;
      outs := outs + [out];
      requests := requests + out.requests;
      panicked := out.panicked;
      index := index + 1;
    }
    reached := index;
  }

  /**
   * The whole run: users are handled in order, each by its own iteration,
   * up to and including the first that panics; later entries are
   * untouched. The requests are those of the users reached, in order, and
   * the configuration is persisted only when no user panicked.
   */
  method Run(users: array<UserConf>, now: int, allMovies: seq<MoviesItem>, svc: Services,
             ghost step: UserConf -> Outcome)
    returns (requests: seq<Request>, persisted: Option<seq<UserConf>>)
    requires IsIteration(step, now, allMovies, svc)
    modifies users
    ensures forall i :: 0 <= i < users.Length ==>
      users[i] == if i < Reached(old(users[..]), step)
                  then step(old(users[i])).user else old(users[i])
    ensures requests == RequestsSent(old(users[..])[..Reached(old(users[..]), step)],
                                     step)
    ensures persisted == if FirstPanic(old(users[..]), step) == users.Length
                         then Some(users[..]) else None
  {
    ghost var olds := users[..];
    var panicked, reached;
    ghost var outs;
    requests, panicked, outs, reached := RunLoop(users, now, allMovies, svc, step);
    RunEnds(olds, users[..], outs, requests, reached, panicked, step);
    persisted := if panicked then None else Some(users[..]);
  }
}
