/**
 * The media-server client (jellyfin/jellyfin.go): finding a user's id,
 * removing watched movies from a user's collection, matching acquired
 * movies against the library and adding them to the collection in
 * batches of twenty.
 */
module Jellyfin {
  import opened Wrappers
  import opened Text
  import opened Fetch
  import opened Radarr

  const JellyfinUrl: string := "https://stream.diikstra.fr/"
  const BatchSize: nat := 20

  datatype User = User(name: string, id: string)

  datatype UserData = UserData(played: bool)

  datatype UserView = UserView(name: string, id: string, userData: UserData)

  datatype MoviesItem = MoviesItem(name: string, productionYear: int, id: string)

  datatype JellyfinError = NoUserMatching | MovieNotFound | ViewsUnavailable

  // ---------------------------------------------------------------------------
  // GetUserId.

  /** `k` is the position of the first user called `userName`. */
  predicate IsFirstNamed(users: seq<User>, userName: string, k: int) {
    && 0 <= k < |users|
    && users[k].name == userName
    && (forall j :: 0 <= j < k ==> users[j].name != userName)
  }

  /** The position of the first user called `userName`, if any. */
  function FirstNamed(users: seq<User>, userName: string): (r: Option<nat>)
    ensures r.Some? ==> IsFirstNamed(users, userName, r.value)
    ensures r.None? ==> forall j :: 0 <= j < |users| ==> users[j].name != userName
  {
    if users == [] then None
    else if users[0].name == userName then Some(0)
    else match FirstNamed(users[1..], userName)
      case None => None
      case Some(k) => Some(k + 1)
  }

  /**
   * The answer GetUserId gives for the decoded user list: the id of the
   * first user with that name, unless there is none or its id is empty.
   */
  function UserIdOf(users: seq<User>, userName: string): (r: Result<string, JellyfinError>)
    ensures r.Success? ==> r.value != "" && exists k :: IsFirstNamed(users, userName, k) && r.value == users[k].id
    ensures r.Failure? ==>
      && r.error == NoUserMatching
      && forall k :: IsFirstNamed(users, userName, k) ==> users[k].id == ""
  {
    match FirstNamed(users, userName)
    case None => Failure(NoUserMatching)
    case Some(k) => if users[k].id == "" then Failure(NoUserMatching) else Success(users[k].id)
  }

  /** GetUserId over the user list that GetUsers decoded. */
  method GetUserId(users: seq<User>, userName: string) returns (r: Result<string, JellyfinError>)
    ensures r == UserIdOf(users, userName)
  {
    var userId := "";
    var i := 0;
    while i < |users|
      invariant 0 <= i <= |users|
      invariant forall j :: 0 <= j < i ==> users[j].name != userName
      invariant userId == ""
    {
      if users[i].name == userName {
        userId := users[i].id;
        break;
      }
      i := i + 1;
    }
    if userId == "" {
      return Failure(NoUserMatching);
    }
    return Success(userId);
  }

  /** The two cases of the user-lookup test table. */
  lemma UserIdFixtures()
    ensures var users := [User("Jean Bon", "123"), User("Michel Sapin", "456")];
      && UserIdOf(users, "Michel Sapin") == Success("456")
      && UserIdOf(users, "Wrong User") == Failure(NoUserMatching)
  {
    var users := [User("Jean Bon", "123"), User("Michel Sapin", "456")];
    assert users[1..][0].name == "Michel Sapin";
  }

  // ---------------------------------------------------------------------------
  // RemoveSeenMoviesFromUserCollection.

  /** The ids of the played items, in list order. */
  function PlayedIds(userViews: seq<UserView>): seq<string>
  {
    if userViews == [] then []
    else
      var last := userViews[|userViews| - 1];
      PlayedIds(userViews[..|userViews| - 1]) + (if last.userData.played then [last.id] else [])
  }

  /** PlayedIds is a filter: it distributes over concatenation. */
  lemma {:induction false} PlayedIdsConcat(a: seq<UserView>, b: seq<UserView>)
    ensures PlayedIds(a + b) == PlayedIds(a) + PlayedIds(b)
    decreases |b|
  {
    if b == [] {
      assert a + b == a;
    } else {
      var n := |b| - 1;
      assert (a + b)[..|a + b| - 1] == a + b[..n];
      PlayedIdsConcat(a, b[..n]);
    }
  }

  /** PlayedIds of one item: its id exactly when it is played. */
  lemma PlayedIdsSingle(v: UserView)
    ensures PlayedIds([v]) == (if v.userData.played then [v.id] else [])
  {
    assert [v][..0] == [];
  }

  /** The request that removes one item from a collection. */
  function DeleteParams(userCollectionId: string, itemId: string): FetcherParams {
    FetcherParams("DELETE", JellyfinUrl + "Collections/" + userCollectionId + "/Items",
                  map["ids" := itemId], false, Some([204]))
  }

  /**
   * RemoveSeenMoviesFromUserCollection over the views GetUserViews gave:
   * one DELETE per played item, carrying its id, and their number; -1 and
   * no request when the views could not be had.
   */
  method RemoveSeenMoviesFromUserCollection(userViews: Result<seq<UserView>, JellyfinError>, userCollectionId: string)
    returns (numberOfMoviesRemoved: int, deletes: seq<FetcherParams>)
    ensures userViews.Failure? ==> numberOfMoviesRemoved == -1 && deletes == []
    ensures userViews.Success? ==>
      && numberOfMoviesRemoved == |PlayedIds(userViews.value)| == |deletes|
      && forall k :: 0 <= k < |deletes| ==> deletes[k] == DeleteParams(userCollectionId, PlayedIds(userViews.value)[k])
  {
    numberOfMoviesRemoved, deletes := 0, [];
    if userViews.Failure? {
      return -1, [];
    }
    var views := userViews.value;
    var i := 0;
    while i < |views|
      invariant 0 <= i <= |views|
      invariant numberOfMoviesRemoved == |PlayedIds(views[..i])| == |deletes|
      invariant forall k :: 0 <= k < |deletes| ==> deletes[k] == DeleteParams(userCollectionId, PlayedIds(views[..i])[k])
    {
      assert views[..i + 1][..i] == views[..i];
      if views[i].userData.played {
        deletes := deletes + [DeleteParams(userCollectionId, views[i].id)];
        numberOfMoviesRemoved := numberOfMoviesRemoved + 1;
      }
      i := i + 1;
    }
    assert views[..i] == views;
  }

  /** The removal test: of an unplayed and a played item, only the played one goes. */
  lemma RemoveFixture()
    ensures PlayedIds([UserView("testMovie", "testId", UserData(false)),
                       UserView("testMovie2", "testId2", UserData(true))]) == ["testId2"]
  {
    var views := [UserView("testMovie", "testId", UserData(false)),
                  UserView("testMovie2", "testId2", UserData(true))];
    assert views[..1][..0] == [];
  }

  // ---------------------------------------------------------------------------
  // GetMovieJellyfinId.

  /** `k` is the position of the first library item with this name and year. */
  predicate IsFirstMovie(movies: seq<MoviesItem>, movieName: string, movieYear: int, k: int) {
    && 0 <= k < |movies|
    && movies[k].name == movieName && movies[k].productionYear == movieYear
    && (forall j :: 0 <= j < k ==> !(movies[j].name == movieName && movies[j].productionYear == movieYear))
  }

  /**
   * GetMovieJellyfinId's answer: the id of the first library item whose
   * name and year both match exactly, or the not-found error.
   */
  function MovieIdOf(movies: seq<MoviesItem>, movieName: string, movieYear: int): (r: Result<string, JellyfinError>)
    ensures r.Success? ==> exists k :: IsFirstMovie(movies, movieName, movieYear, k) && r.value == movies[k].id
    ensures r.Failure? ==>
      && r.error == MovieNotFound
      && forall j :: 0 <= j < |movies| ==> !(movies[j].name == movieName && movies[j].productionYear == movieYear)
  {
    if movies == [] then Failure(MovieNotFound)
    else if movies[0].name == movieName && movies[0].productionYear == movieYear then Success(movies[0].id)
    else
      var r := MovieIdOf(movies[1..], movieName, movieYear);
      assert r.Success? ==> exists k :: IsFirstMovie(movies, movieName, movieYear, k) && r.value == movies[k].id by {
        if r.Success? {
          var k :| IsFirstMovie(movies[1..], movieName, movieYear, k) && r.value == movies[1..][k].id;
          assert IsFirstMovie(movies, movieName, movieYear, k + 1);
        }
      }
      r
  }

  /** GetMovieJellyfinId: a linear search with an early return. */
  method GetMovieJellyfinId(movies: seq<MoviesItem>, movieName: string, movieYear: int)
    returns (r: Result<string, JellyfinError>)
    ensures r == MovieIdOf(movies, movieName, movieYear)
  {
    var i := 0;
    while i < |movies|
      invariant 0 <= i <= |movies|
      invariant MovieIdOf(movies[i..], movieName, movieYear) == MovieIdOf(movies, movieName, movieYear)
    {
      if movies[i].name == movieName && movies[i].productionYear == movieYear {
        return Success(movies[i].id);
      }
      assert movies[i..][1..] == movies[i + 1..];
      i := i + 1;
    }
    return Failure(MovieNotFound);
  }

  // ---------------------------------------------------------------------------
  // AddMoviesToCollection.

  /** The library ids of the acquired movies, in order, skipping those not in the library. */
  function ResolvedIds(allMovies: seq<MoviesItem>, radarrStates: seq<RadarrStatus>): seq<string>
  {
    if radarrStates == [] then []
    else
      var last := radarrStates[|radarrStates| - 1];
      ResolvedIds(allMovies, radarrStates[..|radarrStates| - 1])
        + match MovieIdOf(allMovies, last.title, last.productionYear)
          case Success(id) => [id]
          case Failure(_) => []
  }

  /** ResolvedIds is a filter-map: it distributes over concatenation. */
  lemma {:induction false} ResolvedIdsConcat(allMovies: seq<MoviesItem>, a: seq<RadarrStatus>, b: seq<RadarrStatus>)
    ensures ResolvedIds(allMovies, a + b) == ResolvedIds(allMovies, a) + ResolvedIds(allMovies, b)
    decreases |b|
  {
    if b == [] {
      assert a + b == a;
    } else {
      var n := |b| - 1;
      assert (a + b)[..|a + b| - 1] == a + b[..n];
      ResolvedIdsConcat(allMovies, a, b[..n]);
    }
  }

  /** ResolvedIds of one state: its library id, or nothing when it is not in the library. */
  lemma ResolvedIdsSingle(allMovies: seq<MoviesItem>, s: RadarrStatus)
    ensures ResolvedIds(allMovies, [s])
         == match MovieIdOf(allMovies, s.title, s.productionYear)
            case Success(id) => [id]
            case Failure(_) => []
  {
    assert [s][..0] == [];
  }

  /** No duplicate removal: the same acquired movie twice is sent twice. */
  lemma DuplicatesAreForwarded()
    ensures var alien := RadarrStatus(true, true, "Alien", "123", 1979, false);
      ResolvedIds([MoviesItem("Alien", 1979, "j1")], [alien, alien]) == ["j1", "j1"]
  {
    var alien := RadarrStatus(true, true, "Alien", "123", 1979, false);
    assert [alien, alien][..1] == [alien];
    ResolvedIdsSingle([MoviesItem("Alien", 1979, "j1")], alien);
  }

  /** The batches of `ids` from position `from` on: twenty at a time, the last one shorter. */
  function BatchesFrom(ids: seq<string>, from: nat): seq<seq<string>>
    decreases |ids| - from
  {
    if from >= |ids| then []
    else
      var end := if from + BatchSize > |ids| then |ids| else from + BatchSize;
      [ids[from..end]] + BatchesFrom(ids, from + BatchSize)
  }

  function Batches(ids: seq<string>): seq<seq<string>> {
    BatchesFrom(ids, 0)
  }

  /** One batch per twenty ids, rounding up. */
  lemma {:induction false} BatchCount(ids: seq<string>, from: nat)
    ensures |BatchesFrom(ids, from)| == if from >= |ids| then 0 else (|ids| - from + BatchSize - 1) / BatchSize
    decreases |ids| - from
  {
    if from < |ids| {
      BatchCount(ids, from + BatchSize);
    }
  }

  /** Every batch but the last holds exactly twenty ids; the last holds one to twenty. */
  lemma {:induction false} BatchSizes(ids: seq<string>, from: nat)
    ensures forall k :: 0 <= k < |BatchesFrom(ids, from)| ==> 1 <= |BatchesFrom(ids, from)[k]| <= BatchSize
    ensures forall k :: 0 <= k < |BatchesFrom(ids, from)| - 1 ==> |BatchesFrom(ids, from)[k]| == BatchSize
    decreases |ids| - from
  {
    if from < |ids| {
      BatchSizes(ids, from + BatchSize);
      var rest := BatchesFrom(ids, from + BatchSize);
      var b := BatchesFrom(ids, from);
      assert forall k :: 1 <= k < |b| ==> b[k] == rest[k - 1];
      if rest != [] {
        assert from + BatchSize < |ids|;
        assert |b[0]| == BatchSize;
      }
    }
  }

  /** Flattens a sequence of batches back into one sequence. */
  function Concat(batches: seq<seq<string>>): seq<string> {
    if batches == [] then [] else batches[0] + Concat(batches[1..])
  }

  /** The batches, put back together, are the ids from `from` on: none lost, none repeated, order kept. */
  lemma {:induction false} BatchesConcat(ids: seq<string>, from: nat)
    requires from <= |ids|
    ensures Concat(BatchesFrom(ids, from)) == ids[from..]
    decreases |ids| - from
  {
    if from < |ids| {
      var end := if from + BatchSize > |ids| then |ids| else from + BatchSize;
      var b := BatchesFrom(ids, from);
      assert b[1..] == BatchesFrom(ids, from + BatchSize);
      if end == |ids| {
        assert BatchesFrom(ids, from + BatchSize) == [];
        assert Concat(b) == ids[from..end] + [];
      } else {
        BatchesConcat(ids, from + BatchSize);
        assert ids[from..] == ids[from..end] + ids[end..];
      }
    }
  }

  /** With forty-five ids the requests carry twenty, twenty and five. */
  lemma FortyFiveIds(ids: seq<string>)
    requires |ids| == 45
    ensures |Batches(ids)| == 3
    ensures |Batches(ids)[0]| == 20 && |Batches(ids)[1]| == 20 && |Batches(ids)[2]| == 5
  {
    var b := BatchesFrom(ids, 0);
    assert b[1..] == BatchesFrom(ids, 20);
    assert BatchesFrom(ids, 20)[1..] == BatchesFrom(ids, 40);
    assert BatchesFrom(ids, 40)[1..] == BatchesFrom(ids, 60);
  }

  /** joinIds: the ids separated by commas; n ids give their lengths plus n - 1 commas. */
  function JoinIds(ids: seq<string>): (r: string)
    ensures |ids| == 0 ==> r == ""
    ensures |ids| >= 1 ==> |r| == TotalLength(ids) + |ids| - 1
  {
    Join(ids, [','])
  }

  /** A batch's `ids` parameter splits back into the batch when no id holds a comma. */
  lemma JoinIdsSplitsBack(ids: seq<string>)
    requires |ids| >= 1
    requires forall k :: 0 <= k < |ids| ==> ',' !in ids[k]
    ensures Split(JoinIds(ids), ',') == ids
  {
    SplitJoin(ids, ',');
  }

  /** The request that adds a batch of items to a collection. */
  function AddParams(userCollectionId: string, joinedIds: string): FetcherParams {
    FetcherParams("POST", JellyfinUrl + "Collections/" + userCollectionId + "/Items",
                  map["ids" := joinedIds], false, Some([204]))
  }

  /** The first loop of AddMoviesToCollection: the library id of every acquired movie found, in order. */
  method ResolveJellyfinIds(allMovies: seq<MoviesItem>, radarrStates: seq<RadarrStatus>) returns (ids: seq<string>)
    ensures ids == ResolvedIds(allMovies, radarrStates)
  {
    ids := [];
    var s := 0;
    while s < |radarrStates|
      invariant 0 <= s <= |radarrStates|
      invariant ids == ResolvedIds(allMovies, radarrStates[..s])
    {
      assert radarrStates[..s + 1][..s] == radarrStates[..s];
      var state := radarrStates[s];
      var jellyfinId := GetMovieJellyfinId(allMovies, state.title, state.productionYear);
      if jellyfinId.Success? {
        ids := ids + [jellyfinId.value];
      }
      s := s + 1;
    }
    assert radarrStates[..s] == radarrStates;
  }

  /** The second loop of AddMoviesToCollection: one POST per batch of twenty ids, in order. */
  method PostBatches(ids: seq<string>, userCollectionId: string) returns (posts: seq<FetcherParams>)
    ensures |posts| == |Batches(ids)|
    ensures forall k :: 0 <= k < |posts| ==> posts[k] == AddParams(userCollectionId, JoinIds(Batches(ids)[k]))
  {
    posts := [];
    ghost var done: seq<seq<string>> := [];
    var i: nat := 0;
    while i < |ids|
      invariant Batches(ids) == done + BatchesFrom(ids, i)
      invariant |posts| == |done|
      invariant forall k :: 0 <= k < |posts| ==> posts[k] == AddParams(userCollectionId, JoinIds(done[k]))
      decreases |ids| - i
    {
      var end := i + BatchSize;
      if end > |ids| {
        end := |ids|;
      }
      var batch := ids[i..end];
      assert BatchesFrom(ids, i) == [batch] + BatchesFrom(ids, i + BatchSize);
      posts := posts + [AddParams(userCollectionId, JoinIds(batch))];
      done := done + [batch];
      i := i + BatchSize;
    }
  }

  /**
   * AddMoviesToCollection: resolves every acquired movie in the library,
   * then sends one POST per batch of twenty ids.
   */
  method AddMoviesToCollection(allMovies: seq<MoviesItem>, radarrStates: seq<RadarrStatus>, userCollectionId: string)
    returns (ids: seq<string>, posts: seq<FetcherParams>)
    ensures ids == ResolvedIds(allMovies, radarrStates)
    ensures |posts| == |Batches(ids)|
    ensures forall k :: 0 <= k < |posts| ==> posts[k] == AddParams(userCollectionId, JoinIds(Batches(ids)[k]))
  {
    ids := ResolveJellyfinIds(allMovies, radarrStates);
    posts := PostBatches(ids, userCollectionId);
  }
}
