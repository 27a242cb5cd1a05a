/** The whole offline-first loop: one shared cache, the list screen and a
    detail screen subscribed to it through the repository, and the refresh
    calls each screen makes. A completed refresh writes to the cache, and
    every live query re-emits after a write of at least one row; a failed
    refresh reaches only the screen that made the call. The model fixes one
    order: each screen has its first emission before any refresh call, and
    refresh calls are whole steps, one after another. */
module OfflineSync {
  import opened Types
  import opened Models
  import opened PostDao
  import opened PostRepository
  import PostList
  import PostDetail

  /** The shared cache and the state published by each screen; the detail
      screen shows post `postId`. */
  datatype Screens = Screens(
    cache: Table,
    list: PostList.UiState,
    postId: Int32,
    detail: PostDetail.UiState)

  /** A refresh call and the outcome of its fetch. */
  datatype Action =
    | RefreshAll(fetchedAll: Remote<seq<PostDto>>)  // the list screen's refresh
    | RefreshOne(fetchedOne: Remote<PostDto>)       // the detail screen's refresh

  /** Whether the action's fetch failed. */
  predicate FetchFailed(a: Action) {
    match a
    case RefreshAll(fetched) => fetched.Failed?
    case RefreshOne(fetched) => fetched.Failed?
  }

  /** Both screens show what the cache holds: the list shows every cached
      post, or, with an empty cache, `Loading` or the connectivity hint; the
      detail screen shows the cached post, or `Loading` when there is none. */
  predicate Consistent(sc: Screens) {
    && (if |sc.cache| == 0
        then sc.list == PostList.Loading || sc.list == PostList.Error(PostList.ConnectivityHint, [])
        else sc.list.Success? && sc.list.posts == GetPosts(sc.cache))
    && (match PostRepository.GetPostById(sc.cache, sc.postId)
        case None => sc.detail == PostDetail.Loading
        case Some(p) => sc.detail.Success? && sc.detail.post == p)
  }

  /** Both screens constructed over `cache`, after their subscriptions
      delivered the first emission. */
  function Open(cache: Table, postId: Int32): (sc: Screens)
    ensures Consistent(sc)
    ensures sc.list.Success? ==> !sc.list.isOffline
    ensures sc.detail.Success? ==> !sc.detail.isOffline
  {
    Screens(
      cache,
      PostList.Step(PostList.Initial, PostList.CacheEmitted(GetPosts(cache))),
      postId,
      PostDetail.Step(PostDetail.Initial, PostDetail.CacheEmitted(PostRepository.GetPostById(cache, postId))))
  }

  /** A write of at least one row to the cache: it becomes `cache`, and both
      live queries re-emit, so each screen shows the new contents, fresh
      and not flagged offline, whatever it showed before. */
  function Written(sc: Screens, cache: Table): (r: Screens)
    ensures r.cache == cache && r.postId == sc.postId
    ensures |cache| == 0 ==> r.list == PostList.Loading
    ensures |cache| > 0 ==> r.list == PostList.Success(GetPosts(cache), false)
    ensures sc.postId !in Contents(cache) ==> r.detail == PostDetail.Loading
    ensures sc.postId in Contents(cache) ==>
              r.detail == PostDetail.Success(ToDomainModel(Contents(cache)[sc.postId]), false)
  {
    Screens(
      cache,
      PostList.Step(sc.list, PostList.CacheEmitted(GetPosts(cache))),
      sc.postId,
      PostDetail.Step(sc.detail, PostDetail.CacheEmitted(PostRepository.GetPostById(cache, sc.postId))))
  }

  /** One refresh call, start to end. */
  function Apply(sc: Screens, a: Action): (r: Screens)
    ensures r.postId == sc.postId
    ensures FetchFailed(a) ==> r.cache == sc.cache
    ensures Consistent(sc) ==> Consistent(r)
    ensures |r.cache| >= |sc.cache|
  {
    match a
    case RefreshAll(fetched) =>
      var done := RefreshPosts(sc.cache, fetched);
      GrowsOnly(sc.cache, done.cache);
      if done.completion.Threw? then
        sc.(list := PostList.Step(sc.list, PostList.RefreshFailed))
      else if fetched.value == [] then
        // an empty batch writes no row, so no live query re-emits
        sc.(list := PostList.Step(sc.list, PostList.RefreshSucceeded))
      else
        var written := Written(sc, done.cache);
        written.(list := PostList.Step(written.list, PostList.RefreshSucceeded))
    case RefreshOne(fetched) =>
      var done := RefreshPostById(sc.cache, fetched);
      GrowsOnly(sc.cache, done.cache);
      if done.completion.Completed? then
        var written := Written(sc, done.cache);
        written.(detail := PostDetail.Step(written.detail, PostDetail.RefreshSucceeded))
      else
        sc.(detail := PostDetail.Step(sc.detail, PostDetail.RefreshFailed))
  }

  /** A table whose map only gained keys has at least as many rows. */
  lemma GrowsOnly(before: Table, after: Table)
    requires Contents(before).Keys <= Contents(after).Keys
    ensures |after| >= |before|
  {
    TableSize(before);
    TableSize(after);
    var kb, ka := Contents(before).Keys, Contents(after).Keys;
    assert |ka| == |kb| + |ka - kb|;
  }

  /** A completed fetch that returned nothing writes no row: no live query
      re-emits and neither screen changes, not even an offline flag. */
  lemma EmptyFetchChangesNothing(sc: Screens)
    ensures Apply(sc, RefreshAll(Ok([]))) == sc
  {
  }

  /** The screens after a series of refresh calls, in order. */
  function Run(sc: Screens, actions: seq<Action>): Screens {
    if |actions| == 0 then sc
    else Apply(Run(sc, actions[..|actions| - 1]), actions[|actions| - 1])
  }

  /** Whatever the fetches return and in whatever order whole refresh
      calls come, both screens keep showing what the cache holds. In
      particular, a non-empty cache is never shown as `Loading` or as an
      error. */
  lemma {:induction false} AlwaysConsistent(cache: Table, postId: Int32, actions: seq<Action>)
    ensures Consistent(Run(Open(cache, postId), actions))
    ensures |cache| > 0 ==> Run(Open(cache, postId), actions).list.Success?
  {
    if |actions| > 0 {
      AlwaysConsistent(cache, postId, actions[..|actions| - 1]);
    }
  }

  /** Whether a series of actions holds a refresh call of the list screen
      (`forList`) or of the detail screen. */
  predicate CallsFrom(actions: seq<Action>, forList: bool) {
    |actions| > 0 &&
    (actions[|actions| - 1].RefreshAll? == forList || CallsFrom(actions[..|actions| - 1], forList))
  }

  /** Cache precedence: after any number of failed refreshes, the cache is
      unchanged and each screen keeps showing its cached data, flagged
      offline exactly when one of its own refreshes failed (or it already
      was). */
  lemma {:induction false} FailuresKeepCachedData(sc: Screens, actions: seq<Action>)
    requires forall k :: 0 <= k < |actions| ==> FetchFailed(actions[k])
    ensures Run(sc, actions).cache == sc.cache
    ensures Run(sc, actions).postId == sc.postId
    ensures sc.list.Success? ==>
              Run(sc, actions).list ==
                PostList.Success(sc.list.posts, sc.list.isOffline || CallsFrom(actions, true))
    ensures sc.detail.Success? ==>
              Run(sc, actions).detail ==
                PostDetail.Success(sc.detail.post, sc.detail.isOffline || CallsFrom(actions, false))
  {
    if |actions| > 0 {
      var init := actions[..|actions| - 1];
      FailuresKeepCachedData(sc, init);
    }
  }

  /** A post fetched by the detail screen shows up in the list screen: both
      observe the same cache. */
  lemma DetailRefreshVisibleInList(sc: Screens, dto: PostDto)
    ensures ToDomainModel(ToEntity(dto)) in Apply(sc, RefreshOne(Ok(dto))).list.posts
  {
    var r := Apply(sc, RefreshOne(Ok(dto)));
    ReadsAgree(r.cache, ToDomainModel(ToEntity(dto)));
  }

  /** A failed fetch of the detail post leaves a detail screen without data
      at `Loading` (the list screen would show an error instead), and one
      showing a post keeps it, flagged offline. */
  lemma DetailFetchFailure(sc: Screens, error: Failure)
    ensures var r := Apply(sc, RefreshOne(Failed(error)));
            (sc.detail.Loading? ==> r.detail.Loading?) &&
            (sc.detail.Success? ==> r.detail == PostDetail.Success(sc.detail.post, true)) &&
            r.cache == sc.cache && r.list == sc.list
  {
  }

  /** The two screens treat a refresh failure without data differently:
      the list screen shows the connectivity hint, the detail screen stays
      `Loading`. */
  lemma FailureWithoutDataAsymmetry()
    ensures PostList.Step(PostList.Loading, PostList.RefreshFailed)
            == PostList.Error(PostList.ConnectivityHint, [])
    ensures PostDetail.Step(PostDetail.Loading, PostDetail.RefreshFailed)
            == PostDetail.Loading
  {
  }
}
