/** The list screen's state holder, with its coroutines replaced by explicit
    events: each emission of the cached list, the failure of that stream,
    and the end of each refresh call. `Step` is the state update each event
    performs on the single published state. */
module PostList {
  import opened Types
  import opened Models

  /** The list screen's state. `Error` carries a `posts` field, which the
      state holder never fills. */
  datatype UiState =
    | Loading
    | Success(posts: seq<Post>, isOffline: bool)
    | Error(message: string, posts: seq<Post>)

  /** What the state holder reacts to. */
  datatype Event =
    | CacheEmitted(posts: seq<Post>)        // the cached list emitted a value
    | CacheFailed(message: Option<string>)  // the cached list's stream threw
    | RefreshSucceeded                      // a refresh call returned
    | RefreshFailed                         // a refresh call threw

  /** Message shown when the stream's exception has no message. */
  const UnknownError: string := "Unknown error occurred"

  /** Message shown when a refresh fails with nothing on screen. */
  const ConnectivityHint: string := "Comprueba tu conexión a internet"

  /** The state published at construction. */
  const Initial: UiState := Loading

  /** The states the state holder can publish: a `Success` always shows
      posts, and an `Error` never carries any. */
  predicate WellFormed(s: UiState) {
    match s
    case Loading => true
    case Success(posts, _) => |posts| > 0
    case Error(_, posts) => posts == []
  }

  /** One state update. A cache emission rebuilds the state from the list
      alone; a stream failure shows its message; a returned refresh writes
      nothing; a failed refresh flags shown data as offline and otherwise
      shows the connectivity hint. */
  function Step(s: UiState, ev: Event): (r: UiState)
    ensures ev.CacheEmitted? ==> (r.Loading? <==> ev.posts == [])
    ensures ev.CacheEmitted? && ev.posts != [] ==> r.Success? && r.posts == ev.posts && !r.isOffline
    ensures ev.CacheFailed? ==> r.Error? && r.posts == [] &&
                                (ev.message.Some? ==> r.message == ev.message.value) &&
                                (ev.message.None? ==> r.message == UnknownError)
    ensures ev.RefreshSucceeded? ==> r == s
    ensures ev.RefreshFailed? ==> (r.Success? <==> s.Success?)
    ensures ev.RefreshFailed? && s.Success? ==> r.posts == s.posts && r.isOffline
    ensures ev.RefreshFailed? && !s.Success? ==> r == Error(ConnectivityHint, [])
    ensures r.Success? && r.isOffline ==> s.Success? && s.posts == r.posts
    ensures WellFormed(s) ==> WellFormed(r)
  {
    match ev
    case CacheEmitted(posts) =>
      if |posts| == 0 then Loading else Success(posts, false)
    case CacheFailed(message) =>
      Error(message.GetOr(UnknownError), [])
    case RefreshSucceeded =>
      s
    case RefreshFailed =>
      if s.Success? then s.(isOffline := true) else Error(ConnectivityHint, [])
  }

  /** The state after a series of events, applied in order. */
  function Run(s: UiState, events: seq<Event>): UiState {
    if |events| == 0 then s
    else Step(Run(s, events[..|events| - 1]), events[|events| - 1])
  }

  /** Running two series one after the other is running their
      concatenation. */
  lemma {:induction false} RunAppend(s: UiState, a: seq<Event>, b: seq<Event>)
    ensures Run(s, a + b) == Run(Run(s, a), b)
  {
    if |b| == 0 {
      assert a + b == a;
    } else {
      var init, last := b[..|b| - 1], b[|b| - 1];
      assert (a + b)[..|a + b| - 1] == a + init;
      RunAppend(s, a, init);
    }
  }

  /** Every state published from the initial one is well formed: an empty
      list is never shown as `Success`, and `Error` never carries posts. */
  lemma {:induction false} ReachableWellFormed(events: seq<Event>)
    ensures WellFormed(Run(Initial, events))
  {
    if |events| > 0 {
      ReachableWellFormed(events[..|events| - 1]);
    }
  }

  /** An event that ends a refresh call rather than coming from the cache. */
  predicate IsRefreshOutcome(ev: Event) {
    ev.RefreshSucceeded? || ev.RefreshFailed?
  }

  /** Refresh outcomes alone never change the shown posts: from `Success`
      they only raise the offline flag, once any of them failed; without
      data, any failure shows the connectivity hint. */
  lemma {:induction false} RefreshOutcomesOnly(s: UiState, outcomes: seq<Event>)
    requires forall k :: 0 <= k < |outcomes| ==> IsRefreshOutcome(outcomes[k])
    ensures s.Success? ==>
              Run(s, outcomes) == Success(s.posts, s.isOffline || RefreshFailed in outcomes)
    ensures !s.Success? ==>
              Run(s, outcomes) == if RefreshFailed in outcomes then Error(ConnectivityHint, []) else s
  {
    if |outcomes| > 0 {
      var init, last := outcomes[..|outcomes| - 1], outcomes[|outcomes| - 1];
      RefreshOutcomesOnly(s, init);
      assert outcomes == init + [last];
      assert RefreshFailed in outcomes <==> RefreshFailed in init || last == RefreshFailed;
    }
  }

  /** The published state is determined by the last cache emission and the
      refresh outcomes after it: the emitted list, offline exactly when a
      refresh failed since; or, for an empty list, `Loading` until a refresh
      fails. Nothing before that emission matters. */
  lemma LastEmissionDecides(before: seq<Event>, posts: seq<Post>, outcomes: seq<Event>)
    requires forall k :: 0 <= k < |outcomes| ==> IsRefreshOutcome(outcomes[k])
    ensures Run(Initial, before + [CacheEmitted(posts)] + outcomes) ==
              if posts != [] then Success(posts, RefreshFailed in outcomes)
              else if RefreshFailed in outcomes then Error(ConnectivityHint, [])
              else Loading
  {
    RunAppend(Initial, before + [CacheEmitted(posts)], outcomes);
    RefreshOutcomesOnly(Step(Run(Initial, before), CacheEmitted(posts)), outcomes);
  }

  /** A second refresh failure changes nothing more than the first. */
  lemma RefreshFailedIdempotent(s: UiState)
    ensures Step(Step(s, RefreshFailed), RefreshFailed) == Step(s, RefreshFailed)
  {
  }

  /** With one cached post on screen, a failed refresh keeps it and flags
      the screen offline. */
  lemma OfflineWithCachedPost(p: Post)
    ensures Run(Initial, [CacheEmitted([p]), RefreshFailed]) == Success([p], true)
  {
    assert [CacheEmitted([p]), RefreshFailed][..1] == [CacheEmitted([p])];
  }

  /** With an empty cache, a failed refresh shows the connectivity hint. */
  lemma ErrorWithEmptyCache()
    ensures Run(Initial, [CacheEmitted([]), RefreshFailed]) == Error(ConnectivityHint, [])
  {
    assert [CacheEmitted([]), RefreshFailed][..1] == [CacheEmitted([])];
  }

  /** When the refresh fails before the cache's first emission arrives,
      the emission overwrites the connectivity hint with a fresh `Success`:
      the failure leaves no offline flag behind. */
  lemma FailureBeforeFirstEmission(p: Post)
    ensures Run(Initial, [RefreshFailed]) == Error(ConnectivityHint, [])
    ensures Run(Initial, [RefreshFailed, CacheEmitted([p])]) == Success([p], false)
  {
    assert [RefreshFailed, CacheEmitted([p])][..1] == [RefreshFailed];
  }
}
