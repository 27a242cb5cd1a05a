/** The detail screen's state holder for one post id, with its coroutines
    replaced by explicit events, as for the list screen. Unlike the list
    screen, a failed refresh with nothing on screen leaves the state as it
    is. */
module PostDetail {
  import opened Types
  import opened Models

  /** The detail screen's state. */
  datatype UiState =
    | Loading
    | Success(post: Post, isOffline: bool)
    | Error(message: string)

  /** What the state holder reacts to. */
  datatype Event =
    | CacheEmitted(post: Option<Post>)      // the cached post emitted a value
    | CacheFailed(message: Option<string>)  // the cached post's stream threw
    | RefreshSucceeded                      // a refresh call returned
    | RefreshFailed                         // a refresh call threw

  /** Message shown when the stream's exception has no message. */
  const UnknownError: string := "Unknown error occurred"

  /** The state published at construction. */
  const Initial: UiState := Loading

  /** One state update. A cache emission rebuilds the state from the post
      alone; a stream failure shows its message; a returned refresh writes
      nothing; a failed refresh flags a shown post as offline and is
      otherwise ignored. */
  function Step(s: UiState, ev: Event): (r: UiState)
    ensures ev.CacheEmitted? ==> (r.Loading? <==> ev.post.None?)
    ensures ev.CacheEmitted? && ev.post.Some? ==> r == Success(ev.post.value, false)
    ensures ev.CacheFailed? ==> r.Error? &&
                                (ev.message.Some? ==> r.message == ev.message.value) &&
                                (ev.message.None? ==> r.message == UnknownError)
    ensures ev.RefreshSucceeded? ==> r == s
    ensures IsRefreshOutcome(ev) && !s.Success? ==> r == s
    ensures ev.RefreshFailed? && s.Success? ==> r.Success? && r.post == s.post && r.isOffline
    ensures r.Success? && r.isOffline ==> s.Success? && s.post == r.post
  {
    match ev
    case CacheEmitted(post) =>
      if post.None? then Loading else Success(post.value, false)
    case CacheFailed(message) =>
      Error(message.GetOr(UnknownError))
    case RefreshSucceeded =>
      s
    case RefreshFailed =>
      if s.Success? then s.(isOffline := true) else s
  }

  /** An event that ends a refresh call rather than coming from the cache. */
  predicate IsRefreshOutcome(ev: Event) {
    ev.RefreshSucceeded? || ev.RefreshFailed?
  }

  /** The state after a series of events, applied in order. */
  function Run(s: UiState, events: seq<Event>): UiState {
    if |events| == 0 then s
    else Step(Run(s, events[..|events| - 1]), events[|events| - 1])
  }

  /** Running two series one after the other is running their
      concatenation. */
  lemma {:induction false} RunAppend(s: UiState, a: seq<Event>, b: seq<Event>)
    ensures Run(s, a + b) == Run(Run(s, a), b)
  {
    if |b| == 0 {
      assert a + b == a;
    } else {
      var init, last := b[..|b| - 1], b[|b| - 1];
      assert (a + b)[..|a + b| - 1] == a + init;
      RunAppend(s, a, init);
    }
  }

  /** Refresh outcomes alone never change what is shown: a shown post is
      flagged offline once any of them failed, and any other state stays
      as it is. */
  lemma {:induction false} RefreshOutcomesOnly(s: UiState, outcomes: seq<Event>)
    requires forall k :: 0 <= k < |outcomes| ==> IsRefreshOutcome(outcomes[k])
    ensures s.Success? ==>
              Run(s, outcomes) == Success(s.post, s.isOffline || RefreshFailed in outcomes)
    ensures !s.Success? ==> Run(s, outcomes) == s
  {
    if |outcomes| > 0 {
      var init, last := outcomes[..|outcomes| - 1], outcomes[|outcomes| - 1];
      RefreshOutcomesOnly(s, init);
      assert outcomes == init + [last];
      assert RefreshFailed in outcomes <==> RefreshFailed in init || last == RefreshFailed;
    }
  }

  /** The published state is determined by the last cache emission and the
      refresh outcomes after it: the emitted post, offline exactly when a
      refresh failed since; or `Loading` when no post was emitted, whatever
      the refreshes did. */
  lemma LastEmissionDecides(before: seq<Event>, post: Option<Post>, outcomes: seq<Event>)
    requires forall k :: 0 <= k < |outcomes| ==> IsRefreshOutcome(outcomes[k])
    ensures Run(Initial, before + [CacheEmitted(post)] + outcomes) ==
              if post.Some? then Success(post.value, RefreshFailed in outcomes) else Loading
  {
    RunAppend(Initial, before + [CacheEmitted(post)], outcomes);
    RefreshOutcomesOnly(Step(Run(Initial, before), CacheEmitted(post)), outcomes);
  }

  /** A second refresh failure changes nothing more than the first. */
  lemma RefreshFailedIdempotent(s: UiState)
    ensures Step(Step(s, RefreshFailed), RefreshFailed) == Step(s, RefreshFailed)
  {
  }

  /** A failed stream stays failed whatever the refreshes report. */
  lemma ErrorIgnoresRefreshes(message: string, outcomes: seq<Event>)
    requires forall k :: 0 <= k < |outcomes| ==> IsRefreshOutcome(outcomes[k])
    ensures Run(Error(message), outcomes) == Error(message)
  {
    RefreshOutcomesOnly(Error(message), outcomes);
  }
}
