/**
 * `ReactWebViewClient`: the one piece of state it keeps, `mLastLoadFailed`, and
 * the `loading` field of the navigation events it dispatches.
 */
module WebViewClient {

  datatype ClientState = ClientState(lastLoadFailed: bool)

  /** A new client: no load has failed yet. */
  const Initial := ClientState(false)

  /** The WebView's progress value of a finished page. */
  const ProgressComplete := 100

  /**
   * A callback from the WebView; `progress` is what `webView.getProgress()`
   * returns while the client handles it.
   */
  datatype Callback =
    | PageStarted(url: string, progress: int)
    | PageFinished(url: string)
    | ReceivedError(errorCode: int, description: string, failingUrl: string, progress: int)
    | VisitedHistoryUpdated(url: string, progress: int)

  /** The dispatched events, reduced to the fields the client computes. */
  datatype NavEvent =
    | LoadingStart(url: string, loading: bool)
    | LoadingError(url: string, loading: bool, code: int, description: string)
  {
    function Loading(): bool {
      match this
      case LoadingStart(_, l) => l
      case LoadingError(_, l, _, _) => l
    }
  }

  /** The `loading` field `createWebViewEvent` writes. */
  function LoadingField(s: ClientState, progress: int): bool {
    !s.lastLoadFailed && progress != ProgressComplete
  }

  datatype Step = Step(state: ClientState, events: seq<NavEvent>)

  /**
   * The client's handling of one callback: the new state and the events it
   * dispatches. `onPageFinished` dispatches nothing, since `emitFinishEvent` is empty.
   */
  function OnCallback(s: ClientState, cb: Callback): (r: Step)
    ensures |r.events| == (if cb.PageFinished? then 0 else 1)
    ensures !cb.PageFinished? ==> forall e :: e in r.events ==> e.Loading() == (!r.state.lastLoadFailed && ProgressOf(cb) != 100)
    ensures cb.ReceivedError? ==> r.events == [LoadingError(cb.failingUrl, false, cb.errorCode, cb.description)]
  {
    match cb
    case PageStarted(url, progress) =>
      var s' := s.(lastLoadFailed := false);
      Step(s', [LoadingStart(url, LoadingField(s', progress))])
    case PageFinished(_) =>
      Step(s, [])
    case ReceivedError(code, description, failingUrl, progress) =>
      var s' := s.(lastLoadFailed := true);
      Step(s', [LoadingError(failingUrl, LoadingField(s', progress), code, description)])
    case VisitedHistoryUpdated(url, progress) =>
      Step(s, [LoadingStart(url, LoadingField(s, progress))])
  }

  /** The progress the client reads while building the event for `cb`. */
  function ProgressOf(cb: Callback): int
    requires !cb.PageFinished?
  {
    match cb
    case PageStarted(_, p) => p
    case ReceivedError(_, _, _, p) => p
    case VisitedHistoryUpdated(_, p) => p
  }

  /** Page start clears the flag, an error sets it, and the other callbacks leave it alone. */
  lemma FlagTransitions(s: ClientState, cb: Callback)
    ensures cb.PageStarted? ==> !OnCallback(s, cb).state.lastLoadFailed
    ensures cb.ReceivedError? ==> OnCallback(s, cb).state.lastLoadFailed
    ensures !cb.PageStarted? && !cb.ReceivedError? ==> OnCallback(s, cb).state == s
  {
  }

  /** A page-start event is loading exactly when the page is not complete, whatever failed before. */
  lemma StartEventLoading(s: ClientState, url: string, progress: int)
    ensures OnCallback(s, PageStarted(url, progress)).events == [LoadingStart(url, progress != 100)]
  {
  }

  /**
   * A history update dispatches a start event for the visited URL, and its
   * `loading` still reflects the failure flag, which the update leaves alone.
   */
  lemma HistoryUpdateEvent(s: ClientState, url: string, progress: int)
    ensures OnCallback(s, VisitedHistoryUpdated(url, progress)).events == [LoadingStart(url, !s.lastLoadFailed && progress != 100)]
    ensures OnCallback(s, VisitedHistoryUpdated(url, progress)).state == s
  {
  }

  /** The state after a sequence of callbacks. */
  function Run(s: ClientState, cbs: seq<Callback>): ClientState
    decreases |cbs|
  {
    if cbs == [] then s else Run(OnCallback(s, cbs[0]).state, cbs[1..])
  }

  /** Callback `i` is an error with no page start after it. */
  predicate ErrorNotRestarted(cbs: seq<Callback>, i: int) {
    0 <= i < |cbs| && cbs[i].ReceivedError? && forall j :: i < j < |cbs| ==> !cbs[j].PageStarted?
  }

  /**
   * Starting from `s`, the last load counts as failed exactly when an error
   * arrived after the last page start, or the flag was already set and no
   * page started since.
   */
  lemma {:induction false} RunFlagIff(s: ClientState, cbs: seq<Callback>)
    ensures Run(s, cbs).lastLoadFailed <==>
      || (exists i :: ErrorNotRestarted(cbs, i))
      || (s.lastLoadFailed && forall j :: 0 <= j < |cbs| ==> !cbs[j].PageStarted?)
    decreases |cbs|
  {
    if cbs != [] {
      var s' := OnCallback(s, cbs[0]).state;
      var tail := cbs[1..];
      RunFlagIff(s', tail);
      assert forall j :: 1 <= j < |cbs| ==> cbs[j] == tail[j - 1];
      if exists i :: ErrorNotRestarted(tail, i) {
        var i :| ErrorNotRestarted(tail, i);
        assert ErrorNotRestarted(cbs, i + 1);
      }
      if exists i :: ErrorNotRestarted(cbs, i) {
        var i :| ErrorNotRestarted(cbs, i);
        if i > 0 {
          assert ErrorNotRestarted(tail, i - 1);
        }
      }
      var noStartInTail := forall j :: 0 <= j < |tail| ==> !tail[j].PageStarted?;
      assert (forall j :: 0 <= j < |cbs| ==> !cbs[j].PageStarted?) <==> !cbs[0].PageStarted? && noStartInTail;
      assert ErrorNotRestarted(cbs, 0) <==> cbs[0].ReceivedError? && noStartInTail;
    }
  }

  /** From a new client, the flag is set exactly when an error arrived after the last page start. */
  lemma FlagFromInitial(cbs: seq<Callback>)
    ensures Run(Initial, cbs).lastLoadFailed <==> exists i :: ErrorNotRestarted(cbs, i)
  {
    RunFlagIff(Initial, cbs);
  }
}
