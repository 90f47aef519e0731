/**
 * The JavaScript `WebViewBridge` component: its `viewState` machine and the
 * parts of `render` that depend on it (the hidden style and the overlay).
 */
module BridgeView {
  import opened Optional
  import WebViewClient

  datatype ViewState = Idle | Loading | Error

  /** The native event of a load error; JavaScript `undefined` fields are `None`. */
  datatype ErrorEvent = ErrorEvent(domain: Option<string>, code: Option<int>, description: Option<string>)

  datatype BridgeState = BridgeState(
    viewState: ViewState,
    lastErrorEvent: Option<ErrorEvent>,
    /** Set by `getInitialState` and never read: `componentDidMount` reads the prop instead. */
    startInLoadingState: bool)

  /** The props the machine and `render` consult; a callback prop is `true` when it is supplied. */
  datatype Props = Props(
    startInLoadingState: bool,
    onLoadStart: bool,
    onLoad: bool,
    onLoadEnd: bool,
    onError: bool,
    onNavigationStateChange: bool,
    renderLoading: bool,
    renderError: bool)

  /** A prop callback the component invokes. */
  datatype PropCall = OnLoadStart | OnLoad | OnLoadEnd | OnError(event: ErrorEvent) | OnNavigationStateChange

  datatype Transition = Transition(state: BridgeState, calls: seq<PropCall>)

  /** `[c]` when the prop is supplied, nothing otherwise (JavaScript's `prop && prop(event)`). */
  function CallIf(supplied: bool, c: PropCall): seq<PropCall> {
    if supplied then [c] else []
  }

  /** `getInitialState`. */
  function InitialState(): (s: BridgeState)
    ensures s.viewState == Idle && s.lastErrorEvent.None?
  {
    BridgeState(Idle, None, true)
  }

  /** `componentDidMount`: show the loading overlay first only when asked to. */
  function ComponentDidMount(s: BridgeState, props: Props): (s': BridgeState)
    ensures props.startInLoadingState ==> s'.viewState == Loading
    ensures !props.startInLoadingState ==> s' == s
    ensures s'.lastErrorEvent == s.lastErrorEvent
  {
    if props.startInLoadingState then s.(viewState := Loading) else s
  }

  /** `onLoadingStart`: report the start and the navigation state; the state is left alone. */
  function OnLoadingStart(s: BridgeState, props: Props): (t: Transition)
    ensures t.state == s
  {
    Transition(s, CallIf(props.onLoadStart, OnLoadStart) + CallIf(props.onNavigationStateChange, OnNavigationStateChange))
  }

  /**
   * `onLoadingError`: report the error, then the end of loading, and keep the
   * native event for `render`. `onError` and `onLoadEnd` receive React's
   * synthetic wrapper of `event`; the model names that wrapper by its native event.
   */
  function OnLoadingError(s: BridgeState, props: Props, event: ErrorEvent): (t: Transition)
    ensures t.state.viewState == Error && t.state.lastErrorEvent == Some(event)
    ensures t.state.startInLoadingState == s.startInLoadingState
  {
    Transition(
      s.(lastErrorEvent := Some(event), viewState := Error),
      CallIf(props.onError, OnError(event)) + CallIf(props.onLoadEnd, OnLoadEnd))
  }

  /** `onLoadingFinish`: report the load and its end, go idle, then report the navigation state. */
  function OnLoadingFinish(s: BridgeState, props: Props): (t: Transition)
    ensures t.state.viewState == Idle
    ensures t.state.lastErrorEvent == s.lastErrorEvent
  {
    Transition(
      s.(viewState := Idle),
      CallIf(props.onLoad, OnLoad) + CallIf(props.onLoadEnd, OnLoadEnd) + CallIf(props.onNavigationStateChange, OnNavigationStateChange))
  }

  /** `onError` is called before `onLoadEnd`, and only those two are called. */
  lemma ErrorCallsInOrder(s: BridgeState, props: Props, event: ErrorEvent)
    requires props.onError && props.onLoadEnd
    ensures OnLoadingError(s, props, event).calls == [OnError(event), OnLoadEnd]
  {
  }

  /** Every state-changing event either leaves the state or moves it the one way the handler names. */
  lemma HandlersFromAnyState(s: BridgeState, props: Props, event: ErrorEvent)
    ensures OnLoadingError(s, props, event).state == BridgeState(Error, Some(event), s.startInLoadingState)
    ensures OnLoadingFinish(s, props).state == BridgeState(Idle, s.lastErrorEvent, s.startInLoadingState)
    ensures OnLoadingStart(s, props).state.viewState == s.viewState
  {
  }

  /** A style in the web view's style list. */
  datatype Style = Container | UserStyle | Hidden

  /** What `render` draws over the web view. */
  datatype Overlay =
    | NoOverlay
    | LoadingOverlay
    | ErrorOverlay(domain: Option<string>, code: Option<int>, description: Option<string>)

  datatype Rendered = Rendered(webViewStyles: seq<Style>, overlay: Overlay)

  /** `render`; `None` when it would throw reading a field of a null `lastErrorEvent`. */
  function Render(s: BridgeState, props: Props): Option<Rendered>
  {
    var styles := [Container, UserStyle] + (if s.viewState == Loading || s.viewState == Error then [Hidden] else []);
    match s.viewState
    case Loading => Some(Rendered(styles, if props.renderLoading then LoadingOverlay else NoOverlay))
    case Error =>
      if !props.renderError then Some(Rendered(styles, NoOverlay))
      else if s.lastErrorEvent.None? then None
      else
        var e := s.lastErrorEvent.value;
        Some(Rendered(styles, ErrorOverlay(e.domain, e.code, e.description)))
    case Idle => Some(Rendered(styles, NoOverlay))
  }

  /** The error state always has an error event to show. */
  predicate Consistent(s: BridgeState) {
    s.viewState == Error ==> s.lastErrorEvent.Some?
  }

  /** The inputs that drive the machine. */
  datatype Input = Mount | LoadingStart | LoadingError(event: ErrorEvent) | LoadingFinish

  function Apply(s: BridgeState, props: Props, input: Input): (s': BridgeState)
    ensures Consistent(s) ==> Consistent(s')
  {
    match input
    case Mount => ComponentDidMount(s, props)
    case LoadingStart => OnLoadingStart(s, props).state
    case LoadingError(e) => OnLoadingError(s, props, e).state
    case LoadingFinish => OnLoadingFinish(s, props).state
  }

  /**
   * The state after a sequence of inputs, each handled with the props the
   * component has at that moment (props may change between renders).
   */
  function Run(s: BridgeState, steps: seq<(Props, Input)>): BridgeState
    decreases |steps|
  {
    if steps == [] then s else Run(Apply(s, steps[0].0, steps[0].1), steps[1..])
  }

  /** Every state the component reaches has an error event whenever it is in `Error`. */
  lemma {:induction false} RunConsistent(s: BridgeState, steps: seq<(Props, Input)>)
    requires Consistent(s)
    ensures Consistent(Run(s, steps))
    decreases |steps|
  {
    if steps != [] {
      RunConsistent(Apply(s, steps[0].0, steps[0].1), steps[1..]);
    }
  }

  /** So `render` never throws on a state the component reaches, whatever props it renders with. */
  lemma RenderNeverThrows(steps: seq<(Props, Input)>, props: Props)
    ensures Render(Run(InitialState(), steps), props).Some?
  {
    RunConsistent(InitialState(), steps);
  }

  /** The web view gets the hidden style exactly in `Loading` and `Error`, after the container and user styles. */
  lemma HiddenIff(s: BridgeState, props: Props)
    requires Consistent(s)
    ensures var r := Render(s, props).value;
      && r.webViewStyles[..2] == [Container, UserStyle]
      && (Hidden in r.webViewStyles <==> s.viewState == Loading || s.viewState == Error)
  {
  }

  /**
   * `Loading` shows `renderLoading()`, `Error` shows `renderError` of the last
   * error's domain, code and description, `Idle` shows nothing; a missing
   * render prop shows nothing.
   */
  lemma OverlayByState(s: BridgeState, props: Props)
    requires Consistent(s)
    ensures var o := Render(s, props).value.overlay;
      && (s.viewState == Idle ==> o == NoOverlay)
      && (s.viewState == Loading ==> (o == LoadingOverlay <==> props.renderLoading))
      && (s.viewState == Loading && !props.renderLoading ==> o == NoOverlay)
      && (s.viewState == Error && props.renderError ==>
            o == ErrorOverlay(s.lastErrorEvent.value.domain, s.lastErrorEvent.value.code, s.lastErrorEvent.value.description))
      && (s.viewState == Error && !props.renderError ==> o == NoOverlay)
  {
  }

  /** An overlay is only ever drawn over a hidden web view. */
  lemma OverlayOnlyWhenHidden(s: BridgeState, props: Props)
    requires Consistent(s)
    ensures Render(s, props).value.overlay != NoOverlay ==> Hidden in Render(s, props).value.webViewStyles
  {
  }

  /**
   * The error event as the native client sends it: its payload carries `code`
   * and `description` but no `domain` key.
   */
  function FromNativeError(e: WebViewClient.NavEvent): (ev: ErrorEvent)
    requires e.LoadingError?
    ensures ev.domain.None?
    ensures ev.code == Some(e.code) && ev.description == Some(e.description)
  {
    ErrorEvent(None, Some(e.code), Some(e.description))
  }

  /** After a native load error, `renderError` always receives an undefined domain. */
  lemma NativeErrorOverlayHasNoDomain(s: BridgeState, props: Props, c: WebViewClient.ClientState, cb: WebViewClient.Callback)
    requires cb.ReceivedError? && props.renderError
    ensures var e := WebViewClient.OnCallback(c, cb).events[0];
      var s' := OnLoadingError(s, props, FromNativeError(e)).state;
      Render(s', props).value.overlay == ErrorOverlay(None, Some(cb.errorCode), Some(cb.description))
  {
  }
}
