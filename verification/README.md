# WebView bridge decision logic in Dafny

This project models the decision logic of a React Native WebView bridge for Android
(`RCTWebViewBridge`). It covers four pieces:

- **Request interception.** `WebViewBridgeManager.shouldInterceptRequest` does three things:
  - it answers analytics URLs with an empty page;
  - it leaves sub-frame and invalid URLs to the WebView;
  - it fetches every other URL itself, and intercepts its non-redirect HTML responses: those with status 200 are wrapped with the on-start-loading script, the others are passed on unwrapped. Redirects and non-HTML responses are left to the WebView.
- **The `source` prop.** `setSource` turns the source map into one WebView load call.
- **Commands.** `getCommandsMap` and `receiveCommand` turn a command id into a WebView call.
- **Two small state machines.**
  - Native side: the `mLastLoadFailed` flag of `ReactWebViewClient` and the `loading` field it writes into events.
  - JavaScript side: the `IDLE`/`LOADING`/`ERROR` `viewState` of the `WebViewBridge` component and what `render` shows in each state.

Everything is modelled as pure functions over datatypes. The HTTP client and the WebView are not modelled; what they would return is an input:

- a fetch is `IOFailure | Fetched(Response)`;
- the page the view shows is `currentUrl`;
- the page progress is an integer.

"No fetch is issued" is stated as "the answer does not depend on the fetch outcome" (`Intercept.NoFetchNoDependence`).

Modules:

| file | module | models |
|---|---|---|
| optional.dfy | `Optional` | Java `null` / JavaScript `undefined` as `Option` |
| java_strings.dfy | `JavaStrings` | `startsWith`, `contains`, `trim`, `equalsIgnoreCase`, `toLowerCase(Locale.ENGLISH)` |
| utf8_char.dfy | `Utf8Char` | UTF-8 encoding and decoding of one character |
| utf8.dfy | `Utf8` | `getBytes("UTF-8")` and a decoder that inverts it |
| intercept.dfy | `Intercept` | `urlStringLooksInvalid`, `responseRequiresJSInjection`, `shouldInterceptRequest`, the client's `shouldInterceptRequest` and `shouldOverrideUrlLoading` |
| source_dispatch.dfy | `SourceDispatch` | `setSource` |
| commands.dfy | `Commands` | `getCommandsMap`, `receiveCommand` |
| webview_client.dfy | `WebViewClient` | `mLastLoadFailed`, `onPageStarted`, `onReceivedError`, `onPageFinished`, `doUpdateVisitedHistory`, the `loading` field |
| bridge_view.dfy | `BridgeView` | `getInitialState`, `componentDidMount`, `onLoadingStart`, `onLoadingError`, `onLoadingFinish`, `render`'s hidden style and overlay |

### Where the code and its description differ

The model follows the code in each case.

- **The `www` clause of `urlStringLooksInvalid` is dead code.** It is sometimes described as rejecting URLs that start with `www`. But the clause sits inside `!(startsWith("http") && !startsWith("www"))`, and no string starts with both `http` and `www`. So it never changes the result (`Intercept.LooksInvalidWithoutWww`).
- **The blank-string test is dead code too.** A string that starts with `http` is not blank. A URL therefore looks invalid exactly when it is null, does not start with `http`, or contains `|` (`Intercept.LooksInvalidIff`).
- **The denylist check comes first.** It runs before the main-frame and validity checks, not after them. A denylisted sub-frame request, or a denylisted URL that looks invalid, still gets the placeholder page (`Intercept.DenylistFirst`).
- **The JavaScript error overlay never gets a domain.** It reads `domain` from the native error event, but the Android client never puts that key into the event. So `renderError` always receives an undefined domain (`BridgeView.NativeErrorOverlayHasNoDomain`).

## Model

| member | source | states |
|---|---|---|
| JavaStrings.TrimEmptyIff | android/src/main/java/com/github/alinz/reactnativewebviewbridge/WebViewBridgeManager.java:354 | `s.trim().equals("")` holds exactly when every character of `s` is at most U+0020 |
| JavaStrings.PostIgnoringCaseIff | android/src/main/java/com/github/alinz/reactnativewebviewbridge/WebViewBridgeManager.java:216 | `method.equalsIgnoreCase("POST")` accepts exactly the ASCII case variants of POST, plus those whose S is U+017F (Java upper-cases it to S) |
| Utf8.DecodeEncode | android/src/main/java/com/github/alinz/reactnativewebviewbridge/WebViewBridgeManager.java:221 | the POST body's UTF-8 bytes decode back to the body string |
| Utf8.EncodeAscii | android/src/main/java/com/github/alinz/reactnativewebviewbridge/WebViewBridgeManager.java:221 | an ASCII body is posted as its character codes, one byte each |
| Utf8.EncodeEmptyIff | android/src/main/java/com/github/alinz/reactnativewebviewbridge/WebViewBridgeManager.java:221 | the posted bytes are empty exactly when the body string is |
| Intercept.NullOrBlankLooksInvalid | android/src/main/java/com/github/alinz/reactnativewebviewbridge/WebViewBridgeManager.java:352-354 | a null URL, and any URL whose trim is empty, looks invalid |
| Intercept.HttpExcludesWww | android/src/main/java/com/github/alinz/reactnativewebviewbridge/WebViewBridgeManager.java:355 | no string starts with both `http` and `www` |
| Intercept.LooksInvalidWithoutWww | android/src/main/java/com/github/alinz/reactnativewebviewbridge/WebViewBridgeManager.java:352-356 | the predicate equals: null, blank, not `http`-prefixed, or containing a pipe character; the `www` clause never matters |
| Intercept.LooksInvalidIff | android/src/main/java/com/github/alinz/reactnativewebviewbridge/WebViewBridgeManager.java:352-356 | a URL looks invalid exactly when it is null, not `http`-prefixed, or contains a pipe character; the blank test is subsumed as well |
| Intercept.InjectionEligibilityIff | android/src/main/java/com/github/alinz/reactnativewebviewbridge/WebViewBridgeManager.java:340-350 | redirects never get the script; other responses get it exactly when their content-type header begins with `text/html` (case-sensitive), so a missing header never does |
| Intercept.ShouldInterceptRequest | android/src/main/java/com/github/alinz/reactnativewebviewbridge/WebViewBridgeManager.java:359-405 | every answer is `text/html`; a stream wrapped with the script carries the view's on-start-loading script and the response's charset, and exists only after a fetch was issued |
| Intercept.DenylistFirst | android/src/main/java/com/github/alinz/reactnativewebviewbridge/WebViewBridgeManager.java:363-366 | a URL containing `mixpanel` or `cdn.segment.com` gets (`text/html`, `UTF-8`, null stream) whatever the frame, the option, the script and the fetch outcome |
| Intercept.NoFetchNoDependence | android/src/main/java/com/github/alinz/reactnativewebviewbridge/WebViewBridgeManager.java:363-374 | when the denylist, main-frame or validity check answers first, the answer is the same for every fetch outcome: no request is needed |
| Intercept.NoInterceptCases | android/src/main/java/com/github/alinz/reactnativewebviewbridge/WebViewBridgeManager.java:368-404 | a non-denylisted request is not intercepted when it is a sub-frame under only-main-frame, its URL looks invalid, the fetch throws an I/O error, or the response needs no injection |
| Intercept.InterceptedIff | android/src/main/java/com/github/alinz/reactnativewebviewbridge/WebViewBridgeManager.java:359-405 | the bridge answers a request exactly when the URL is denylisted, or the fetch was issued, succeeded and returned a response that needs injection |
| Intercept.InterceptedResponseShape | android/src/main/java/com/github/alinz/reactnativewebviewbridge/WebViewBridgeManager.java:394-401 | an intercepted fetched response is `text/html` in the body's charset (UTF-8 when it names none); its stream is wrapped with the script exactly on status 200 and is the upstream body otherwise |
| Intercept.ClientShouldInterceptRequest | android/src/main/java/com/github/alinz/reactnativewebviewbridge/WebViewBridgeManager.java:466-474 | the client responds exactly when the main-frame-only gate returns a response, and then hands the WebView that very response; a non-denylisted sub-frame request always falls back to the WebView's own handling |
| Intercept.ShouldOverrideUrlLoading | android/src/main/java/com/github/alinz/reactnativewebviewbridge/WebViewBridgeManager.java:477-483 | a navigation is cancelled exactly when its URL looks invalid, that is when it is null, not `http`-prefixed or contains a pipe character |
| SourceDispatch.UserAgentKeyIff | android/src/main/java/com/github/alinz/reactnativewebviewbridge/WebViewBridgeManager.java:239 | a header key is the user-agent key exactly when it is `User-Agent` in some mix of ASCII cases |
| SourceDispatch.ForwardedHeaders | android/src/main/java/com/github/alinz/reactnativewebviewbridge/WebViewBridgeManager.java:233-247 | the header map holds exactly the keys of the source headers that are not user-agent keys, each with the value of its last entry |
| SourceDispatch.HeaderUserAgent | android/src/main/java/com/github/alinz/reactnativewebviewbridge/WebViewBridgeManager.java:234-246 | the user agent is set exactly when some header has a user-agent key, to the value of the last such header |
| SourceDispatch.SetSource | android/src/main/java/com/github/alinz/reactnativewebviewbridge/WebViewBridgeManager.java:199-253 | a plain load is always `about:blank`; HTML data is loaded as `text/html` in UTF-8; forwarded headers never hold a user-agent key; a post or header load only happens for a `uri` source without `html` whose URI is not the current page |
| SourceDispatch.BlankWhenNoContent | android/src/main/java/com/github/alinz/reactnativewebviewbridge/WebViewBridgeManager.java:199-253 | `about:blank` is loaded exactly when the source is null or has neither `html` nor `uri` |
| SourceDispatch.HtmlFirst | android/src/main/java/com/github/alinz/reactnativewebviewbridge/WebViewBridgeManager.java:202-207 | `html` wins over `uri`, with the base URL defaulting to the empty string |
| SourceDispatch.SameUrlKeeps | android/src/main/java/com/github/alinz/reactnativewebviewbridge/WebViewBridgeManager.java:208-213 | a `uri` source does nothing exactly when it names the page the view already shows |
| SourceDispatch.PostWhenMethodIsPost | android/src/main/java/com/github/alinz/reactnativewebviewbridge/WebViewBridgeManager.java:214-231 | a new URI is posted exactly when its method is POST ignoring case; the posted bytes decode to the body (empty without one) and are empty exactly when there is no body or it is empty |
| SourceDispatch.HeadersForwarded | android/src/main/java/com/github/alinz/reactnativewebviewbridge/WebViewBridgeManager.java:233-249 | otherwise the URI is loaded with exactly the non-user-agent header keys, and a user agent is set exactly when some key is a user-agent key |
| Commands.CommandIdsIff | android/src/main/java/com/github/alinz/reactnativewebviewbridge/WebViewBridgeManager.java:54-92 | the command ids handed out are exactly 101 to 106 |
| Commands.CommandIdsDistinct | android/src/main/java/com/github/alinz/reactnativewebviewbridge/WebViewBridgeManager.java:80-92 | no two command names share an id |
| Commands.ReceiveCommand | android/src/main/java/com/github/alinz/reactnativewebviewbridge/WebViewBridgeManager.java:124-150 | an id does nothing exactly when the commands map does not hand it out; `sendToBridge`, `evaluateJS` and `loadSource` fail exactly when the argument array is null or empty |
| Commands.NamedCommandPerforms | android/src/main/java/com/github/alinz/reactnativewebviewbridge/WebViewBridgeManager.java:124-150 | sending a named command's id with an argument performs the call that name stands for (both script commands evaluate the script, `loadSource` loads the URL) |
| Commands.NavigationIgnoresArgs | android/src/main/java/com/github/alinz/reactnativewebviewbridge/WebViewBridgeManager.java:135-143 | back, forward and reload act whatever their arguments, even a null array |
| WebViewClient.OnCallback | android/src/main/java/com/github/alinz/reactnativewebviewbridge/WebViewBridgeManager.java:425-464 | every callback but page finish dispatches exactly one event, whose `loading` is `!mLastLoadFailed && progress != 100` after the callback's update; an error dispatches a non-loading error event with the failing URL, code and description |
| WebViewClient.HistoryUpdateEvent | android/src/main/java/com/github/alinz/reactnativewebviewbridge/WebViewBridgeManager.java:486-489 | a history update dispatches a start event for the visited URL whose `loading` is `!mLastLoadFailed && progress != 100` with the flag as it was, and leaves the flag unchanged |
| WebViewClient.FlagTransitions | android/src/main/java/com/github/alinz/reactnativewebviewbridge/WebViewBridgeManager.java:433-444 | page start clears the failure flag, an error sets it, the other callbacks leave the state unchanged |
| WebViewClient.StartEventLoading | android/src/main/java/com/github/alinz/reactnativewebviewbridge/WebViewBridgeManager.java:433-459 | a page-start event is loading exactly when progress is not 100, whatever failed before |
| WebViewClient.RunFlagIff | android/src/main/java/com/github/alinz/reactnativewebviewbridge/WebViewBridgeManager.java:423-444 | after any sequence of callbacks the flag is set exactly when an error came after the last page start, or it was set and no page started since |
| WebViewClient.FlagFromInitial | android/src/main/java/com/github/alinz/reactnativewebviewbridge/WebViewBridgeManager.java:423-444 | from a new client, the flag is set exactly when some error has no page start after it |
| BridgeView.InitialState | webview-bridge/index.android.js:62-68 | the component starts `IDLE` with no error event |
| BridgeView.ComponentDidMount | webview-bridge/index.android.js:83-85 | mounting moves to `LOADING` when the `startInLoadingState` prop is set, and changes nothing otherwise |
| BridgeView.OnLoadingStart | webview-bridge/index.android.js:207-211 | a load start leaves the state unchanged |
| BridgeView.OnLoadingError | webview-bridge/index.android.js:213-223 | an error moves to `ERROR` and records the event as the last error |
| BridgeView.OnLoadingFinish | webview-bridge/index.android.js:225-233 | a finish moves to `IDLE` and keeps the last error event |
| BridgeView.ErrorCallsInOrder | webview-bridge/index.android.js:213-217 | on an error, `onError` is called before `onLoadEnd` and nothing else is called |
| BridgeView.HandlersFromAnyState | webview-bridge/index.android.js:207-233 | error and finish reach `ERROR` and `IDLE` from every state; start never changes `viewState` |
| BridgeView.RunConsistent | webview-bridge/index.android.js:213-233 | in every state reached by any inputs under any props, `ERROR` comes with a recorded error event |
| BridgeView.RenderNeverThrows | webview-bridge/index.android.js:92-105 | `render` never reads a field of a null `lastErrorEvent` in a state the component reaches, even when props change between inputs |
| BridgeView.HiddenIff | webview-bridge/index.android.js:107-112 | the web view gets the hidden style exactly in `LOADING` and `ERROR`, after the container and user styles |
| BridgeView.OverlayByState | webview-bridge/index.android.js:93-105 | `LOADING` shows `renderLoading()`, `ERROR` shows `renderError` of the last error's domain, code and description, `IDLE` shows nothing; a missing render prop shows nothing |
| BridgeView.OverlayOnlyWhenHidden | webview-bridge/index.android.js:93-112 | an overlay is only drawn while the web view is hidden |
| BridgeView.FromNativeError | android/src/main/java/com/github/alinz/reactnativewebviewbridge/WebViewBridgeManager.java:440-448 | the native error event carries the error code and description but no domain |
| BridgeView.NativeErrorOverlayHasNoDomain | webview-bridge/index.android.js:97-102 | after a native load error, `renderError` receives an undefined domain and the native code and description |

## Left out

- `InputStreamWithInjectedJS` is not part of this model. The wrapped stream is the tag `WithInjectedJS(script, charset)`. Where the script is spliced in, and how, is not modelled.
- The OkHttp fetch is not modelled: no request building, no redirect settings, no empty User-Agent header, no execution. Its result is the input `FetchOutcome`. Only an `IOException` is modelled as a failure. An unchecked exception from OkHttp's URL parsing would escape the `catch` block.
- Intercept.ShouldInterceptRequest: the response's `isRedirect()` is an input flag, not derived from the status code. The charset is an input: the one OkHttp's `contentType.charset(UTF_8)` resolves, absent when the header is missing or unparseable or the charset is unsupported (the source then uses UTF-8). Its name is not canonicalised by `Charset.name()`.
- JavaStrings.PostIgnoringCaseIff: case mapping covers ASCII plus the four characters whose Java case mapping lands in ASCII (U+017F, U+0131, U+212A, U+0130). Other case mappings are the identity. They cannot make a character equal to an ASCII letter, so the comparisons with `POST` and `user-agent` are unaffected.
- Utf8.DecodeEncode: Java strings may hold unpaired surrogates, which `getBytes` replaces with `?`. A Dafny `char` cannot hold one, so that case is not modelled. The decoder is a left inverse of the encoder. It does not reject overlong forms.
- SourceDispatch.SetSource: map keys that are present with a null or non-string value are not modelled. `getSettings()` is taken to be non-null. Header order is the map's key iteration order, taken as given.
- Commands.ReceiveCommand: a null first element (`getString(0)` returns null, so `loadUrl(null)` or a null script) and a non-string first element are not modelled; arguments are strings.
- Commands.ReceiveCommand: `super.receiveCommand` is not modelled. The SDK-version choice between `evaluateJavascript` and `loadUrl("javascript:…")` is folded into one `EvaluateJavascript` call, because it is a platform call.
- `createViewInstance`, the `@ReactProp` setters other than `source`, `callInjectedJavaScript` and the `ReactWebView` lifecycle hooks are not modelled. They toggle WebView settings, store the on-start-loading script (an input here: `injectedOnStartLoadingJS`), evaluate a script through the platform (`injectedJavaScript`, and `callInjectedJavaScript`, which nothing calls), or do nothing (the lifecycle hooks).
- `dispatchEvent` is not modelled, since it is framework plumbing, and neither are the event fields other than `url`, `loading`, `code` and `description` (`target`, `title`, `canGoBack`, `canGoForward`). The same goes for `ReactWebChromeClient`'s progress events. `emitFinishEvent` is empty, so `onPageFinished` dispatches nothing in the model.
- React itself is not modelled. This covers the element tree `render` builds, `DeviceEventEmitter` listeners, `componentWillUnmount`, `onMessage`, the `UIManager` command wrappers, and the payload passed to `onNavigationStateChange`. `setState` is applied at once rather than batched. The `console.error` branch of `render` cannot be reached with a three-valued `ViewState`.
- `bridgeExample/App.js` is a demo app and `bridgePickExample/react-native.config.js` is static autolinking configuration. Neither is modelled.
