/**
 * The request-interception decision of `WebViewBridgeManager`: which URLs look
 * invalid, which fetched responses get the on-start-loading script, and what
 * `shouldInterceptRequest` hands back to the WebView.
 *
 * The OkHttp fetch is not performed here: its outcome is an input, and "no
 * fetch is issued" is stated as "the answer does not depend on that outcome".
 */
module Intercept {
  import opened Optional
  import opened JavaStrings

  const MimeTextHtml := "text/html"
  const MimeUnknown := "application/octet-stream"
  /** `UTF_8.name()`. */
  const Utf8Name := "UTF-8"
  /** `HttpURLConnection.HTTP_OK`. */
  const HttpOk := 200

  /** URL substrings of analytics endpoints that are answered with an empty page. */
  const Denylist: seq<string> := ["mixpanel", "cdn.segment.com"]

  /** A response of the secondary HTTP client, which does not follow redirects. */
  datatype Response = Response(
    isRedirect: bool,
    /** The `content-type` header; `None` when the response has none. */
    contentType: Option<string>,
    code: int,
    /**
     * The charset OkHttp resolves from the body's media type. It is `None` when
     * the header is absent or unparseable, names no charset, or names one the
     * platform does not support; `contentType.charset(UTF_8)` then gives UTF-8.
     */
    bodyCharset: Option<string>)

  /** What `httpClient.newCall(req).execute()` did. */
  datatype FetchOutcome = IOFailure | Fetched(response: Response)

  /** The body stream of an intercepted response. */
  datatype Stream =
    | NullStream
      /** The upstream body, unchanged. */
    | Upstream
      /** The upstream body wrapped by `InputStreamWithInjectedJS` with this script and charset. */
    | WithInjectedJS(script: Option<string>, charset: string)

  datatype WebResourceRequest = WebResourceRequest(url: string, isForMainFrame: bool)

  datatype WebResourceResponse = WebResourceResponse(mimeType: string, encoding: string, data: Stream)

  /** The empty page returned for denylisted URLs. */
  const Placeholder := WebResourceResponse(MimeTextHtml, Utf8Name, NullStream)

  /** `urlStringLooksInvalid`, with its `www` clause as written. */
  predicate UrlStringLooksInvalid(url: Option<string>) {
    match url
    case None => true
    case Some(s) =>
      || Trim(s) == ""
      || !(StartsWith(s, "http") && !StartsWith(s, "www"))
      || Contains(s, "|")
  }

  /** Null and blank strings look invalid. */
  lemma NullOrBlankLooksInvalid(url: Option<string>)
    requires url.None? || IsBlank(url.value)
    ensures UrlStringLooksInvalid(url)
  {
  }

  /** No string starts with both `http` and `www`. */
  lemma HttpExcludesWww(s: string)
    ensures !(StartsWith(s, "http") && StartsWith(s, "www"))
  {
    if StartsWith(s, "http") {
      assert s[0] == "http"[0];
    }
  }

  /** The `www` clause never changes the verdict: dropping it gives the same predicate. */
  lemma LooksInvalidWithoutWww(url: Option<string>)
    ensures UrlStringLooksInvalid(url) <==>
      url.None? || Trim(url.value) == "" || !StartsWith(url.value, "http") || Contains(url.value, "|")
  {
    if url.Some? {
      HttpExcludesWww(url.value);
    }
  }

  /**
   * The blank test is dead as well: a string starting with `http` is not blank,
   * so a URL looks invalid exactly when it is null, does not start with `http`,
   * or contains `|`.
   */
  lemma LooksInvalidIff(url: Option<string>)
    ensures UrlStringLooksInvalid(url) <==>
      url.None? || !StartsWith(url.value, "http") || Contains(url.value, "|")
  {
    LooksInvalidWithoutWww(url);
    if url.Some? && StartsWith(url.value, "http") {
      TrimEmptyIff(url.value);
      assert !IsTrimmable(url.value[0]);
    }
  }

  /** `responseRequiresJSInjection`: only non-redirect HTML gets the script. */
  predicate ResponseRequiresJSInjection(r: Response) {
    if r.isRedirect then false
    else StartsWith(r.contentType.GetOr(MimeUnknown), MimeTextHtml)
  }

  /**
   * Redirects never get the script; otherwise the `content-type` header must
   * begin with `text/html` (case-sensitively), and a missing header never does.
   */
  lemma InjectionEligibilityIff(r: Response)
    ensures r.isRedirect ==> !ResponseRequiresJSInjection(r)
    ensures !r.isRedirect ==>
      (ResponseRequiresJSInjection(r) <==> r.contentType.Some? && StartsWith(r.contentType.value, "text/html"))
  {
    if !r.isRedirect && r.contentType.None? {
      assert MimeUnknown[0] != MimeTextHtml[0];
    }
  }

  /** The URL contains one of the denylisted substrings. */
  predicate Denylisted(url: string) {
    exists i | 0 <= i < |Denylist| :: Contains(url, Denylist[i])
  }

  /** The gate gets past its three early checks and issues the HTTP request. */
  predicate FetchIssued(request: WebResourceRequest, onlyMainFrame: bool) {
    && !Denylisted(request.url)
    && !(onlyMainFrame && !request.isForMainFrame)
    && !UrlStringLooksInvalid(Some(request.url))
  }

  /**
   * `shouldInterceptRequest(request, onlyMainFrame, webView)`: `None` is the
   * Java `null` that leaves the request to the WebView. `injectedOnStartLoadingJS`
   * is the view's script and `fetch` what the HTTP client returned.
   */
  function ShouldInterceptRequest(
    request: WebResourceRequest, onlyMainFrame: bool,
    injectedOnStartLoadingJS: Option<string>, fetch: FetchOutcome
  ): (r: Option<WebResourceResponse>)
    ensures r.Some? ==> r.value.mimeType == "text/html"
    ensures r.Some? && r.value.data.WithInjectedJS? ==>
      && FetchIssued(request, onlyMainFrame)
      && r.value.data.script == injectedOnStartLoadingJS
      && r.value.data.charset == r.value.encoding
  {
    var url := request.url;
    if Denylisted(url) then
      Some(Placeholder)
    else if onlyMainFrame && !request.isForMainFrame then
      None
    else if UrlStringLooksInvalid(Some(url)) then
      None
    else
      match fetch
      case IOFailure => None
      case Fetched(response) =>
        if !ResponseRequiresJSInjection(response) then
          None
        else
          var charset := response.bodyCharset.GetOr(Utf8Name);
          var data := if response.code == HttpOk then WithInjectedJS(injectedOnStartLoadingJS, charset) else Upstream;
          Some(WebResourceResponse(MimeTextHtml, charset, data))
  }

  /**
   * A denylisted URL gets the empty placeholder before the main-frame and
   * validity checks, whatever the frame, the option and the script.
   */
  lemma DenylistFirst(request: WebResourceRequest, onlyMainFrame: bool, js: Option<string>, fetch: FetchOutcome)
    requires Contains(request.url, "mixpanel") || Contains(request.url, "cdn.segment.com")
    ensures ShouldInterceptRequest(request, onlyMainFrame, js, fetch)
         == Some(WebResourceResponse("text/html", "UTF-8", NullStream))
  {
    assert Denylist[0] == "mixpanel" && Denylist[1] == "cdn.segment.com";
  }

  /** Unless the gate issues the HTTP request, its answer cannot depend on what that request would return. */
  lemma NoFetchNoDependence(
    request: WebResourceRequest, onlyMainFrame: bool, js: Option<string>, f1: FetchOutcome, f2: FetchOutcome)
    requires !FetchIssued(request, onlyMainFrame)
    ensures ShouldInterceptRequest(request, onlyMainFrame, js, f1) == ShouldInterceptRequest(request, onlyMainFrame, js, f2)
  {
  }

  /** The four ways a request that is not denylisted is left to the WebView. */
  lemma NoInterceptCases(request: WebResourceRequest, onlyMainFrame: bool, js: Option<string>, fetch: FetchOutcome)
    requires !Denylisted(request.url)
    requires
      || (onlyMainFrame && !request.isForMainFrame)
      || UrlStringLooksInvalid(Some(request.url))
      || fetch.IOFailure?
      || !ResponseRequiresJSInjection(fetch.response)
    ensures ShouldInterceptRequest(request, onlyMainFrame, js, fetch).None?
  {
  }

  /** Exactly denylisted URLs and fetched HTML non-redirects are answered by the bridge. */
  lemma InterceptedIff(request: WebResourceRequest, onlyMainFrame: bool, js: Option<string>, fetch: FetchOutcome)
    ensures ShouldInterceptRequest(request, onlyMainFrame, js, fetch).Some? <==>
      || Denylisted(request.url)
      || (FetchIssued(request, onlyMainFrame) && fetch.Fetched? && ResponseRequiresJSInjection(fetch.response))
  {
  }

  /**
   * An intercepted fetched response is `text/html` in the body's charset
   * (UTF-8 by default), and its stream carries the script only on status 200.
   */
  lemma InterceptedResponseShape(request: WebResourceRequest, onlyMainFrame: bool, js: Option<string>, response: Response)
    ensures FetchIssued(request, onlyMainFrame) && ResponseRequiresJSInjection(response) ==>
      var r := ShouldInterceptRequest(request, onlyMainFrame, js, Fetched(response));
      && r.Some?
      && r.value.mimeType == "text/html"
      && r.value.encoding == (if response.bodyCharset.Some? then response.bodyCharset.value else "UTF-8")
      && (response.code == 200 <==> r.value.data.WithInjectedJS?)
      && (response.code != 200 <==> r.value.data == Upstream)
  {
  }

  /** What `ReactWebViewClient.shouldInterceptRequest` tells the WebView. */
  datatype InterceptAnswer = Respond(response: WebResourceResponse) | DefaultHandling

  /** The client always restricts interception to the main frame, and falls back to the WebView's own handling. */
  function ClientShouldInterceptRequest(request: WebResourceRequest, js: Option<string>, fetch: FetchOutcome): (a: InterceptAnswer)
    ensures !request.isForMainFrame && !Denylisted(request.url) ==> a == DefaultHandling
    ensures a.Respond? <==> ShouldInterceptRequest(request, true, js, fetch).Some?
    ensures a.Respond? ==> ShouldInterceptRequest(request, true, js, fetch) == Some(a.response)
  {
    match ShouldInterceptRequest(request, true, js, fetch)
    case Some(response) => Respond(response)
    case None => DefaultHandling
  }

  /**
   * `shouldOverrideUrlLoading` cancels a navigation exactly when the URL looks
   * invalid, that is when it is null, not `http`-prefixed, or contains `|`.
   */
  function ShouldOverrideUrlLoading(url: Option<string>): (cancel: bool)
    ensures cancel <==> UrlStringLooksInvalid(url)
    ensures cancel <==> url.None? || !StartsWith(url.value, "http") || Contains(url.value, "|")
  {
    LooksInvalidIff(url);
    UrlStringLooksInvalid(url)
  }
}
