/**
 * `setSource`, the handler of the `source` prop: it decides which load call the
 * WebView receives for a source map.
 */
module SourceDispatch {
  import opened Optional
  import opened JavaStrings
  import Utf8
  import Utf8Char

  const HtmlMimeType := "text/html"
  const HtmlEncoding := "UTF-8"
  const HttpMethodPost := "POST"
  const BlankUrl := "about:blank"
  const UserAgentKey := "user-agent"

  /** A header entry of the `headers` map, in the map's key iteration order. */
  type Header = (string, string)

  /** The `source` prop. Each field is `None` when the map lacks that key. */
  datatype Source = Source(
    html: Option<string>,
    baseUrl: Option<string>,
    uri: Option<string>,
    httpMethod: Option<string>,
    body: Option<string>,
    headers: Option<seq<Header>>)

  /** The call `setSource` makes on the WebView. */
  datatype LoadAction =
    | LoadDataWithBaseUrl(baseUrl: string, data: string, mimeType: string, encoding: string)
      /** The URI is the page already shown: nothing is loaded. */
    | KeepCurrent
    | PostUrl(url: string, postData: seq<Utf8Char.byte>)
      /** `loadUrl(url, headerMap)`, after setting the user agent when the headers carry one. */
    | LoadUrlWithHeaders(url: string, headers: map<string, string>, userAgent: Option<string>)
    | LoadUrl(url: string)

  /** `"user-agent".equals(key.toLowerCase(Locale.ENGLISH))`. */
  predicate IsUserAgentKey(key: string) {
    ToLowerEnglish(key) == UserAgentKey
  }

  /** The user-agent key is `User-Agent` spelled in any mix of ASCII cases, and nothing else. */
  lemma UserAgentKeyIff(key: string)
    ensures IsUserAgentKey(key) <==>
      |key| == 10 && forall i :: 0 <= i < 10 ==> key[i] == "user-agent"[i] || key[i] == "USER-AGENT"[i]
  {
    LowerEnglishEqualsAscii(key, UserAgentKey);
  }

  /** Entry `i` is the last one whose key is `k`. */
  predicate IsLastFor(hs: seq<Header>, i: int, k: string) {
    0 <= i < |hs| && hs[i].0 == k && forall j :: i < j < |hs| ==> hs[j].0 != k
  }

  /** Entry `i` is the last one with a user-agent key. */
  predicate IsLastUserAgent(hs: seq<Header>, i: int) {
    0 <= i < |hs| && IsUserAgentKey(hs[i].0) && forall j :: i < j < |hs| ==> !IsUserAgentKey(hs[j].0)
  }

  /** Some entry of `hs` has key `k`. */
  predicate HasKey(hs: seq<Header>, k: string) {
    exists i | 0 <= i < |hs| :: hs[i].0 == k
  }

  /** Facts relating the entries of `hs` to those of `hs` without its last entry. */
  lemma DropLastHeader(hs: seq<Header>)
    requires hs != []
    ensures var init := hs[..|hs| - 1];
      && (forall k :: HasKey(hs, k) <==> HasKey(init, k) || k == hs[|hs| - 1].0)
      && (forall k, i :: i < |hs| - 1 && IsLastFor(hs, i, k) ==> IsLastFor(init, i, k) && k != hs[|hs| - 1].0)
      && (forall i :: i < |hs| - 1 && IsLastUserAgent(hs, i) ==> IsLastUserAgent(init, i))
      && (forall i :: 0 <= i < |init| ==> init[i] == hs[i])
  {
  }

  /**
   * The header map of `setSource`: every entry whose key is not a user-agent
   * key, where a later entry for the same key replaces an earlier one.
   */
  function ForwardedHeaders(hs: seq<Header>): (m: map<string, string>)
    ensures forall k :: k in m <==> HasKey(hs, k) && !IsUserAgentKey(k)
    ensures forall k, i :: k in m && IsLastFor(hs, i, k) ==> m[k] == hs[i].1
  {
    if hs == [] then
      map[]
    else
      var last := hs[|hs| - 1];
      var m := ForwardedHeaders(hs[..|hs| - 1]);
      DropLastHeader(hs);
      var m' := if IsUserAgentKey(last.0) then m else m[last.0 := last.1];
      ForwardedLastValue(hs, m, m');
      m'
  }

  /** The step of `ForwardedHeaders` that keeps each value the last one for its key. */
  lemma ForwardedLastValue(hs: seq<Header>, m: map<string, string>, m': map<string, string>)
    requires hs != []
    requires forall k :: k in m ==> !IsUserAgentKey(k)
    requires forall k, i :: k in m && IsLastFor(hs[..|hs| - 1], i, k) ==> m[k] == hs[i].1
    requires m' == if IsUserAgentKey(hs[|hs| - 1].0) then m else m[hs[|hs| - 1].0 := hs[|hs| - 1].1]
    ensures forall k, i :: k in m' && IsLastFor(hs, i, k) ==> m'[k] == hs[i].1
  {
  }

  /** The user agent `setSource` sets: the value of the last entry with a user-agent key. */
  function HeaderUserAgent(hs: seq<Header>): (ua: Option<string>)
    ensures ua.None? <==> forall i :: 0 <= i < |hs| ==> !IsUserAgentKey(hs[i].0)
    ensures forall i :: IsLastUserAgent(hs, i) ==> ua == Some(hs[i].1)
  {
    if hs == [] then
      None
    else
      var last := hs[|hs| - 1];
      var ua := HeaderUserAgent(hs[..|hs| - 1]);
      DropLastHeader(hs);
      if IsUserAgentKey(last.0) then Some(last.1) else ua
  }

  /**
   * `setSource(view, source)` for a view showing `currentUrl`.
   */
  function SetSource(source: Option<Source>, currentUrl: Option<string>): (r: LoadAction)
    ensures r.LoadUrl? ==> r.url == "about:blank"
    ensures r.LoadDataWithBaseUrl? ==> r.mimeType == "text/html" && r.encoding == "UTF-8"
    ensures r.LoadUrlWithHeaders? ==> forall k :: k in r.headers ==> !IsUserAgentKey(k)
    ensures r.PostUrl? || r.LoadUrlWithHeaders? ==>
      source.Some? && source.value.html.None? && source.value.uri.Some? && currentUrl != source.value.uri
  {
    match source
    case None => LoadUrl(BlankUrl)
    case Some(s) =>
      if s.html.Some? then
        LoadDataWithBaseUrl(s.baseUrl.GetOr(""), s.html.value, HtmlMimeType, HtmlEncoding)
      else if s.uri.Some? then
        var url := s.uri.value;
        if currentUrl.Some? && currentUrl.value == url then
          KeepCurrent
        else if s.httpMethod.Some? && EqualsIgnoreCase(s.httpMethod.value, HttpMethodPost) then
          var postData := if s.body.Some? then Utf8.Encode(s.body.value) else [];
          PostUrl(url, postData)
        else
          var headers := s.headers.GetOr([]);
          LoadUrlWithHeaders(url, ForwardedHeaders(headers), HeaderUserAgent(headers))
      else
        LoadUrl(BlankUrl)
  }

  /** A null source, or one with neither `html` nor `uri`, loads `about:blank`. */
  lemma BlankWhenNoContent(source: Option<Source>, currentUrl: Option<string>)
    ensures SetSource(source, currentUrl) == LoadUrl("about:blank") <==>
      source.None? || (source.value.html.None? && source.value.uri.None?)
  {
  }

  /** `html` wins over `uri`, and the base URL defaults to the empty string. */
  lemma HtmlFirst(s: Source, currentUrl: Option<string>)
    requires s.html.Some?
    ensures SetSource(Some(s), currentUrl)
         == LoadDataWithBaseUrl(if s.baseUrl.Some? then s.baseUrl.value else "", s.html.value, "text/html", "UTF-8")
  {
  }

  /** A `uri` source is a no-op exactly when it names the page already shown. */
  lemma SameUrlKeeps(s: Source, currentUrl: Option<string>)
    requires s.html.None? && s.uri.Some?
    ensures SetSource(Some(s), currentUrl) == KeepCurrent <==> currentUrl == s.uri
  {
  }

  /**
   * A new `uri` is posted exactly when its method is POST ignoring case; the
   * posted bytes are the UTF-8 body, or none without a body.
   */
  lemma PostWhenMethodIsPost(s: Source, currentUrl: Option<string>)
    requires s.html.None? && s.uri.Some? && currentUrl != s.uri
    ensures var r := SetSource(Some(s), currentUrl);
      && (r.PostUrl? <==> s.httpMethod.Some? && EqualsIgnoreCase(s.httpMethod.value, "POST"))
      && (r.PostUrl? ==> r.url == s.uri.value)
      && (r.PostUrl? ==> Utf8.Decode(r.postData) == Some(if s.body.Some? then s.body.value else ""))
      && (r.PostUrl? ==> (r.postData == [] <==> s.body.None? || s.body == Some("")))
  {
    if s.httpMethod.Some? && EqualsIgnoreCase(s.httpMethod.value, "POST") {
      var body := if s.body.Some? then s.body.value else "";
      Utf8.DecodeEncode(body);
      Utf8.EncodeEmptyIff(body);
    }
  }

  /**
   * Otherwise the URL is loaded with every header except those with a
   * user-agent key, and the last user-agent value becomes the user agent.
   */
  lemma HeadersForwarded(s: Source, currentUrl: Option<string>, k: string)
    requires s.html.None? && s.uri.Some? && currentUrl != s.uri
    requires !(s.httpMethod.Some? && EqualsIgnoreCase(s.httpMethod.value, "POST"))
    ensures var r := SetSource(Some(s), currentUrl);
      && r.LoadUrlWithHeaders?
      && r.url == s.uri.value
      && (k in r.headers <==> s.headers.Some? && HasKey(s.headers.value, k) && !IsUserAgentKey(k))
      && (r.userAgent.Some? <==> s.headers.Some? && exists i :: 0 <= i < |s.headers.value| && IsUserAgentKey(s.headers.value[i].0))
  {
  }
}
