/** The three generations of the builder that turns an HTTP request
    configuration into the event a Lambda function receives: the API Gateway
    proxy event of `src/adapters/helpers/lambdaEvent.ts`, the smaller event of
    `src/utils/lambdaEvent.ts` and the oldest one of
    `src/adapters/helpers/lambdaEvent.js`. */
module LambdaEvent {
  import opened Wrappers
  import opened Strings
  import opened QueryString
  import Rfc3986
  import Resolve
  import Base64
  import Bytes
  import ApiGateway
  import Js

  /** `config.data` as it reaches an adapter: absent (or another falsy
      value), text, or a binary buffer. */
  datatype Data = NoData | Text(text: string) | Binary(bytes: seq<Bytes.byte>)

  /** The request configuration fields the builders read. */
  datatype EventConfig = EventConfig(
    url: Option<string>,
    baseURL: Option<string>,
    httpVerb: string,
    params: map<string, QueryValue>,
    data: Data,
    headers: Option<map<string, ApiGateway.HeaderValue>>)

  /** `config.data || ''` */
  function DataOr(d: Data): (r: Data)
    ensures r.NoData? ==> false
    ensures r.Text? && r.text != "" ==> d == r
    ensures r.Binary? ==> d == r
  {
    match d
    case NoData => Text("")
    case _ => d
  }

  // ---------------------------------------------------------------------------
  // Reading the URL

  /** The part of a parsed reference `url-parse` hands to its query parser:
      the query with its `?`, or the empty string. */
  function QueryText(r: Rfc3986.Reference): string {
    Rfc3986.OptText("?", r.query)
  }

  /** url-parse and the WHATWG parser give every URL of a special scheme
      (and every URL they resolve against an `http:` base) a path that
      starts with `/`. */
  function RootedPath(path: string): (p: string)
    ensures StartsWith(p, "/")
    ensures StartsWith(path, "/") ==> p == path
  {
    if StartsWith(path, "/") then path else "/" + path
  }

  const FakeBase: string := "http://fake"

  /** `urlParse(address, 'http://fake', parser)`: the address resolved
      against the fake location. */
  function ReadAgainstFake(address: string): Rfc3986.Reference {
    Rfc3986.Resolve(Rfc3986.Parse(FakeBase), Rfc3986.Parse(address))
  }

  // ---------------------------------------------------------------------------
  // Query parameters: merge and split

  /** `Object.assign({}, query, params)`: a key of `params` overrides the
      same key of the query, and a `__proto__` key goes to the target's
      prototype setter, so it is not among the keys (the values are read
      with `Object.values` and `Object.entries`, which see own keys only). */
  function Merge(query: map<string, QueryValue>, params: map<string, QueryValue>): map<string, QueryValue> {
    (query + params) - {Js.ProtoKey}
  }

  predicate HasArray(m: map<string, QueryValue>) {
    exists k :: k in m && m[k].Multi?
  }

  /** `queryStringParameters` after the split: the string-valued keys. */
  function SingleParams(m: map<string, QueryValue>): map<string, QueryValue> {
    map k | k in m && m[k].Single? :: m[k]
  }

  /** `multiValueQueryStringParameters`: the array-valued keys, or null when
      there is none. */
  function MultiParams(m: map<string, QueryValue>): Option<map<string, seq<string>>> {
    if HasArray(m) then Some(map k | k in m && m[k].Multi? :: m[k].texts) else None
  }

  /** The later map wins on a clash, and every key of either map is kept
      but `__proto__`. */
  lemma ParamsWin(query: map<string, QueryValue>, params: map<string, QueryValue>, k: string)
    ensures k in Merge(query, params) <==> k != Js.ProtoKey && (k in query || k in params)
    ensures k in params && k != Js.ProtoKey ==> Merge(query, params)[k] == params[k]
    ensures k !in params && k in query && k != Js.ProtoKey ==> Merge(query, params)[k] == query[k]
  {
  }

  /** The split sends every key to exactly one of the two maps, with its
      value unchanged, and leaves the first map whole when nothing is an
      array. */
  lemma SplitPartitions(m: map<string, QueryValue>, k: string)
    ensures k in SingleParams(m) ==> k in m && SingleParams(m)[k] == m[k] && m[k].Single?
    ensures MultiParams(m).Some? && k in MultiParams(m).value ==>
      k in m && m[k] == Multi(MultiParams(m).value[k])
    ensures k in m ==> (k in SingleParams(m) <==> !(MultiParams(m).Some? && k in MultiParams(m).value))
    ensures MultiParams(m).None? ==> SingleParams(m) == m
  {
    if !HasArray(m) {
      assert forall j :: j in m ==> m[j].Single?;
    }
  }

  // ---------------------------------------------------------------------------
  // src/adapters/helpers/lambdaEvent.ts

  datatype RequestContext = RequestContext(
    requestId: string, apiId: string, protocol: string, requestTime: string,
    httpMethod: string, sourceIp: string)

  /** The proxy event, fields the handler reads. */
  datatype ProxyEvent = ProxyEvent(
    body: string,
    headers: map<string, Option<string>>,
    multiValueHeaders: map<string, Option<seq<string>>>,
    httpMethod: string,
    path: string,
    queryStringParameters: map<string, QueryValue>,
    multiValueQueryStringParameters: Option<map<string, seq<string>>>,
    isBase64Encoded: bool,
    requestContext: RequestContext)

  /** `relativeUrl ?? config.url`: an empty relative URL is still used. */
  function ProxySource(config: EventConfig, relativeUrl: Option<string>): string {
    match relativeUrl
    case Some(u) => u
    case None => config.url.GetOr("")
  }

  /** The query text `url-parse` reads from the source URL. */
  function ProxyQuery(config: EventConfig, relativeUrl: Option<string>): string {
    QueryText(ReadAgainstFake(ProxySource(config, relativeUrl)))
  }

  /** The merged parameters before the split. */
  function ProxyParams(config: EventConfig, relativeUrl: Option<string>): map<string, QueryValue> {
    Merge(ParseWithArraySupport(ProxyQuery(config, relativeUrl)), config.params)
  }

  /** The body the handler receives: text as it is, a buffer as its base 64
      text. */
  function BodyText(d: Data): string {
    match DataOr(d)
    case Text(t) => t
    case Binary(b) => Base64.Encode(b)
    case NoData => ""
  }

  /** The `forEach` of `lambdaEvent` that, when some value is an array,
      moves every array-valued key out of the parameters into the
      multi-value map. */
  method SplitParams(merged: map<string, QueryValue>)
      returns (params: map<string, QueryValue>, multi: Option<map<string, seq<string>>>)
    ensures params == SingleParams(merged) && multi == MultiParams(merged)
  {
    params := merged;
    multi := None;
    if HasArray(merged) {
      var someArray :| someArray in merged && merged[someArray].Multi?;
      var remaining := merged.Keys;
      while remaining != {}
        invariant remaining <= merged.Keys
        invariant remaining != merged.Keys ==> multi.Some?
        invariant params == map k | k in merged && (k in remaining || merged[k].Single?) :: merged[k]
        invariant multi.GetOr(map[]) == map k | k in merged && k !in remaining && merged[k].Multi? :: merged[k].texts
        decreases remaining
      {
        var key :| key in remaining;
        multi := Some(multi.GetOr(map[]));
        if merged[key].Multi? {
          multi := Some(multi.value[key := merged[key].texts]);
          params := params - {key};
        }
        remaining := remaining - {key};
      }
      assert someArray !in remaining;
      assert params == SingleParams(merged);
      assert multi.value == MultiParams(merged).value;
    } else {
      SplitPartitions(merged, "");
    }
  }

  /** `lambdaEvent(config, relativeUrl)`, the request id and the clock given
      as parameters. */
  method BuildProxyEvent(config: EventConfig, relativeUrl: Option<string>, requestId: string, requestTime: string)
      returns (event: ProxyEvent)
    ensures event.path == RootedPath(ReadAgainstFake(ProxySource(config, relativeUrl)).path)
    ensures event.queryStringParameters == SingleParams(ProxyParams(config, relativeUrl))
    ensures event.multiValueQueryStringParameters == MultiParams(ProxyParams(config, relativeUrl))
    ensures event.httpMethod == ToUpper(config.httpVerb) && event.requestContext.httpMethod == event.httpMethod
    ensures event.body == BodyText(config.data) && event.isBase64Encoded == config.data.Binary?
    ensures event.headers.Keys == config.headers.GetOr(map[]).Keys
    ensures event.multiValueHeaders.Keys == config.headers.GetOr(map[]).Keys
    ensures forall k :: k in config.headers.GetOr(map[]) ==>
      event.headers[k] == ApiGateway.SingleHeader(config.headers.GetOr(map[])[k])
      && event.multiValueHeaders[k] == ApiGateway.MultiHeader(config.headers.GetOr(map[])[k])
    ensures event.requestContext == RequestContext(requestId, "alpha", "http", requestTime, ToUpper(config.httpVerb), "127.0.0.1")
  {
    var parts := ReadAgainstFake(ProxySource(config, relativeUrl));
    var merged := Merge(ParseWithArraySupport(QueryText(parts)), config.params);
    assert merged == ProxyParams(config, relativeUrl);
    var params, multi := SplitParams(merged);
    var httpMethod := ToUpper(config.httpVerb);
    var headers, multiValueHeaders := ApiGateway.ToProxyHeaders(config.headers);
    var body := match DataOr(config.data) case Text(t) => t case _ => "";
    event := ProxyEvent(body, headers, multiValueHeaders, httpMethod, RootedPath(parts.path), params, multi, false,
      RequestContext(requestId, "alpha", "http", requestTime, httpMethod, "127.0.0.1"));
    if DataOr(config.data).Binary? {
      event := event.(body := Base64.Encode(config.data.bytes), isBase64Encoded := true);
    }
  }

  /** A binary body is carried as text its receiver can decode back to the
      same bytes; a text body is carried as it is. */
  lemma BodyDecodes(d: Data)
    ensures d.Binary? ==> Base64.Decode(BodyText(d)) == Some(d.bytes)
    ensures d.Text? ==> BodyText(d) == d.text
    ensures d.NoData? ==> BodyText(d) == ""
  {
    if d.Binary? {
      Base64.DecodeEncode(d.bytes);
    }
  }

  lemma WellFormedPathHasNoQuery(r: Rfc3986.Reference)
    requires Rfc3986.WellFormed(r)
    ensures '?' !in r.path
  {
    forall k | 0 <= k < |r.path| ensures r.path[k] != '?' {
      assert !Rfc3986.StopsAt(Rfc3986.PathEnd, r.path[k]);
    }
  }

  /** Resolving never brings a `?` into the path. */
  lemma ResolvedPathHasNoQuery(b: Rfc3986.Reference, r: Rfc3986.Reference)
    requires '?' !in b.path && Rfc3986.WellFormed(r)
    ensures '?' !in Rfc3986.Resolve(b, r).path
  {
    WellFormedPathHasNoQuery(r);
    var p := Rfc3986.Resolve(b, r).path;
    forall c | c in p ensures c != '?' {
      if r.scheme.Some? {
        Rfc3986.RemoveDotSegmentsChars(r.path, c);
      } else {
        Rfc3986.ResolvedPathCharsFrom(b, r, c);
      }
    }
  }

  /** The event path holds no query: `?` and what follows it go to the
      parameters. */
  lemma ProxyPathHasNoQuery(address: string)
    ensures '?' !in RootedPath(ReadAgainstFake(address).path)
  {
    Rfc3986.ParseWellFormed(address);
    FakeBasePathHasNoQuery();
    ResolvedPathHasNoQuery(Rfc3986.Parse(FakeBase), Rfc3986.Parse(address));
    var p := ReadAgainstFake(address).path;
    assert RootedPath(p) == p || RootedPath(p) == "/" + p;
  }

  lemma FakeBasePathHasNoQuery()
    ensures '?' !in Rfc3986.Parse(FakeBase).path
  {
    assert '?' !in FakeBase;
    Rfc3986.ParseChars(FakeBase, '?');
  }

  /** A key the query repeats and `config.params` does not set reaches the
      handler as an array of all its values, in order, and is not among the
      single-valued parameters; a repeated `__proto__` reaches neither map. */
  lemma RepeatedKeyIsMultiValue(q: string, params: map<string, QueryValue>, key: string)
    requires key !in params
    requires |ValuesOf(Pairs(DropQuestionMark(q)), key)| >= 2
    ensures key != Js.ProtoKey ==> MultiParams(Merge(ParseWithArraySupport(q), params)).Some?
    ensures key != Js.ProtoKey ==>
      key in MultiParams(Merge(ParseWithArraySupport(q), params)).value
      && MultiParams(Merge(ParseWithArraySupport(q), params)).value[key] == ValuesOf(Pairs(DropQuestionMark(q)), key)
    ensures key == Js.ProtoKey ==>
      MultiParams(Merge(ParseWithArraySupport(q), params)).None?
      || key !in MultiParams(Merge(ParseWithArraySupport(q), params)).value
    ensures key !in SingleParams(Merge(ParseWithArraySupport(q), params))
  {
    ParseGroups(DropQuestionMark(q), key);
    var m := Merge(ParseWithArraySupport(q), params);
    if key != Js.ProtoKey {
      assert key in m && m[key].Multi?;
    }
  }

  // ---------------------------------------------------------------------------
  // src/utils/lambdaEvent.ts and src/adapters/helpers/lambdaEvent.js

  /** The smaller event of the older builders; `isBase64Encoded` is absent
      unless it is set. */
  datatype HttpEvent = HttpEvent(
    body: Data,
    headers: Option<map<string, ApiGateway.HeaderValue>>,
    httpMethod: string,
    path: string,
    queryStringParameters: map<string, QueryValue>,
    isBase64Encoded: Option<bool>)

  predicate Truthy(s: Option<string>) {
    s.Some? && s.value != ""
  }

  /** `relativeUrl || config.url || config.baseURL`: an empty string falls
      through to the next candidate. */
  function HttpSource(config: EventConfig, relativeUrl: Option<string>): string {
    if Truthy(relativeUrl) then relativeUrl.value
    else if Truthy(config.url) then config.url.value
    else config.baseURL.GetOr("")
  }

  /** The protocols `url-parse` treats as special. */
  predicate SpecialScheme(scheme: Option<string>) {
    scheme.Some? &&
    var s := ToLower(scheme.value);
    s == "http" || s == "https" || s == "ws" || s == "wss" || s == "ftp" || s == "file"
  }

  /** `urlParse(address, true).pathname` with no location to resolve against. */
  function UrlParsePathname(address: string): string {
    var r := Rfc3986.Parse(address);
    if SpecialScheme(r.scheme) then RootedPath(r.path) else r.path
  }

  /** The merged parameters: the first value of each query key, overridden by
      `config.params`. */
  function HttpParams(config: EventConfig, relativeUrl: Option<string>): map<string, QueryValue> {
    var first := ParseFirst(QueryText(Rfc3986.Parse(HttpSource(config, relativeUrl))));
    Merge(map k | k in first :: Single(first[k]), config.params)
  }

  /** A name every object inherits never comes from the query: it is a
      parameter only when `config.params` sets it, and `__proto__` never is. */
  lemma InheritedNamesOnlyFromParams(config: EventConfig, relativeUrl: Option<string>, key: string)
    requires key in Js.ObjectPrototypeNames
    ensures key in HttpParams(config, relativeUrl) <==> key in config.params && key != Js.ProtoKey
    ensures key in HttpParams(config, relativeUrl) ==> HttpParams(config, relativeUrl)[key] == config.params[key]
  {
    var q := QueryText(Rfc3986.Parse(HttpSource(config, relativeUrl)));
    CollectFirstIsFirst(MatchesOf(Split(q, '&')), key);
  }

  /** The default export of `src/utils/lambdaEvent.ts`. */
  method BuildHttpEvent(config: EventConfig, relativeUrl: Option<string>) returns (event: HttpEvent)
    ensures event.path == UrlParsePathname(HttpSource(config, relativeUrl))
    ensures event.queryStringParameters == HttpParams(config, relativeUrl)
    ensures event.headers == config.headers && event.httpMethod == ToUpper(config.httpVerb)
    ensures event.body == Text(BodyText(config.data))
    ensures event.isBase64Encoded == if config.data.Binary? then Some(true) else None
  {
    var address := HttpSource(config, relativeUrl);
    event := HttpEvent(DataOr(config.data), config.headers, ToUpper(config.httpVerb),
      UrlParsePathname(address), HttpParams(config, relativeUrl), None);
    if event.body.Binary? {
      event := event.(body := Text(Base64.Encode(event.body.bytes)), isBase64Encoded := Some(true));
    }
  }

  const LocalBase: string := "http://localhost"

  /** `String(config.url)`: an undefined URL is read as the text "undefined". */
  function UrlText(url: Option<string>): string {
    match url
    case Some(u) => u
    case None => "undefined"
  }

  /** The module of `src/adapters/helpers/lambdaEvent.js`: `new URL(config.url,
      'http://localhost')`, None where that constructor throws; the path is
      the URL's `pathname` and the parameters are its query, parsed. */
  function JsEvent(config: EventConfig): (r: Option<HttpEvent>)
    ensures r.Some? <==> Resolve.UrlJoin(UrlText(config.url), LocalBase).Some?
    ensures r.Some? ==> r.value.isBase64Encoded.None? && r.value.headers == config.headers
    ensures r.Some? ==> r.value.body == DataOr(config.data) && r.value.httpMethod == ToUpper(config.httpVerb)
    ensures r.Some? ==>
      var joined := Resolve.UrlJoin(UrlText(config.url), LocalBase).value;
      r.value.path == UrlParsePathname(joined) &&
      r.value.queryStringParameters == Parse(Rfc3986.Parse(joined).query.GetOr(""))
  {
    var joined :- Resolve.UrlJoin(UrlText(config.url), LocalBase);
    var u := Rfc3986.Parse(joined);
    Some(HttpEvent(DataOr(config.data), config.headers, ToUpper(config.httpVerb), UrlParsePathname(joined),
      Parse(u.query.GetOr("")), None))
  }

  const LocalHostName: string := "localhost"

  lemma LocalBaseParse()
    ensures Rfc3986.Parse(LocalBase) == Rfc3986.Reference(Some("http"), Some(LocalHostName), "", None, None)
  {
    LocalBaseText();
    LocalHostNameChars();
    Resolve.FakeSchemeIsValid();
    Rfc3986.ParseWithScheme(Resolve.FakeScheme, "//" + LocalHostName + "");
    Rfc3986.AuthorityOnWith(Some(Resolve.FakeScheme), LocalHostName, "");
  }

  lemma LocalBaseText()
    ensures LocalBase == Resolve.FakeScheme + ":" + ("//" + LocalHostName + "")
  {
  }

  lemma LocalHostNameChars()
    ensures forall k :: 0 <= k < |LocalHostName| ==> !Rfc3986.StopsAt(Rfc3986.AuthorityEnd, LocalHostName[k])
  {
  }

  /** A relative URL is resolved against `http://localhost`, so the event
      path is rooted: the empty URL, a bare query or a relative segment all
      give a path that starts with `/`. */
  lemma JsEventPathIsRooted(config: EventConfig)
    requires Rfc3986.Parse(UrlText(config.url)).scheme.None?
    ensures JsEvent(config).Some? ==> StartsWith(JsEvent(config).value.path, "/")
  {
    if JsEvent(config).None? { return; }
    var joined := Resolve.UrlJoin(UrlText(config.url), LocalBase).value;
    JoinedOnLocalBaseIsHttp(UrlText(config.url));
    HttpIsSpecial();
    assert UrlParsePathname(joined) == RootedPath(Rfc3986.Parse(joined).path);
  }

  /** A relative URL joined to `http://localhost` keeps the `http` scheme. */
  lemma JoinedOnLocalBaseIsHttp(url: string)
    requires Rfc3986.Parse(url).scheme.None?
    ensures Resolve.UrlJoin(url, LocalBase).Some? ==>
      Rfc3986.Parse(Resolve.UrlJoin(url, LocalBase).value).scheme == Some("http")
  {
    if Resolve.UrlJoin(url, LocalBase).None? { return; }
    var b := Rfc3986.Parse(LocalBase);
    var ref := Rfc3986.Parse(url);
    LocalBaseParse();
    assert Resolve.ReadReference(url) == ref;
    assert Resolve.UrlJoin(url, LocalBase).value == Rfc3986.Recompose(Rfc3986.Resolve(b, ref));
    Rfc3986.ParseWellFormed(LocalBase);
    Rfc3986.ParseWellFormed(url);
    Rfc3986.ResolveWellFormed(b, ref);
  }

  lemma HttpIsSpecial()
    ensures SpecialScheme(Some("http"))
  {
    assert ToLower("http") == "http";
  }

  // ---------------------------------------------------------------------------
  // How the generations differ

  /** The current builder honours an empty relative URL, the older one falls
      back to `config.url` for it. */
  lemma EmptyRelativeUrl(config: EventConfig)
    requires Truthy(config.url)
    ensures ProxySource(config, Some("")) == ""
    ensures HttpSource(config, Some("")) == config.url.value
  {
  }

  /** Both newer builders send a binary body as base 64 text and the same
      text otherwise; the oldest one passes the buffer through. */
  lemma BodiesAcrossGenerations(config: EventConfig)
    ensures BodyText(config.data) == match config.data
      case Binary(b) => Base64.Encode(b) case Text(t) => t case NoData => ""
    ensures config.data.Binary? ==> JsEvent(config).None? || JsEvent(config).value.body == config.data
  {
  }

  /** Where the current builder keeps every value of a repeated key, the
      older one keeps only the first, and nothing for an inherited name. */
  lemma FirstWinsAgainstArrays(pairs: seq<Pair>, key: string)
    requires |ValuesOf(pairs, key)| >= 2
    ensures key in Collect(pairs) && Collect(pairs)[key] == Multi(ValuesOf(pairs, key))
    ensures key in CollectFirst(pairs) <==> key !in Js.ObjectPrototypeNames
    ensures key in CollectFirst(pairs) ==> CollectFirst(pairs)[key] == ValuesOf(pairs, key)[0]
  {
    CollectGroups(pairs, key);
    CollectFirstIsFirst(pairs, key);
  }
}
