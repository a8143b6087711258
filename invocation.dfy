/** Invoking a Lambda function for a `lambda://` request, in three
    generations:
      - `invokeLambda` of `src/awsV2/lambdaV2.ts` joins a relative URL onto
        the base by concatenation and writes the result back;
      - `lambdaInvocationAdapter` of `src/adapters/lambda-invocation.ts`
        resolves the URL against the base and leaves the configuration alone;
      - the adapter of `src/adapters/lambda-invocation.js` reads the URL with
        its own regular expression.
    The Lambda service is a function from the request to its answer. The
    event the request's payload carries is built by LambdaEvent; here it
    stands as the path the event builder is given. */
module Invocation {
  import opened Wrappers
  import opened Strings
  import opened Js
  import opened RequestErrors
  import opened LambdaUrlGrammar
  import AlphaConfig
  import Url
  import LambdaUrlParsers
  import AbsoluteUrl
  import Resolve
  import LambdaResponse
  import Retry

  datatype Generation = V2 | TypeScript | CommonJs

  /** The `InvocationRequest`: `eventPath` is the path handed to the event
      builder, `qualifier` the optional `Qualifier`. */
  datatype InvocationRequest = InvocationRequest(functionName: string, invocationType: string, eventPath: string,
                                                 qualifier: Option<string>)

  const RequestResponse: string := "RequestResponse"

  /** `result.Payload`: absent or empty, the JSON `null`, or a proxy-style
      payload. */
  datatype PayloadText = Missing | JsonNull | Proxy(payload: LambdaResponse.Payload)

  /** What the service does with a request: answers (`resultJson` is the
      answer as `JSON.stringify` prints it), fails, or does not answer
      before the timer fires. */
  datatype ServiceAnswer =
    | Answered(payload: PayloadText, functionError: Option<string>, resultJson: string)
    | ServiceFailed
    | NoAnswer

  /** Why an adapter's promise rejects: the URL assertion, a TypeError or
      SyntaxError the code does not catch, the service's own error passed
      on, or an error the adapter or the response builder raises. */
  datatype AdapterError<C> =
    | NotALambdaUrl(message: string)
    | Uncaught
    | ServiceError
    | Raised(failure: LambdaResponse.Failure<C, InvocationRequest>)

  /** How an adapter's promise settles; `Pending` when it never does. */
  datatype Settled<C> =
    | Resolved(response: LambdaResponse.Response<C, InvocationRequest>)
    | Failed(error: AdapterError<C>)
    | Pending

  // ---------------------------------------------------------------------------
  // Client options

  datatype HttpOptions = HttpOptions(connectTimeout: int, timeout: int)
  datatype ClientOptions = ClientOptions(endpoint: Value, httpOptions: Option<HttpOptions>)

  /** `config.timeout` when it is truthy. */
  function TimeoutOf(fields: Fields): Option<int> {
    var t := Get(fields, "timeout");
    if t.Number? && t.n != 0 then Some(t.n) else None
  }

  /** The options the Lambda client is built with; `envEndpoint` is
      `process.env.LAMBDA_ENDPOINT`. */
  function ClientOptionsFor(g: Generation, fields: Fields, envEndpoint: Value): (r: ClientOptions)
    ensures g == V2 ==> r.endpoint == Or(Get(fields, "lambdaEndpoint"), envEndpoint)
    ensures g != V2 ==> r.endpoint == envEndpoint
    ensures r.httpOptions.Some? <==> g != CommonJs && TimeoutOf(fields).Some?
    ensures r.httpOptions.Some? ==>
      r.httpOptions.value.connectTimeout == TimeoutOf(fields).value && r.httpOptions.value.timeout == TimeoutOf(fields).value
  {
    var endpoint := if g == V2 then Or(Get(fields, "lambdaEndpoint"), envEndpoint) else envEndpoint;
    var t := TimeoutOf(fields);
    ClientOptions(endpoint, if g != CommonJs && t.Some? then Some(HttpOptions(t.value, t.value)) else None)
  }

  // ---------------------------------------------------------------------------
  // Messages

  function NotLambdaMessage(url: string): string {
    "The config.url, '" + url + "' does not appear to be a Lambda Function URL"
  }

  function UnexpectedPayloadMessage(url: string, resultJson: string): string {
    "Unexpected Payload shape from " + url + ". The full response was\n" + resultJson
  }

  function TimeoutMessage(t: int): string {
    "Timeout after " + IntToString(t) + "ms"
  }

  /** `${url}` of a URL that may be missing. */
  function UrlText(url: Option<string>): string {
    url.GetOr("undefined")
  }

  // ---------------------------------------------------------------------------
  // The request

  /** The request for a function, a qualifier (empty when there is none) and
      a path. */
  function RequestFor(name: string, qualifier: string, path: string): (r: InvocationRequest)
    ensures r.functionName == name && r.invocationType == RequestResponse && r.eventPath == path
    ensures r.qualifier.Some? <==> qualifier != ""
    ensures r.qualifier.Some? ==> r.qualifier.value == qualifier
  {
    InvocationRequest(name, RequestResponse, path, if qualifier != "" then Some(qualifier) else None)
  }

  /** The request literal, then `request.Qualifier = ...` when the qualifier
      is truthy. */
  method BuildRequest(name: string, qualifier: string, path: string) returns (request: InvocationRequest)
    ensures request == RequestFor(name, qualifier, path)
  {
    request := InvocationRequest(name, RequestResponse, path, None);
    if qualifier != "" {
      request := request.(qualifier := Some(qualifier));
    }
  }

  // ---------------------------------------------------------------------------
  // Classifying the answer

  function ErrorClassOf(g: Generation): ErrorClass {
    match g
    case V2 => AlphaClass
    case TypeScript => UtilsClass
    case CommonJs => CommonJsClass
  }

  /** The error the timer rejects with: code `ECONNABORTED`, and marked as
      an invocation timeout except in the CommonJS generation. */
  function TimeoutError<C>(g: Generation, t: int, config: C, request: InvocationRequest)
    : RequestError<C, InvocationRequest, LambdaResponse.Response<C, InvocationRequest>>
  {
    var e := NewError(ErrorClassOf(g), TimeoutMessage(t), config, request, None);
    if g == CommonJs then e.(code := Some(Retry.EConnAborted))
    else e.(code := Some(Retry.EConnAborted), isLambdaInvokeTimeout := Some(true))
  }

  /** Whether the answer's `FunctionError` raises: any non-empty one in the
      TypeScript generations, only `unhandled` in any case in CommonJS. */
  predicate FunctionErrorRaises(g: Generation, functionError: Option<string>) {
    if g == CommonJs then ToLower(functionError.GetOr("")) == "unhandled"
    else functionError.Some? && functionError.value != ""
  }

  function FromResult<C>(r: Result<LambdaResponse.Response<C, InvocationRequest>, LambdaResponse.Failure<C, InvocationRequest>>)
    : Settled<C>
  {
    match r
    case Ok(response) => Resolved(response)
    case Err(f) => Failed(Raised(f))
  }

  /** A RequestError of the generation's class, with no response. */
  function RaisedError<C>(g: Generation, message: string, config: C, request: InvocationRequest): (r: Settled<C>)
    ensures r.Failed? && r.error.Raised? && r.error.failure.Rejected?
    ensures var e := r.error.failure.error;
      e.message == message && e.config == config && e.request == request && e.response.None?
      && (e.isAlphaRequestError <==> g == V2)
  {
    Failed(Raised(LambdaResponse.Rejected(NewError(ErrorClassOf(g), message, config, request, None))))
  }

  /** What the adapter does once the request is sent: `url` is the URL the
      request was read from, `responseType` matters in the V2 generation
      only. */
  function Settle<C>(g: Generation, config: C, timeout: Option<int>, url: string, request: InvocationRequest,
                     answer: ServiceAnswer, validateStatus: Option<int -> bool>, responseType: Option<string>,
                     statusTexts: map<int, string>)
    : Settled<C>
  {
    match answer
    case NoAnswer =>
      if timeout.Some? then Failed(Raised(LambdaResponse.Rejected(TimeoutError(g, timeout.value, config, request))))
      else Pending
    case ServiceFailed => Failed(ServiceError)
    case Answered(payload, functionError, resultJson) =>
      if payload.Missing? && g != V2 then Failed(Uncaught)
      else if payload.JsonNull? && g == CommonJs then Failed(Uncaught)
      else if !payload.Proxy? then RaisedError(g, UnexpectedPayloadMessage(url, resultJson), config, request)
      else if FunctionErrorRaises(g, functionError) then RaisedError(g, payload.payload.errorMessage, config, request)
      else if g == V2 then
        FromResult(LambdaResponse.BuildResponse(config, validateStatus, responseType, request, payload.payload, statusTexts))
      else
        FromResult(LambdaResponse.BuildLegacyResponse(ErrorClassOf(g), config, validateStatus, request, payload.payload, statusTexts))
  }

  // ---------------------------------------------------------------------------
  // lambdaV2.ts

  /** `config.baseURL && !isAbsoluteURL(config.url)`. */
  predicate JoinsBase(url: Option<string>, baseURL: Option<string>) {
    baseURL.Some? && baseURL.value != "" && url.Some? && !AbsoluteUrl.IsAbsolute(url.value)
  }

  /** The URL `invokeLambda` parses: the base and the URL side by side when
      it joins them, the URL otherwise. None when `isAbsoluteURL` is handed
      a missing URL, which throws. */
  function ComposedUrl(url: Option<string>, baseURL: Option<string>): Option<Option<string>> {
    if JoinsBase(url, baseURL) then Some(Some(baseURL.value + url.value))
    else if baseURL.Some? && baseURL.value != "" && url.None? then None
    else Some(url)
  }

  /** How `invokeLambda` settles for a configuration: `url` and `baseURL`
      are read as strings or as missing. */
  function InvokeLambdaOutcome<C>(config: C, fields: Fields, validateStatus: Option<int -> bool>, statusTexts: map<int, string>,
                                  invoke: InvocationRequest -> ServiceAnswer)
    : Settled<C>
  {
    match ComposedUrl(TextOf(Get(fields, "url")), TextOf(Get(fields, "baseURL")))
    case None => Failed(Uncaught)
    case Some(url) =>
      OutcomeForUrl(V2, config, url, if url.Some? then Url.WithQuery(url.value) else None, TimeoutOf(fields),
                    validateStatus, TextOf(Get(fields, "responseType")), statusTexts, invoke)
  }

  /** The part every generation shares once it has read `url` into `parts`:
      the assertion, the request and the answer. */
  function OutcomeForUrl<C>(g: Generation, config: C, url: Option<string>, parts: Option<LambdaUrl>, timeout: Option<int>,
                            validateStatus: Option<int -> bool>, responseType: Option<string>, statusTexts: map<int, string>,
                            invoke: InvocationRequest -> ServiceAnswer)
    : Settled<C>
  {
    if parts.None? then Failed(NotALambdaUrl(NotLambdaMessage(UrlText(url))))
    else
      var request := RequestFor(parts.value.name, parts.value.qualifier, parts.value.path);
      Settle(g, config, timeout, UrlText(url), request, invoke(request), validateStatus, responseType, statusTexts)
  }

  /** The configuration after `invokeLambda`: the joined URL written back. */
  function WrittenBack(fields: Fields): Fields {
    var url := TextOf(Get(fields, "url"));
    var baseURL := TextOf(Get(fields, "baseURL"));
    if JoinsBase(url, baseURL) then fields["url" := Str(baseURL.value + url.value)] else fields
  }

  /** The base URL joined onto a relative `url` and written back into the
      configuration; None when there is a base URL but no `url`, where the
      concatenation throws. */
  method ComposeUrl(config: AlphaConfig.Config) returns (composed: Option<Option<string>>)
    modifies config
    ensures composed == ComposedUrl(TextOf(Get(old(config.fields), "url")), TextOf(Get(old(config.fields), "baseURL")))
    ensures config.fields == WrittenBack(old(config.fields))
  {
    var url := TextOf(Get(config.fields, "url"));
    var baseURL := TextOf(Get(config.fields, "baseURL"));
    if baseURL.Some? && baseURL.value != "" {
      if url.None? {
        return None;
      }
      if !AbsoluteUrl.IsAbsolute(url.value) {
        url := Some(baseURL.value + url.value);
        config.fields := config.fields["url" := Str(url.value)];
      }
    }
    return Some(url);
  }

  method InvokeLambda(config: AlphaConfig.Config, envEndpoint: Value, validateStatus: Option<int -> bool>,
                      statusTexts: map<int, string>, invoke: InvocationRequest -> ServiceAnswer)
      returns (options: ClientOptions, result: Settled<AlphaConfig.Config>)
    modifies config
    ensures options == ClientOptionsFor(V2, old(config.fields), envEndpoint)
    ensures config.fields == WrittenBack(old(config.fields))
    ensures result == InvokeLambdaOutcome(config, old(config.fields), validateStatus, statusTexts, invoke)
  {
    ghost var fields := config.fields;
    var timeout := TimeoutOf(config.fields);
    options := ClientOptions(Or(Get(config.fields, "lambdaEndpoint"), envEndpoint), None);
    if timeout.Some? {
      options := options.(httpOptions := Some(HttpOptions(timeout.value, timeout.value)));
    }
    var responseType := TextOf(Get(config.fields, "responseType"));
    var composed := ComposeUrl(config);
    if composed.None? {
      return options, Failed(Uncaught);
    }
    var url := composed.value;
    var parts: Option<LambdaUrl> := None;
    if url.Some? {
      parts := Url.ParseLambdaUrl(url.value);
    }
    InvokeLambdaOutcomeAt(config, fields, validateStatus, statusTexts, invoke, url);
    result := SettleParsed(V2, config, url, parts, timeout, validateStatus, responseType, statusTexts, invoke);
  }

  /** Once the URL is composed, the outcome is the one for that URL. */
  lemma InvokeLambdaOutcomeAt<C>(config: C, fields: Fields, validateStatus: Option<int -> bool>, statusTexts: map<int, string>,
                                 invoke: InvocationRequest -> ServiceAnswer, url: Option<string>)
    requires ComposedUrl(TextOf(Get(fields, "url")), TextOf(Get(fields, "baseURL"))) == Some(url)
    ensures InvokeLambdaOutcome(config, fields, validateStatus, statusTexts, invoke)
      == OutcomeForUrl(V2, config, url, if url.Some? then Url.WithQuery(url.value) else None, TimeoutOf(fields),
                       validateStatus, TextOf(Get(fields, "responseType")), statusTexts, invoke)
  {
  }

  /** The invocation once the URL is parsed: a URL that is not a Lambda URL
      is rejected, otherwise the function is invoked and its answer
      settled. */
  method SettleParsed<C>(g: Generation, config: C, url: Option<string>, parts: Option<LambdaUrl>, timeout: Option<int>,
                         validateStatus: Option<int -> bool>, responseType: Option<string>, statusTexts: map<int, string>,
                         invoke: InvocationRequest -> ServiceAnswer)
      returns (result: Settled<C>)
    ensures result == OutcomeForUrl(g, config, url, parts, timeout, validateStatus, responseType, statusTexts, invoke)
  {
    if parts.None? {
      return Failed(NotALambdaUrl(NotLambdaMessage(UrlText(url))));
    }
    var request := BuildRequest(parts.value.name, parts.value.qualifier, parts.value.path);
    var answer := invoke(request);
    result := Settle(g, config, timeout, UrlText(url), request, answer, validateStatus, responseType, statusTexts);
  }

  // ---------------------------------------------------------------------------
  // lambda-invocation.ts

  /** How `lambdaInvocationAdapter` settles: the URL is
      `resolveUrl(config.url || '', config.baseURL || '')`, read by the
      whole-input grammar parser. */
  function LambdaInvocationOutcome<C>(config: C, fields: Fields, validateStatus: Option<int -> bool>,
                                      statusTexts: map<int, string>, invoke: InvocationRequest -> ServiceAnswer)
    : Settled<C>
  {
    match Resolve.ResolveUrl(Some(TextOf(Get(fields, "url")).GetOr("")), Some(TextOf(Get(fields, "baseURL")).GetOr("")))
    case None => Failed(Uncaught)
    case Some(url) =>
      OutcomeForUrl(TypeScript, config, url, if url.Some? then LambdaUrlParsers.ParseWholeUrl(url.value) else None,
                    TimeoutOf(fields), validateStatus, None, statusTexts, invoke)
  }

  method LambdaInvocationAdapter(config: AlphaConfig.Config, envEndpoint: Value, validateStatus: Option<int -> bool>,
                                 statusTexts: map<int, string>, invoke: InvocationRequest -> ServiceAnswer)
      returns (options: ClientOptions, result: Settled<AlphaConfig.Config>)
    ensures options == ClientOptionsFor(TypeScript, config.fields, envEndpoint)
    ensures result == LambdaInvocationOutcome(config, config.fields, validateStatus, statusTexts, invoke)
  {
    var timeout := TimeoutOf(config.fields);
    options := ClientOptions(envEndpoint, None);
    if timeout.Some? {
      options := options.(httpOptions := Some(HttpOptions(timeout.value, timeout.value)));
    }
    var resolved := Resolve.ResolveUrl(Some(TextOf(Get(config.fields, "url")).GetOr("")),
                                       Some(TextOf(Get(config.fields, "baseURL")).GetOr("")));
    if resolved.None? {
      return options, Failed(Uncaught);
    }
    var url := resolved.value;
    var parts: Option<LambdaUrl> := None;
    if url.Some? {
      parts := LambdaUrlParsers.ParseWholeUrl(url.value);
    }
    result := SettleParsed(TypeScript, config, url, parts, timeout, validateStatus, None, statusTexts, invoke);
  }

  // ---------------------------------------------------------------------------
  // lambda-invocation.js

  /** The groups `LAMBDA_URL_PATTERN` captures: name, qualifier and path. */
  datatype Captures = Captures(name: string, qualifier: Option<string>, path: string)

  /** `^lambda://([a-zA-Z0-9-_]+)(:($LATEST|[a-zA-Z0-9-_]+))?(.*)` as the
      matcher runs it. The unescaped `$` is an end-of-input anchor, so the
      `$LATEST` alternative never matches; the path group is not anchored
      and takes whatever characters up to a line terminator remain. */
  function JsPattern(url: string): Option<Captures> {
    if !StartsWith(url, Scheme) then None
    else
      var i := |Scheme|;
      var n := LambdaUrlParsers.NameRun(url, i);
      if n == 0 then None
      else Some(JsGroups(url, i, i + n))
  }

  /** The qualifier and path groups after a name that spans `i` to `j`. */
  function JsGroups(url: string, i: nat, j: nat): Captures
    requires i <= j <= |url|
  {
    if j < |url| && url[j] == ':' && LambdaUrlParsers.NameRun(url, j + 1) > 0 then
      var k := j + 1 + LambdaUrlParsers.NameRun(url, j + 1);
      Captures(url[i..j], Some(url[j + 1..k]), url[k..k + LambdaUrlParsers.LineRun(url, k)])
    else
      Captures(url[i..j], None, url[j..j + LambdaUrlParsers.LineRun(url, j)])
  }

  /** The pattern matches exactly the URLs with a name character after the
      scheme; the name and qualifier it captures are function names, and the
      path holds no line terminator. */
  lemma JsPatternShape(url: string)
    ensures var r := JsPattern(url);
      && (r.Some? <==> StartsWith(url, Scheme) && |url| > |Scheme| && IsNameChar(url[|Scheme|]))
      && (r.Some? ==> IsFunctionName(r.value.name))
      && (r.Some? && r.value.qualifier.Some? ==> IsFunctionName(r.value.qualifier.value))
      && (r.Some? ==> forall k :: 0 <= k < |r.value.path| ==> !IsLineTerminator(r.value.path[k]))
  {
    if StartsWith(url, Scheme) && LambdaUrlParsers.NameRun(url, |Scheme|) > 0 {
      JsGroupsShape(url, |Scheme|, |Scheme| + LambdaUrlParsers.NameRun(url, |Scheme|));
    }
  }

  lemma JsGroupsShape(url: string, i: nat, j: nat)
    requires i <= j <= |url|
    ensures var c := JsGroups(url, i, j);
      && c.name == url[i..j]
      && (c.qualifier.Some? ==> IsFunctionName(c.qualifier.value))
      && (forall k :: 0 <= k < |c.path| ==> !IsLineTerminator(c.path[k]))
  {
  }

  /** How the CommonJS adapter settles: `exec(config.url)` reads a missing
      URL as the text `undefined`. */
  function LegacyAdapterOutcome<C>(config: C, fields: Fields, validateStatus: Option<int -> bool>,
                                   statusTexts: map<int, string>, invoke: InvocationRequest -> ServiceAnswer)
    : Settled<C>
  {
    var url := UrlText(TextOf(Get(fields, "url")));
    match JsPattern(url)
    case None => Failed(NotALambdaUrl(NotLambdaMessage(url)))
    case Some(c) =>
      var request := RequestFor(c.name, c.qualifier.GetOr(""), c.path);
      Settle(CommonJs, config, TimeoutOf(fields), url, request, invoke(request), validateStatus, None, statusTexts)
  }

  method LegacyInvocationAdapter(config: AlphaConfig.Config, envEndpoint: Value, validateStatus: Option<int -> bool>,
                                 statusTexts: map<int, string>, invoke: InvocationRequest -> ServiceAnswer)
      returns (options: ClientOptions, result: Settled<AlphaConfig.Config>)
    ensures options == ClientOptionsFor(CommonJs, config.fields, envEndpoint)
    ensures result == LegacyAdapterOutcome(config, config.fields, validateStatus, statusTexts, invoke)
  {
    options := ClientOptions(envEndpoint, None);
    var url := UrlText(TextOf(Get(config.fields, "url")));
    var parts := JsPattern(url);
    if parts.None? {
      return options, Failed(NotALambdaUrl(NotLambdaMessage(url)));
    }
    var request := BuildRequest(parts.value.name, parts.value.qualifier.GetOr(""), parts.value.path);
    var answer := invoke(request);
    result := Settle(CommonJs, config, TimeoutOf(config.fields), url, request, answer, validateStatus, None, statusTexts);
  }

  // ---------------------------------------------------------------------------
  // Properties of the regular expression

  /** After the name, a character that can neither continue it nor start a
      qualifier begins the path, which runs to the end: `lambda://fn.test`
      is function `fn` with path `.test`. */
  lemma JsUnqualifiedTail(name: string, tail: string)
    requires IsFunctionName(name)
    requires |tail| > 0 && !IsNameChar(tail[0])
    requires tail[0] == ':' ==> |tail| == 1 || !IsNameChar(tail[1])
    requires forall k :: 0 <= k < |tail| ==> !IsLineTerminator(tail[k])
    ensures JsPattern(Scheme + name + tail) == Some(Captures(name, None, tail))
  {
    var s := Scheme + name + tail;
    var i := |Scheme|;
    var j := i + |name|;
    JsNameLayout(name, tail);
    JsTailRuns(s, j, tail);
    JsPatternMatches(s);
    JsGroupsUnqualified(s, i, j);
    assert s[j..j + |tail|] == tail;
  }

  /** The scheme, then a name that the name run reads whole, then the tail. */
  lemma JsNameLayout(name: string, tail: string)
    requires IsFunctionName(name)
    requires |tail| > 0 && !IsNameChar(tail[0])
    ensures var s := Scheme + name + tail;
      && StartsWith(s, Scheme) && LambdaUrlParsers.NameRun(s, |Scheme|) == |name|
      && s[|Scheme|..|Scheme| + |name|] == name && s[|Scheme| + |name|..] == tail
  {
    var s := Scheme + name + tail;
    var j := |Scheme| + |name|;
    Strings.ThreePieces(s, Scheme, name, tail);
    assert StartsWith(s, Scheme);
    assert s[j] == tail[0];
    LambdaUrlParsers.NameRunIs(s, |Scheme|, |name|);
  }

  /** The runs the pattern reads over a tail that is not a qualifier. */
  lemma JsTailRuns(s: string, j: nat, tail: string)
    requires j <= |s| && s[j..] == tail
    requires |tail| > 0 && tail[0] == ':' ==> |tail| == 1 || !IsNameChar(tail[1])
    requires forall k :: 0 <= k < |tail| ==> !IsLineTerminator(tail[k])
    ensures LambdaUrlParsers.LineRun(s, j) == |tail|
    ensures j < |s| && s[j] == ':' ==> LambdaUrlParsers.NameRun(s, j + 1) == 0
  {
    assert forall m :: j <= m < |s| ==> s[m] == tail[m - j];
    LambdaUrlParsers.LineRunIs(s, j, |tail|);
    if j < |s| && s[j] == ':' && j + 1 < |s| {
      assert s[j + 1] == tail[1];
    }
  }

  /** `$LATEST` is never read as a qualifier: after a name it stays in the
      path, colon included. */
  lemma JsLatestFallsIntoPath(name: string, rest: string)
    requires IsFunctionName(name)
    requires forall k :: 0 <= k < |rest| ==> !IsLineTerminator(rest[k])
    ensures JsPattern(Scheme + name + ":" + Latest + rest) == Some(Captures(name, None, ":" + Latest + rest))
  {
    var tail := ":" + Latest + rest;
    assert tail[1] == '$';
    assert forall k :: 0 <= k < |tail| ==> !IsLineTerminator(tail[k]) by {
      forall k | 0 <= k < |tail| ensures !IsLineTerminator(tail[k]) {
        if k >= 1 + |Latest| {
          assert tail[k] == rest[k - 1 - |Latest|];
        }
      }
    }
    JsUnqualifiedTail(name, tail);
    assert Scheme + name + ":" + Latest + rest == Scheme + name + tail;
  }

  /** `(/.*|$)` reads the same path as the unanchored `(.*)` wherever it
      matches. */
  lemma PathGroupIsLineRun(s: string, k: nat)
    requires k <= |s| && LambdaUrlParsers.PathGroup(s, k).Some?
    ensures LambdaUrlParsers.PathGroup(s, k).value == s[k..k + LambdaUrlParsers.LineRun(s, k)]
  {
  }

  /** Wherever the helper's expression `(/.*|$)` matches with a qualifier
      other than `$LATEST`, this one captures the same name, qualifier and
      path. */
  lemma JsPatternExtendsHelperRegex(url: string)
    requires LambdaUrlParsers.RegexParse(url).Some? && LambdaUrlParsers.RegexParse(url).value.qualifier != Latest
    ensures var u := LambdaUrlParsers.RegexParse(url).value;
      JsPattern(url) == Some(Captures(u.name, if u.qualifier == "" then None else Some(u.qualifier), u.path))
  {
    var j := LambdaUrlParsers.RegexParseParts(url);
    JsPatternMatches(url);
    if LambdaUrlParsers.PathGroup(url, j).Some? {
      JsExtendsUnqualified(url, |Scheme|, j);
    } else {
      JsExtendsQualified(url, |Scheme|, j);
    }
  }

  /** Where the helper's pattern reads no qualifier, the groups are the same. */
  lemma JsExtendsUnqualified(url: string, i: nat, j: nat)
    requires i <= j <= |url| && LambdaUrlParsers.PathGroup(url, j).Some?
    ensures LambdaUrlParsers.QualifierAndPath(url, j) == Some(("", LambdaUrlParsers.PathGroup(url, j).value))
    ensures JsGroups(url, i, j) == Captures(url[i..j], None, LambdaUrlParsers.PathGroup(url, j).value)
  {
    PathGroupIsLineRun(url, j);
    assert j < |url| ==> url[j] == '/';
    JsGroupsUnqualified(url, i, j);
  }

  /** Where it reads a qualifier other than `$LATEST`, so does the pattern. */
  lemma JsExtendsQualified(url: string, i: nat, j: nat)
    requires i <= j <= |url| && LambdaUrlParsers.PathGroup(url, j).None?
    requires var qp := LambdaUrlParsers.QualifierAndPath(url, j); qp.Some? && qp.value.0 != Latest
    ensures var qp := LambdaUrlParsers.QualifierAndPath(url, j).value;
      qp.0 != "" && JsGroups(url, i, j) == Captures(url[i..j], Some(qp.0), qp.1)
  {
    var k := QualifierGroup(url, j);
    PathGroupIsLineRun(url, k);
    JsGroupsQualified(url, i, j);
  }

  /** The pattern matches once the name run after the scheme is not empty. */
  lemma JsPatternMatches(url: string)
    requires StartsWith(url, Scheme) && LambdaUrlParsers.NameRun(url, |Scheme|) > 0
    ensures JsPattern(url) == Some(JsGroups(url, |Scheme|, |Scheme| + LambdaUrlParsers.NameRun(url, |Scheme|)))
  {
  }

  /** The groups when no qualifier follows the name. */
  lemma JsGroupsUnqualified(url: string, i: nat, j: nat)
    requires i <= j <= |url| && (j == |url| || url[j] != ':' || LambdaUrlParsers.NameRun(url, j + 1) == 0)
    ensures JsGroups(url, i, j) == Captures(url[i..j], None, url[j..j + LambdaUrlParsers.LineRun(url, j)])
  {
  }

  /** The groups when a name run follows the colon after the name. */
  lemma JsGroupsQualified(url: string, i: nat, j: nat)
    requires i <= j < |url| && url[j] == ':' && LambdaUrlParsers.NameRun(url, j + 1) > 0
    ensures var k := j + 1 + LambdaUrlParsers.NameRun(url, j + 1);
      JsGroups(url, i, j) == Captures(url[i..j], Some(url[j + 1..k]), url[k..k + LambdaUrlParsers.LineRun(url, k)])
  {
  }


  /** A qualifier other than `$LATEST` that the helper's pattern reads is a
      name run after a colon, followed by the path group. */
  lemma QualifierGroup(url: string, j: nat) returns (k: nat)
    requires j <= |url| && LambdaUrlParsers.PathGroup(url, j).None?
    requires var qp := LambdaUrlParsers.QualifierAndPath(url, j); qp.Some? && qp.value.0 != Latest
    ensures j < |url| && url[j] == ':' && k == j + 1 + LambdaUrlParsers.NameRun(url, j + 1) && j + 1 < k <= |url|
    ensures LambdaUrlParsers.PathGroup(url, k).Some?
    ensures LambdaUrlParsers.QualifierAndPath(url, j) == Some((url[j + 1..k], LambdaUrlParsers.PathGroup(url, k).value))
  {
    k := j + 1 + LambdaUrlParsers.NameRun(url, j + 1);
  }

  // ---------------------------------------------------------------------------
  // Properties of the classification

  /** A missing or `null` payload: the TypeScript generations raise the
      "Unexpected Payload shape" error (except that lambda-invocation.ts
      cannot parse an absent payload at all), the CommonJS one fails
      reading it; the function error is never looked at. */
  lemma PayloadShapeAcrossGenerations<C>(config: C, timeout: Option<int>, url: string, request: InvocationRequest,
                                         functionError: Option<string>, resultJson: string,
                                         validateStatus: Option<int -> bool>, responseType: Option<string>,
                                         statusTexts: map<int, string>)
    ensures Settle(V2, config, timeout, url, request, Answered(Missing, functionError, resultJson), validateStatus, responseType, statusTexts)
      == RaisedError(V2, UnexpectedPayloadMessage(url, resultJson), config, request)
    ensures Settle(V2, config, timeout, url, request, Answered(JsonNull, functionError, resultJson), validateStatus, responseType, statusTexts)
      == RaisedError(V2, UnexpectedPayloadMessage(url, resultJson), config, request)
    ensures Settle(TypeScript, config, timeout, url, request, Answered(JsonNull, functionError, resultJson), validateStatus, None, statusTexts)
      == RaisedError(TypeScript, UnexpectedPayloadMessage(url, resultJson), config, request)
    ensures Settle(TypeScript, config, timeout, url, request, Answered(Missing, functionError, resultJson), validateStatus, None, statusTexts)
      == Failed(Uncaught)
    ensures Settle(CommonJs, config, timeout, url, request, Answered(Missing, functionError, resultJson), validateStatus, None, statusTexts)
      == Failed(Uncaught)
    ensures Settle(CommonJs, config, timeout, url, request, Answered(JsonNull, functionError, resultJson), validateStatus, None, statusTexts)
      == Failed(Uncaught)
  {
  }

  /** A function error, handled or not, is an error carrying the payload's
      `errorMessage` in the TypeScript generations, whatever the status; in
      CommonJS only an `unhandled` one is, and any other falls through to
      the response builder. */
  lemma FunctionErrorAcrossGenerations<C>(config: C, timeout: Option<int>, url: string, request: InvocationRequest,
                                          payload: LambdaResponse.Payload, functionError: string, resultJson: string,
                                          validateStatus: Option<int -> bool>, responseType: Option<string>,
                                          statusTexts: map<int, string>)
    requires functionError != ""
    ensures var answer := Answered(Proxy(payload), Some(functionError), resultJson);
      Settle(V2, config, timeout, url, request, answer, validateStatus, responseType, statusTexts)
        == RaisedError(V2, payload.errorMessage, config, request)
    ensures var answer := Answered(Proxy(payload), Some(functionError), resultJson);
      Settle(TypeScript, config, timeout, url, request, answer, validateStatus, None, statusTexts)
        == RaisedError(TypeScript, payload.errorMessage, config, request)
    ensures var answer := Answered(Proxy(payload), Some(functionError), resultJson);
      ToLower(functionError) == "unhandled" ==>
        Settle(CommonJs, config, timeout, url, request, answer, validateStatus, None, statusTexts)
          == RaisedError(CommonJs, payload.errorMessage, config, request)
    ensures var answer := Answered(Proxy(payload), Some(functionError), resultJson);
      ToLower(functionError) != "unhandled" ==>
        Settle(CommonJs, config, timeout, url, request, answer, validateStatus, None, statusTexts)
          == FromResult(LambdaResponse.BuildLegacyResponse(CommonJsClass, config, validateStatus, request, payload, statusTexts))
  {
  }

  /** The parts of a failure the retry conditions read. */
  function AsRetryFailure<C, R>(e: RequestError<C, InvocationRequest, R>): Retry.Failure {
    Retry.Failure(e.isLambdaInvokeTimeout == Some(true), e.code, None)
  }

  /** Without an answer the promise settles only when a timeout is set, with
      the timeout error. That error is retried by both default conditions
      when it comes from a TypeScript generation, and by neither when it
      comes from CommonJS, which does not mark it as a timeout. */
  lemma TimeoutsAcrossGenerations<C>(g: Generation, config: C, timeout: Option<int>, url: string, request: InvocationRequest,
                                     validateStatus: Option<int -> bool>, responseType: Option<string>,
                                     statusTexts: map<int, string>)
    ensures var r := Settle(g, config, timeout, url, request, NoAnswer, validateStatus, responseType, statusTexts);
      (r == Pending <==> timeout.None?)
    ensures var r := Settle(g, config, timeout, url, request, NoAnswer, validateStatus, responseType, statusTexts);
      timeout.Some? ==>
        && r.Failed? && r.error.Raised? && r.error.failure.Rejected?
        && r.error.failure.error.message == TimeoutMessage(timeout.value)
        && r.error.failure.error.code == Some(Retry.EConnAborted)
        && (Retry.IsRetryable(AsRetryFailure(r.error.failure.error)) <==> g != CommonJs)
        && (Retry.IsRetryableLegacy(AsRetryFailure(r.error.failure.error)) <==> g != CommonJs)
  {
  }

  // ---------------------------------------------------------------------------
  // Properties of the URL handling

  /** A root-relative path on a `lambda://` base: `invokeLambda` writes the
      two side by side into `config.url` and invokes the base's function
      with the base's qualifier and that path. */
  lemma V2JoinsRelativePath<C>(config: C, fields: Fields, name: string, qualifier: string, path: string, f: NameForm,
                               validateStatus: Option<int -> bool>, statusTexts: map<int, string>,
                               invoke: InvocationRequest -> ServiceAnswer)
    requires Derivable(LambdaUrl(name, qualifier, ""), f)
    requires IsPath(path) && '?' !in path && (|path| == 1 || path[1] != '/')
    requires Get(fields, "baseURL") == Str(Serialize(LambdaUrl(name, qualifier, ""))) && Get(fields, "url") == Str(path)
    ensures WrittenBack(fields) == fields["url" := Str(Serialize(LambdaUrl(name, qualifier, path)))]
    ensures var request := RequestFor(name, qualifier, path);
      InvokeLambdaOutcome(config, fields, validateStatus, statusTexts, invoke)
        == Settle(V2, config, TimeoutOf(fields), Serialize(LambdaUrl(name, qualifier, path)), request, invoke(request),
                  validateStatus, TextOf(Get(fields, "responseType")), statusTexts)
  {
    var u := LambdaUrl(name, qualifier, path);
    AbsoluteUrl.PathsAreNotAbsolute(path);
    assert Serialize(LambdaUrl(name, qualifier, "")) + path == Serialize(u);
    assert Derivable(u, f);
    Url.WithQueryNoQueryRoundTrip(u, f);
  }

  lemma SerializedIsAbsolute(u: LambdaUrl)
    ensures AbsoluteUrl.IsAbsolute(Serialize(u))
  {
    var rest := u.name + QualifierSuffix(u.qualifier) + u.path;
    AbsoluteUrl.SchemePrefixIsAbsolute("lambda", rest);
    assert "lambda" + "://" + rest == Serialize(u);
  }

  /** An absolute `lambda://` URL is invoked as it is, whatever the base, by
      the resolving adapter, which leaves the configuration unchanged. */
  lemma ResolvingAdapterIgnoresBase<C>(config: C, fields: Fields, u: LambdaUrl, f: NameForm,
                                       validateStatus: Option<int -> bool>, statusTexts: map<int, string>,
                                       invoke: InvocationRequest -> ServiceAnswer)
    requires Derivable(u, f)
    requires Get(fields, "url") == Str(Serialize(u))
    ensures var request := RequestFor(u.name, u.qualifier, u.path);
      LambdaInvocationOutcome(config, fields, validateStatus, statusTexts, invoke)
        == Settle(TypeScript, config, TimeoutOf(fields), Serialize(u), request, invoke(request), validateStatus, None, statusTexts)
  {
    SerializedIsAbsolute(u);
    ParseSerialize(u, f);
  }

  /** The three generations send the same request for a plain `lambda://`
      URL with no base and no `$LATEST` qualifier. */
  lemma GenerationsSendSameRequest<C>(config: C, fields: Fields, u: LambdaUrl,
                                      validateStatus: Option<int -> bool>, statusTexts: map<int, string>,
                                      invoke: InvocationRequest -> ServiceAnswer)
    requires Derivable(u, Bare(u.name)) && u.qualifier != Latest && '?' !in u.path
    requires Get(fields, "url") == Str(Serialize(u)) && !Get(fields, "baseURL").Str?
    ensures var request := RequestFor(u.name, u.qualifier, u.path);
      && InvokeLambdaOutcome(config, fields, validateStatus, statusTexts, invoke)
         == Settle(V2, config, TimeoutOf(fields), Serialize(u), request, invoke(request), validateStatus,
                   TextOf(Get(fields, "responseType")), statusTexts)
      && LambdaInvocationOutcome(config, fields, validateStatus, statusTexts, invoke)
         == Settle(TypeScript, config, TimeoutOf(fields), Serialize(u), request, invoke(request), validateStatus, None, statusTexts)
      && LegacyAdapterOutcome(config, fields, validateStatus, statusTexts, invoke)
         == Settle(CommonJs, config, TimeoutOf(fields), Serialize(u), request, invoke(request), validateStatus, None, statusTexts)
  {
    Url.WithQueryNoQueryRoundTrip(u, Bare(u.name));
    ResolvingAdapterIgnoresBase(config, fields, u, Bare(u.name), validateStatus, statusTexts, invoke);
    LambdaUrlParsers.RegexParseSerialize(u, "");
    assert Serialize(u) + "" == Serialize(u);
    JsPatternExtendsHelperRegex(Serialize(u));
  }
}
