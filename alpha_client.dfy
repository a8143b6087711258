/** Building a client: the options the `Alpha` constructors assemble from
    their arguments (`src/alpha.ts` and `src/Alpha.js`), `configureAxios`
    and `validateStatus` of the older entry point `src/index.ts`, and the
    options `dockerLambda` passes on (`src/index.ts`, `src/Alpha.js`). */
module AlphaClient {
  import opened Wrappers
  import opened Js
  import Redirect
  import LambdaResponse

  /** The default status test: a success, or a redirect for the client's
      own redirect loop to follow. */
  predicate ValidateStatus(status: int) {
    (status >= 200 && status < 300) || status == 301 || status == 302
  }

  /** The function value installed as `validateStatus` when none is given. */
  const DefaultValidateStatus: Value := Function(10)

  /** The default test lets through exactly the successes and the redirects
      the redirect loop follows; the other redirections of RFC 9110 (303,
      307, 308) and every error fail. */
  lemma ValidateStatusIsSuccessOrFollowedRedirect(status: int)
    ensures ValidateStatus(status) <==> (200 <= status < 300 || Redirect.IsRedirect(status))
    ensures !ValidateStatus(303) && !ValidateStatus(307) && !ValidateStatus(308)
  {
  }

  /** With the default test, a 301 or 302 from a Lambda function comes back
      as a response, which the redirect loop then follows, instead of an
      error. */
  lemma RedirectPayloadReachesLoop<C, Q>(config: C, request: Q, payload: LambdaResponse.Payload, statusTexts: map<int, string>)
    requires Redirect.IsRedirect(payload.statusCode)
    ensures LambdaResponse.BuildResponse(config, Some(ValidateStatus), None, request, payload, statusTexts).Ok?
  {
  }

  // ---------------------------------------------------------------------------
  // The constructors

  /** The first constructor argument. */
  datatype Target = NoTarget | BaseUrl(url: string) | Handler(handler: Value) | TargetOptions(options: Fields)

  /** `if (!options.validateStatus) options.validateStatus = ...` */
  function WithValidateStatus(options: Fields): (r: Fields)
    ensures r.Keys == options.Keys + {"validateStatus"}
    ensures Truthy(Get(options, "validateStatus")) ==> r == options
    ensures !Truthy(Get(options, "validateStatus")) ==> r == options["validateStatus" := DefaultValidateStatus]
  {
    if Truthy(Get(options, "validateStatus")) then options else options["validateStatus" := DefaultValidateStatus]
  }

  /** The options `new Alpha(target, config)` of alpha.ts hands on (before
      the HTTP client's defaults are merged under them): the target's, then
      the second argument's written over them. */
  function TsConstructorOptions(target: Target, config: Option<Fields>): Fields {
    var tmp: Fields := map["headers" := Object(map[])];
    var fromTarget :=
      match target
      case NoTarget => tmp
      case BaseUrl(url) => tmp["baseURL" := Str(url)]
      case Handler(h) => tmp["lambda" := h]
      case TargetOptions(o) => Assign(tmp, o);
    var withConfig := if config.Some? then Assign(fromTarget, config.value) else fromTarget;
    WithValidateStatus(withConfig)
  }

  /** The options `new Alpha(target, options)` of Alpha.js hands on: an
      options object as target replaces the second argument entirely. */
  function JsConstructorOptions(target: Target, options: Option<Fields>): Fields {
    var base: Fields := options.GetOr(map[]);
    var chosen :=
      match target
      case NoTarget => base
      case BaseUrl(url) => base["baseURL" := Str(url)]
      case Handler(h) => base["lambda" := h]
      case TargetOptions(o) => o;
    WithValidateStatus(chosen)
  }

  /** A URL target becomes the base URL and a handler target the handler,
      in both generations, unless alpha.ts is given a second argument that
      sets them again. */
  lemma TargetsBecomeOptions(url: string, handler: Value, config: Option<Fields>)
    requires config.None? || ("baseURL" !in config.value && "lambda" !in config.value)
    ensures TsConstructorOptions(BaseUrl(url), config)["baseURL"] == Str(url)
    ensures JsConstructorOptions(BaseUrl(url), config)["baseURL"] == Str(url)
    ensures TsConstructorOptions(Handler(handler), config)["lambda"] == handler
    ensures JsConstructorOptions(Handler(handler), config)["lambda"] == handler
  {
  }

  /** The generations differ on an options object followed by a second
      argument: alpha.ts writes the second over the first, Alpha.js drops
      the second. */
  lemma OptionsTargetAcrossGenerations(o: Fields, config: Fields, k: string)
    requires k != "validateStatus" && k in config
    ensures k in TsConstructorOptions(TargetOptions(o), Some(config))
    ensures TsConstructorOptions(TargetOptions(o), Some(config))[k] == config[k]
    ensures k in JsConstructorOptions(TargetOptions(o), Some(config)) <==> k in o
    ensures k in o ==> JsConstructorOptions(TargetOptions(o), Some(config))[k] == o[k]
  {
  }

  /** Whatever the arguments, the client ends up with a truthy status test,
      the caller's when it gave one. */
  lemma ConstructorsKeepCallerValidateStatus(target: Target, config: Option<Fields>, v: Value)
    requires config.Some? && Get(config.value, "validateStatus") == v && Truthy(v)
    requires !target.TargetOptions?
    ensures TsConstructorOptions(target, config)["validateStatus"] == v
    ensures JsConstructorOptions(target, config)["validateStatus"] == v
    ensures Truthy(TsConstructorOptions(target, None)["validateStatus"])
  {
  }

  // ---------------------------------------------------------------------------
  // index.ts

  /** `configureAxios({target, config, url, ignoreRedirects})`: the HTTP
      client's defaults, then the base URL and (unless redirects are
      ignored) the status test, then the caller's configuration; the handler
      is the configured one, else the target. */
  function ConfigureAxios(axiosDefaults: Fields, target: Value, config: Fields, url: Option<string>, ignoreRedirects: bool): (r: Fields)
    ensures "lambda" in r && "baseURL" in r
  {
    var options := Layered(axiosDefaults, config, url, ignoreRedirects);
    options["lambda" := Or(Get(options, "lambda"), target)]
  }

  /** The option layers before the handler is settled. */
  function Layered(axiosDefaults: Fields, config: Fields, url: Option<string>, ignoreRedirects: bool): (r: Fields)
    ensures "baseURL" in r
  {
    var baseURL := if url.Some? then Str(url.value) else Undefined;
    var defaults: Fields := map["baseURL" := baseURL];
    var defaults' := if !ignoreRedirects then defaults["validateStatus" := DefaultValidateStatus] else defaults;
    Assign(Assign(axiosDefaults, defaults'), config)
  }

  /** Later layers win: the caller's status test overrides the library's,
      which overrides the HTTP client's. */
  lemma ConfigureAxiosStatusTest(axiosDefaults: Fields, target: Value, config: Fields, url: Option<string>, ignoreRedirects: bool)
    ensures var r := ConfigureAxios(axiosDefaults, target, config, url, ignoreRedirects);
      && ("validateStatus" in config ==> r["validateStatus"] == config["validateStatus"])
      && ("validateStatus" !in config && !ignoreRedirects ==> r["validateStatus"] == DefaultValidateStatus)
  {
  }

  /** The caller's base URL overrides the `url` argument, which is set even
      when undefined. */
  lemma ConfigureAxiosBaseUrl(axiosDefaults: Fields, target: Value, config: Fields, url: Option<string>, ignoreRedirects: bool)
    ensures var r := ConfigureAxios(axiosDefaults, target, config, url, ignoreRedirects);
      && ("baseURL" in config ==> r["baseURL"] == config["baseURL"])
      && ("baseURL" !in config ==> r["baseURL"] == (if url.Some? then Str(url.value) else Undefined))
  {
  }

  /** The handler is the configured one when it is truthy, the target
      otherwise. */
  lemma ConfigureAxiosHandler(axiosDefaults: Fields, target: Value, config: Fields, url: Option<string>, ignoreRedirects: bool)
    ensures var r := ConfigureAxios(axiosDefaults, target, config, url, ignoreRedirects);
      && (Truthy(Get(config, "lambda")) ==> r["lambda"] == config["lambda"])
      && ("lambda" !in config && !Truthy(Get(axiosDefaults, "lambda")) ==> r["lambda"] == target)
  {
  }

  /** `ignoreRedirects` leaves the status test to the HTTP client's own
      default (or the caller's), so a redirect is no longer let through by
      Alpha's. */
  lemma IgnoreRedirectsDropsDefaultTest(axiosDefaults: Fields, target: Value, config: Fields, url: Option<string>)
    requires "validateStatus" !in config
    ensures Get(ConfigureAxios(axiosDefaults, target, config, url, true), "validateStatus") == Get(axiosDefaults, "validateStatus")
  {
  }

  // ---------------------------------------------------------------------------
  // dockerLambda

  /** The options kept for every invocation: `taskDir` false unless the
      caller says otherwise, and the caller's `event` removed. */
  function DockerOptions(options: Fields): (r: Fields)
    ensures r.Keys == (options.Keys + {"taskDir"}) - {"event"}
    ensures r["taskDir"] == Get(Assign(map["taskDir" := Bool(false)], options), "taskDir")
    ensures forall k :: k in options && k != "event" ==> r[k] == options[k]
  {
    Assign(map["taskDir" := Bool(false)], options) - {"event"}
  }

  /** `Object.assign({event}, options)` in the handler. */
  function InvocationOptions(event: Value, options: Fields): Fields {
    Assign(map["event" := event], DockerOptions(options))
  }

  /** The handler always passes the real event, whatever `event` the caller
      put in the options, and keeps every other caller option. */
  lemma DockerLambdaPassesRealEvent(event: Value, options: Fields, k: string)
    ensures InvocationOptions(event, options)["event"] == event
    ensures InvocationOptions(event, options)["taskDir"] == (if "taskDir" in options then options["taskDir"] else Bool(false))
    ensures k in options && k != "event" ==> InvocationOptions(event, options)[k] == options[k]
  {
  }
}
