/** The request interceptors that choose an adapter by looking at the
    request's URL: `src/interceptors/request/lambda-handler.ts` (a local
    handler for URLs that are not absolute), `src/interceptors/request/lambda-invocation.ts`
    (a Lambda invocation for `lambda:` URLs, base included) and the
    interceptor of `src/adapters/lambda-invocation.js` (the same test on
    `url` alone). */
module RequestInterceptors {
  import opened Wrappers
  import opened Strings
  import opened Js
  import opened AlphaConfig
  import AbsoluteUrl
  import Resolve

  /** The adapters the interceptors install. */
  const LambdaHandlerAdapter: Value := Function(1)
  const LambdaInvocationAdapter: Value := Function(2)
  const LegacyInvocationAdapter: Value := Function(3)

  const LambdaPrefix: string := "lambda:"

  // ---------------------------------------------------------------------------
  // lambda-handler.ts

  /** Whether the handler adapter is wanted: `resolveUrl(url, baseURL)` is
      not absolute and the client has a handler. None when `resolveUrl`
      throws, which rejects the request. */
  function HandlerWanted(fields: Fields, defaultLambda: Value): Option<bool> {
    var url :- Resolve.ResolveUrl(TextOf(Get(fields, "url")), TextOf(Get(fields, "baseURL")));
    Some(!AbsoluteUrl.Truthy(AbsoluteUrl.UtilsIsAbsoluteUrl(url)) && Truthy(defaultLambda))
  }

  method LambdaHandlerInterceptor(request: Config, defaultLambda: Value) returns (rejected: bool)
    modifies request
    ensures rejected <==> HandlerWanted(old(request.fields), defaultLambda).None?
    ensures request.fields ==
      if HandlerWanted(old(request.fields), defaultLambda) == Some(true)
      then old(request.fields)["adapter" := LambdaHandlerAdapter]
      else old(request.fields)
  {
    var resolved := Resolve.ResolveUrl(TextOf(Get(request.fields, "url")), TextOf(Get(request.fields, "baseURL")));
    if resolved.None? {
      return true;
    }
    var url := resolved.value;
    if !AbsoluteUrl.Truthy(AbsoluteUrl.UtilsIsAbsoluteUrl(url)) && Truthy(defaultLambda) {
      request.fields := request.fields["adapter" := LambdaHandlerAdapter];
    }
    return false;
  }

  // ---------------------------------------------------------------------------
  // lambda-invocation.ts

  /** `${v || ''}` for a URL field. */
  function TextOrEmpty(v: Value): string {
    if v.Str? then v.s else ""
  }

  /** The text the invocation interceptor tests: base and URL side by side,
      not resolved. */
  function InvocationTarget(fields: Fields): string {
    TextOrEmpty(Get(fields, "baseURL")) + TextOrEmpty(Get(fields, "url"))
  }

  method LambdaInvocationInterceptor(request: Config)
    modifies request
    ensures request.fields ==
      if StartsWith(InvocationTarget(old(request.fields)), LambdaPrefix)
      then old(request.fields)["adapter" := LambdaInvocationAdapter]
      else old(request.fields)
  {
    var url := TextOrEmpty(Get(request.fields, "baseURL")) + TextOrEmpty(Get(request.fields, "url"));
    if StartsWith(url, LambdaPrefix) {
      request.fields := request.fields["adapter" := LambdaInvocationAdapter];
    }
  }

  // ---------------------------------------------------------------------------
  // lambda-invocation.js

  /** `config.url.startsWith('lambda:')`, which throws (None) when the URL is
      not a string. */
  method LegacyInvocationInterceptor(config: Config) returns (rejected: bool)
    modifies config
    ensures rejected <==> !Get(old(config.fields), "url").Str?
    ensures config.fields ==
      if !rejected && StartsWith(Get(old(config.fields), "url").s, LambdaPrefix)
      then old(config.fields)["adapter" := LegacyInvocationAdapter]
      else old(config.fields)
  {
    var url := Get(config.fields, "url");
    if !url.Str? {
      return true;
    }
    if StartsWith(url.s, LambdaPrefix) {
      config.fields := config.fields["adapter" := LegacyInvocationAdapter];
    }
    return false;
  }

  // ---------------------------------------------------------------------------
  // How the selections relate

  lemma LambdaSchemeIsAbsolute(rest: string)
    ensures AbsoluteUrl.IsAbsolute("lambda" + "://" + rest)
  {
    AbsoluteUrl.SchemePrefixIsAbsolute("lambda", rest);
  }

  lemma LambdaUrlHasLambdaPrefix(rest: string)
    ensures StartsWith("lambda" + "://" + rest, LambdaPrefix)
  {
    assert ("lambda" + "://" + rest)[..|LambdaPrefix|] == LambdaPrefix;
  }

  /** A `lambda://` URL is never sent to the local handler, while both
      invocation interceptors take it. */
  lemma LambdaUrlGoesToInvocation(fields: Fields, rest: string, defaultLambda: Value)
    requires Get(fields, "url") == Str("lambda" + "://" + rest)
    requires !Get(fields, "baseURL").Str?
    ensures HandlerWanted(fields, defaultLambda) == Some(false)
    ensures StartsWith(InvocationTarget(fields), LambdaPrefix)
  {
    LambdaSchemeIsAbsolute(rest);
    LambdaUrlHasLambdaPrefix(rest);
    assert InvocationTarget(fields) == "lambda" + "://" + rest;
  }

  /** A `lambda://` base with no URL is invoked too: the unresolved base is
      itself absolute. */
  lemma LambdaBaseGoesToInvocation(fields: Fields, rest: string, defaultLambda: Value)
    requires Get(fields, "baseURL") == Str("lambda" + "://" + rest)
    requires !Get(fields, "url").Str?
    ensures HandlerWanted(fields, defaultLambda) == Some(false)
    ensures StartsWith(InvocationTarget(fields), LambdaPrefix)
  {
    LambdaSchemeIsAbsolute(rest);
    LambdaUrlHasLambdaPrefix(rest);
    assert InvocationTarget(fields) == "lambda" + "://" + rest + "";
  }

  /** A root-relative path with no base goes to the local handler when the
      client has one, and to no invocation adapter. */
  lemma PathGoesToHandler(fields: Fields, path: string, defaultLambda: Value)
    requires Get(fields, "url") == Str(path) && !Get(fields, "baseURL").Str?
    requires |path| > 0 && path[0] == '/' && (|path| == 1 || path[1] != '/')
    requires Truthy(defaultLambda)
    ensures HandlerWanted(fields, defaultLambda) == Some(true)
    ensures !StartsWith(InvocationTarget(fields), LambdaPrefix)
  {
    AbsoluteUrl.PathsAreNotAbsolute(path);
    assert InvocationTarget(fields) == path;
  }

  /** The generations differ: a relative URL on a `lambda://` base is an
      invocation for the TypeScript interceptor, which looks at the base,
      but not for the CommonJS one, which looks at the URL alone. */
  lemma BaseOnlySeenByTypeScript(fields: Fields, rest: string, path: string)
    requires Get(fields, "baseURL") == Str("lambda" + "://" + rest)
    requires Get(fields, "url") == Str(path) && |path| > 0 && path[0] == '/'
    ensures StartsWith(InvocationTarget(fields), LambdaPrefix)
    ensures !StartsWith(Get(fields, "url").s, LambdaPrefix)
  {
    LambdaUrlHasLambdaPrefix(rest + path);
    assert InvocationTarget(fields) == "lambda" + "://" + (rest + path);
  }
}
