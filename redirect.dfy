/** Following 301 and 302 responses (sections 15.4.2 and 15.4.3 of
    RFC 9110) in the two ways the library has done it: `request` in
    `src/alpha.ts` and `src/Alpha.js` calls itself with a budget one lower,
    and the older response interceptor `src/interceptors/response/redirect.ts`
    counts hops in `__redirectCount` against `__maxRedirects`. The HTTP
    client's own redirects are switched off in both. */
module Redirect {
  import opened Wrappers
  import opened Js
  import Resolve
  import AbsoluteUrl
  import AlphaConfig

  const TooManyRedirectsMessage: string := "Exceeded maximum number of redirects."
  const DefaultBudget: int := 5

  predicate IsRedirect(status: int) { status == 301 || status == 302 }

  /** One answer of the server: the status, the `Location` header, and the
      `url` of the configuration the adapter answered for. */
  datatype Reply = Reply(status: int, location: string, configUrl: string)

  /** How a `request` call ends: the response returned, the RequestError for
      one redirect too many (carrying that response), a location that cannot
      be resolved, or still waiting for the server's next answer. */
  datatype Outcome = Returned(response: Reply) | TooManyRedirects(response: Reply) | Unresolvable | Pending

  /** The URLs requested, in order, and how the call ends. */
  datatype Trace = Trace(urls: seq<string>, outcome: Outcome)

  // ---------------------------------------------------------------------------
  // alpha.ts and Alpha.js

  /** A redirect budget: a number, or a value that is not one (NaN, or null,
      which becomes -1 at the first step); neither of the latter ever equals 0. */
  datatype Budget = Count(n: int) | NotANumber

  /** `config.maxRedirects ?? 5` (alpha.ts); `maxRedirects` is None when
      undefined or null. */
  function TsBudget(maxRedirects: Option<int>): Budget {
    Count(maxRedirects.GetOr(DefaultBudget))
  }

  /** `'maxRedirects' in config ? config.maxRedirects : 5` (Alpha.js): the
      key may be absent (None), present but undefined or null (Some(None)),
      or a number. */
  function JsBudget(maxRedirects: Option<Option<int>>): Budget {
    match maxRedirects
    case None => Count(DefaultBudget)
    case Some(None) => NotANumber
    case Some(Some(n)) => Count(n)
  }

  function Decrement(b: Budget): Budget {
    match b
    case Count(n) => Count(n - 1)
    case NotANumber => NotANumber
  }

  /** The redirect recursion of `request`: `replies[k]` answers the k-th
      request. A redirect with a budget of exactly 0 throws; any other
      redirect is followed to `resolve(location, response.config.url)` with
      the budget one lower. */
  function Follow(url: string, budget: Budget, replies: seq<Reply>, resolve: (string, string) -> Option<string>): (t: Trace)
    ensures |t.urls| >= 1 && t.urls[0] == url
    ensures |t.urls| <= |replies| + 1
    decreases |replies|
  {
    if |replies| == 0 then Trace([url], Pending)
    else
      var reply := replies[0];
      if !IsRedirect(reply.status) then Trace([url], Returned(reply))
      else if budget == Count(0) then Trace([url], TooManyRedirects(reply))
      else
        match resolve(reply.location, reply.configUrl)
        case None => Trace([url], Unresolvable)
        case Some(next) =>
          var rest := Follow(next, Decrement(budget), replies[1..], resolve);
          Trace([url] + rest.urls, rest.outcome)
  }

  /** `Alpha#request` of alpha.ts, resolving with `resolve`. */
  function TsRequest(url: string, maxRedirects: Option<int>, replies: seq<Reply>): Trace {
    Follow(url, TsBudget(maxRedirects), replies, Resolve.ResolveTs)
  }

  /** `Alpha#request` of Alpha.js, resolving with the static `Alpha.resolve`. */
  function JsRequest(url: string, maxRedirects: Option<Option<int>>, replies: seq<Reply>): Trace {
    Follow(url, JsBudget(maxRedirects), replies, Resolve.AlphaResolve)
  }

  /** Every reply is a redirect whose location resolves. */
  predicate AllRedirect(replies: seq<Reply>, resolve: (string, string) -> Option<string>) {
    forall k :: 0 <= k < |replies| ==> IsRedirect(replies[k].status) && resolve(replies[k].location, replies[k].configUrl).Some?
  }

  /** With a budget of N >= 0, at most N + 1 requests are made. */
  lemma {:induction false} AtMostBudgetPlusOne(url: string, n: int, replies: seq<Reply>, resolve: (string, string) -> Option<string>)
    requires n >= 0
    ensures |Follow(url, Count(n), replies, resolve).urls| <= n + 1
    decreases |replies|
  {
    if |replies| > 0 && IsRedirect(replies[0].status) && n != 0 {
      var next := resolve(replies[0].location, replies[0].configUrl);
      if next.Some? {
        AtMostBudgetPlusOne(next.value, n - 1, replies[1..], resolve);
      }
    }
  }

  /** A server that keeps redirecting gets exactly N + 1 requests, and the
      call fails with the last redirect response. */
  lemma {:induction false} EndlessRedirectsExceedBudget(url: string, n: int, replies: seq<Reply>, resolve: (string, string) -> Option<string>)
    requires 0 <= n < |replies| && AllRedirect(replies, resolve)
    ensures |Follow(url, Count(n), replies, resolve).urls| == n + 1
    ensures Follow(url, Count(n), replies, resolve).outcome == TooManyRedirects(replies[n])
    decreases n
  {
    if n > 0 {
      var next := resolve(replies[0].location, replies[0].configUrl).value;
      assert AllRedirect(replies[1..], resolve) by {
        assert forall k :: 0 <= k < |replies| - 1 ==> replies[1..][k] == replies[k + 1];
      }
      EndlessRedirectsExceedBudget(next, n - 1, replies[1..], resolve);
    }
  }

  /** A negative budget, or one that is not a number, never reaches the
      `=== 0` test: every redirect is followed, as long as the server keeps
      answering with one. */
  lemma {:induction false} UncountedBudgetNeverStops(url: string, b: Budget, replies: seq<Reply>, resolve: (string, string) -> Option<string>)
    requires b.NotANumber? || b.n < 0
    requires AllRedirect(replies, resolve)
    ensures |Follow(url, b, replies, resolve).urls| == |replies| + 1
    ensures Follow(url, b, replies, resolve).outcome == Pending
    decreases |replies|
  {
    if |replies| > 0 {
      var next := resolve(replies[0].location, replies[0].configUrl).value;
      assert AllRedirect(replies[1..], resolve) by {
        assert forall k :: 0 <= k < |replies| - 1 ==> replies[1..][k] == replies[k + 1];
      }
      UncountedBudgetNeverStops(next, Decrement(b), replies[1..], resolve);
    }
  }

  /** A response that is not a redirect is returned as it is, whatever the
      budget. */
  lemma NonRedirectReturned(url: string, b: Budget, replies: seq<Reply>, resolve: (string, string) -> Option<string>)
    requires |replies| > 0 && !IsRedirect(replies[0].status)
    ensures Follow(url, b, replies, resolve) == Trace([url], Returned(replies[0]))
  {
  }

  /** Each request after the first goes to the previous answer's location,
      resolved against the URL that answer was for. */
  lemma {:induction false} HopsFollowLocations(url: string, b: Budget, replies: seq<Reply>, resolve: (string, string) -> Option<string>, k: nat)
    requires k + 1 < |Follow(url, b, replies, resolve).urls|
    ensures k < |replies|
    ensures resolve(replies[k].location, replies[k].configUrl) == Some(Follow(url, b, replies, resolve).urls[k + 1])
    decreases k
  {
    var next := resolve(replies[0].location, replies[0].configUrl).value;
    if k > 0 {
      HopsFollowLocations(next, Decrement(b), replies[1..], resolve, k - 1);
    }
  }

  /** The two generations pick different budgets only for a `maxRedirects`
      key that is present but undefined or null: alpha.ts then allows 5
      redirects, Alpha.js never stops counting. */
  lemma BudgetsAcrossGenerations(maxRedirects: Option<Option<int>>)
    ensures maxRedirects != Some(None) ==> TsBudget(maxRedirects.GetOr(None)) == JsBudget(maxRedirects)
    ensures maxRedirects == Some(None) ==> TsBudget(None) == Count(DefaultBudget) && JsBudget(maxRedirects) == NotANumber
  {
  }

  /** The configuration each underlying request is made with: the Alpha
      options packed into `adapter` and the client's redirects off. */
  function UnderlyingConfig(defaults: Fields, options: Fields): (r: Fields)
    ensures r.Keys == options.Keys + {"adapter", "maxRedirects"}
    ensures r["maxRedirects"] == Number(0)
    ensures forall k :: k in options && k != "adapter" && k != "maxRedirects" ==> r[k] == options[k]
  {
    AlphaConfig.BuildConfig(defaults, options)["maxRedirects" := Number(0)]
  }

  // ---------------------------------------------------------------------------
  // interceptors/response/redirect.ts

  /** What the interceptor does with one response. */
  datatype Step = PassThrough | Exceeded | ResolveFailed | Reissue(config: Fields)

  /** `config.__redirectCount || 0` */
  function RedirectCount(config: Fields): Value {
    Or(Get(config, "__redirectCount"), Number(0))
  }

  /** The number JavaScript's relational comparison reads a value as:
      `null` and `false` are 0, `true` is 1, a number is itself; undefined,
      functions, objects and (in this model) strings read as NaN, and a
      comparison with NaN is false. */
  function NumberOf(v: Value): (r: Option<int>)
    ensures r.Some? <==> v.Null? || v.Bool? || v.Number?
    ensures v.Number? ==> r == Some(v.n)
    ensures v.Null? || v == Bool(false) ==> r == Some(0)
    ensures v == Bool(true) ==> r == Some(1)
  {
    match v
    case Null => Some(0)
    case Bool(b) => Some(if b then 1 else 0)
    case Number(n) => Some(n)
    case _ => None
  }

  /** `redirectCount >= config.__maxRedirects` */
  predicate AtLimit(count: Value, max: Value) {
    NumberOf(count).Some? && NumberOf(max).Some? && NumberOf(count).value >= NumberOf(max).value
  }

  /** The interceptor on one response: a redirect at the limit throws; any
      other redirect is re-issued on a copy whose base is the location
      resolved against the current URL, with no URL, one more hop counted
      and no adapter. The configuration itself is not changed. */
  function InterceptResponse(config: Fields, status: int, location: Option<string>): (s: Step)
    ensures !IsRedirect(status) ==> s == PassThrough
    ensures s == Exceeded <==>
      IsRedirect(status) && NumberOf(RedirectCount(config)).Some? && NumberOf(Get(config, "__maxRedirects")).Some? &&
      NumberOf(RedirectCount(config)).value >= NumberOf(Get(config, "__maxRedirects")).value
    ensures s.Reissue? ==> "adapter" !in s.config && Get(s.config, "url") == Undefined
  {
    if !IsRedirect(status) then PassThrough
    else
      var count := RedirectCount(config);
      if AtLimit(count, Get(config, "__maxRedirects")) then Exceeded
      else
        match Resolve.ResolveUrl(TextOf(Get(config, "url")), TextOf(Get(config, "baseURL")))
        case None => ResolveFailed
        case Some(current) =>
          match Resolve.ResolveUrl(location, current)
          case None => ResolveFailed
          case Some(base) =>
            // `redirectCount + 1`; a count that reads as NaN is kept as it is
            var next := if NumberOf(count).Some? then Number(NumberOf(count).value + 1) else count;
            Reissue((config["baseURL" := if base.Some? then Str(base.value) else Undefined]
                           ["url" := Undefined]
                           ["__redirectCount" := next]) - {"adapter"})
  }

  /** A caller's `maxRedirects: null` (or `false`) becomes the budget
      `__maxRedirects`, and the first redirect already compares `0 >= null`
      as true: it throws instead of being followed. */
  lemma NullBudgetThrowsOnFirstRedirect(fields: Fields, defaults: Fields, status: int, location: Option<string>)
    requires "__maxRedirects" !in fields && (Get(fields, "maxRedirects") == Null || Get(fields, "maxRedirects") == Bool(false))
    requires !Truthy(Get(fields, "__redirectCount"))
    requires IsRedirect(status)
    ensures InterceptResponse(AlphaConfig.WithDefaults(fields, defaults), status, location) == Exceeded
  {
    var config := AlphaConfig.WithDefaults(fields, defaults);
    assert Get(config, "__maxRedirects") == fields["maxRedirects"];
    assert Get(config, "__redirectCount") == Get(fields, "__redirectCount");
  }

  /** The hops the interceptor makes against a server whose k-th answer is a
      redirect to `locations[k]`; the result is the configuration of the
      request that got the last answer, and whether it threw. */
  function Hops(config: Fields, locations: seq<Option<string>>): (r: (Fields, Step))
    decreases |locations|
  {
    if |locations| == 0 then (config, PassThrough)
    else
      match InterceptResponse(config, 301, locations[0])
      case Reissue(next) => Hops(next, locations[1..])
      case s => (config, s)
  }

  /** The hop count grows by one per redirect followed. */
  lemma ReissueCounts(config: Fields, location: Option<string>, k: nat)
    requires RedirectCount(config) == Number(k)
    requires InterceptResponse(config, 301, location).Reissue?
    ensures RedirectCount(InterceptResponse(config, 301, location).config) == Number(k + 1)
    ensures Get(InterceptResponse(config, 301, location).config, "__maxRedirects") == Get(config, "__maxRedirects")
  {
  }

  /** With `__maxRedirects` = N and locations that are absolute (or absent),
      exactly N redirects are followed and the next one throws, with the
      configuration of the last hop. */
  lemma {:induction false} BudgetOfHops(config: Fields, k: nat, n: nat, locations: seq<Option<string>>)
    requires RedirectCount(config) == Number(k) && Get(config, "__maxRedirects") == Number(n)
    requires k <= n && n - k < |locations|
    requires forall i :: 0 <= i < |locations| ==> locations[i].None? || AbsoluteUrl.IsAbsolute(locations[i].value)
    requires Resolve.ResolveUrl(TextOf(Get(config, "url")), TextOf(Get(config, "baseURL"))).Some?
    ensures Hops(config, locations).1 == Exceeded
    ensures RedirectCount(Hops(config, locations).0) == Number(n)
    decreases n - k
  {
    if k < n {
      var s := InterceptResponse(config, 301, locations[0]);
      assert s.Reissue?;
      ReissueCounts(config, locations[0], k);
      var next := s.config;
      assert Resolve.ResolveUrl(TextOf(Get(next, "url")), TextOf(Get(next, "baseURL"))).Some?;
      assert forall i :: 0 <= i < |locations| - 1 ==> locations[1..][i] == locations[i + 1];
      BudgetOfHops(next, k + 1, n, locations[1..]);
    }
  }
}
