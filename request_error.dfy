/** The error the library throws for a failed request, and the two duck-typed
    tests that tell it and the HTTP client's own error apart
    (`src/adapters/helpers/requestError.ts`). */
module RequestErrors {
  import opened Wrappers
  import opened Js

  /** `typeof v === 'object'`, which holds for null too. */
  predicate TypeIsObject(v: Value) {
    v.Object? || v.Null?
  }

  /** `(typeof v === 'object') && !!v[flag]`; reading a property of null
      throws, which is None. */
  function FlagTest(v: Value, flag: string): Option<bool> {
    if !TypeIsObject(v) then Some(false)
    else if v.Null? then None
    else Some(flag in v.fields && Truthy(v.fields[flag]))
  }

  /** `isAxiosError(err)` */
  function IsAxiosError(v: Value): Option<bool> {
    FlagTest(v, "isAxiosError")
  }

  /** `isAlphaRequestError(err)` */
  function IsAlphaRequestError(v: Value): Option<bool> {
    FlagTest(v, "isAlphaRequestError")
  }

  /** Both tests answer false for every non-object, a class (a function)
      included, throw for null, and hold for an object exactly when its flag
      is truthy. */
  lemma FlagTestCases(v: Value, flag: string)
    ensures !TypeIsObject(v) ==> FlagTest(v, flag) == Some(false)
    ensures v.Null? <==> FlagTest(v, flag).None?
    ensures FlagTest(v, flag) == Some(true) <==> v.Object? && flag in v.fields && Truthy(v.fields[flag])
  {
  }

  /** An error as the library builds it; `code` and `isLambdaInvokeTimeout`
      stay unset until a caller assigns them. */
  datatype RequestError<C, Q, R> = RequestError(
    message: string,
    config: C,
    request: Q,
    response: Option<R>,
    code: Option<string>,
    isLambdaInvokeTimeout: Option<bool>,
    isAlphaRequestError: bool)

  /** `new RequestError(message, config, request, response)` */
  function NewRequestError<C, Q, R>(message: string, config: C, request: Q, response: Option<R>): RequestError<C, Q, R> {
    RequestError(message, config, request, response, None, None, true)
  }

  /** The three classes the generations throw: `adapters/helpers/requestError.ts`
      sets `isAlphaRequestError`; `utils/RequestError.ts` only starts
      `isLambdaInvokeTimeout` at false; `adapters/helpers/RequestError.js`
      keeps the message, config, request and response and nothing else. */
  datatype ErrorClass = AlphaClass | UtilsClass | CommonJsClass

  /** `new RequestError(message, config, request, response)` of a class. */
  function NewError<C, Q, R>(cls: ErrorClass, message: string, config: C, request: Q, response: Option<R>): (e: RequestError<C, Q, R>)
    ensures e.message == message && e.config == config && e.request == request && e.response == response
    ensures e.code.None?
    ensures e.isAlphaRequestError <==> cls == AlphaClass
  {
    match cls
    case AlphaClass => NewRequestError(message, config, request, response)
    case UtilsClass => RequestError(message, config, request, response, None, Some(false), false)
    case CommonJsClass => RequestError(message, config, request, response, None, None, false)
  }

  /** The flags of an error as the duck-typed tests read them. */
  function AsJs<C, Q, R>(e: RequestError<C, Q, R>): Value {
    var base := map["message" := Str(e.message), "isAlphaRequestError" := Bool(e.isAlphaRequestError)];
    var withCode := if e.code.Some? then base["code" := Str(e.code.value)] else base;
    Object(
      if e.isLambdaInvokeTimeout.Some? then withCode["isLambdaInvokeTimeout" := Bool(e.isLambdaInvokeTimeout.value)]
      else withCode)
  }

  /** Every error the constructor builds passes `isAlphaRequestError` and,
      carrying no `isAxiosError` flag, fails `isAxiosError`; it has no code
      and is not marked as a timeout. */
  lemma ConstructedIsAlphaRequestError<C, Q, R>(message: string, config: C, request: Q, response: Option<R>)
    ensures IsAlphaRequestError(AsJs(NewRequestError(message, config, request, response))) == Some(true)
    ensures IsAxiosError(AsJs(NewRequestError(message, config, request, response))) == Some(false)
    ensures "code" !in AsJs(NewRequestError(message, config, request, response)).fields
    ensures "isLambdaInvokeTimeout" !in AsJs(NewRequestError(message, config, request, response)).fields
  {
    var e := NewRequestError(message, config, request, response);
    assert AsJs(e).fields == map["message" := Str(message), "isAlphaRequestError" := Bool(true)];
  }

  /** Only errors of the current class pass `isAlphaRequestError`; those of
      the older classes are told apart from the HTTP client's errors by
      neither test. */
  lemma OnlyCurrentClassIsFlagged<C, Q, R>(cls: ErrorClass, message: string, config: C, request: Q, response: Option<R>)
    ensures IsAlphaRequestError(AsJs(NewError(cls, message, config, request, response))) == Some(cls == AlphaClass)
    ensures IsAxiosError(AsJs(NewError(cls, message, config, request, response))) == Some(false)
  {
    var e := NewError(cls, message, config, request, response);
    var base := map["message" := Str(message), "isAlphaRequestError" := Bool(cls == AlphaClass)];
    assert AsJs(e).fields == if cls == UtilsClass then base["isLambdaInvokeTimeout" := Bool(false)] else base;
  }

  /** Marking an error with a code keeps it an alpha error. */
  lemma CodeKeepsFlag<C, Q, R>(e: RequestError<C, Q, R>, code: string)
    requires e.isAlphaRequestError
    ensures IsAlphaRequestError(AsJs(e.(code := Some(code)))) == Some(true)
  {
  }
}
