/** Turning a Lambda function's proxy-style payload back into an HTTP
    response: the current `lambdaResponse` of
    `src/adapters/helpers/lambdaResponse.ts`, which honours `responseType`,
    and the older copies of `src/utils/lambdaResponse.ts` and
    `src/adapters/helpers/lambdaResponse.js`, which do not. */
module LambdaResponse {
  import opened Wrappers
  import opened Strings
  import opened Bytes
  import opened RequestErrors
  import Utf8

  /** The payload a proxy-style handler returns. */
  datatype Payload = Payload(body: string, headers: map<string, string>, statusCode: int, errorMessage: string)

  /** `response.data`: the body text, or the octets of an `arraybuffer`. */
  datatype ResponseData = TextData(text: string) | BufferData(bytes: seq<byte>)

  datatype Response<C, Q> = Response(
    config: C,
    data: ResponseData,
    headers: map<string, string>,
    request: Q,
    status: int,
    statusText: Option<string>)

  /** What the builder throws: a plain `Error`, or a RequestError carrying
      the response. */
  datatype Failure<C, Q> = PlainError(message: string) | Rejected(error: RequestError<C, Q, Response<C, Q>>)

  const UnhandledPrefix: string := "Unhandled responseType requested: "
  const StatusPrefix: string := "Request failed with status code "

  /** `payloadToData`: no (or an empty) responseType gives the body text,
      `arraybuffer` its UTF-8 octets, anything else an error. */
  function PayloadToData(responseType: Option<string>, body: string): Result<ResponseData, string> {
    if responseType.None? || responseType.value == "" then Ok(TextData(body))
    else if responseType.value == "arraybuffer" then Ok(BufferData(Utf8.Encode(body)))
    else Err(UnhandledPrefix + responseType.value)
  }

  /** `Request failed with status code ${status}` */
  function StatusMessage(status: int): string {
    StatusPrefix + IntToString(status)
  }

  /** The check that ends both generations: a `validateStatus` function that
      rejects the status turns the response into a RequestError carrying it. */
  function Checked<C, Q>(cls: ErrorClass, response: Response<C, Q>, validateStatus: Option<int -> bool>)
    : Result<Response<C, Q>, Failure<C, Q>>
  {
    if validateStatus.Some? && !validateStatus.value(response.status) then
      Err(Rejected(NewError(cls, StatusMessage(response.status), response.config, response.request, Some(response))))
    else Ok(response)
  }

  /** `lambdaResponse(config, request, payload)` of the current generation;
      `statusTexts` is Node's `http.STATUS_CODES` table. */
  function BuildResponse<C, Q>(config: C, validateStatus: Option<int -> bool>, responseType: Option<string>,
                               request: Q, payload: Payload, statusTexts: map<int, string>)
    : Result<Response<C, Q>, Failure<C, Q>>
  {
    match PayloadToData(responseType, payload.body)
    case Err(message) => Err(PlainError(message))
    case Ok(data) =>
      var statusText := if payload.statusCode in statusTexts then Some(statusTexts[payload.statusCode]) else None;
      Checked(AlphaClass, Response(config, data, payload.headers, request, payload.statusCode, statusText), validateStatus)
  }

  /** The older generations: `data` is the body as it is, and a rejection is
      of the generation's error class. */
  function BuildLegacyResponse<C, Q>(cls: ErrorClass, config: C, validateStatus: Option<int -> bool>, request: Q, payload: Payload,
                                     statusTexts: map<int, string>)
    : Result<Response<C, Q>, Failure<C, Q>>
  {
    var statusText := if payload.statusCode in statusTexts then Some(statusTexts[payload.statusCode]) else None;
    Checked(cls, Response(config, TextData(payload.body), payload.headers, request, payload.statusCode, statusText), validateStatus)
  }

  // ---------------------------------------------------------------------------
  // Properties

  /** An `arraybuffer` response carries octets that decode back to the body. */
  lemma ArrayBufferDecodes(body: string)
    ensures PayloadToData(Some("arraybuffer"), body).Ok?
    ensures PayloadToData(Some("arraybuffer"), body).value.BufferData?
    ensures Utf8.Decode(PayloadToData(Some("arraybuffer"), body).value.bytes) == Some(body)
  {
    Utf8.DecodeEncode(body);
  }

  /** Any other responseType, `text` and `json` included, fails before the
      status is looked at, whatever the validator says. */
  lemma ResponseTypeErrorWins<C, Q>(config: C, validateStatus: Option<int -> bool>, t: string, request: Q,
                                    payload: Payload, statusTexts: map<int, string>)
    requires t != "" && t != "arraybuffer"
    ensures BuildResponse(config, validateStatus, Some(t), request, payload, statusTexts)
      == Err(PlainError(UnhandledPrefix + t))
  {
  }

  /** Once the data is decoded, the call fails exactly when a validator is
      given and rejects the status; the failure is a RequestError that
      names the status and carries the response with that status and data. */
  lemma RejectedIffInvalid<C, Q>(config: C, validateStatus: Option<int -> bool>, responseType: Option<string>,
                                 request: Q, payload: Payload, statusTexts: map<int, string>)
    requires PayloadToData(responseType, payload.body).Ok?
    ensures var r := BuildResponse(config, validateStatus, responseType, request, payload, statusTexts);
      r.Err? <==> validateStatus.Some? && !validateStatus.value(payload.statusCode)
    ensures var r := BuildResponse(config, validateStatus, responseType, request, payload, statusTexts);
      var data := PayloadToData(responseType, payload.body).value;
      match r
      case Ok(resp) => resp.status == payload.statusCode && resp.data == data && resp.headers == payload.headers
      case Err(f) =>
        f.Rejected? && f.error.message == StatusMessage(payload.statusCode) && f.error.isAlphaRequestError
        && f.error.response.Some? && f.error.response.value.status == payload.statusCode
        && f.error.response.value.data == data
  {
  }

  /** Without a responseType, the current builder and the older ones agree:
      the same response, or a rejection with the same message and response
      that differs only in the error's class. */
  lemma GenerationsAgree<C, Q>(cls: ErrorClass, config: C, validateStatus: Option<int -> bool>, request: Q, payload: Payload,
                               statusTexts: map<int, string>)
    ensures var current := BuildResponse(config, validateStatus, None, request, payload, statusTexts);
      var legacy := BuildLegacyResponse(cls, config, validateStatus, request, payload, statusTexts);
      && (current.Ok? <==> legacy.Ok?)
      && (current.Ok? ==> current == legacy)
      && (current.Err? ==>
            && current.error.Rejected? && legacy.error.Rejected?
            && legacy.error.error.message == current.error.error.message
            && legacy.error.error.response == current.error.error.response
            && (legacy.error.error.isAlphaRequestError <==> cls == AlphaClass))
  {
  }

  /** The older builders never fail for a responseType: with no validator
      they always return the response, carrying the body as it is. */
  lemma LegacyWithoutValidator<C, Q>(cls: ErrorClass, config: C, request: Q, payload: Payload, statusTexts: map<int, string>)
    ensures BuildLegacyResponse(cls, config, None, request, payload, statusTexts).Ok?
    ensures BuildLegacyResponse(cls, config, None, request, payload, statusTexts).value.data == TextData(payload.body)
  {
  }

  lemma {:induction false} NatTextHasNoMinus(n: nat)
    ensures |NatToString(n)| > 0 && NatToString(n)[0] != '-'
  {
    assert IsDigit(NatToString(n)[0]);
  }

  /** The status can be read back from the message: distinct statuses give
      distinct messages. */
  lemma StatusMessageInjective(a: int, b: int)
    requires StatusMessage(a) == StatusMessage(b)
    ensures a == b
  {
    var p := |StatusPrefix|;
    assert IntToString(a) == StatusMessage(a)[p..];
    assert IntToString(b) == StatusMessage(b)[p..];
    if a < 0 && b < 0 {
      assert NatToString(-a) == IntToString(a)[1..];
      NatToStringInjective(-a, -b);
    } else if a >= 0 && b >= 0 {
      NatToStringInjective(a, b);
    } else if a < 0 {
      NatTextHasNoMinus(b);
    } else {
      NatTextHasNoMinus(a);
    }
  }
}
