# alpha, modelled in Dafny

alpha is a Node.js HTTP client built on axios. It can also send a request to an
AWS Lambda function, either one named by a `lambda://name[:qualifier][/path]`
URL or a handler function in the same process. The request is turned into an
API Gateway proxy event, and the function's answer is turned back into an HTTP
response. This project models the logic of that round trip and proves
properties of it:

- `lambda://` URLs: the grammar (`src/utils/lambdaURLGrammar.ts`) as a generator
  and a recogniser proved to agree, the front-ends around it, the older regular
  expression parsers, and the three absolute-URL tests;
- URL resolution that keeps the Lambda qualifier (`src/resolve.ts`,
  `src/utils/resolveUrl.ts`, `Alpha.resolve`), over reference resolution as
  section 5 of RFC 3986 defines it;
- service and region inference from an AWS host name (`src/utils/aws.ts`),
  checked against the library's test table;
- the event codec: headers, query parameters, method, body and base 64
  (section 4 of RFC 4648), in the three generations of `lambdaEvent`;
- the response codec: `responseType`, the status record and `validateStatus`,
  in the three generations of `lambdaResponse`, with UTF-8 as RFC 3629 defines it;
- adapter selection and configuration plumbing: `chainAdapters`, the request
  interceptors, `defaultConfig`, and the packing (`buildConfig`) and unpacking
  (`alpha-config`) of the Alpha-only options;
- the retry and redirect state machines in each generation;
- building the invocation request and classifying its result (`invokeLambda`
  and the two older invocation adapters), with the Lambda service as a
  function from the request to its answer;
- the `moduleExists` memo table.

Code that updates objects in place is modelled as classes with `modifies`
clauses: the request configuration (`AlphaConfig.Config`, `Retry.RetryConfig`,
`AdapterChain.ChainConfig`), the module table, and the header and parameter
loops. The rest is functions and lemmas. Each of the library's older
generations is modelled beside the current one, and lemmas state where they
agree and where they differ.

Where the library's tests and its code disagree, the model follows the code:
- `test/lambda-event.test.ts:33-38` expects a repeated `_tag` to stay in
  `queryStringParameters`, but `src/adapters/helpers/lambdaEvent.ts:21-29`
  moves every array-valued key to `multiValueQueryStringParameters`
  (`LambdaEvent.SplitParams`).
- `src/alpha.ts:75-79` and `src/Alpha.js:94-103` stop following redirects only
  when the budget is exactly 0. So a negative `maxRedirects` follows redirects
  for as long as they come (`Redirect.UncountedBudgetNeverStops`).
- In `src/adapters/lambda-invocation.js:11` the `$` of `$LATEST` is a regular
  expression anchor, so a `$LATEST` qualifier is never captured
  (`Invocation.JsLatestFallsIntoPath`).

## Model

| member | source | states |
|---|---|---|
| AbsoluteUrl.SchemeRun | src/utils/isAbsoluteURL.ts:1 | the scanned run is the longest prefix, from the given index, of characters in the case-insensitive class `[a-z\d+\-.]` |
| AbsoluteUrl.HasSchemeIffSomeSchemeEnd | src/adapters/helpers/isAbsoluteURL.ts:1 | the scanner accepts exactly the strings that have some prefix made of a letter, scheme characters and `://` |
| AbsoluteUrl.IsAbsoluteIff | src/adapters/helpers/isAbsoluteURL.ts:3 | a URL is absolute exactly when a scheme followed by `://` starts it or it starts with `//` |
| AbsoluteUrl.SchemePrefixIsAbsolute | src/adapters/helpers/isAbsoluteURL.js:3-5 | every `scheme://rest` with a letter first and scheme characters after is absolute |
| AbsoluteUrl.PathsAreNotAbsolute | src/adapters/helpers/isAbsoluteURL.js:3-5 | the empty string, a rooted path without `//`, and a relative path without `:` are never absolute |
| AbsoluteUrl.UtilsIsAbsoluteUrl | src/utils/isAbsoluteURL.ts:3-5 | undefined and `''` are returned as they are; any other string gives a boolean, and the result is truthy exactly when the URL is absolute |
| AdapterChain.ChainConfig.constructor | src/adapters/helpers/chainAdapters.ts:6-7 | a configuration holds its adapter, if any, and its other fields |
| AdapterChain.ChainAdapters | src/adapters/helpers/chainAdapters.ts:6-21 | the same configuration is returned; its adapter becomes the old one (or the default adapter when none was set) with one more guarded link on top; nothing else changes |
| AdapterChain.DispatchIsNewestMatch | src/adapters/helpers/chainAdapters.js:6-11 | a request goes to the adapter of the most recently added predicate that accepts it, and to the bottom adapter when none does |
| AlphaClient.ValidateStatusIsSuccessOrFollowedRedirect | src/index.ts:16-20 | the default status test accepts exactly the 2xx statuses and the two redirects the client follows itself; 303, 307 and 308 fail it |
| AlphaClient.RedirectPayloadReachesLoop | src/alpha.ts:51-56 | with the default status test, a Lambda answer with status 301 or 302 is settled as a response, so the redirect loop sees it |
| AlphaClient.WithValidateStatus | src/alpha.ts:51-56 | a truthy `validateStatus` of the caller is kept; otherwise the default test is installed, and no other option changes |
| AlphaClient.TargetsBecomeOptions | src/alpha.ts:37-50 | a string target becomes `baseURL` and a function target becomes `lambda`, in both client generations |
| AlphaClient.OptionsTargetAcrossGenerations | src/Alpha.js:61-71 | with an options object as target, alpha.ts keeps the keys of the second argument while Alpha.js keeps only the target's own keys |
| AlphaClient.ConstructorsKeepCallerValidateStatus | src/Alpha.js:73-78 | a truthy `validateStatus` of the caller is kept by both constructors; without options a default test is always installed |
| AlphaClient.ConfigureAxiosStatusTest | src/index.ts:50-55 | `configureAxios` keeps the caller's `validateStatus`, and installs the default test when none is given and redirects are not ignored |
| AlphaClient.ConfigureAxiosBaseUrl | src/index.ts:42-55 | the caller's `baseURL` wins; otherwise the `url` argument (or undefined) becomes `baseURL` |
| AlphaClient.ConfigureAxiosHandler | src/index.ts:55-56 | a truthy `lambda` in the configuration wins over the target handler; the target is used when neither the configuration nor the axios defaults give one |
| AlphaClient.IgnoreRedirectsDropsDefaultTest | src/index.ts:50-55 | with `ignoreRedirects` and no caller test, the status test is whatever the axios defaults hold |
| AlphaClient.DockerOptions | src/index.ts:22-32 | the options passed to docker-lambda are the caller's options without `event`, with `taskDir` defaulting to false |
| AlphaClient.DockerLambdaPassesRealEvent | src/Alpha.js:16-34 | each invocation passes the event actually received, and every other option (including `taskDir`) as prepared |
| AlphaConfig.Config.constructor | src/alpha.ts:17-18 | a request configuration holds the given fields |
| AlphaConfig.BuildConfig | src/alpha.ts:15-24 | the configuration keeps every caller field and gains an `adapter` object holding exactly the Alpha keys set by the caller or the client defaults |
| AlphaConfig.Unpacked | src/adapters/alpha-config.ts:3-10 | after unpacking, the fields are the old ones without `adapter`, with the packed keys written over them |
| AlphaConfig.UnpackAlphaConfig | src/adapters/alpha-config.js:1-8 | the interceptor replaces the configuration's fields by their unpacked form |
| AlphaConfig.UnpackBuildConfig | src/Alpha.js:108-115 | packing then unpacking gives each Alpha key the caller's value, else the client default's, else nothing; other keys are the caller's |
| AlphaConfig.WithDefaults | src/interceptors/request/defaultConfig.ts:5-18 | `__maxRedirects` is kept, else taken from `maxRedirects`, else 5; `maxRedirects` becomes 0; `retry`, `lambda`, `Lambda` fall back to the client defaults when falsy; every other field is kept |
| AlphaConfig.ApplyDefaultConfig | src/interceptors/request/defaultConfig.ts:6-17 | the interceptor replaces the configuration's fields by their defaulted form |
| AlphaConfig.WithDefaultsIdempotent | src/interceptors/request/defaultConfig.ts:10-16 | applying the defaults twice gives the same configuration as applying them once |
| AlphaConfig.BudgetSurvivesReapplying | src/interceptors/request/defaultConfig.ts:10-13 | once set, the redirect budget `__maxRedirects` survives any number of passes through the interceptor |
| ApiGateway.ToProxyHeaders | src/adapters/helpers/apiGateway.ts:10-28 | both header maps have exactly the request's header names; each name maps to its single-valued and its multi-valued form |
| ApiGateway.DefinedInBoth | src/adapters/helpers/apiGateway.ts:15-25 | a header is defined in one map exactly when it is defined in the other, and exactly when its value is not undefined |
| ApiGateway.NonTextIsSingleton | src/adapters/helpers/apiGateway.ts:19-21 | a non-string value appears in the multi-valued map as the one-element list of its text |
| ApiGateway.MultiPiecesClean | src/adapters/helpers/apiGateway.ts:18 | every piece of a split string header is trimmed and holds no comma |
| ApiGateway.MultiRejoins | src/adapters/helpers/apiGateway.ts:16-18 | when no piece has surrounding white space, joining the pieces with commas gives back the single-valued header |
| ApiGateway.MultiCount | src/adapters/helpers/apiGateway.ts:18 | a string header splits into one more piece than it has commas |
| AwsHost.Labels | src/utils/aws.ts:1 | a host splits into at least one label, none containing a dot |
| AwsHost.MatchFrom | src/utils/aws.ts:4 | the search returns the leftmost label at which the pattern matches, with its captures, and no label before it matches |
| AwsHost.MatchHost | src/utils/aws.ts:3-29 | a host the pattern does not match gives no service and `us-east-1` |
| AwsHost.TailLength | src/utils/aws.ts:1 | the counted trailing labels spell `amazonaws.com` or `amazonaws.com.cn` |
| AwsHost.TailLengthFinds | src/utils/aws.ts:1 | any suffix of the labels that spells the domain is the one counted |
| AwsHost.MatchAtInDomain | src/utils/aws.ts:1 | inside the domain, the pattern matches at a non-empty label exactly when at most one label, or `dualstack` and one label, lie between it and the domain |
| AwsHost.MatchIsAnchored | src/utils/aws.ts:1-6 | the leftmost, unanchored match captures the same service and region as reading the labels back from the domain suffix |
| AwsHost.ForeignHostDefaults | src/utils/aws.ts:25-28 | a host outside `amazonaws.com` and `amazonaws.com.cn` gets no service and `us-east-1` |
| AwsHost.UndefinedHostDefaults | src/utils/aws.ts:4 | undefined and the empty host both get no service and `us-east-1` |
| AwsHost.HostNameMatches | src/utils/aws.ts:1-6 | an endpoint name built from a service, an optional `dualstack` marker and an optional region, after any prefix labels, captures back that service and region |
| AwsHost.AnchoredHostLabels | src/utils/aws.ts:1 | reading from the domain suffix finds the service and region an endpoint name was built from |
| AwsHost.PrefixTakesOverBareService | src/utils/aws.ts:1 | with neither marker nor region, a prefix label before the service reads as the service and the service as the region |
| AwsHost.HostNameCodes | src/utils/aws.ts:8-28 | the rewrite table on built endpoint names: a region `es` swaps the two codes, a region `s3` gives `s3` in `us-east-1`, `email` becomes `ses`, an `s3-` service becomes `s3`, and any other service and region pass through, with `us-east-1` for a missing region |
| AwsHost.EmptyRegionKept | src/utils/aws.ts:26-27 | an empty region label is a present capture and is kept as the empty region, not replaced by `us-east-1` |
| AwsHost.DualstackRegionIsSwallowed | src/utils/aws.ts:1 | a region label spelled `dualstack` is read as the marker, so the region falls back to `us-east-1` |
| AwsHostTable.EmptyRows | test/utils/aws.test.ts:5-6 | undefined and `''` give `''` and `us-east-1` |
| AwsHostTable.Row7 | test/utils/aws.test.ts:7 | `s3.amazonaws.com` gives service `s3` and region `us-east-1` |
| AwsHostTable.Row8 | test/utils/aws.test.ts:8 | `lifeomic.s3.amazonaws.com` gives service `s3` and region `us-east-1` |
| AwsHostTable.Row9 | test/utils/aws.test.ts:9 | `lifeomic.s3.us-east-2.amazonaws.com` gives service `s3` and region `us-east-2` |
| AwsHostTable.Row10 | test/utils/aws.test.ts:10 | `s3.us-east-2.amazonaws.com` gives service `s3` and region `us-east-2` |
| AwsHostTable.Row11 | test/utils/aws.test.ts:11 | `s3-fips.us-east-2.amazonaws.com` gives service `s3` and region `us-east-2` |
| AwsHostTable.Row12 | test/utils/aws.test.ts:12 | `s3.dualstack.us-east-2.amazonaws.com` gives service `s3` and region `us-east-2` |
| AwsHostTable.Row13 | test/utils/aws.test.ts:13 | `s3-fips.dualstack.us-east-2.amazonaws.com` gives service `s3` and region `us-east-2` |
| AwsHostTable.Row14 | test/utils/aws.test.ts:14 | `123456789012.s3-control.us-east-2.amazonaws.com` gives service `s3` and region `us-east-2` |
| AwsHostTable.Row15 | test/utils/aws.test.ts:15 | `123456789012.s3-control-fips.us-east-2.amazonaws.com` gives service `s3` and region `us-east-2` |
| AwsHostTable.Row16 | test/utils/aws.test.ts:16 | `123456789012.s3-control.dualstack.us-east-2.amazonaws.com` gives service `s3` and region `us-east-2` |
| AwsHostTable.Row17 | test/utils/aws.test.ts:17 | `123456789012.s3-control-fips.dualstack.us-east-2.amazonaws.com` gives service `s3` and region `us-east-2` |
| AwsHostTable.Row18 | test/utils/aws.test.ts:18 | `s3-fips.dualstack.us-east-1.amazonaws.com` gives service `s3` and region `us-east-1` |
| AwsHostTable.Row19 | test/utils/aws.test.ts:19 | `s3-fips.dualstack.us-east-2.amazonaws.com` gives service `s3` and region `us-east-2` |
| AwsHostTable.Row20 | test/utils/aws.test.ts:20 | `s3-fips.dualstack.us-west-1.amazonaws.com` gives service `s3` and region `us-west-1` |
| AwsHostTable.Row21 | test/utils/aws.test.ts:21 | `s3-fips.dualstack.us-west-2.amazonaws.com` gives service `s3` and region `us-west-2` |
| AwsHostTable.Row22 | test/utils/aws.test.ts:22 | `s3-fips.us-east-1.amazonaws.com` gives service `s3` and region `us-east-1` |
| AwsHostTable.Row23 | test/utils/aws.test.ts:23 | `s3-fips.us-east-2.amazonaws.com` gives service `s3` and region `us-east-2` |
| AwsHostTable.Row24 | test/utils/aws.test.ts:24 | `s3-fips.us-west-1.amazonaws.com` gives service `s3` and region `us-west-1` |
| AwsHostTable.Row25 | test/utils/aws.test.ts:25 | `s3-fips.us-west-2.amazonaws.com` gives service `s3` and region `us-west-2` |
| AwsHostTable.Row26 | test/utils/aws.test.ts:26 | `s3-fips.us-gov-east-1.amazonaws.com` gives service `s3` and region `us-gov-east-1` |
| AwsHostTable.Row27 | test/utils/aws.test.ts:27 | `s3-fips.us-gov-west-1.amazonaws.com` gives service `s3` and region `us-gov-west-1` |
| AwsHostTable.Row28 | test/utils/aws.test.ts:28 | `s3-fips.ca-central-1.amazonaws.com` gives service `s3` and region `ca-central-1` |
| AwsHostTable.Row29 | test/utils/aws.test.ts:29 | `search-cluster-name-aaaa00aaaa0aaa0aaaaaaa0aaa.us-east-2.es.amazonaws.com` gives service `es` and region `us-east-2` |
| AwsHostTable.Row30 | test/utils/aws.test.ts:30 | `email.us-east-2.amazonaws.com` gives service `ses` and region `us-east-2` |
| Base64.ValueOfCharOf | src/adapters/helpers/lambdaEvent.ts:84 | every sextet is written as a character of the base 64 alphabet, and reading that character back gives the sextet |
| Base64.Encode | src/adapters/helpers/lambdaEvent.ts:83-86 | the encoding of a binary body has four characters for every started group of three octets |
| Base64.DecodeEncode | src/adapters/helpers/lambdaEvent.ts:83-86 | decoding the base 64 text of any body gives the body back, so a handler can recover binary request data |
| Base64.EncodeDecode | src/adapters/helpers/lambdaEvent.ts:84 | every text the strict decoder accepts is exactly the encoding of what it decodes to |
| Base64.EncodeInjective | src/adapters/helpers/lambdaEvent.ts:84 | distinct bodies have distinct encodings |
| Utf8.EncodeChar | src/adapters/helpers/lambdaResponse.ts:20 | one character takes one to four octets |
| Utf8.Encode | src/adapters/helpers/lambdaResponse.ts:20 | a string of n characters takes between n and 4n octets |
| Utf8.DecodeFirst | src/adapters/helpers/lambdaResponse.ts:20 | a decoded character consumes one to four of the available octets |
| Utf8.DecodeEncode | src/adapters/helpers/lambdaResponse.ts:20 | decoding the octets of any string gives the string back |
| Utf8.EncodeDecode | src/adapters/helpers/lambdaResponse.ts:20 | every octet sequence the strict decoder accepts is exactly the encoding of what it decodes to |
| Utf8.EncodeInjective | src/adapters/helpers/lambdaResponse.ts:20 | distinct strings have distinct encodings |
| Utf8.AsciiIsOneOctetEach | src/adapters/helpers/lambdaResponse.ts:20 | an ASCII string encodes to one octet per character, equal to its code |
| LambdaResponse.ArrayBufferDecodes | src/adapters/helpers/lambdaResponse.ts:16-23 | with responseType `arraybuffer`, the data is the octets of the body, which decode back to the body |
| LambdaResponse.ResponseTypeErrorWins | src/adapters/helpers/lambdaResponse.ts:19-21 | any other non-empty responseType fails with `Unhandled responseType requested: ` and the type, before the status is checked |
| LambdaResponse.RejectedIffInvalid | src/adapters/helpers/lambdaResponse.ts:25-46 | the response is rejected exactly when a status test is present and refuses the status; a response carries the payload's status, data and headers, and a rejection is a flagged RequestError with the status message and that response |
| LambdaResponse.GenerationsAgree | src/utils/lambdaResponse.ts:7-22 | without a responseType, the current and the older builders accept the same payloads with the same response, and reject the others with the same message and response; only the error class differs |
| LambdaResponse.LegacyWithoutValidator | src/adapters/helpers/lambdaResponse.js:4-19 | without a status test, the older builders always return the response with the body text as data |
| LambdaResponse.StatusMessageInjective | src/adapters/helpers/lambdaResponse.ts:42 | the failure message names the status, so distinct statuses give distinct messages |
| LambdaEvent.DataOr | src/utils/lambdaEvent.ts:10 | the body is `config.data`, or the empty text when that is falsy, so there is always one; a non-empty text or a buffer is kept as it is |
| LambdaEvent.RootedPath | src/adapters/helpers/lambdaEvent.ts:43 | the event path always starts with `/`, and a path that already does is unchanged |
| LambdaEvent.ParamsWin | src/adapters/helpers/lambdaEvent.ts:16 | the merged parameters hold the keys of the query and of `config.params` except `__proto__`, which the target's prototype setter takes; a key of `config.params` overrides the query's |
| LambdaEvent.SplitPartitions | src/adapters/helpers/lambdaEvent.ts:17-29 | every merged key lands in exactly one of the single-valued and the multi-valued parameters, with its value; with no array value the single-valued parameters are all of them |
| LambdaEvent.SplitParams | src/adapters/helpers/lambdaEvent.ts:19-29 | the loop leaves the single-valued parameters and, when some value is an array, the multi-valued ones, as the partition defines them |
| LambdaEvent.BuildProxyEvent | src/adapters/helpers/lambdaEvent.ts:9-89 | the event's path, single- and multi-valued query parameters, upper-cased method, body and base 64 flag, both header maps and request context come from the configuration as the builder promises; a `__proto__` key reaches neither parameter map |
| LambdaEvent.BodyDecodes | src/adapters/helpers/lambdaEvent.ts:83-86 | a binary body is sent as base 64 text that decodes back to its octets; a text body is sent unchanged; no body is sent as `''` |
| LambdaEvent.ProxyPathHasNoQuery | src/adapters/helpers/lambdaEvent.ts:43 | the event path never holds a `?`: the query goes to the parameters |
| LambdaEvent.RepeatedKeyIsMultiValue | src/adapters/helpers/lambdaEvent.ts:96-101 | a key repeated in the query and not set by `config.params` reaches the handler as the list of all its values, in order, and not among the single-valued parameters; a repeated `__proto__` reaches neither map |
| LambdaEvent.InheritedNamesOnlyFromParams | src/utils/lambdaEvent.ts:6-7 | a name every object inherits is an older-event parameter exactly when `config.params` sets it and it is not `__proto__`, with that value; the query never supplies one |
| LambdaEvent.BuildHttpEvent | src/utils/lambdaEvent.ts:5-23 | the older event takes its path and first-value query parameters (names inherited from `Object.prototype` skipped) from the first truthy one of `relativeUrl`, `config.url` and `config.baseURL`, its headers unchanged, the method upper-cased, and a base 64 body with the flag set for a buffer |
| LambdaEvent.JsEvent | src/adapters/helpers/lambdaEvent.js:4-16 | the oldest event exists exactly when `new URL(config.url, 'http://localhost')` does not throw; its path is that URL's `pathname`, its parameters the parsed query, its method upper-cased; headers and body (`data`, or the empty text when that is falsy) pass through and the base 64 flag is never set |
| LambdaEvent.JsEventPathIsRooted | src/adapters/helpers/lambdaEvent.js:5-11 | a relative `config.url` (the empty one and a bare query included) is resolved against `http://localhost`, so the event path starts with `/` |
| LambdaEvent.EmptyRelativeUrl | src/utils/lambdaEvent.ts:6 | an empty relative URL is honoured by the current builder but falls through to `config.url` in the older one |
| LambdaEvent.BodiesAcrossGenerations | src/utils/lambdaEvent.ts:17-20 | both newer builders send the same body text: base 64 for a buffer, the text otherwise |
| LambdaEvent.FirstWinsAgainstArrays | src/adapters/helpers/lambdaEvent.ts:91-95 | for a repeated key the array-supporting parser keeps all values while the plain one keeps only the first, and nothing for a name inherited from `Object.prototype` |
| QueryString.SplitPair | src/adapters/helpers/lambdaEvent.ts:100 | a piece's key holds no `=`, and a piece without `=` has the empty value |
| QueryString.CollectGroups | src/adapters/helpers/lambdaEvent.ts:100 | a key is collected exactly when it is given some value, and then holds the one value or the array of all its values in order |
| QueryString.ParseGroups | src/adapters/helpers/lambdaEvent.ts:96-101 | `querystring.parse` gives exactly the keys the query names, each with its one value or the array of all of them |
| QueryString.ParseArraysRepeat | src/adapters/helpers/lambdaEvent.ts:91-95 | an array value only arises for a key given at least twice |
| QueryString.EmptyQuery | src/adapters/helpers/lambdaEvent.ts:100 | the empty query gives no parameters |
| QueryString.ArraySupportIgnoresQuestionMark | src/adapters/helpers/lambdaEvent.ts:97-99 | a leading `?` is dropped before parsing |
| QueryString.MatchPiece | src/utils/lambdaEvent.ts:6 | a piece the first-value parser accepts has a non-empty key free of `=`, `?` and `#` |
| QueryString.CollectFirstIsFirst | src/utils/lambdaEvent.ts:6-7 | the first-value parser keeps exactly the keys given some value that a `{}` does not already inherit from `Object.prototype`, each with its first value |
| QueryString.FirstOfGroup | src/utils/lambdaEvent.ts:6 | on the same pairs, the first-value parser's value is the single value or the first element of the array `querystring.parse` collects; a name inherited from `Object.prototype` is kept only by `querystring.parse` |
| LambdaUrlGrammar.NameOfSegments | src/utils/lambdaURLGrammar.ts:44-46 | the `:`-separated pieces read as a name only when they are the pieces of a valid function name, partial ARN or full ARN |
| LambdaUrlGrammar.NameOfFormSegments | src/utils/lambdaURLGrammar.ts:44-67 | each of the three name forms is read back from its own pieces |
| LambdaUrlGrammar.HeadWithQualifierIsNotAName | src/utils/lambdaURLGrammar.ts:44-67 | a name followed by `:qualifier` is never itself a name, so the qualifier is never swallowed by the name |
| LambdaUrlGrammar.SegmentsHaveNoSeparators | src/utils/lambdaURLGrammar.ts:50-67 | no piece of a valid name holds `:` or `/` |
| LambdaUrlGrammar.QualifierHasNoSeparators | src/utils/lambdaURLGrammar.ts:53-57 | a qualifier (`$LATEST` or a run of name characters) holds neither `:` nor `/` |
| LambdaUrlGrammar.HeadSplits | src/utils/lambdaURLGrammar.ts:37 | the text of a name and optional qualifier splits at `:` into its pieces, holds no `/`, and reads back as that name and qualifier |
| LambdaUrlGrammar.ParseSplitsAtFirstSlash | src/utils/lambdaURLGrammar.ts:35-49 | the path starts at the first `/` after the scheme |
| LambdaUrlGrammar.ParseSerialize | src/utils/lambdaURLGrammar.ts:37-43 | every URL the grammar derives parses back to its name, qualifier and path |
| LambdaUrlGrammar.ParseHeadSound | src/utils/lambdaURLGrammar.ts:37-46 | whatever head the parser accepts is the text of a valid name and an optional qualifier |
| LambdaUrlGrammar.ParseSound | src/utils/lambdaURLGrammar.ts:30-68 | every parse is a derivation of the grammar and serializes back to the input text |
| LambdaUrlGrammar.ParseAcceptsExactlyDerivations | src/utils/lambdaURLGrammar.ts:30-70 | the parser accepts a string exactly when the grammar derives it |
| LambdaUrlGrammar.ParseNeedsScheme | src/utils/lambdaURLGrammar.ts:31-37 | every accepted URL starts with `lambda://` |
| LambdaUrlGrammar.SchemeAloneHasNoParse | src/utils/lambdaURLGrammar.ts:37 | `lambda://` alone, without a name, is refused |
| LambdaUrlGrammar.MisspelledArnRejected | src/utils/lambdaURLGrammar.ts:64-67 | an ARN-shaped name whose `function` keyword is misspelled is refused |
| Url.ParseLambdaUrl | src/utils/url.ts:16-30 | splitting at `?`, parsing the first piece and appending the rest to the path gives the grammar's reading of the text before the first `?` with `?` and everything after it added to the path, or nothing when the grammar refuses |
| Url.WithoutQueryIsGrammar | src/utils/url.ts:20-26 | a URL without `?` is read exactly as the grammar reads it |
| Url.WithQueryNeedsScheme | src/utils/url.ts:16-30 | every URL the parser accepts passes the `lambda://` test |
| Url.WithQueryRoundTrip | src/utils/url.ts:23-25 | a derived URL followed by `?` and any query parses to its parts with `?query` appended to the path |
| Url.WithQueryNoQueryRoundTrip | src/utils/url.ts:16-30 | a derived URL whose path has no `?` parses back to its parts |
| Url.WithQuerySuffixRoundTrip | src/utils/url.ts:20-25 | a derived URL followed by an empty or `?`-led suffix parses to its parts with that suffix on the path |
| Url.QuestionMarkFree | src/utils/url.ts:20-21 | the text of a derived URL whose path has no `?` holds no `?`, so the split leaves it whole |
| LambdaUrlParsers.HelperParseLambdaUrl | src/adapters/helpers/parseLambdaUrl.ts:5-19 | the adapters' copy of the parser computes the same result as the one in `utils/url.ts` |
| LambdaUrlParsers.ParseWholeUrl | src/utils/parseLambdaUrl.ts:4-13 | a URL the whole-input parser accepts is derived by the grammar and serializes back to the input |
| LambdaUrlParsers.WholeUrlKeepsQueryInPath | src/utils/parseLambdaUrl.ts:7-9 | without the split, a query without line terminators is read into the path, which gives the same result as the splitting parser |
| LambdaUrlParsers.LineTerminatorInPathRejected | src/utils/lambdaURLGrammar.ts:48-49 | the grammar's path (`/.*`) refuses a line terminator |
| LambdaUrlParsers.NameRun | src/adapters/helpers/parseLambdaUrl.js:4 | `[a-zA-Z0-9-_]+` takes the longest run of name characters |
| LambdaUrlParsers.LineRun | src/adapters/helpers/parseLambdaUrl.js:4 | `.*` takes the longest run of characters that are not line terminators |
| LambdaUrlParsers.RegexParseParts | src/adapters/helpers/parseLambdaUrl.js:6-18 | a match starts with `lambda://`, its name is the whole run of name characters after it, and the qualifier and path are read from what follows |
| LambdaUrlParsers.QualifierAndPathReads | src/adapters/helpers/parseLambdaUrl.js:4 | after the name, an optional `:qualifier` and a path that stops at a line terminator are read as themselves |
| LambdaUrlParsers.RegexParseSerialize | src/adapters/helpers/parseLambdaUrl.js:6-18 | the expression reads a URL with a plain function name back to its parts, even with text after a line terminator behind the path |
| LambdaUrlParsers.RegexAgreesWithGrammar | src/adapters/helpers/parseLambdaUrl.js:4 | on URLs the grammar accepts with a plain function name, the expression gives the same parts |
| LambdaUrlParsers.RegexStopsAtLineTerminator | src/adapters/helpers/parseLambdaUrl.js:4 | a line terminator after a path ends the expression's path, while the grammar refuses the URL |
| LambdaUrlParsers.TwoColonsRejected | src/adapters/helpers/parseLambdaUrl.js:4-11 | a URL whose name is followed by two `:`-separated words is refused by the expression |
| LambdaUrlParsers.RegexRejectsArns | src/adapters/helpers/parseLambdaUrl.js:1-4 | every URL naming its function by a partial or full ARN is refused by the expression, though the grammar accepts it |
| ModuleCache.ModuleTable.constructor | src/utils/modules.ts:1 | the cache starts empty and nothing has been probed |
| ModuleCache.ModuleTable.ModuleExists | src/utils/modules.ts:3-8 | a cached answer is returned without probing and nothing changes; an unknown module is probed once, its answer returned and recorded, and the probe logged; a name the table inherits from `Object.prototype` gives a truthy answer without probing or recording |
| Redirect.Follow | src/alpha.ts:64-88 | the first URL requested is the caller's, and there is at most one request per server answer |
| Redirect.AtMostBudgetPlusOne | src/alpha.ts:75-84 | with a budget of n redirects, at most n + 1 requests are made |
| Redirect.EndlessRedirectsExceedBudget | src/Alpha.js:94-97 | against a server that always redirects, a budget of n makes exactly n + 1 requests and then throws the too-many-redirects error with the last response |
| Redirect.UncountedBudgetNeverStops | src/Alpha.js:85-100 | a negative or non-numeric budget never equals 0, so redirects are followed for as long as the server sends them |
| Redirect.NonRedirectReturned | src/alpha.ts:75-87 | an answer other than 301 or 302 is returned as it is, after one request |
| Redirect.HopsFollowLocations | src/alpha.ts:81-84 | each next request goes to the `Location` of the previous answer, resolved against that answer's request URL |
| Redirect.BudgetsAcrossGenerations | src/Alpha.js:85 | alpha.ts (`?? 5`) and Alpha.js (`'maxRedirects' in config`) give the same budget, except for a key present with an undefined or null value, which alpha.ts reads as 5 and Alpha.js as a budget that never runs out |
| Redirect.UnderlyingConfig | src/alpha.ts:68-69 | the request handed to the HTTP client keeps the caller's fields, with the Alpha settings packed into `adapter` and the client's own redirects switched off |
| Redirect.NumberOf | src/interceptors/response/redirect.ts:15 | the relational comparison reads `null` and `false` as 0, `true` as 1 and a number as itself; undefined, objects and functions read as NaN |
| Redirect.InterceptResponse | src/interceptors/response/redirect.ts:9-30 | a response other than 301 or 302 passes through; a redirect throws exactly when the hop count and `__maxRedirects`, read as numbers, compare count at least budget; a reissued redirect has no adapter and no `url` |
| Redirect.NullBudgetThrowsOnFirstRedirect | src/interceptors/response/redirect.ts:12-16 | a caller's `maxRedirects: null` or `false` becomes the budget, and the first 301 or 302 already throws the too-many-redirects error |
| Redirect.ReissueCounts | src/interceptors/response/redirect.ts:18-24 | each reissued redirect counts one more hop and keeps the budget `__maxRedirects` |
| Redirect.BudgetOfHops | src/interceptors/response/redirect.ts:12-16 | after k of n allowed hops, a server that keeps redirecting (to absolute locations) is followed until exactly n hops are counted, and then the error is thrown |
| RequestErrors.FlagTestCases | src/adapters/helpers/requestError.ts:4-8 | the flag tests are false for a non-object, throw for null, and are true exactly for an object whose flag field is truthy |
| RequestErrors.NewError | src/utils/RequestError.ts:5-20 | a constructed error of any generation carries the message, configuration, request and response it was given, no code, and the Alpha flag only in the current class |
| RequestErrors.ConstructedIsAlphaRequestError | src/adapters/helpers/requestError.ts:10-26 | a current RequestError passes `isAlphaRequestError`, fails `isAxiosError`, and has no `code` or timeout field until one is set |
| RequestErrors.OnlyCurrentClassIsFlagged | src/adapters/helpers/RequestError.js:1-10 | only the current class is recognised by `isAlphaRequestError`; no class passes `isAxiosError` |
| RequestErrors.CodeKeepsFlag | src/adapters/helpers/requestError.ts:14-16 | setting a code on a flagged error keeps it flagged |
| RequestInterceptors.LambdaHandlerInterceptor | src/interceptors/request/lambda-handler.ts:8-18 | the request is rejected exactly when resolving its URL throws; otherwise the handler adapter is installed exactly when the resolved URL is not absolute and the client has a handler, and nothing else changes |
| RequestInterceptors.LambdaInvocationInterceptor | src/interceptors/request/lambda-invocation.ts:5-14 | the invocation adapter is installed exactly when base and URL written side by side start with `lambda:`, and nothing else changes |
| RequestInterceptors.LegacyInvocationInterceptor | src/adapters/lambda-invocation.js:74-80 | a request whose URL is not a string is rejected; otherwise the adapter is installed exactly when the URL starts with `lambda:` |
| RequestInterceptors.LambdaSchemeIsAbsolute | src/utils/isAbsoluteURL.ts:1-4 | every `lambda://` URL is absolute, so it never goes to the handler adapter |
| RequestInterceptors.LambdaUrlGoesToInvocation | src/interceptors/request/lambda-invocation.ts:11-12 | a `lambda://` URL without a base is sent to the invocation adapter, not the handler |
| RequestInterceptors.LambdaBaseGoesToInvocation | src/interceptors/request/lambda-invocation.ts:11-12 | a `lambda://` base without a URL is sent to the invocation adapter, not the handler |
| RequestInterceptors.PathGoesToHandler | src/interceptors/request/lambda-handler.ts:11-13 | a rooted path without a base goes to the handler when the client has one, and not to the invocation adapter |
| RequestInterceptors.BaseOnlySeenByTypeScript | src/adapters/lambda-invocation.js:75 | a path under a `lambda://` base is sent to the invocation adapter by the TypeScript interceptor but not by the CommonJS one, which looks at the URL alone |
| Resolve.UrlJoin | src/resolve.ts:25-30 | `new URL(url, base)` succeeds only against a base with a valid scheme and a numeric (or no) port |
| Resolve.ResolveTs | src/resolve.ts:10-34 | an absolute URL is returned unchanged; against a base the lambda parser accepts, the result is the lambda join against the sanitized base |
| Resolve.ResolveUrl | src/utils/resolveUrl.ts:12-36 | an undefined URL gives the base; an absolute URL, or any URL without a base, is returned as it is; only a URL with a base can throw |
| Resolve.AlphaResolve | src/Alpha.js:41-59 | an absolute URL is returned unchanged, and a base the expression does not read as a lambda URL never throws |
| Resolve.WithQueryParts | src/utils/url.ts:16-30 | the parts of an accepted base have a path that is empty or starts with `/` or `?`, a valid qualifier, and a name the grammar derives |
| Resolve.SanitizedBaseParse | src/resolve.ts:29 | the sanitized base `lambda://name:0path` reads with scheme `lambda`, authority `name:0`, and a path that is a prefix of the original path |
| Resolve.PortZeroIsValid | src/resolve.ts:29 | the port `0` put in place of the qualifier is one the WHATWG parser accepts |
| Resolve.JoinAgainstSanitized | src/resolve.ts:30 | a relative reference resolved against the sanitized base never throws and keeps the scheme, the `name:0` authority, no fragment, and a path the grammar accepts without `?` |
| Resolve.ReparseJoined | src/resolve.ts:30-32 | the joined text parses back with the same name, the placeholder qualifier `0`, and the joined path and query as path |
| Resolve.ReparseRebuilt | src/resolve.ts:33 | the rebuilt `lambda://name:qualifier path` text parses back to exactly those parts |
| Resolve.ResolveTsKeepsTarget | src/resolve.ts:10-34 | resolving a relative reference against a `lambda://` base never throws, and the result names the same function with the base's own qualifier, with the path and query of the join against the sanitized base |
| Resolve.LambdaJoinAgainstTarget | src/resolve.ts:28-33 | the lambda branch rebuilds the URL from the original name and qualifier and the path and query of the join |
| Resolve.ResolveUrlKeepsTarget | src/utils/resolveUrl.ts:30-35 | a relative reference against a `lambda://` base with a plain function name does not throw, and the result reads back as the same function with the base's own qualifier and the path and query of the join against the sanitized base |
| Resolve.AlphaResolveKeepsTarget | src/Alpha.js:53-58 | a relative reference against any base the regular expression reads does not throw, and the result reads back as the same function with the base's own qualifier and the path and query of the join |
| Resolve.LambdaJoinReparses | src/utils/resolveUrl.ts:31-34 | the join against the sanitized base is re-read by both whole-text parsers as the base's function with qualifier `0` and the joined path and query |
| Resolve.ResolveUrlBareQueryThrows | src/utils/resolveUrl.ts:31-35 | a bare query against a base without a path joins to `lambda://name:0?query`, which the grammar refuses, so `resolveUrl` throws |
| Resolve.AlphaResolveBareQueryThrows | src/Alpha.js:54-58 | the same bare query makes `Alpha.resolve` throw, because the regular expression refuses the joined text |
| Resolve.ResolversDifferOnBareQuery | src/resolve.ts:28-33 | `resolve` turns a bare query against `lambda://name` into `lambda://name?query`, where `resolveUrl` throws |
| Resolve.QualifiedQueryRefused | src/utils/parseLambdaUrl.ts:4-13 | neither whole-text parser reads a URL whose qualifier is followed directly by a query |
| LambdaUrlParsers.RegexParseDerivable | src/adapters/helpers/parseLambdaUrl.js:6-18 | every URL the regular expression reads is made of a plain function name, a valid qualifier and a valid path |
| Rfc3986.RemoveDotSegmentsRooted | src/utils/resolveUrl.ts:25 | removing dot segments from a rooted path never leaves it empty |
| Resolve.HostedJoin | src/resolve.ts:18-22 | resolving against `http://fake.fake` followed by a rooted base is the reference join against the base, under that fixed prefix |
| Resolve.ResolveTsPathBase | src/resolve.ts:21-23 | against a rooted path base, `resolve` gives the reference join of the two, with the fake host removed; in this model, where `resolve-pathname` is read as the same join, `resolveUrl` gives the same result |
| Resolve.NotLambdaBase | src/utils/resolveUrl.ts:20-24 | a rooted path base is not read as a lambda URL by any of the three parsers |
| Retry.ConditionsAcrossGenerations | src/adapters/response-retry.ts:21-35 | the TypeScript condition and the older JavaScript one agree on a response without a `StatusCode` field; with no response at all, the newer one retries only a lambda timeout while the older one retries anything not aborted |
| Retry.TimeoutsAlwaysRetried | src/interceptors/response/retry.ts:15-20 | the default condition of every generation retries a lambda invoke timeout and never retries an `ECONNABORTED` failure that is not one |
| Retry.Normalised | src/adapters/response-retry.ts:37-49 | `retry: true` becomes the full defaults (3 attempts, factor 2, 10000 ms cap, the retryable-error test); an options object keeps every setting it gives and gains the defaults for the rest |
| Retry.NormalisedIdempotent | src/adapters/response-retry.js:20-27 | filling in the defaults a second time changes nothing |
| Retry.RetryConfig.constructor | src/adapters/response-retry.ts:16-19 | a request configuration starts with the retry setting and count it is given |
| Retry.OnFailure | src/adapters/response-retry.ts:67-91 | a failure without a configuration or without a truthy `retry` is rejected untouched; otherwise the settings are normalised, the count starts at 0 when missing, and the request is sent again, with the count raised by one, exactly when the condition accepts the failure and the count is below `attempts` |
| Retry.SendAlwaysFailing | src/adapters/response-retry.js:47-69 | a request that always fails in a retryable way is sent `1 + max(attempts - start, 0)` times and ends with its count at `max(attempts, start)`: four sends for the default settings |
| Retry.Delay | src/adapters/response-retry.ts:59 | the wait before a retry is the random backoff or the cap, whichever is smaller, so it never exceeds `maxTimeout` |
| Rfc3986.RecomposeParse | src/resolve.ts:30 | reading any text into scheme, authority, path, query and fragment and writing them back gives the same text |
| Rfc3986.ParseRecompose | src/resolve.ts:30-32 | a well-formed reference written out and read back is the same reference |
| Rfc3986.ParseWellFormed | src/adapters/helpers/lambdaEvent.ts:11-15 | whatever text is read, the components it yields are well-formed: a path free of `?` and `#`, a query free of `#`, a path that cannot be mistaken for an authority |
| Rfc3986.ParseChars | src/adapters/helpers/lambdaEvent.ts:11-15 | every character of the path and of the query comes from the input, and a fragment exists only if the input holds `#` |
| Rfc3986.RemoveDotSegmentsClean | src/utils/resolveUrl.ts:25 | removing dot segments from a rooted path leaves a path with no `.` or `..` segment |
| Rfc3986.RemoveDotSegmentsIdempotent | src/utils/resolveUrl.ts:25 | removing dot segments twice is the same as once |
| Rfc3986.RemoveDotSegmentsChars | src/resolve.ts:22 | removing dot segments introduces no character that was not in the path |
| Rfc3986.ResolveEmpty | src/resolve.ts:30 | an empty reference resolves to the base without its fragment |
| Rfc3986.ResolveAbsoluteIgnoresBase | src/resolve.ts:25 | a reference with a scheme resolves the same way against every base |
| Rfc3986.ResolveInherits | src/resolve.ts:30 | a reference without a scheme takes the base's scheme, takes the base's authority unless it has its own, and keeps its own fragment |
| Rfc3986.ResolvedPathClean | src/resolve.ts:22 | against a base with an authority, a non-empty relative reference resolves to a path with no dot segments |
| Rfc3986.ResolveWellFormed | src/resolve.ts:30-32 | resolving a well-formed relative reference against a well-formed base with an authority gives a well-formed reference, which survives being written out and read back |
| Rfc3986.ResolvedPathChars | src/adapters/helpers/lambdaEvent.ts:11-15 | the resolved path holds no `?` or `#` when neither the base's path nor the reference's does |
| Strings.JoinSplit | src/utils/url.ts:20 | splitting a text on a character and joining the pieces with it gives the text back |
| Strings.SplitJoin | src/utils/url.ts:20 | joining pieces that do not hold the separator and splitting again gives the same pieces |
| Strings.SplitAtFirst | src/adapters/helpers/parseLambdaUrl.ts:9 | the first piece of a split is the text before the first separator, there is more than one piece exactly when the separator occurs, and the remaining pieces joined again are the text after it |
| Strings.TrimIdempotent | src/adapters/helpers/apiGateway.ts:18 | trimming twice is the same as trimming once |
| Strings.TrimIsInfix | src/adapters/helpers/apiGateway.ts:18 | the trimmed text is a contiguous slice of the input that neither starts nor ends with whitespace |
| Strings.ToUpperIdempotent | src/adapters/helpers/lambdaEvent.ts:31 | upper-casing an upper-cased method name changes nothing |
| Strings.NatToStringRoundTrip | src/adapters/helpers/lambdaResponse.ts:42 | the decimal text of a number reads back as that number |
| Strings.NatToStringInjective | src/adapters/helpers/lambdaResponse.ts:42 | distinct numbers have distinct decimal texts |
| Invocation.ClientOptionsFor | src/awsV2/lambdaV2.ts:10-23 | the client's endpoint is `lambdaEndpoint`, or the environment's when that is falsy (both older adapters always use the environment's); HTTP timeouts are set, both to `timeout`, exactly when a truthy timeout is given and the generation sets them |
| Invocation.BuildRequest | src/adapters/lambda-invocation.ts:36-44 | the request the adapter assembles step by step is the invocation request described above |
| Invocation.RaisedError | src/awsV2/lambdaV2.ts:80-81 | an error raised by the adapter is a RequestError with the message, the configuration and the request and no response, flagged as Alpha's own exactly in the generation whose class sets the flag |
| Invocation.ComposeUrl | src/awsV2/lambdaV2.ts:26-28 | with a truthy base and a URL that is not absolute, the URL becomes the base followed by the URL and is written back into the configuration; otherwise the configuration is left alone |
| Invocation.InvokeLambda | src/awsV2/lambdaV2.ts:9-96 | the adapter's client options, its write-back of the URL, and its outcome (a rejected assertion for a URL that is not a lambda URL, a timeout error, a payload-shape error, a function error, or the built response) are the ones the outcome function describes |
| Invocation.SettleParsed | src/adapters/lambda-invocation.ts:28-90 | once the URL is read, the adapter settles as the outcome function says: an assertion failure without parts, otherwise the service's answer, or the timeout, judged by the generation's rules |
| Invocation.LambdaInvocationAdapter | src/adapters/lambda-invocation.ts:11-90 | the TypeScript adapter's client options and outcome, for a URL resolved against the base, are the ones its outcome function describes, and the configuration is not changed |
| Invocation.LegacyInvocationAdapter | src/adapters/lambda-invocation.js:13-72 | the JavaScript adapter's client options and outcome, for the URL read by its own expression, are the ones its outcome function describes |
| Invocation.JsPatternShape | src/adapters/lambda-invocation.js:11 | the JavaScript expression matches exactly the texts that start with `lambda://` and a name character; the name and any qualifier it captures are function names and the path it captures has no line terminator |
| Invocation.JsUnqualifiedTail | src/adapters/lambda-invocation.js:11 | after a function name, a tail that does not start a qualifier is captured whole as the path |
| Invocation.JsLatestFallsIntoPath | src/adapters/lambda-invocation.js:11 | because the `$` of `$LATEST` in the expression's source text is an end-of-input anchor, `:$LATEST` is never read as a qualifier and ends up in the path |
| Invocation.JsPatternExtendsHelperRegex | src/adapters/lambda-invocation.js:11 | on every URL the helper expression accepts with a qualifier other than `$LATEST`, the JavaScript expression captures the same name, qualifier and path |
| Invocation.PayloadShapeAcrossGenerations | src/awsV2/lambdaV2.ts:78-82 | a missing payload and a `null` payload both raise the payload-shape error in the current adapter; the TypeScript adapter raises it for `null` only and the JavaScript one for neither, failing uncaught instead |
| Invocation.FunctionErrorAcrossGenerations | src/adapters/lambda-invocation.js:65-71 | with a function error the two TypeScript adapters raise the payload's error message; the JavaScript adapter does so only for `unhandled` in any case, and otherwise builds the response |
| Invocation.TimeoutsAcrossGenerations | src/adapters/lambda-invocation.ts:47-70 | a call the service never answers stays pending exactly when no timeout is set; with one it fails with `Timeout after <n>ms` and `ECONNABORTED`, which the retry conditions accept in every generation but the oldest |
| Invocation.V2JoinsRelativePath | src/awsV2/lambdaV2.ts:26-46 | a relative path on a `lambda://` base is appended to it, written back as the URL, and the function named by the base is invoked with that path |
| Invocation.SerializedIsAbsolute | src/awsV2/lambdaV2.ts:26 | every written-out lambda URL is absolute, so a base is never prepended to one |
| Invocation.ResolvingAdapterIgnoresBase | src/adapters/lambda-invocation.ts:28-30 | an absolute lambda URL is invoked as it is, whatever the base |
| Invocation.GenerationsSendSameRequest | src/adapters/lambda-invocation.js:18-33 | for a plain-named lambda URL without `$LATEST` or a query, all three adapters send the same invocation request |
| Js.Or | src/awsV2/lambdaV2.ts:12 | JavaScript's logical or is truthy exactly when one of its operands is, and is the left operand whenever that one is truthy |
| Js.Assign | src/alpha.ts:17-24 | spreading one object over another keeps the keys of both, takes every value the second gives, and keeps the first's value for the others |
| Js.Pick | src/alpha.ts:20-21 | `pick` keeps exactly the present keys named in the list, with their values |

## Left out

- The generic URL libraries (WHATWG `URL`, Node's `url.resolve`, `resolve-pathname`, `url-parse`) are modelled by reference resolution as section 5 of RFC 3986 defines it. The WHATWG parser's failure checks are added where they decide whether `resolve` throws. Host and path canonicalisation (lower-casing, default ports, IDNA) is not modelled.
- Percent-decoding and `+` in query strings are not modelled, nor is the `maxKeys` limit of `querystring.parse`. Keys and values are the raw text between the delimiters, and key order is not kept (maps).
- Timers, `abort` and the race between the timeout and the service's answer are concurrency. A call that times out is the abstract answer `NoAnswer`, which carries the `ECONNABORTED` and `isLambdaInvokeTimeout` flags.
- Retry.Delay: only the cap (`Math.min` against `maxTimeout`) is modelled. The random, exponential, floating-point backoff before it is not, and neither is the wait itself.
- Resolve.ResolveTsKeepsTarget: stated for bases named by a plain function name and for references without `#` or a line terminator. An ARN name puts its `:`-separated pieces into the sanitized base's authority, and a fragment or line terminator changes what the re-parser reads; those outcomes are not characterised.
- Resolve.ResolveUrlKeepsTarget: the same restrictions as Resolve.ResolveTsKeepsTarget. The one further case, a bare query against a base without a path, is stated on its own by Resolve.ResolveUrlBareQueryThrows.
- Resolve.AlphaResolveKeepsTarget: stated for references without `#` or a line terminator. The regular expression reads no ARN name, and the bare-query case is Resolve.AlphaResolveBareQueryThrows.
- The request id (uuid) and the request time are parameters of the event builder, because they are randomness and the clock.
- SigV4 signing (`src/interceptors/aws-v4-signature.ts`) and the credential providers call foreign code. Only the host-name inference they use is modelled.
- Lone surrogates in strings are not modelled: strings are sequences of Unicode scalar values, so UTF-8 encoding is total.
- Numbers are integers: NaN, infinities and fractions are not modelled.
- Node's `http.STATUS_CODES` table is a parameter of the response builders. `JSON.stringify` of the service's answer is a given text.
- The AWS SDK is a function from the invocation request to the service's answer. The client it builds is reduced to the options it is built with.
- Axios internals are not modelled: interceptor execution order, the default HTTP adapter, the deep merge of `axios.defaults`, and header classes. The interceptors are modelled one by one.
- A `url` or `baseURL` that is not a string is read as missing. A `timeout` that is not a number is read as no timeout.
- Payloads that are falsy but not `null` (`0`, `false`, `""`) are not modelled: a payload is missing, `null` or a proxy record.
- The event payload is the path given to the event builder. The event's own fields are modelled in LambdaEvent.
- A `__redirectCount` or `__maxRedirects` that is a string or an object reads as NaN in the redirect comparison. JavaScript's conversion of numeric strings, and the comparison of two strings, are not modelled; such a count is kept as given.
- A failure whose `config` is `undefined` (rather than absent) is read as one with no configuration.
- `Object.assign` and spreading from strings or arrays are not modelled: only objects contribute fields.
- The `docker-lambda` process call is left out. Only the options passed to it are modelled.
- The local-handler adapters (`src/adapters/lambda-handler.ts` and `.js`) call user code and gunzip. Only their selection is modelled, in the request interceptors and `chainAdapters`.
- `src/interceptors/request/lambda-handler.ts:5`, `src/adapters/lambda-invocation.ts:9` and `src/interceptors/response/redirect.ts:6` import `resolveUrl` from `utils/urlUtils`, which is not part of this model. It is taken to be `src/utils/resolveUrl.ts`, which Resolve.ResolveUrl models and which Invocation.LambdaInvocationOutcome and Redirect.InterceptResponse use.
- `src/utils/resolveUrl.ts:10` imports a named `parseLambdaUrl` from `./parseLambdaUrl`, whose module (`src/utils/parseLambdaUrl.ts:4`) has only a default export. The model reads the import as that default export (LambdaUrlParsers.ParseWholeUrl).
- `process.env.LAMBDA_ENDPOINT` is a parameter.
- The promise and callback bridging (`promisify`) and the `src/awsV3` files are left out. They only adapt calling conventions.
- The HTTP verb helpers (`get`, `post` and the like) are left out, because they only delegate to `request`.
- Js.Assign: a `__proto__` key of a configuration object is copied like any other key. The prototype setter is modelled only where query parameters are merged (LambdaEvent.Merge), and inherited names only in the first-value query parser and the module table.
- ModuleCache.ModuleTable.ModuleExists: modelled for calls made one after another. `moduleExists` awaits the probe between the test and the store, so two overlapping first lookups of the same module both probe it; that interleaving is concurrency and is not modelled.
- Resolve.ResolveUrl: a rooted path base goes through `resolve-pathname`, which the model reads as the RFC 3986 join. `resolve-pathname` treats `?` and `#` as path text (`resolveUrl('?q', '/a/b')` gives `/a/?q` where the model gives `/a/b?q`), and the WHATWG parser behind `resolve` maps `\` to `/` and percent-encodes spaces and other characters, so Resolve.ResolveTsPathBase's agreement is a fact about the model, and holds of the code only for URLs without those characters.
- LambdaEvent.ReadAgainstFake: `url-parse` resolves only a relative path that does not start with `/` against the fake location; a rooted path keeps its dot segments (`lambdaEvent(config, '/a/../b')` has the path `/a/../b`), where the model removes them and gives `/b`.
- Strings.ToUpper: only ASCII letters are upper-cased, where `toUpperCase` maps the whole of Unicode (`'ß'` becomes `'SS'`). The HTTP methods are ASCII.
- Test cases that depend on percent-decoding (`test/lambda-event.test.js:49-73`) are not stated.
