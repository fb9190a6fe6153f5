# CloudFront edge handlers for Cloudinary image delivery

A Dafny model of the three Lambda@Edge triggers of `edge-lambdas`, and of the
query-string compiler they share.

- **Viewer request.** The request is let through only when its first
  `token` query value is the secret. Every `token` entry is then dropped
  from the query and the token is copied into an `x-auth-token` header.
  Anything else gets a fixed 403 JSON response.
- **Origin request.** A request with a query string is redirected to
  Cloudinary's fetch API.
  - The query entries are compiled into Cloudinary transformations:
    `width=N` becomes `w_N`, `height=N` becomes `h_N`, joined with commas.
  - The URI becomes `/{account}/image/fetch/{transformations}/https://{distribution}{uri}`.
  - The origin becomes the custom origin `res.cloudinary.com`, and so does
    the `host` header.
  - A query that does not compile gets a 400 JSON response with the
    compiler's error message.
- **Origin response.** The origin's status is read with `parseInt`. From
  400 on, the response is replaced by a JSON error response:
  - the status is written as its canonical numeral;
  - `content-type` becomes `application/json`;
  - `cache-control` becomes `max-age=300` for 404 and `no-cache` for every
    other error;
  - the status description becomes the error.
- **Entrypoint variants.** Each of the two entrypoints does the same work as
  its plain trigger and also writes to a metrics logger:
  - status-class metrics (`2xx`, `3xx`, `4xx`, or "unexpected" plus the
    status itself) and a `ResponseStatus` property;
  - or one `AuthenticationSuccess` / `AuthenticationFailure` metric.

Modules, one per file:

- **Wrappers:** `Option`, `Result`.
- **JsNumber:** the ECMAScript number semantics the compiler relies on.
  - `parseInt(s, 10)` on the decimal digits it reads, as an exact integer (no binary64 rounding beyond 2^53).
  - `Number(s)` by the StringNumericLiteral grammar: trimming, empty string
    is 0, `Infinity`, decimals with fraction and exponent, `0x`/`0o`/`0b`.
  - `Number.isSafeInteger`.
  - `toString` of an integer.
- **Text:** `join`, `split` and cutting a string at a character.
- **Folds:** `Array.prototype.reduce` with a reducer that may throw.
- **Query:** the decoded query as an ordered list of entries, with
  `URLSearchParams.get`, `delete` and a `SearchParams` class.
- **Metrics:** the logger as an append-only trace of `putMetric` /
  `setProperty` calls.
- **CloudFront:** headers, origins, the `Request` class (updated in place by
  the handlers) and the generated responses.
- **Transformations, OriginRequest, OriginResponse, OriginResponseEntry,
  ViewerRequest, ViewerRequestEntry:** the source files of the same names.

Inputs the handlers read from the environment are parameters:
- the `CLOUDINARY_ID` environment variable (`env`);
- the distribution domain name of the event (`distributionHost`);
- the incoming request and response records.

## Model

| member | source | states |
|---|---|---|
| JsNumber.ParseIntOfDigits | edge-lambdas/src/transformations.ts:4 | `parseInt` of leading white space, a digit run and anything that does not continue the run is the run's decimal value |
| JsNumber.ParseIntOfNegative | edge-lambdas/src/transformations.ts:4 | `parseInt` of a minus sign and a digit run is the negated value |
| JsNumber.NumberOfDigits | edge-lambdas/src/transformations.ts:6 | `Number` of a digit run padded with white space is the run's value (so `007` is 7) |
| JsNumber.NumberOfFraction | edge-lambdas/src/transformations.ts:6 | `Number("d.f")` is the exact decimal value of the digits `d` followed by the fraction `f` |
| JsNumber.NumberOfExponent | edge-lambdas/src/transformations.ts:6 | `Number("dek")` is `d` times 10 to the `k` |
| JsNumber.NumberOfTrailingJunk | edge-lambdas/src/transformations.ts:6 | digits followed by a character that cannot continue a numeric literal make `Number` NaN |
| JsNumber.NatToString | edge-lambdas/src/transformations.ts:25 | the numeral written for a natural number is a non-empty digit string denoting it, with no leading zero |
| JsNumber.ParseIntOfIntToString | edge-lambdas/src/origin-response.ts:5 | `parseInt` reads back the numeral `toString` writes, for every integer |
| JsNumber.IntToStringInjective | edge-lambdas/src/entrypoints/origin-response.ts:18 | distinct integers have distinct numerals |
| JsNumber.ParseInt | edge-lambdas/src/transformations.ts:4 | `parseInt(s, 10)`: None for NaN; its meaning on inputs is stated by ParseIntOfDigits, ParseIntOfNegative and ParseIntOfIntToString |
| JsNumber.StringToNumber | edge-lambdas/src/transformations.ts:6 | `Number(s)`; its meaning on inputs is stated by NumberOfDigits, NumberOfFraction, NumberOfExponent and NumberOfTrailingJunk |
| JsNumber.IntToString | edge-lambdas/src/transformations.ts:25 | `toString` of an integer: a non-empty numeral, with a minus sign iff the integer is negative, whose digits denote its magnitude; ParseIntOfIntToString and IntToStringInjective add that it reads back and is injective |
| Text.Split | edge-lambdas/src/transformations.ts:54 | splitting yields at least one piece and no piece contains the separator |
| Text.SplitOfJoin | edge-lambdas/src/transformations.ts:54 | splitting a join of separator-free strings gives the strings back |
| Text.JoinChars | edge-lambdas/src/transformations.ts:54 | a join has only characters that its parts and separator have |
| Text.SplitFirstOf | edge-lambdas/src/origin-request.ts:28 | cutting at the first separator undoes gluing a separator-free text to another |
| Text.Join | edge-lambdas/src/transformations.ts:54 | `join(",")`; its meaning is stated by SplitOfJoin (split undoes it) and JoinChars |
| Folds.Appended | edge-lambdas/src/transformations.ts:49 | one reducer step `[...acc, token]`: succeeds iff the token does, extends `acc` by exactly that token, or passes its error on |
| Folds.ReduceAppends | edge-lambdas/src/transformations.ts:52-54 | a token-appending `reduce` succeeds iff every element is accepted, and then yields the accumulator plus all tokens in order |
| Folds.ReduceFirstError | edge-lambdas/src/transformations.ts:43-54 | a token-appending `reduce` throws the error of the first rejected element |
| Folds.ValuesAt | edge-lambdas/src/transformations.ts:52-54 | in an accepted list, element `i`'s token is at index `i` of the tokens |
| Folds.AllOkOfEach | edge-lambdas/src/transformations.ts:52-54 | a list whose elements are each accepted is accepted |
| Folds.Reduce | edge-lambdas/src/transformations.ts:54 | `reduce` with a reducer that may throw; its meaning for token-appending reducers is stated by ReduceAppends and ReduceFirstError |
| Transformations.CastAndValidateInt | edge-lambdas/src/transformations.ts:3-11 | success only with a `parseInt` result that is a safe integer, error message `<prefix> must be an integer` otherwise |
| Transformations.CastAcceptsDigitRun | edge-lambdas/src/transformations.ts:3-11 | a white-space-padded digit run (leading zeros allowed) is accepted as its value iff that value is safe |
| Transformations.CastAcceptsCanonical | edge-lambdas/src/transformations.ts:3-11 | the canonical numeral of every safe natural number is accepted as that number |
| Transformations.CastOfFraction | edge-lambdas/src/transformations.ts:3-11 | `d.f` is accepted iff `d` is safe and `f` is all zeros (`1.5` rejected, `5.0` is 5) |
| Transformations.CastOfExponent | edge-lambdas/src/transformations.ts:3-11 | `dek` is accepted iff `d` is safe and `d` or `k` is 0 (`1e3` rejected) |
| Transformations.CastRejectsJunk | edge-lambdas/src/transformations.ts:3-11 | digits followed by junk such as `12abc` are rejected with the integer message |
| Transformations.CastRejectsNoDigits | edge-lambdas/src/transformations.ts:3-11 | a value that after white space starts with neither a digit nor a sign followed by a digit (the empty string, `abc`, `-`, `+x`) is rejected with the integer message |
| Transformations.TransformWidth | edge-lambdas/src/transformations.ts:16-26 | success iff the value is an integer in 1..10000, result `w_` plus its numeral; a failed cast gives exactly `Width must be an integer`, an integer out of range exactly `Width must be a value between 1 and 10000` |
| Transformations.TransformHeight | edge-lambdas/src/transformations.ts:28-37 | success iff the value is an integer in 1..10000, result `h_` plus its numeral; a failed cast gives exactly `Height must be an integer`, an integer out of range exactly `Height must be a value between 1 and 10000` |
| Transformations.WidthOfNumeral | edge-lambdas/src/transformations.ts:19-26 | the canonical numeral of a safe natural number (at most 2^53 - 1) gives its `w_` token when in range and the range message `Width must be a value between 1 and 10000` otherwise |
| Transformations.HeightOfNumeral | edge-lambdas/src/transformations.ts:30-37 | the canonical numeral of a safe natural number (at most 2^53 - 1) gives its `h_` token when in range and the range message otherwise |
| Transformations.WidthTokenShape | edge-lambdas/src/transformations.ts:19-26 | an accepted width is `w_` followed by the canonical numeral of an integer in 1..10000 |
| Transformations.HeightTokenShape | edge-lambdas/src/transformations.ts:30-37 | an accepted height is `h_` followed by the canonical numeral of an integer in 1..10000 |
| Transformations.TokenOf | edge-lambdas/src/transformations.ts:25 | a `w_`/`h_` prefix and a numeral make a token whose digits denote the number |
| Transformations.TokenChars | edge-lambdas/src/transformations.ts:25 | a token holds only `w`, `h`, `_` and digits |
| Transformations.EntryToken | edge-lambdas/src/transformations.ts:39-47 | an unknown key gives `Unknown query param <key>` (iff), `width` and `height` go to their transformations |
| Transformations.ReduceQueryParam | edge-lambdas/src/transformations.ts:43-50 | succeeds iff the entry's token does, appending exactly that token; otherwise passes the entry's error on |
| Transformations.TransformQueryString | edge-lambdas/src/transformations.ts:52-55 | succeeds iff every entry is accepted, and then yields the comma-joined tokens, one per entry, in entry order; TransformQueryStringFirstError gives the error otherwise |
| Transformations.TransformQueryStringAccepts | edge-lambdas/src/transformations.ts:52-55 | the compiler succeeds iff every entry is accepted, and then yields the comma-joined tokens, one per entry, in entry order (repeated keys repeat tokens) |
| Transformations.TransformQueryStringFirstError | edge-lambdas/src/transformations.ts:43-54 | one bad entry fails the whole call with the first bad entry's error; there is no partial output |
| Transformations.UnknownKeyRejects | edge-lambdas/src/transformations.ts:44-47 | any key other than `width`/`height` fails the call, with `Unknown query param` when no earlier entry fails |
| Transformations.EmptyQueryIsEmpty | edge-lambdas/src/transformations.ts:52-54 | no entries compile to the empty string |
| Transformations.SplitRecoversTokens | edge-lambdas/src/transformations.ts:52-54 | for a non-empty list of accepted entries, splitting the output on commas recovers exactly the per-entry tokens (no entries give `""`, which splits to `[""]`) |
| Transformations.EntryTokenChars | edge-lambdas/src/transformations.ts:39-47 | an accepted entry's token holds only token characters |
| Transformations.TransformQueryStringChars | edge-lambdas/src/transformations.ts:52-54 | a successful output holds only token characters and commas |
| Transformations.TwoAccepted | edge-lambdas/src/transformations.ts:52-54 | two accepted entries compile to their tokens with one comma between |
| Transformations.WidthThenHeight | edge-lambdas/src/transformations.ts:52-54 | `width=W&height=H` in range compiles to `w_W,h_H` |
| Transformations.WidthEntry | edge-lambdas/src/transformations.ts:19-26 | a `width` entry with an in-range numeral is accepted as its `w_` token |
| Transformations.HeightEntry | edge-lambdas/src/transformations.ts:30-37 | a `height` entry with an in-range numeral is accepted as its `h_` token |
| Query.FirstValue | edge-lambdas/src/viewer-request.ts:13 | `get` is None iff no entry has the name, else the value of the first entry with it |
| Query.FirstValueAt | edge-lambdas/src/viewer-request.ts:13 | the value found is the one of the first entry with the name |
| Query.RemoveAll | edge-lambdas/src/viewer-request.ts:18 | `delete` keeps exactly the entries with another name |
| Query.RemoveAllConcat | edge-lambdas/src/viewer-request.ts:18 | `delete` distributes over concatenation, so the kept entries keep their relative order |
| Query.RemoveAllAbsent | edge-lambdas/src/viewer-request.ts:18 | `delete` of a name that is absent changes nothing |
| Query.RemoveAllIdempotent | edge-lambdas/src/viewer-request.ts:18 | deleting twice is deleting once |
| Query.SearchParams.Get | edge-lambdas/src/viewer-request.ts:13 | `get(key)` on the parsed query; its meaning is FirstValue's contract (None iff absent, else the first entry's value) |
| Query.SearchParams.Delete | edge-lambdas/src/viewer-request.ts:18 | the parsed query afterwards holds only the entries with another name, in order |
| Metrics.MetricNamesConcat | edge-lambdas/src/entrypoints/origin-response.ts:11-21 | the metrics of two consecutive traces are those of the first, then those of the second |
| Metrics.MetricsLogger.PutMetric | edge-lambdas/src/entrypoints/origin-response.ts:11 | appends exactly one metric record to the trace |
| Metrics.MetricsLogger.SetProperty | edge-lambdas/src/entrypoints/origin-response.ts:21 | appends exactly one property record to the trace |
| CloudFront.JsonError | edge-lambdas/src/origin-request.ts:34-58 | a generated error response has exactly the JSON content type and the given cache directive, text body encoding and the error |
| OriginRequest.CloudinaryId | edge-lambdas/src/origin-request.ts:5 | a non-empty environment value is the account; unset or empty gives `demo` |
| OriginRequest.FetchUriRoundTrip | edge-lambdas/src/origin-request.ts:28 | the rewritten URI reads back into account, transformations and media URL when the first two have no slash |
| OriginRequest.TransformationsAreOneSegment | edge-lambdas/src/origin-request.ts:15-28 | compiled transformations never contain a slash |
| OriginRequest.BadRequest | edge-lambdas/src/origin-request.ts:32-58 | status `400`, JSON content type, `max-age=3600`, the error message as body |
| OriginRequest.Handle | edge-lambdas/src/origin-request.ts:7-63 | empty query: forwarded unchanged; compiled: URI, origin and host header rewritten and nothing else; failed: 400 with the message, request unchanged |
| OriginResponse.ParseStatus | edge-lambdas/src/origin-response.ts:5 | `parseInt` of the status, or 0 when it is NaN |
| OriginResponse.ParseStatusOfNumeral | edge-lambdas/src/origin-response.ts:5 | a status numeral is read back as its value |
| OriginResponse.ParseStatusWithoutDigits | edge-lambdas/src/origin-response.ts:5 | a status that after white space starts with neither a digit nor a sign followed by a digit (the empty string, `-`, `+x`) is 0 |
| OriginResponse.ErrorCacheDirective | edge-lambdas/src/origin-response.ts:16-31 | `max-age=300` iff the status is 404, `no-cache` iff it is not |
| OriginResponse.ErrorHeaders | edge-lambdas/src/origin-response.ts:8-31 | the origin's headers are kept, `content-type` and `cache-control` are set (added if absent), nothing else changes |
| OriginResponse.ErrorHeadersIdempotent | edge-lambdas/src/origin-response.ts:8-31 | overriding the two headers again changes nothing |
| OriginResponse.Rewrite | edge-lambdas/src/origin-response.ts:7-47 | below 400 (iff) the response passes unchanged; from 400 on (iff) a generated response with the canonical status, the overridden headers, text encoding and the status description as error |
| OriginResponse.Handle | edge-lambdas/src/origin-response.ts:3-48 | passes the response unchanged iff the parsed status is below 400; from 400 on (iff) generates one with the parsed status's numeral, the error headers (with the 404 cache rule), text encoding and the status description |
| OriginResponse.CanonicalErrorStatusKept | edge-lambdas/src/origin-response.ts:33-43 | an error status written canonically is kept, with the description as error and the 404 cache rule |
| OriginResponse.UnparseableStatusPasses | edge-lambdas/src/origin-response.ts:5-47 | an unparseable status counts as 0 and the response passes unchanged |
| OriginResponse.HandleIdempotent | edge-lambdas/src/origin-response.ts:7-44 | rewriting a generated response again gives the same response |
| OriginResponseEntry.Counts | edge-lambdas/src/entrypoints/origin-response.ts:11-18 | each metric name becomes one record with value 1 and unit Count, in order |
| OriginResponseEntry.StatusMetricNames | edge-lambdas/src/entrypoints/origin-response.ts:10-19 | the metric names per status class; stated by OneMetricPerExpectedClass, UnexpectedStatusNamed and UnparseableIsUnexpected |
| OriginResponseEntry.StatusTrace | edge-lambdas/src/entrypoints/origin-response.ts:10-21 | the records written for a status; stated by StatusTraceMetrics and StatusTraceShape, and RecordStatus writes exactly it |
| OriginResponseEntry.StatusTraceMetrics | edge-lambdas/src/entrypoints/origin-response.ts:10-21 | the metrics recorded for a status are exactly its class metric names; `ResponseStatus` is a property |
| OriginResponseEntry.OneMetricPerExpectedClass | edge-lambdas/src/entrypoints/origin-response.ts:10-19 | exactly one metric iff the status is in 200..499, exactly two iff it is not |
| OriginResponseEntry.UnexpectedStatusNamed | edge-lambdas/src/entrypoints/origin-response.ts:16-18 | an unexpected status records `OriginResponseUnexpected` and a name of its own that differs for distinct statuses |
| OriginResponseEntry.UnparseableIsUnexpected | edge-lambdas/src/entrypoints/origin-response.ts:8-18 | an unparseable status records `OriginResponseUnexpected` and `OriginResponse0` |
| OriginResponseEntry.StatusTraceShape | edge-lambdas/src/entrypoints/origin-response.ts:11-21 | every metric is a count of 1 and the last record is `ResponseStatus` with the parsed status |
| OriginResponseEntry.RecordStatus | edge-lambdas/src/entrypoints/origin-response.ts:10-21 | appends exactly the class metrics of the status and then the `ResponseStatus` property |
| OriginResponseEntry.Respond | edge-lambdas/src/entrypoints/origin-response.ts:23-63 | the entrypoint's own copy of the rewrite returns what the plain trigger's rewrite returns |
| OriginResponseEntry.Handle | edge-lambdas/src/entrypoints/origin-response.ts:5-65 | the logger gets the status-class metrics and `ResponseStatus`; the result is the plain trigger's |
| ViewerRequest.AcceptsIffFirstTokenIsSecret | edge-lambdas/src/viewer-request.ts:3-17 | a request is accepted iff its first `token` value is `MY_SECRET` |
| ViewerRequest.FirstTokenDecides | edge-lambdas/src/viewer-request.ts:13-17 | the first `token` entry decides acceptance, whatever follows it |
| ViewerRequest.EmptyOrMissingTokenRejected | edge-lambdas/src/viewer-request.ts:15-25 | an empty (`token=`) or missing token is rejected |
| ViewerRequest.AuthenticateRequest | edge-lambdas/src/viewer-request.ts:3-7 | the stand-in check, equality with `MY_SECRET`; its effect is stated by AcceptsIffFirstTokenIsSecret |
| ViewerRequest.Accepts | edge-lambdas/src/viewer-request.ts:13-17 | the token test `if (token)` then `authenticateRequest(token)`; stated by AcceptsIffFirstTokenIsSecret, FirstTokenDecides and EmptyOrMissingTokenRejected |
| ViewerRequest.Unauthenticated | edge-lambdas/src/viewer-request.ts:25-49 | status `403`, JSON content type, `no-cache`, error `Unauthenticated request` |
| ViewerRequest.Handle | edge-lambdas/src/viewer-request.ts:9-50 | accepted: all `token` entries removed, others in order, `x-auth-token` set, other headers, URI and origin unchanged; otherwise the 403 with the request unchanged |
| ViewerRequestEntry.ExactlyOneAuthMetric | edge-lambdas/src/entrypoints/viewer-request.ts:24-29 | exactly one metric per invocation: `AuthenticationSuccess` iff accepted, else `AuthenticationFailure`, a count of 1 |
| ViewerRequestEntry.StatusPropertyOnlyOnFailure | edge-lambdas/src/entrypoints/viewer-request.ts:29-30 | `ResponseStatus` = `403` is written iff the request is rejected |
| ViewerRequestEntry.AuthTrace | edge-lambdas/src/entrypoints/viewer-request.ts:24-30 | the records written per outcome; stated by ExactlyOneAuthMetric and StatusPropertyOnlyOnFailure |
| ViewerRequestEntry.Handle | edge-lambdas/src/entrypoints/viewer-request.ts:11-58 | same request and response effects as the plain trigger, and the logger gets exactly the success or failure records |

## Left out

- The `aws-embedded-metrics` package is not part of this model: its context, serialisation, batching, sinks, socket client and environment detection. The logger is only the trace of calls.
- `edge-lambdas/src/tools/telemetry.ts` is not part of this model. That wrapper sets the `Region` dimension, adds `HandlerOk`/`HandlerError`/`HandlerExecution`, sets the `log` property and flushes while swallowing errors. The entrypoint models start from the logger it hands over.
- The `edge-lambdas/built/*.js` bundles and `rollup.config.js` are not part of this model; the sources under `src/` are modelled instead. The bundles differ from the sources in two places:
  - `built/viewer-request.js` does not set `x-auth-token`;
  - `built/origin-request.js` hard-codes the `demo` account.
- `URLSearchParams` parsing, percent-decoding and `toString` re-encoding are left out. A query string is its list of decoded entries, and `toString` is the entries that remain.
- OriginRequest.Handle tests for an empty entry list where the source tests for an empty query text. A non-empty query with no entries (such as `&`) is therefore forwarded unchanged here, while the source sends it to Cloudinary with an empty transformation segment.
- OriginRequest.Handle builds the media URL by concatenation. `new URL` normalisation (host lower-casing, path escaping) is left out, and so is the `Invalid URL` error it can throw, which the source turns into a 400. The re-throw of a non-`Error` exception is unreachable in the model.
- Transformations.CastAndValidateInt uses the exact decimal value for `Number(value)`, with no binary64 rounding. A value such as `1.0000000000000000001` (which JavaScript rounds to 1 and accepts) is rejected here. Values whose digits `parseInt` would round lie beyond 2^53 and are rejected by both.
- OriginResponse.Rewrite writes every status with `IntToString`, which is always plain decimal. JavaScript writes integers from 10^21 on in exponent notation (`1e+21`), so for such statuses the model's numeral (and the `OriginResponse${status}` metric name) differs from the source's.
- OriginResponse.ParseStatus reads the status digits as an exact integer. JavaScript's `parseInt` returns the nearest binary64 value, so a status beyond 2^53 such as `9007199254740993` becomes 9007199254740992 in the source. The model keeps the exact value in the generated status (origin-response.ts:34) and in OriginResponseEntry's `OriginResponse${status}` metric and `ResponseStatus` property.
- `JSON.stringify` pretty-printing is left out: a generated body is the value of its `error` field.
- Promise and `async` plumbing is left out. `authenticateRequest` is the equality it resolves to.
- `process.env.CLOUDINARY_ID` and the distribution domain name are parameters.
- Metrics.MetricsLogger.SetProperty appends to the trace, whereas the library keeps only the last value set for each key.
- Request fields the handlers do not touch (client IP, method, body) are not modelled. An S3 origin keeps only its domain name and path.
