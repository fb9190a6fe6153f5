/**
 * The Lambda@Edge event records the handlers read and write: header maps,
 * origins, the request (which the handlers update in place) and the
 * responses they generate.
 */
module CloudFront {
  import opened Wrappers
  import opened Query

  /** One header field as CloudFront lists it: the original-case name and the value. */
  datatype HeaderEntry = HeaderEntry(key: string, value: string)

  /** Headers keyed by lower-case name; each name maps to its list of fields. */
  type Headers = map<string, seq<HeaderEntry>>

  /** The settings of a custom (HTTP) origin. */
  datatype CustomOrigin = CustomOrigin(
    customHeaders: Headers,
    domainName: string,
    keepaliveTimeout: int,
    path: string,
    port: int,
    protocol: string,
    readTimeout: int,
    sslProtocols: seq<string>)

  /** The origin a request is sent to: a custom origin, or an S3 bucket (of which only the name and path are kept). */
  datatype Origin = Custom(custom: CustomOrigin) | S3(domainName: string, path: string)

  /** `event.Records[0].cf.request`: the handlers read and reassign its fields. */
  class Request {
    var uri: string
    var querystring: seq<Entry>
    var headers: Headers
    var origin: Option<Origin>

    constructor(uri: string, querystring: seq<Entry>, headers: Headers, origin: Option<Origin>)
      ensures this.uri == uri && this.querystring == querystring
      ensures this.headers == headers && this.origin == origin
    {
      this.uri := uri;
      this.querystring := querystring;
      this.headers := headers;
      this.origin := origin;
    }
  }

  /** `event.Records[0].cf.response` as an origin-response trigger receives it. */
  datatype ReceivedResponse = ReceivedResponse(status: string, statusDescription: string, headers: Headers)

  /** A response a trigger generates: `bodyEncoding` and a body that is the JSON object `{"error": error}`. */
  datatype GeneratedResponse = GeneratedResponse(status: string, headers: Headers, bodyEncoding: string, error: string)

  /** What a request trigger returns: the (updated) request, which CloudFront forwards, or a response. */
  datatype RequestResult = Forward | Reply(response: GeneratedResponse)

  /** What an origin-response trigger returns: the response it was given, or a new one. */
  datatype ResponseResult = Passed(original: ReceivedResponse) | Generated(response: GeneratedResponse)

  /** `[{ key: "Content-Type", value: "application/json" }]`. */
  const JsonContentType: seq<HeaderEntry> := [HeaderEntry("Content-Type", "application/json")]

  /** `[{ key: "Cache-Control", value: directive }]`. */
  function CacheControl(directive: string): (r: seq<HeaderEntry>) {
    [HeaderEntry("Cache-Control", directive)]
  }

  /** The JSON error responses the handlers build: exactly a JSON content type and the given cache directive. */
  function JsonError(status: string, cacheDirective: string, error: string): (r: GeneratedResponse)
    ensures r.headers.Keys == {"content-type", "cache-control"}
    ensures r.headers["content-type"] == JsonContentType && r.headers["cache-control"] == CacheControl(cacheDirective)
    ensures r.status == status && r.bodyEncoding == "text" && r.error == error
  {
    GeneratedResponse(status, map["content-type" := JsonContentType, "cache-control" := CacheControl(cacheDirective)], "text", error)
  }
}
