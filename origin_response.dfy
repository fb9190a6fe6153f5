/**
 * The origin-response trigger: an error status from the origin (400 and
 * above) is replaced by a JSON error response carrying the status
 * description; anything else passes through untouched.
 */
module OriginResponse {
  import opened Wrappers
  import opened JsNumber
  import opened CloudFront

  /** `parseInt(status, 10) || 0`: NaN (and 0 itself) give 0. */
  function ParseStatus(status: string): (n: int)
    ensures ParseInt(status).None? ==> n == 0
    ensures ParseInt(status).Some? ==> n == ParseInt(status).value
  {
    match ParseInt(status)
    case None => 0
    case Some(n) => n
  }

  /** The status a numeral denotes is read back exactly, whatever its sign or size. */
  lemma ParseStatusOfNumeral(n: int)
    ensures ParseStatus(IntToString(n)) == n
  {
    ParseIntOfIntToString(n);
  }

  /** A status without any digit where `parseInt` looks for one, such as the empty string, `-` or `+x`, is 0. */
  lemma ParseStatusWithoutDigits(status: string)
    requires var t := TrimStart(status); t == [] || (!IsDigit(t[0]) && (t[0] !in "+-" || |t| == 1 || !IsDigit(t[1])))
    ensures ParseStatus(status) == 0
  {
  }

  /** The cache directive of an error response: 404s are cached for five minutes, other errors not at all. */
  function ErrorCacheDirective(status: int): (directive: string)
    ensures status == 404 <==> directive == "max-age=300"
    ensures status != 404 <==> directive == "no-cache"
  {
    if status == 404 then "max-age=300" else "no-cache"
  }

  /** `{ ...headers, "content-type": JSON, "cache-control": ... }`: the original headers with two of them overridden. */
  function ErrorHeaders(headers: Headers, status: int): (r: Headers)
    ensures r.Keys == headers.Keys + {"content-type", "cache-control"}
    ensures r["content-type"] == JsonContentType
    ensures r["cache-control"] == CacheControl(ErrorCacheDirective(status))
    ensures forall k | k in headers && k != "content-type" && k != "cache-control" :: r[k] == headers[k]
  {
    headers["content-type" := JsonContentType]["cache-control" := CacheControl(ErrorCacheDirective(status))]
  }

  /** Overriding the two headers a second time changes nothing. */
  lemma ErrorHeadersIdempotent(headers: Headers, status: int)
    ensures ErrorHeaders(ErrorHeaders(headers, status), status) == ErrorHeaders(headers, status)
  {
  }

  /**
   * The rewrite for a parsed status: below 400 the response is returned as it
   * came; from 400 on it becomes a generated response with the status as
   * canonical numeral, the overridden headers and the status description as
   * the JSON error.
   */
  function Rewrite(response: ReceivedResponse, status: int): (r: ResponseResult)
    ensures status < 400 <==> r == Passed(response)
    ensures status >= 400 <==> r.Generated?
    ensures r.Generated? ==>
      && r.response.status == IntToString(status)
      && r.response.headers == ErrorHeaders(response.headers, status)
      && r.response.bodyEncoding == "text"
      && r.response.error == response.statusDescription
  {
    if status >= 400 then
      Generated(GeneratedResponse(IntToString(status), ErrorHeaders(response.headers, status), "text", response.statusDescription))
    else
      Passed(response)
  }

  /** `handler`: the rewrite for the status `parseInt` reads, an unparseable status being 0. */
  function Handle(response: ReceivedResponse): (r: ResponseResult)
    ensures ParseStatus(response.status) < 400 <==> r == Passed(response)
    ensures ParseStatus(response.status) >= 400 <==> r.Generated?
    ensures r.Generated? ==>
      && r.response.status == IntToString(ParseStatus(response.status))
      && r.response.headers == ErrorHeaders(response.headers, ParseStatus(response.status))
      && r.response.bodyEncoding == "text"
      && r.response.error == response.statusDescription
  {
    Rewrite(response, ParseStatus(response.status))
  }

  /** A canonical error status is kept as it is; the origin's headers survive except the two overridden ones. */
  lemma CanonicalErrorStatusKept(n: int, description: string, headers: Headers)
    requires n >= 400
    ensures var r := Handle(ReceivedResponse(IntToString(n), description, headers));
      && r.Generated?
      && r.response.status == IntToString(n)
      && r.response.error == description
      && r.response.headers["cache-control"] == CacheControl(if n == 404 then "max-age=300" else "no-cache")
  {
    ParseStatusOfNumeral(n);
  }

  /** A response whose status does not parse is passed through untouched. */
  lemma UnparseableStatusPasses(response: ReceivedResponse)
    requires ParseInt(response.status).None?
    ensures Handle(response) == Passed(response)
  {
  }

  /** Running the rewrite on its own output (as if the error came back from the origin) gives the same response. */
  lemma HandleIdempotent(response: ReceivedResponse)
    requires Handle(response).Generated?
    ensures var g := Handle(response).response;
      Handle(ReceivedResponse(g.status, g.error, g.headers)) == Handle(response)
  {
    var status := ParseStatus(response.status);
    ParseStatusOfNumeral(status);
    ErrorHeadersIdempotent(response.headers, status);
  }
}
