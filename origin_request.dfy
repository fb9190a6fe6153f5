/**
 * The origin-request trigger: a request with a query string is rewritten to
 * fetch the image through Cloudinary, with the query compiled into
 * Cloudinary transformations; a query that does not compile is answered
 * with a 400 response.
 */
module OriginRequest {
  import opened Wrappers
  import opened Text
  import opened Query
  import opened CloudFront
  import opened Transformations

  const CloudinaryHost: string := "res.cloudinary.com"

  /** `process.env.CLOUDINARY_ID || 'demo'`: an unset or empty variable gives the demo account. */
  function CloudinaryId(env: Option<string>): (id: string)
    ensures id != ""
    ensures env.Some? && env.value != "" ==> id == env.value
    ensures env.None? || env == Some("") ==> id == "demo"
  {
    match env
    case Some(value) => if value != "" then value else "demo"
    case None => "demo"
  }

  /** The Cloudinary origin: HTTPS on port 443, 60 s keep-alive, 30 s read timeout, TLS 1.0 to 1.2, no extra headers. */
  const CloudinaryOrigin: Origin :=
    Custom(CustomOrigin(map[], CloudinaryHost, 60, "", 443, "https", 30, ["TLSv1", "TLSv1.1", "TLSv1.2"]))

  /** `[{ key: 'host', value: CLOUDINARY_HOST }]`. */
  const CloudinaryHostHeader: seq<HeaderEntry> := [HeaderEntry("host", CloudinaryHost)]

  /** The URL of the original media on the distribution. */
  function MediaUrl(distributionHost: string, uri: string): (r: string) {
    "https://" + distributionHost + uri
  }

  /** Cloudinary's fetch path for the media URL, under the account, with the transformations. */
  function FetchUri(id: string, transformations: string, mediaUrl: string): (r: string) {
    "/" + id + "/image/fetch/" + transformations + "/" + mediaUrl
  }

  /** Reads a fetch path back into the account, the transformations and the media URL. */
  function ParseFetchUri(u: string): (r: Option<(string, string, string)>) {
    if u == [] || u[0] != '/' then None
    else
      match SplitFirst(u[1..], '/')
      case None => None
      case Some((id, rest)) =>
        if |rest| < 12 || rest[..12] != "image/fetch/" then None
        else
          match SplitFirst(rest[12..], '/')
          case None => None
          case Some((transformations, mediaUrl)) => Some((id, transformations, mediaUrl))
  }

  /** A fetch path built from a slash-free account and slash-free transformations reads back into its parts. */
  lemma FetchUriRoundTrip(id: string, transformations: string, mediaUrl: string)
    requires '/' !in id && '/' !in transformations
    ensures ParseFetchUri(FetchUri(id, transformations, mediaUrl)) == Some((id, transformations, mediaUrl))
  {
    var rest := "image/fetch/" + transformations + "/" + mediaUrl;
    AccountSegment(id, transformations, mediaUrl);
    SplitFirstOf(id, rest, '/');
    FetchSegment(transformations, mediaUrl);
    SplitFirstOf(transformations, mediaUrl, '/');
  }

  /** After the leading slash, a fetch path is the account, a slash, and the rest. */
  lemma AccountSegment(id: string, transformations: string, mediaUrl: string)
    ensures var u := FetchUri(id, transformations, mediaUrl);
      u != [] && u[0] == '/' && u[1..] == id + ['/'] + ("image/fetch/" + transformations + "/" + mediaUrl)
  {
  }

  /** The rest starts with `image/fetch/`, followed by the transformations, a slash, and the media URL. */
  lemma FetchSegment(transformations: string, mediaUrl: string)
    ensures var rest := "image/fetch/" + transformations + "/" + mediaUrl;
      |rest| >= 12 && rest[..12] == "image/fetch/" && rest[12..] == transformations + ['/'] + mediaUrl
  {
  }

  /** Compiled transformations never contain a slash, so they stay one segment of the fetch path. */
  lemma TransformationsAreOneSegment(entries: seq<Entry>)
    requires TransformQueryString(entries).Ok?
    ensures '/' !in TransformQueryString(entries).value
  {
    TransformQueryStringChars(entries);
  }

  /** The fixed 400 response for a query that does not compile: JSON, cacheable for an hour, with the error message. */
  function BadRequest(message: string): (r: GeneratedResponse)
    ensures r.status == "400" && r.bodyEncoding == "text" && r.error == message
    ensures r.headers.Keys == {"content-type", "cache-control"}
    ensures r.headers["content-type"] == JsonContentType && r.headers["cache-control"] == CacheControl("max-age=3600")
  {
    JsonError("400", "max-age=3600", message)
  }

  /**
   * `handler`: with an empty query string the request is forwarded as it is;
   * otherwise the query is compiled, and either the request is pointed at
   * Cloudinary (origin, URI and host header; nothing else changes) or a 400
   * response with the compiler's message is returned and the request is left alone.
   */
  method Handle(request: Request, distributionHost: string, env: Option<string>) returns (r: RequestResult)
    modifies request
    ensures old(request.querystring) == [] ==> r == Forward && unchanged(request)
    ensures old(request.querystring) != [] && TransformQueryString(old(request.querystring)).Ok? ==>
      var transformations := TransformQueryString(old(request.querystring)).value;
      && r == Forward
      && request.uri == FetchUri(CloudinaryId(env), transformations, MediaUrl(distributionHost, old(request.uri)))
      && request.origin == Some(CloudinaryOrigin)
      && request.headers == old(request.headers)["host" := CloudinaryHostHeader]
      && request.querystring == old(request.querystring)
    ensures old(request.querystring) != [] && TransformQueryString(old(request.querystring)).Err? ==>
      r == Reply(BadRequest(TransformQueryString(old(request.querystring)).error)) && unchanged(request)
  {
    if request.querystring == [] {
      return Forward;
    }
    var compiled := TransformQueryString(request.querystring);
    match compiled {
      case Err(message) =>
        return Reply(BadRequest(message));
      case Ok(cloudinaryTransformations) =>
        var mediaUrl := MediaUrl(distributionHost, request.uri);
        request.origin := Some(CloudinaryOrigin);
        request.uri := "/" + CloudinaryId(env) + "/image/fetch/" + cloudinaryTransformations + "/" + mediaUrl;
        request.headers := request.headers["host" := CloudinaryHostHeader];
        return Forward;
    }
  }
}
