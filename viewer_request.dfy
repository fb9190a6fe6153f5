/**
 * The viewer-request trigger: a request is let through only with the secret
 * as its first `token` query value; the token then moves from the query
 * string to an `x-auth-token` header. Anything else is answered with 403.
 */
module ViewerRequest {
  import opened Wrappers
  import opened Query
  import opened CloudFront

  const Secret: string := "MY_SECRET"

  /** `authenticateRequest`: the stand-in check, equality with the secret. */
  function AuthenticateRequest(token: string): (ok: bool) {
    token == Secret
  }

  /** `if (token)` then `authenticateRequest(token)`: the first `token` value is present, not empty, and accepted. */
  predicate Accepts(entries: seq<Entry>) {
    match FirstValue(entries, "token")
    case None => false
    case Some(token) => token != "" && AuthenticateRequest(token)
  }

  /** A query is accepted exactly when its first `token` value is the secret; later `token` values do not count. */
  lemma AcceptsIffFirstTokenIsSecret(entries: seq<Entry>)
    ensures Accepts(entries) <==> FirstValue(entries, "token") == Some(Secret)
  {
  }

  /** The first `token` entry decides, whatever follows it. */
  lemma FirstTokenDecides(entries: seq<Entry>, k: nat)
    requires k < |entries| && entries[k].0 == "token"
    requires forall j | 0 <= j < k :: entries[j].0 != "token"
    ensures Accepts(entries) <==> entries[k].1 == Secret
  {
    FirstValueAt(entries, k, "token");
  }

  /** An empty token (`token=`) is rejected by the truthiness check, and a query without a token is rejected. */
  lemma EmptyOrMissingTokenRejected(entries: seq<Entry>)
    requires FirstValue(entries, "token") == Some("") || FirstValue(entries, "token") == None
    ensures !Accepts(entries)
  {
  }

  /** `[{ key: 'x-auth-token', value: token }]`. */
  function AuthTokenHeader(token: string): (r: seq<HeaderEntry>) {
    [HeaderEntry("x-auth-token", token)]
  }

  /** The fixed 403 response: JSON, not cached, with the error "Unauthenticated request". */
  function Unauthenticated(): (r: GeneratedResponse)
    ensures r.status == "403" && r.bodyEncoding == "text" && r.error == "Unauthenticated request"
    ensures r.headers.Keys == {"content-type", "cache-control"}
    ensures r.headers["content-type"] == JsonContentType && r.headers["cache-control"] == CacheControl("no-cache")
  {
    JsonError("403", "no-cache", "Unauthenticated request")
  }

  /**
   * `handler`: an accepted request loses every `token` entry (the others keep
   * their order), gains the `x-auth-token` header and is forwarded; any other
   * request is answered with the 403 response and left as it was.
   */
  method Handle(request: Request) returns (r: RequestResult)
    modifies request
    ensures Accepts(old(request.querystring)) ==>
      && r == Forward
      && request.querystring == RemoveAll(old(request.querystring), "token")
      && request.headers == old(request.headers)["x-auth-token" := AuthTokenHeader(Secret)]
      && request.uri == old(request.uri) && request.origin == old(request.origin)
    ensures !Accepts(old(request.querystring)) ==> r == Reply(Unauthenticated()) && unchanged(request)
  {
    var qs := new SearchParams(request.querystring);
    var token := qs.Get("token");
    if token.Some? && token.value != "" {
      var authenticated := AuthenticateRequest(token.value);
      if authenticated {
        qs.Delete("token");
        request.headers := request.headers["x-auth-token" := AuthTokenHeader(token.value)];
        request.querystring := qs.Entries();
        return Forward;
      }
    }
    return Reply(Unauthenticated());
  }
}
