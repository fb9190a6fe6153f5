/**
 * The viewer-request entrypoint: the same token check as the plain trigger,
 * recording one `AuthenticationSuccess` or `AuthenticationFailure` metric,
 * and the `ResponseStatus` property on failure.
 */
module ViewerRequestEntry {
  import opened Query
  import opened CloudFront
  import opened Metrics
  import opened ViewerRequest

  /** What the entrypoint writes to the logger, given whether the request was accepted. */
  function AuthTrace(accepted: bool): (trace: seq<LogEntry>) {
    if accepted then [Metric("AuthenticationSuccess", 1, Count)]
    else [Metric("AuthenticationFailure", 1, Count), Property("ResponseStatus", StringValue("403"))]
  }

  /** Exactly one metric per invocation: `AuthenticationSuccess` when accepted, `AuthenticationFailure` otherwise, a count of one. */
  lemma ExactlyOneAuthMetric(accepted: bool)
    ensures MetricNames(AuthTrace(accepted)) == [if accepted then "AuthenticationSuccess" else "AuthenticationFailure"]
    ensures AuthTrace(accepted)[0] == Metric(MetricNames(AuthTrace(accepted))[0], 1, Count)
  {
    var t := AuthTrace(accepted);
    if accepted {
      assert t[1..] == [];
    } else {
      assert t[1..] == [Property("ResponseStatus", StringValue("403"))];
      assert t[1..][1..] == [];
    }
  }

  /** `ResponseStatus` is written, as the string "403", exactly when the request is rejected. */
  lemma StatusPropertyOnlyOnFailure(accepted: bool)
    ensures Property("ResponseStatus", StringValue("403")) in AuthTrace(accepted) <==> !accepted
  {
  }

  /**
   * `handler`: as the plain trigger, and records `AuthenticationSuccess` on
   * acceptance, or `AuthenticationFailure` and `ResponseStatus` = "403" on rejection.
   */
  method Handle(request: Request, metrics: MetricsLogger) returns (r: RequestResult)
    modifies request, metrics
    ensures metrics.trace == old(metrics.trace) + AuthTrace(Accepts(old(request.querystring)))
    ensures Accepts(old(request.querystring)) ==>
      && r == Forward
      && request.querystring == RemoveAll(old(request.querystring), "token")
      && request.headers == old(request.headers)["x-auth-token" := AuthTokenHeader(Secret)]
      && request.uri == old(request.uri) && request.origin == old(request.origin)
    ensures !Accepts(old(request.querystring)) ==> r == Reply(Unauthenticated()) && unchanged(request)
  {
    var qs := new SearchParams(request.querystring);
    var token := qs.Get("token");
    if token.Some? && token.value != "" {
      var authenticated := AuthenticateRequest(token.value);
      if authenticated {
        qs.Delete("token");
        request.headers := request.headers["x-auth-token" := AuthTokenHeader(token.value)];
        request.querystring := qs.Entries();
        metrics.PutMetric("AuthenticationSuccess", 1, Count);
        return Forward;
      }
    }
    metrics.PutMetric("AuthenticationFailure", 1, Count);
    metrics.SetProperty("ResponseStatus", StringValue("403"));
    return Reply(Unauthenticated());
  }
}
