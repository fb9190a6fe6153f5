/**
 * The origin-response entrypoint: the same rewrite as the plain trigger,
 * after recording which class of status the origin answered with and the
 * parsed status itself on the metrics logger.
 */
module OriginResponseEntry {
  import opened JsNumber
  import opened CloudFront
  import opened Metrics
  import OriginResponse

  /** The metrics recorded for a parsed status: one per expected class (2xx, 3xx, 4xx), two for anything else. */
  function StatusMetricNames(status: int): (names: seq<string>) {
    if 200 <= status < 300 then ["OriginResponse2xx"]
    else if 300 <= status < 400 then ["OriginResponse3xx"]
    else if 400 <= status < 500 then ["OriginResponse4xx"]
    else ["OriginResponseUnexpected", "OriginResponse" + IntToString(status)]
  }

  /** Each name as a count of one. */
  function Counts(names: seq<string>): (trace: seq<LogEntry>)
    ensures |trace| == |names|
    ensures forall i | 0 <= i < |names| :: trace[i] == Metric(names[i], 1, Count)
    decreases |names|
  {
    if names == [] then [] else [Metric(names[0], 1, Count)] + Counts(names[1..])
  }

  /** Everything the entrypoint writes to the logger for a parsed status, in order. */
  function StatusTrace(status: int): (trace: seq<LogEntry>) {
    Counts(StatusMetricNames(status)) + [Property("ResponseStatus", NumberValue(status))]
  }

  /** The metric names of a trace of counts are the counted names. */
  lemma {:induction false} MetricNamesOfCounts(names: seq<string>)
    ensures MetricNames(Counts(names)) == names
    decreases |names|
  {
    if names != [] {
      assert Counts(names)[1..] == Counts(names[1..]);
      MetricNamesOfCounts(names[1..]);
    }
  }

  /** The metrics recorded for a status are exactly its metric names: the property write is not a metric. */
  lemma StatusTraceMetrics(status: int)
    ensures MetricNames(StatusTrace(status)) == StatusMetricNames(status)
  {
    var p: seq<LogEntry> := [Property("ResponseStatus", NumberValue(status))];
    MetricNamesConcat(Counts(StatusMetricNames(status)), p);
    MetricNamesOfCounts(StatusMetricNames(status));
    assert MetricNames(p) == [];
  }

  /** Exactly one metric is recorded iff the status is 2xx, 3xx or 4xx; otherwise exactly two. */
  lemma OneMetricPerExpectedClass(status: int)
    ensures |MetricNames(StatusTrace(status))| == 1 <==> 200 <= status < 500
    ensures |MetricNames(StatusTrace(status))| == 2 <==> !(200 <= status < 500)
  {
    StatusTraceMetrics(status);
  }

  /** An unexpected status is recorded as `OriginResponseUnexpected` and under its own name, so distinct unexpected statuses are told apart. */
  lemma UnexpectedStatusNamed(status: int, other: int)
    requires !(200 <= status < 500) && !(200 <= other < 500) && status != other
    ensures StatusMetricNames(status)[0] == StatusMetricNames(other)[0] == "OriginResponseUnexpected"
    ensures StatusMetricNames(status)[1] != StatusMetricNames(other)[1]
  {
    IntToStringInjective(status, other);
    PrefixKeepsDistinct("OriginResponse", IntToString(status), IntToString(other));
  }

  /** The same prefix on two different strings leaves them different. */
  lemma PrefixKeepsDistinct(prefix: string, a: string, b: string)
    requires a != b
    ensures prefix + a != prefix + b
  {
    assert (prefix + a)[|prefix|..] == a && (prefix + b)[|prefix|..] == b;
  }

  /** An origin response without a parseable status counts as unexpected status 0. */
  lemma UnparseableIsUnexpected(response: ReceivedResponse)
    requires JsNumber.ParseInt(response.status).None?
    ensures StatusMetricNames(OriginResponse.ParseStatus(response.status)) == ["OriginResponseUnexpected", "OriginResponse0"]
  {
    assert OriginResponse.ParseStatus(response.status) == 0;
    assert IntToString(0) == "0";
    assert "OriginResponse" + "0" == "OriginResponse0";
  }

  /** Every metric the entrypoint records is a count of one, and the last write is the `ResponseStatus` property. */
  lemma StatusTraceShape(status: int)
    ensures var t := StatusTrace(status);
      && (forall i | 0 <= i < |t| && t[i].Metric? :: t[i].value == 1 && t[i].unit == Count)
      && t[|t| - 1] == Property("ResponseStatus", NumberValue(status))
  {
  }

  /** The status-class metrics and the `ResponseStatus` property of the entrypoint, in call order. */
  method RecordStatus(status: int, metrics: MetricsLogger)
    modifies metrics
    ensures metrics.trace == old(metrics.trace) + StatusTrace(status)
  {
    if 200 <= status < 300 {
      metrics.PutMetric("OriginResponse2xx", 1, Count);
    } else if 300 <= status < 400 {
      metrics.PutMetric("OriginResponse3xx", 1, Count);
    } else if 400 <= status < 500 {
      metrics.PutMetric("OriginResponse4xx", 1, Count);
    } else {
      metrics.PutMetric("OriginResponseUnexpected", 1, Count);
      metrics.PutMetric("OriginResponse" + IntToString(status), 1, Count);
    }
    metrics.SetProperty("ResponseStatus", NumberValue(status));
  }

  /** The entrypoint's own copy of the rewrite, for the parsed status. */
  method Respond(response: ReceivedResponse, status: int) returns (r: ResponseResult)
    ensures r == OriginResponse.Rewrite(response, status)
  {
    if status >= 400 {
      var headers := response.headers["content-type" := JsonContentType]["cache-control" := CacheControl("no-cache")];
      if status == 404 {
        headers := headers["cache-control" := CacheControl("max-age=300")];
      }
      return Generated(GeneratedResponse(IntToString(status), headers, "text", response.statusDescription));
    }
    return Passed(response);
  }

  /**
   * `handler`: records the status-class metrics and the `ResponseStatus`
   * property, then rewrites exactly as the plain origin-response trigger.
   */
  method Handle(response: ReceivedResponse, metrics: MetricsLogger) returns (r: ResponseResult)
    modifies metrics
    ensures metrics.trace == old(metrics.trace) + StatusTrace(OriginResponse.ParseStatus(response.status))
    ensures r == OriginResponse.Handle(response)
  {
    var status := OriginResponse.ParseStatus(response.status);
    RecordStatus(status, metrics);
    r := Respond(response, status);
  }
}
