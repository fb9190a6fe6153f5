/**
 * The metrics logger the entrypoints write to, kept abstract as the trace
 * of `putMetric` and `setProperty` calls it receives, in call order.
 */
module Metrics {

  /** The metric units used here. */
  datatype Unit = Count

  /** A property value: the handlers set both numbers and strings. */
  datatype PropertyValue = NumberValue(number: int) | StringValue(text: string)

  /** One call on the logger. */
  datatype LogEntry =
    | Metric(name: string, value: int, unit: Unit)
    | Property(key: string, property: PropertyValue)

  /** The names of the metrics in a trace, in order. */
  function MetricNames(trace: seq<LogEntry>): (names: seq<string>)
    ensures |names| <= |trace|
    decreases |trace|
  {
    if trace == [] then []
    else if trace[0].Metric? then [trace[0].name] + MetricNames(trace[1..])
    else MetricNames(trace[1..])
  }

  /** The names of a trace made of two parts are the names of the first part, then of the second. */
  lemma {:induction false} MetricNamesConcat(a: seq<LogEntry>, b: seq<LogEntry>)
    ensures MetricNames(a + b) == MetricNames(a) + MetricNames(b)
    decreases |a|
  {
    if a == [] {
      assert a + b == b;
    } else {
      assert (a + b)[0] == a[0] && (a + b)[1..] == a[1..] + b;
      MetricNamesConcat(a[1..], b);
    }
  }

  /** A logger that records every call. */
  class MetricsLogger {
    var trace: seq<LogEntry>

    constructor()
      ensures trace == []
    {
      trace := [];
    }

    /** `putMetric(name, value, unit)`. */
    method PutMetric(name: string, value: int, unit: Unit)
      modifies this
      ensures trace == old(trace) + [Metric(name, value, unit)]
    {
      trace := trace + [Metric(name, value, unit)];
    }

    /** `setProperty(key, value)`. */
    method SetProperty(key: string, value: PropertyValue)
      modifies this
      ensures trace == old(trace) + [Property(key, value)]
    {
      trace := trace + [Property(key, value)];
    }
  }
}
