/**
 * The decoded metric model that the serializer consumes: metric groups,
 * sample keys and the per-kind sample values, and the message the scrape
 * stage puts on the first queue.
 */
module Metrics {
  import opened Wrappers
  import opened LabelMaps

  /** An `f64`, held as its IEEE-754 bit pattern; its text comes from a renderer passed in. */
  type F64 = bv64

  /** A `u64`. */
  type U64 = n: nat | n < 0x1_0000_0000_0000_0000

  /** An `i64`: a sample timestamp in milliseconds. */
  type I64 = i: int | -0x8000_0000_0000_0000 <= i < 0x8000_0000_0000_0000

  /** The key of one sample: its label map and optional timestamp. */
  datatype GroupKey = GroupKey(timestamp: Option<I64>, labels: LabelMap)

  datatype SimpleMetric = SimpleMetric(value: F64)

  datatype SummaryQuantile = SummaryQuantile(quantile: F64, value: F64)

  datatype SummaryMetric = SummaryMetric(quantiles: seq<SummaryQuantile>, count: U64, sum: F64)

  datatype HistogramBucket = HistogramBucket(bucket: F64, count: U64)

  datatype HistogramMetric = HistogramMetric(buckets: seq<HistogramBucket>, count: U64, sum: F64)

  /**
   * An `IndexMap<GroupKey, V>`: its entries in insertion order. Its keys are
   * distinct; the serializer does not depend on distinct keys.
   */
  type Entries<V> = seq<(GroupKey, V)>

  /** The five metric kinds, each with the entries of its own value type. */
  datatype GroupKind =
    | Counter(counters: Entries<SimpleMetric>)
    | Gauge(gauges: Entries<SimpleMetric>)
    | Histogram(histograms: Entries<HistogramMetric>)
    | Summary(summaries: Entries<SummaryMetric>)
    | Untyped(untyped: Entries<SimpleMetric>)

  /** A named metric family. */
  datatype MetricGroup = MetricGroup(name: string, metrics: GroupKind)

  /**
   * `MetricsMessage`: one scrape's groups, the URL they came from and the
   * capture instant (an opaque clock reading).
   */
  datatype MetricsMessage = MetricsMessage(targetUrl: string, metrics: seq<MetricGroup>, scrapedAt: nat)
}
