/**
 * The serializer of `MetricsFormatter`: decoded metric groups back to
 * exposition text. The text of each kind is specified as a list of sample
 * lines (`GroupSamples`); the three loop helpers are methods proved to
 * append exactly those lines.
 */
module Formatter {
  import opened Wrappers
  import opened Text
  import opened LabelMaps
  import opened Metrics
  import opened Exposition

  /** How Rust's `Display` writes an `f64` value; it is not interpreted here. */
  type Display = F64 -> string

  /** `quantile` and `le`, the label names the summary and histogram lines add. */
  const QUANTILE_LABEL := "quantile"
  const LE_LABEL := "le"

  // ---------------------------------------------------------------------------
  // The sample lines of each kind

  /** The line of one gauge, counter or untyped entry: the bare name, the key's own labels. */
  function SimpleSample(display: Display, name: string, e: (GroupKey, SimpleMetric)): Sample {
    Sample(name, e.0.labels, display(e.1.value), e.0.timestamp)
  }

  function SimpleSamples(display: Display, name: string, es: Entries<SimpleMetric>): seq<Sample>
    decreases |es|
  {
    if es == [] then []
    else SimpleSamples(display, name, es[..|es| - 1]) + [SimpleSample(display, name, es[|es| - 1])]
  }

  /** One quantile line: the bare name, `quantile` inserted into a copy of the key's labels. */
  function QuantileSample(display: Display, name: string, key: GroupKey, q: SummaryQuantile): Sample {
    Sample(name, Insert(key.labels, QUANTILE_LABEL, display(q.quantile)), display(q.value), key.timestamp)
  }

  function QuantileSamples(display: Display, name: string, key: GroupKey, qs: seq<SummaryQuantile>): seq<Sample>
    decreases |qs|
  {
    if qs == [] then []
    else QuantileSamples(display, name, key, qs[..|qs| - 1]) + [QuantileSample(display, name, key, qs[|qs| - 1])]
  }

  function SumSample(name: string, key: GroupKey, sum: string): Sample {
    Sample(name + "_sum", key.labels, sum, key.timestamp)
  }

  function CountSample(name: string, key: GroupKey, count: U64): Sample {
    Sample(name + "_count", key.labels, NatToString(count), key.timestamp)
  }

  /** The lines of one summary entry: its quantiles, then `_sum`, then `_count`. */
  function SummaryKeySamples(display: Display, name: string, key: GroupKey, m: SummaryMetric): seq<Sample> {
    QuantileSamples(display, name, key, m.quantiles)
      + [SumSample(name, key, display(m.sum)), CountSample(name, key, m.count)]
  }

  function SummarySamples(display: Display, name: string, es: Entries<SummaryMetric>): seq<Sample>
    decreases |es|
  {
    if es == [] then []
    else SummarySamples(display, name, es[..|es| - 1]) + SummaryKeySamples(display, name, es[|es| - 1].0, es[|es| - 1].1)
  }

  /** One bucket line: `_bucket`, `le` inserted into a copy of the key's labels, the bucket count. */
  function BucketSample(display: Display, name: string, key: GroupKey, b: HistogramBucket): Sample {
    Sample(name + "_bucket", Insert(key.labels, LE_LABEL, display(b.bucket)), NatToString(b.count), key.timestamp)
  }

  function BucketSamples(display: Display, name: string, key: GroupKey, bs: seq<HistogramBucket>): seq<Sample>
    decreases |bs|
  {
    if bs == [] then []
    else BucketSamples(display, name, key, bs[..|bs| - 1]) + [BucketSample(display, name, key, bs[|bs| - 1])]
  }

  /** The lines of one histogram entry: its buckets, then `_sum`, then `_count`. */
  function HistogramKeySamples(display: Display, name: string, key: GroupKey, m: HistogramMetric): seq<Sample> {
    BucketSamples(display, name, key, m.buckets)
      + [SumSample(name, key, display(m.sum)), CountSample(name, key, m.count)]
  }

  function HistogramSamples(display: Display, name: string, es: Entries<HistogramMetric>): seq<Sample>
    decreases |es|
  {
    if es == [] then []
    else HistogramSamples(display, name, es[..|es| - 1]) + HistogramKeySamples(display, name, es[|es| - 1].0, es[|es| - 1].1)
  }

  /** The lines of a group, by kind; gauge, counter and untyped share one rendering. */
  function GroupSamples(display: Display, g: MetricGroup): seq<Sample> {
    match g.metrics
    case Gauge(es) => SimpleSamples(display, g.name, es)
    case Counter(es) => SimpleSamples(display, g.name, es)
    case Untyped(es) => SimpleSamples(display, g.name, es)
    case Summary(es) => SummarySamples(display, g.name, es)
    case Histogram(es) => HistogramSamples(display, g.name, es)
  }

  // ---------------------------------------------------------------------------
  // The serializer

  /** `format_simple_group`: the text of one group. */
  function FormatSimpleGroup(display: Display, g: MetricGroup): string {
    Render(GroupSamples(display, g))
  }

  /** `MetricsFormatter::format_single`: the texts of the groups, in order. */
  function FormatSingle(display: Display, gs: seq<MetricGroup>): string
    decreases |gs|
  {
    if gs == [] then "" else FormatSingle(display, gs[..|gs| - 1]) + FormatSimpleGroup(display, gs[|gs| - 1])
  }

  /** `flat_map(|msg| &msg.metrics)`: the groups of all messages, in order. */
  function AllGroups(msgs: seq<MetricsMessage>): seq<MetricGroup>
    decreases |msgs|
  {
    if msgs == [] then [] else AllGroups(msgs[..|msgs| - 1]) + msgs[|msgs| - 1].metrics
  }

  /** `MetricsFormatter::format_batch`: the texts of all groups of all messages, in order. */
  function FormatBatch(display: Display, msgs: seq<MetricsMessage>): string {
    FormatSingle(display, AllGroups(msgs))
  }

  /** `format_simple_metric`: appends one line per entry, in entry order. */
  method FormatSimpleMetric(display: Display, groupName: string, metrics: Entries<SimpleMetric>)
    returns (result: string)
    ensures result == Render(SimpleSamples(display, groupName, metrics))
  {
    result := "";
    for i := 0 to |metrics|
      invariant result == Render(SimpleSamples(display, groupName, metrics[..i]))
    {
      var key, metric := metrics[i].0, metrics[i].1;
      var timestamp := TimestampSuffix(key.timestamp);
      var line := groupName + "{" + FormatLabels(key.labels) + "} " + display(metric.value) + timestamp + "\n";
      SimpleLineAppended(display, groupName, metrics, i, result, line);
      result := result + line;
    }
    assert metrics[..|metrics|] == metrics;
  }

  /**
   * `format_summary_metric`: per entry, one line per quantile with
   * `quantile` inserted into a copy of the labels, then `_sum` and `_count`
   * with the entry's own labels.
   */
  method FormatSummaryMetric(display: Display, groupName: string, metrics: Entries<SummaryMetric>)
    returns (result: string)
    ensures result == Render(SummarySamples(display, groupName, metrics))
  {
    result := "";
    for i := 0 to |metrics|
      invariant result == Render(SummarySamples(display, groupName, metrics[..i]))
    {
      var key, metric := metrics[i].0, metrics[i].1;
      var timestamp := TimestampSuffix(key.timestamp);
      var quantiles := metric.quantiles;
      for j := 0 to |quantiles|
        invariant result == Render(SummarySamples(display, groupName, metrics[..i])) + Render(QuantileSamples(display, groupName, key, quantiles[..j]))
      {
        var quantile := quantiles[j];
        var labels := Insert(key.labels, QUANTILE_LABEL, display(quantile.quantile));
        var line := groupName + "{" + FormatLabels(labels) + "} " + display(quantile.value) + timestamp + "\n";
        QuantileLineAppended(display, groupName, key, quantiles, j, Render(SummarySamples(display, groupName, metrics[..i])), result, line);
        result := result + line;
      }
      var sumLine := groupName + "_sum{" + FormatLabels(key.labels) + "} " + display(metric.sum) + timestamp + "\n";
      var countLine := groupName + "_count{" + FormatLabels(key.labels) + "} " + NatToString(metric.count) + timestamp + "\n";
      assert result + sumLine + countLine == Render(SummarySamples(display, groupName, metrics[..i + 1])) by {
        assert quantiles[..|quantiles|] == quantiles;
        SummaryEntryAppended(display, groupName, SummarySamples(display, groupName, metrics[..i]), key, metric, result, sumLine, countLine);
        assert metrics[..i + 1][..i] == metrics[..i];
      }
      result := result + sumLine + countLine;
    }
    assert metrics[..|metrics|] == metrics;
  }

  /**
   * `format_histogram_metric`: per entry, one `_bucket` line per bucket with
   * `le` inserted into a copy of the labels, then `_sum` and `_count` with
   * the entry's own labels.
   */
  method FormatHistogramMetric(display: Display, groupName: string, metrics: Entries<HistogramMetric>)
    returns (result: string)
    ensures result == Render(HistogramSamples(display, groupName, metrics))
  {
    result := "";
    for i := 0 to |metrics|
      invariant result == Render(HistogramSamples(display, groupName, metrics[..i]))
    {
      var key, metric := metrics[i].0, metrics[i].1;
      var timestamp := TimestampSuffix(key.timestamp);
      var buckets := metric.buckets;
      for j := 0 to |buckets|
        invariant result == Render(HistogramSamples(display, groupName, metrics[..i])) + Render(BucketSamples(display, groupName, key, buckets[..j]))
      {
        var bucket := buckets[j];
        var labels := Insert(key.labels, LE_LABEL, display(bucket.bucket));
        var line := groupName + "_bucket{" + FormatLabels(labels) + "} " + NatToString(bucket.count) + timestamp + "\n";
        BucketLineAppended(display, groupName, key, buckets, j, Render(HistogramSamples(display, groupName, metrics[..i])), result, line);
        result := result + line;
      }
      var sumLine := groupName + "_sum{" + FormatLabels(key.labels) + "} " + display(metric.sum) + timestamp + "\n";
      var countLine := groupName + "_count{" + FormatLabels(key.labels) + "} " + NatToString(metric.count) + timestamp + "\n";
      assert result + sumLine + countLine == Render(HistogramSamples(display, groupName, metrics[..i + 1])) by {
        assert buckets[..|buckets|] == buckets;
        HistogramEntryAppended(display, groupName, HistogramSamples(display, groupName, metrics[..i]), key, metric, result, sumLine, countLine);
        assert metrics[..i + 1][..i] == metrics[..i];
      }
      result := result + sumLine + countLine;
    }
    assert metrics[..|metrics|] == metrics;
  }

  /** One step of the entry loop: the line written is the next entry's sample line. */
  lemma SimpleLineAppended(display: Display, name: string, es: Entries<SimpleMetric>, i: nat, result: string, line: string)
    requires i < |es|
    requires result == Render(SimpleSamples(display, name, es[..i]))
    requires line == name + "{" + FormatLabels(es[i].0.labels) + "} " + display(es[i].1.value) + TimestampSuffix(es[i].0.timestamp) + "\n"
    ensures result + line == Render(SimpleSamples(display, name, es[..i + 1]))
  {
    var sample := SimpleSample(display, name, es[i]);
    LineShape(name, sample.labels, sample.value, sample.timestamp);
    assert SimpleSamples(display, name, es[..i + 1]) == SimpleSamples(display, name, es[..i]) + [sample] by {
      assert es[..i + 1][..i] == es[..i];
    }
    RenderSnoc(SimpleSamples(display, name, es[..i]), sample);
  }

  /** One step of the quantile loop: the line written is the next quantile sample's line. */
  lemma QuantileLineAppended(display: Display, name: string, key: GroupKey, qs: seq<SummaryQuantile>, j: nat,
                             before: string, result: string, line: string)
    requires j < |qs|
    requires result == before + Render(QuantileSamples(display, name, key, qs[..j]))
    requires line == name + "{" + FormatLabels(Insert(key.labels, QUANTILE_LABEL, display(qs[j].quantile))) + "} "
                     + display(qs[j].value) + TimestampSuffix(key.timestamp) + "\n"
    ensures result + line == before + Render(QuantileSamples(display, name, key, qs[..j + 1]))
  {
    var sample := QuantileSample(display, name, key, qs[j]);
    var done := QuantileSamples(display, name, key, qs[..j]);
    assert line == RenderSample(sample) by {
      LineShape(name, sample.labels, sample.value, key.timestamp);
    }
    assert QuantileSamples(display, name, key, qs[..j + 1]) == done + [sample] by {
      assert qs[..j + 1][..j] == qs[..j];
    }
    RenderSnoc(done, sample);
    Regroup3(before, Render(done), line);
  }

  /** One step of the bucket loop: the line written is the next bucket sample's line. */
  lemma BucketLineAppended(display: Display, name: string, key: GroupKey, bs: seq<HistogramBucket>, j: nat,
                           before: string, result: string, line: string)
    requires j < |bs|
    requires result == before + Render(BucketSamples(display, name, key, bs[..j]))
    requires line == name + "_bucket{" + FormatLabels(Insert(key.labels, LE_LABEL, display(bs[j].bucket))) + "} "
                     + NatToString(bs[j].count) + TimestampSuffix(key.timestamp) + "\n"
    ensures result + line == before + Render(BucketSamples(display, name, key, bs[..j + 1]))
  {
    var sample := BucketSample(display, name, key, bs[j]);
    var done := BucketSamples(display, name, key, bs[..j]);
    assert line == RenderSample(sample) by {
      assert "_bucket" + "{" == "_bucket{";
      SuffixedLineShape(name, "_bucket", sample.labels, sample.value, key.timestamp);
    }
    assert BucketSamples(display, name, key, bs[..j + 1]) == done + [sample] by {
      assert bs[..j + 1][..j] == bs[..j];
    }
    RenderSnoc(done, sample);
    Regroup3(before, Render(done), line);
  }

  /** The end of one summary entry: its `_sum` and `_count` lines complete the entry's lines. */
  lemma SummaryEntryAppended(display: Display, name: string, prefix: seq<Sample>, key: GroupKey, m: SummaryMetric,
                             result: string, sumLine: string, countLine: string)
    requires result == Render(prefix) + Render(QuantileSamples(display, name, key, m.quantiles))
    requires sumLine == name + "_sum{" + FormatLabels(key.labels) + "} " + display(m.sum) + TimestampSuffix(key.timestamp) + "\n"
    requires countLine == name + "_count{" + FormatLabels(key.labels) + "} " + NatToString(m.count) + TimestampSuffix(key.timestamp) + "\n"
    ensures result + sumLine + countLine == Render(prefix + SummaryKeySamples(display, name, key, m))
  {
    TotalsShape(name, key, display(m.sum), m.count, sumLine, countLine);
    EntryLinesAppended(prefix, QuantileSamples(display, name, key, m.quantiles),
      SumSample(name, key, display(m.sum)), CountSample(name, key, m.count), sumLine, countLine);
  }

  /** The end of one histogram entry: its `_sum` and `_count` lines complete the entry's lines. */
  lemma HistogramEntryAppended(display: Display, name: string, prefix: seq<Sample>, key: GroupKey, m: HistogramMetric,
                               result: string, sumLine: string, countLine: string)
    requires result == Render(prefix) + Render(BucketSamples(display, name, key, m.buckets))
    requires sumLine == name + "_sum{" + FormatLabels(key.labels) + "} " + display(m.sum) + TimestampSuffix(key.timestamp) + "\n"
    requires countLine == name + "_count{" + FormatLabels(key.labels) + "} " + NatToString(m.count) + TimestampSuffix(key.timestamp) + "\n"
    ensures result + sumLine + countLine == Render(prefix + HistogramKeySamples(display, name, key, m))
  {
    TotalsShape(name, key, display(m.sum), m.count, sumLine, countLine);
    EntryLinesAppended(prefix, BucketSamples(display, name, key, m.buckets),
      SumSample(name, key, display(m.sum)), CountSample(name, key, m.count), sumLine, countLine);
  }

  /** The `_sum` and `_count` lines as `format!` spells them out are the lines of their samples. */
  lemma TotalsShape(name: string, key: GroupKey, sum: string, count: U64, sumLine: string, countLine: string)
    requires sumLine == name + "_sum{" + FormatLabels(key.labels) + "} " + sum + TimestampSuffix(key.timestamp) + "\n"
    requires countLine == name + "_count{" + FormatLabels(key.labels) + "} " + NatToString(count) + TimestampSuffix(key.timestamp) + "\n"
    ensures sumLine == RenderSample(SumSample(name, key, sum))
    ensures countLine == RenderSample(CountSample(name, key, count))
  {
    assert "_sum" + "{" == "_sum{";
    SuffixedLineShape(name, "_sum", key.labels, sum, key.timestamp);
    assert "_count" + "{" == "_count{";
    SuffixedLineShape(name, "_count", key.labels, NatToString(count), key.timestamp);
  }

  /** An entry's lines, appended after the lines of the entries before it. */
  lemma EntryLinesAppended(prefix: seq<Sample>, first: seq<Sample>, sum: Sample, count: Sample,
                           sumLine: string, countLine: string)
    requires sumLine == RenderSample(sum) && countLine == RenderSample(count)
    ensures Render(prefix) + Render(first) + sumLine + countLine == Render(prefix + (first + [sum, count]))
  {
    var whole := first + [sum, count];
    assert whole == (first + [sum]) + [count];
    RenderSnoc(first, sum);
    RenderSnoc(first + [sum], count);
    RenderAppend(prefix, whole);
    Regroup(Render(prefix), Render(first), sumLine, countLine);
  }
  // ---------------------------------------------------------------------------
  // What the text holds

  /** One line per gauge, counter or untyped entry, in entry order, with the entry's own labels. */
  lemma {:induction false} SimpleSamplesShape(display: Display, name: string, es: Entries<SimpleMetric>)
    ensures |SimpleSamples(display, name, es)| == |es|
    ensures forall i :: 0 <= i < |es| ==>
      SimpleSamples(display, name, es)[i] == Sample(name, es[i].0.labels, display(es[i].1.value), es[i].0.timestamp)
    decreases |es|
  {
    if es != [] {
      var init := es[..|es| - 1];
      SimpleSamplesShape(display, name, init);
      assert forall i :: 0 <= i < |init| ==> init[i] == es[i];
    }
  }

  /** Gauges, counters and untyped metrics with the same entries produce the same text. */
  lemma SimpleKindsAgree(display: Display, name: string, es: Entries<SimpleMetric>)
    ensures FormatSimpleGroup(display, MetricGroup(name, Gauge(es))) == FormatSimpleGroup(display, MetricGroup(name, Counter(es)))
    ensures FormatSimpleGroup(display, MetricGroup(name, Untyped(es))) == FormatSimpleGroup(display, MetricGroup(name, Counter(es)))
  {
  }

  /**
   * One line per quantile, in order: the bare family name, the entry's
   * labels with `quantile` set to the rendered quantile (a `quantile` label
   * of the entry's own is replaced), the rendered value.
   */
  lemma {:induction false} QuantileSamplesShape(display: Display, name: string, key: GroupKey, qs: seq<SummaryQuantile>)
    ensures |QuantileSamples(display, name, key, qs)| == |qs|
    ensures forall i :: 0 <= i < |qs| ==>
      var s := QuantileSamples(display, name, key, qs)[i];
      s.name == name && s.value == display(qs[i].value) && s.timestamp == key.timestamp
      && ToMap(s.labels) == ToMap(key.labels)[QUANTILE_LABEL := display(qs[i].quantile)]
    decreases |qs|
  {
    if qs != [] {
      var init := qs[..|qs| - 1];
      QuantileSamplesShape(display, name, key, init);
      var ss, before := QuantileSamples(display, name, key, qs), QuantileSamples(display, name, key, init);
      assert ss == before + [QuantileSample(display, name, key, qs[|qs| - 1])];
      forall i | 0 <= i < |init| ensures ss[i] == before[i] && init[i] == qs[i] {
      }
    }
  }

  /**
   * One line per bucket, in order: `_bucket`, the entry's labels with `le`
   * set to the rendered upper bound, the bucket's count in decimal.
   */
  lemma {:induction false} BucketSamplesShape(display: Display, name: string, key: GroupKey, bs: seq<HistogramBucket>)
    ensures |BucketSamples(display, name, key, bs)| == |bs|
    ensures forall i :: 0 <= i < |bs| ==>
      var s := BucketSamples(display, name, key, bs)[i];
      s.name == name + "_bucket" && s.value == NatToString(bs[i].count) && s.timestamp == key.timestamp
      && ToMap(s.labels) == ToMap(key.labels)[LE_LABEL := display(bs[i].bucket)]
    decreases |bs|
  {
    if bs != [] {
      var init := bs[..|bs| - 1];
      BucketSamplesShape(display, name, key, init);
      var ss, before := BucketSamples(display, name, key, bs), BucketSamples(display, name, key, init);
      assert ss == before + [BucketSample(display, name, key, bs[|bs| - 1])];
      forall i | 0 <= i < |init| ensures ss[i] == before[i] && init[i] == bs[i] {
      }
    }
  }

  /**
   * A summary entry gives its quantile lines, then `_sum` with the rendered
   * sum, then `_count` with the count in decimal; the last two carry the
   * entry's labels unchanged, and every line carries the entry's timestamp.
   */
  lemma SummaryKeyShape(display: Display, name: string, key: GroupKey, m: SummaryMetric)
    ensures var ss := SummaryKeySamples(display, name, key, m);
      && |ss| == |m.quantiles| + 2
      && ss[..|m.quantiles|] == QuantileSamples(display, name, key, m.quantiles)
      && ss[|m.quantiles|] == Sample(name + "_sum", key.labels, display(m.sum), key.timestamp)
      && ss[|m.quantiles| + 1] == Sample(name + "_count", key.labels, NatToString(m.count), key.timestamp)
      && forall i :: 0 <= i < |ss| ==> ss[i].timestamp == key.timestamp
  {
    QuantileSamplesShape(display, name, key, m.quantiles);
  }

  /**
   * A histogram entry gives its bucket lines, then `_sum` and `_count`, the
   * last two with the entry's labels unchanged.
   */
  lemma HistogramKeyShape(display: Display, name: string, key: GroupKey, m: HistogramMetric)
    ensures var ss := HistogramKeySamples(display, name, key, m);
      && |ss| == |m.buckets| + 2
      && ss[..|m.buckets|] == BucketSamples(display, name, key, m.buckets)
      && ss[|m.buckets|] == Sample(name + "_sum", key.labels, display(m.sum), key.timestamp)
      && ss[|m.buckets| + 1] == Sample(name + "_count", key.labels, NatToString(m.count), key.timestamp)
      && forall i :: 0 <= i < |ss| ==> ss[i].timestamp == key.timestamp
  {
    BucketSamplesShape(display, name, key, m.buckets);
  }

  /** Entries are written in entry order: the lines of two runs of entries are the two runs' lines. */
  lemma {:induction false} SummarySamplesAppend(display: Display, name: string, a: Entries<SummaryMetric>, b: Entries<SummaryMetric>)
    ensures SummarySamples(display, name, a + b) == SummarySamples(display, name, a) + SummarySamples(display, name, b)
    decreases |b|
  {
    if b == [] {
      assert a + b == a;
    } else {
      var b' := b[..|b| - 1];
      var last := b[|b| - 1];
      assert (a + b)[..|a + b| - 1] == a + b' && (a + b)[|a + b| - 1] == last;
      assert SummarySamples(display, name, a + b) == SummarySamples(display, name, a + b') + SummaryKeySamples(display, name, last.0, last.1);
      SummarySamplesAppend(display, name, a, b');
      Regroup3(SummarySamples(display, name, a), SummarySamples(display, name, b'), SummaryKeySamples(display, name, last.0, last.1));
    }
  }

  lemma {:induction false} HistogramSamplesAppend(display: Display, name: string, a: Entries<HistogramMetric>, b: Entries<HistogramMetric>)
    ensures HistogramSamples(display, name, a + b) == HistogramSamples(display, name, a) + HistogramSamples(display, name, b)
    decreases |b|
  {
    if b == [] {
      assert a + b == a;
    } else {
      var b' := b[..|b| - 1];
      var last := b[|b| - 1];
      assert (a + b)[..|a + b| - 1] == a + b' && (a + b)[|a + b| - 1] == last;
      assert HistogramSamples(display, name, a + b) == HistogramSamples(display, name, a + b') + HistogramKeySamples(display, name, last.0, last.1);
      HistogramSamplesAppend(display, name, a, b');
      Regroup3(HistogramSamples(display, name, a), HistogramSamples(display, name, b'), HistogramKeySamples(display, name, last.0, last.1));
    }
  }

  /** Groups are written in order, each as its own text. */
  lemma {:induction false} FormatSingleAppend(display: Display, a: seq<MetricGroup>, b: seq<MetricGroup>)
    ensures FormatSingle(display, a + b) == FormatSingle(display, a) + FormatSingle(display, b)
    decreases |b|
  {
    if b == [] {
      assert a + b == a;
    } else {
      var b' := b[..|b| - 1];
      assert (a + b)[..|a + b| - 1] == a + b';
      FormatSingleAppend(display, a, b');
      Regroup3(FormatSingle(display, a), FormatSingle(display, b'), FormatSimpleGroup(display, b[|b| - 1]));
    }
  }

  lemma FormatSingleOne(display: Display, g: MetricGroup)
    ensures FormatSingle(display, [g]) == FormatSimpleGroup(display, g)
  {
    assert [g][..0] == [];
  }

  lemma {:induction false} AllGroupsAppend(a: seq<MetricsMessage>, b: seq<MetricsMessage>)
    ensures AllGroups(a + b) == AllGroups(a) + AllGroups(b)
    decreases |b|
  {
    if b == [] {
      assert a + b == a;
    } else {
      var b' := b[..|b| - 1];
      assert (a + b)[..|a + b| - 1] == a + b';
      AllGroupsAppend(a, b');
    }
  }

  /**
   * A batch is written message by message: the text of two runs of
   * messages is the two texts one after the other, a single message gives
   * the text `format_single` gives its groups, and no messages give nothing.
   */
  lemma FormatBatchAppend(display: Display, a: seq<MetricsMessage>, b: seq<MetricsMessage>)
    ensures FormatBatch(display, a + b) == FormatBatch(display, a) + FormatBatch(display, b)
  {
    AllGroupsAppend(a, b);
    FormatSingleAppend(display, AllGroups(a), AllGroups(b));
  }

  lemma FormatBatchOne(display: Display, msg: MetricsMessage)
    ensures FormatBatch(display, [msg]) == FormatSingle(display, msg.metrics)
    ensures FormatBatch(display, []) == ""
  {
    assert [msg][..0] == [];
    assert AllGroups([msg]) == [] + msg.metrics == msg.metrics;
  }

  // ---------------------------------------------------------------------------
  // The text reads back

  /** A renderer whose texts hold no space, line break or double quote (Rust's `f64` Display is one). */
  ghost predicate DisplayReadable(display: Display) {
    forall x: F64 :: Avoids(display(x), {' ', '\n', '"'})
  }

  predicate KeysReadable<V>(es: Entries<V>) {
    forall i :: 0 <= i < |es| ==> Readable(es[i].0.labels)
  }

  /** A group whose text reads back: a proper metric name, proper label names, label values without `"`. */
  predicate GroupReadable(g: MetricGroup) {
    IsMetricName(g.name)
    && match g.metrics
       case Gauge(es) => KeysReadable(es)
       case Counter(es) => KeysReadable(es)
       case Untyped(es) => KeysReadable(es)
       case Summary(es) => KeysReadable(es)
       case Histogram(es) => KeysReadable(es)
  }

  predicate AllWellFormed(ss: seq<Sample>) {
    forall i :: 0 <= i < |ss| ==> WellFormed(ss[i])
  }

  lemma AllWellFormedAppend(a: seq<Sample>, b: seq<Sample>)
    requires AllWellFormed(a) && AllWellFormed(b)
    ensures AllWellFormed(a + b)
  {
    assert forall i :: |a| <= i < |a + b| ==> (a + b)[i] == b[i - |a|];
  }

  /** Inserting a proper name with a `"`-free value keeps a label map readable. */
  lemma InsertReadable(l: LabelMap, k: string, v: string)
    requires Readable(l) && IsLabelName(k) && Avoids(v, {'"'})
    ensures Readable(Insert(l, k, v))
  {
    var r := Insert(l, k, v);
    InsertEntries(l, k, v);
    forall j | 0 <= j < |r| ensures IsLabelName(r[j].0) && Avoids(r[j].1, {'"'}) {
      if r[j] != (k, v) {
        var i :| 0 <= i < |l| && l[i] == r[j];
      }
    }
  }

  lemma SuffixedName(name: string, suffix: string)
    requires IsMetricName(name) && forall i :: 0 <= i < |suffix| ==> MetricNameChar(suffix[i])
    ensures IsMetricName(name + suffix)
  {
    assert forall i :: |name| <= i < |name + suffix| ==> (name + suffix)[i] == suffix[i - |name|];
  }

  lemma DecimalReadable(n: nat)
    ensures Avoids(NatToString(n), {' ', '\n'})
  {
    var d := NatToString(n);
    assert forall i :: 0 <= i < |d| ==> IsDigit(d[i]);
  }

  lemma {:induction false} SimpleSamplesWellFormed(display: Display, name: string, es: Entries<SimpleMetric>)
    requires DisplayReadable(display) && IsMetricName(name) && KeysReadable(es)
    ensures AllWellFormed(SimpleSamples(display, name, es))
  {
    SimpleSamplesShape(display, name, es);
    var ss := SimpleSamples(display, name, es);
    forall i | 0 <= i < |ss| ensures WellFormed(ss[i]) {
      assert Avoids(display(es[i].1.value), {' ', '\n', '"'});
    }
  }

  lemma {:induction false} QuantileSamplesWellFormed(display: Display, name: string, key: GroupKey, qs: seq<SummaryQuantile>)
    requires DisplayReadable(display) && IsMetricName(name) && Readable(key.labels)
    ensures AllWellFormed(QuantileSamples(display, name, key, qs))
    decreases |qs|
  {
    if qs != [] {
      var q := qs[|qs| - 1];
      var s := QuantileSample(display, name, key, q);
      QuantileSamplesWellFormed(display, name, key, qs[..|qs| - 1]);
      assert WellFormed(s) by {
        assert Avoids(display(q.quantile), {' ', '\n', '"'}) && Avoids(display(q.value), {' ', '\n', '"'});
        AddedLabelNames();
        InsertReadable(key.labels, QUANTILE_LABEL, display(q.quantile));
      }
      AllWellFormedAppend(QuantileSamples(display, name, key, qs[..|qs| - 1]), [s]);
    }
  }

  lemma {:induction false} BucketSamplesWellFormed(display: Display, name: string, key: GroupKey, bs: seq<HistogramBucket>)
    requires DisplayReadable(display) && IsMetricName(name) && Readable(key.labels)
    ensures AllWellFormed(BucketSamples(display, name, key, bs))
    decreases |bs|
  {
    if bs != [] {
      var b := bs[|bs| - 1];
      var s := BucketSample(display, name, key, b);
      BucketSamplesWellFormed(display, name, key, bs[..|bs| - 1]);
      assert WellFormed(s) by {
        assert Avoids(display(b.bucket), {' ', '\n', '"'});
        AddedLabelNames();
        InsertReadable(key.labels, LE_LABEL, display(b.bucket));
        SuffixedName(name, "_bucket");
        DecimalReadable(b.count);
      }
      AllWellFormedAppend(BucketSamples(display, name, key, bs[..|bs| - 1]), [s]);
    }
  }

  lemma AddedLabelNames()
    ensures IsLabelName(QUANTILE_LABEL) && IsLabelName(LE_LABEL)
  {
  }

  lemma TotalsWellFormed(display: Display, name: string, key: GroupKey, sum: F64, count: U64)
    requires DisplayReadable(display) && IsMetricName(name) && Readable(key.labels)
    ensures AllWellFormed([SumSample(name, key, display(sum)), CountSample(name, key, count)])
  {
    assert Avoids(display(sum), {' ', '\n', '"'});
    SuffixedName(name, "_sum");
    SuffixedName(name, "_count");
    DecimalReadable(count);
  }

  lemma {:induction false} SummarySamplesWellFormed(display: Display, name: string, es: Entries<SummaryMetric>)
    requires DisplayReadable(display) && IsMetricName(name) && KeysReadable(es)
    ensures AllWellFormed(SummarySamples(display, name, es))
    decreases |es|
  {
    if es != [] {
      var (key, m) := es[|es| - 1];
      var init := es[..|es| - 1];
      assert forall i :: 0 <= i < |init| ==> init[i] == es[i];
      SummarySamplesWellFormed(display, name, init);
      QuantileSamplesWellFormed(display, name, key, m.quantiles);
      TotalsWellFormed(display, name, key, m.sum, m.count);
      AllWellFormedAppend(QuantileSamples(display, name, key, m.quantiles),
        [SumSample(name, key, display(m.sum)), CountSample(name, key, m.count)]);
      AllWellFormedAppend(SummarySamples(display, name, init), SummaryKeySamples(display, name, key, m));
    }
  }

  lemma {:induction false} HistogramSamplesWellFormed(display: Display, name: string, es: Entries<HistogramMetric>)
    requires DisplayReadable(display) && IsMetricName(name) && KeysReadable(es)
    ensures AllWellFormed(HistogramSamples(display, name, es))
    decreases |es|
  {
    if es != [] {
      var (key, m) := es[|es| - 1];
      var init := es[..|es| - 1];
      assert forall i :: 0 <= i < |init| ==> init[i] == es[i];
      HistogramSamplesWellFormed(display, name, init);
      BucketSamplesWellFormed(display, name, key, m.buckets);
      TotalsWellFormed(display, name, key, m.sum, m.count);
      AllWellFormedAppend(BucketSamples(display, name, key, m.buckets),
        [SumSample(name, key, display(m.sum)), CountSample(name, key, m.count)]);
      AllWellFormedAppend(HistogramSamples(display, name, init), HistogramKeySamples(display, name, key, m));
    }
  }

  lemma GroupWellFormed(display: Display, g: MetricGroup)
    requires DisplayReadable(display) && GroupReadable(g)
    ensures AllWellFormed(GroupSamples(display, g))
  {
    match g.metrics
    case Gauge(es) => SimpleSamplesWellFormed(display, g.name, es);
    case Counter(es) => SimpleSamplesWellFormed(display, g.name, es);
    case Untyped(es) => SimpleSamplesWellFormed(display, g.name, es);
    case Summary(es) => SummarySamplesWellFormed(display, g.name, es);
    case Histogram(es) => HistogramSamplesWellFormed(display, g.name, es);
  }

  /**
   * The text of a readable group is exactly its sample lines: read back
   * line by line it gives the group's samples, in order, and nothing else.
   */
  lemma GroupReadsBack(display: Display, g: MetricGroup)
    requires DisplayReadable(display) && GroupReadable(g)
    ensures ParseSamples(FormatSimpleGroup(display, g)) == Some(GroupSamples(display, g))
  {
    GroupWellFormed(display, g);
    ParseRender(GroupSamples(display, g));
  }

  /** The sample lines of a run of groups, group after group. */
  function SingleSamples(display: Display, gs: seq<MetricGroup>): seq<Sample>
    decreases |gs|
  {
    if gs == [] then [] else SingleSamples(display, gs[..|gs| - 1]) + GroupSamples(display, gs[|gs| - 1])
  }

  lemma {:induction false} FormatSingleRender(display: Display, gs: seq<MetricGroup>)
    ensures FormatSingle(display, gs) == Render(SingleSamples(display, gs))
    decreases |gs|
  {
    if gs != [] {
      FormatSingleRender(display, gs[..|gs| - 1]);
      RenderAppend(SingleSamples(display, gs[..|gs| - 1]), GroupSamples(display, gs[|gs| - 1]));
    } else {
      assert Lines([]) == [];
    }
  }

  lemma {:induction false} SingleWellFormed(display: Display, gs: seq<MetricGroup>)
    requires DisplayReadable(display) && forall i :: 0 <= i < |gs| ==> GroupReadable(gs[i])
    ensures AllWellFormed(SingleSamples(display, gs))
    decreases |gs|
  {
    if gs != [] {
      SingleWellFormed(display, gs[..|gs| - 1]);
      GroupWellFormed(display, gs[|gs| - 1]);
      AllWellFormedAppend(SingleSamples(display, gs[..|gs| - 1]), GroupSamples(display, gs[|gs| - 1]));
    }
  }

  /**
   * The text of a batch of readable messages reads back as the samples of
   * all their groups, message after message and group after group.
   */
  lemma BatchReadsBack(display: Display, msgs: seq<MetricsMessage>)
    requires DisplayReadable(display)
    requires forall i :: 0 <= i < |AllGroups(msgs)| ==> GroupReadable(AllGroups(msgs)[i])
    ensures ParseSamples(FormatBatch(display, msgs)) == Some(SingleSamples(display, AllGroups(msgs)))
  {
    FormatSingleRender(display, AllGroups(msgs));
    SingleWellFormed(display, AllGroups(msgs));
    ParseRender(SingleSamples(display, AllGroups(msgs)));
  }
  // ---------------------------------------------------------------------------
  // A worked example

  /** The bit patterns of the `f64` values 0.5, 0.9, 10, 20 and 30. */
  const F64_HALF: F64 := 0x3FE0_0000_0000_0000
  const F64_NINE_TENTHS: F64 := 0x3FEC_CCCC_CCCC_CCCD
  const F64_TEN: F64 := 0x4024_0000_0000_0000
  const F64_TWENTY: F64 := 0x4034_0000_0000_0000
  const F64_THIRTY: F64 := 0x403E_0000_0000_0000

  /**
   * A summary `req_latency` with quantiles 0.5 and 0.9 at 10 and 20, sum 30,
   * count 3 and no labels: two quantile lines, then `_sum{}` and `_count{}`.
   */
  lemma SummaryExample(display: Display)
    requires display(F64_HALF) == "0.5" && display(F64_NINE_TENTHS) == "0.9"
    requires display(F64_TEN) == "10" && display(F64_TWENTY) == "20" && display(F64_THIRTY) == "30"
    ensures var m := SummaryMetric([SummaryQuantile(F64_HALF, F64_TEN), SummaryQuantile(F64_NINE_TENTHS, F64_TWENTY)], 3, F64_THIRTY);
      FormatSimpleGroup(display, MetricGroup("req_latency", Summary([(GroupKey(None, []), m)])))
      == "req_latency{quantile=\"0.5\"} 10\n" + "req_latency{quantile=\"0.9\"} 20\n"
       + "req_latency_sum{} 30\n" + "req_latency_count{} 3\n"
  {
    var s1, s2, s3, s4 := ExampleSamples(display);
    ExampleQuantileLines();
    ExampleTotalLines();
    assert [s1, s2, s3, s4] == [s1, s2, s3] + [s4] && [s1, s2, s3] == [s1, s2] + [s3] && [s1, s2] == [s1] + [s2];
    RenderOne(s1);
    RenderSnoc([s1], s2);
    RenderSnoc([s1, s2], s3);
    RenderSnoc([s1, s2, s3], s4);
  }

  /** The sample lines of the example, before rendering. */
  lemma ExampleSamples(display: Display) returns (s1: Sample, s2: Sample, s3: Sample, s4: Sample)
    requires display(F64_HALF) == "0.5" && display(F64_NINE_TENTHS) == "0.9"
    requires display(F64_TEN) == "10" && display(F64_TWENTY) == "20" && display(F64_THIRTY) == "30"
    ensures s1 == Sample("req_latency", [(QUANTILE_LABEL, "0.5")], "10", None)
    ensures s2 == Sample("req_latency", [(QUANTILE_LABEL, "0.9")], "20", None)
    ensures s3 == Sample("req_latency_sum", [], "30", None)
    ensures s4 == Sample("req_latency_count", [], "3", None)
    ensures var m := SummaryMetric([SummaryQuantile(F64_HALF, F64_TEN), SummaryQuantile(F64_NINE_TENTHS, F64_TWENTY)], 3, F64_THIRTY);
      GroupSamples(display, MetricGroup("req_latency", Summary([(GroupKey(None, []), m)]))) == [s1, s2, s3, s4]
  {
    var key := GroupKey(None, []);
    var q1, q2 := SummaryQuantile(F64_HALF, F64_TEN), SummaryQuantile(F64_NINE_TENTHS, F64_TWENTY);
    var m := SummaryMetric([q1, q2], 3, F64_THIRTY);
    s1 := Sample("req_latency", [(QUANTILE_LABEL, "0.5")], "10", None);
    s2 := Sample("req_latency", [(QUANTILE_LABEL, "0.9")], "20", None);
    s3 := Sample("req_latency_sum", [], "30", None);
    s4 := Sample("req_latency_count", [], "3", None);
    assert QuantileSamples(display, "req_latency", key, [q1]) == [s1] by {
      assert [q1][..0] == [];
    }
    assert QuantileSamples(display, "req_latency", key, [q1, q2]) == [s1, s2] by {
      assert [q1, q2][..1] == [q1];
    }
    assert SumSample("req_latency", key, display(m.sum)) == s3 by {
      assert "req_latency" + "_sum" == "req_latency_sum";
    }
    assert CountSample("req_latency", key, m.count) == s4 by {
      assert NatToString(3) == [Digit(3)] == "3";
      assert "req_latency" + "_count" == "req_latency_count";
    }
    assert SummaryKeySamples(display, "req_latency", key, m) == [s1, s2, s3, s4];
    assert [(key, m)][..0] == [];
    assert SummarySamples(display, "req_latency", [(key, m)]) == [] + SummaryKeySamples(display, "req_latency", key, m);
  }

  lemma ExampleQuantileLines()
    ensures RenderSample(Sample("req_latency", [(QUANTILE_LABEL, "0.5")], "10", None)) == "req_latency{quantile=\"0.5\"} 10\n"
    ensures RenderSample(Sample("req_latency", [(QUANTILE_LABEL, "0.9")], "20", None)) == "req_latency{quantile=\"0.9\"} 20\n"
  {
    assert "req_latency{quantile=\"0.5\"} 10\n" == "req_latency" + ("{" + ("quantile" + "=\"" + "0.5" + "\"") + "}") + " " + ("10" + "" + "\n") by {
      LiteralLine("0.5", "10");
    }
    ExampleQuantileLine("0.5", "10", "req_latency{quantile=\"0.5\"} 10\n");
    assert "req_latency{quantile=\"0.9\"} 20\n" == "req_latency" + ("{" + ("quantile" + "=\"" + "0.9" + "\"") + "}") + " " + ("20" + "" + "\n") by {
      LiteralLine("0.9", "20");
    }
    ExampleQuantileLine("0.9", "20", "req_latency{quantile=\"0.9\"} 20\n");
  }

  lemma LiteralLine(q: string, v: string)
    ensures "req_latency{quantile=\"" + q + "\"} " + v + "\n"
         == "req_latency" + ("{" + ("quantile" + "=\"" + q + "\"") + "}") + " " + (v + "" + "\n")
  {
  }

  lemma ExampleQuantileLine(q: string, v: string, line: string)
    requires line == "req_latency" + ("{" + ("quantile" + "=\"" + q + "\"") + "}") + " " + (v + "" + "\n")
    ensures RenderSample(Sample("req_latency", [(QUANTILE_LABEL, q)], v, None)) == line
  {
    var l: LabelMap := [(QUANTILE_LABEL, q)];
    assert LabelTexts(l) == [LabelText(l[0])];
  }

  lemma ExampleTotalLines()
    ensures RenderSample(Sample("req_latency_sum", [], "30", None)) == "req_latency_sum{} 30\n"
    ensures RenderSample(Sample("req_latency_count", [], "3", None)) == "req_latency_count{} 3\n"
  {
  }
}
