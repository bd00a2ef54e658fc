/**
 * The text side of `RemoteWriter`: `format_metrics_to_text` and the
 * serializer helpers the file carries a copy of. The copies are modelled
 * as written in this file and proved to produce the texts specified for the
 * serializer of `MetricsFormatter`, so the two files agree on every input.
 */
module RemoteWrite {
  import opened Text
  import opened Metrics
  import opened Exposition
  import LabelMaps
  import Formatter

  type Display = Formatter.Display

  /** `RemoteWriter`: the endpoint it posts to; its HTTP client is not part of this model. */
  datatype RemoteWriter = RemoteWriter(vmUrl: string)

  /** This file's `format_labels`: the same text as the serializer's. */
  function FormatLabels(labels: LabelMaps.LabelMap): (r: string)
    ensures r == LabelMaps.FormatLabels(labels)
    ensures r == "" <==> |labels| == 0
  {
    if |labels| == 0 then "" else Join(",", LabelMaps.LabelTexts(labels))
  }

  /** This file's `format_simple_metric`: one line per entry, as the serializer writes them. */
  method FormatSimpleMetric(display: Display, groupName: string, metrics: Entries<SimpleMetric>)
    returns (result: string)
    ensures result == Render(Formatter.SimpleSamples(display, groupName, metrics))
  {
    result := "";
    for i := 0 to |metrics|
      invariant result == Render(Formatter.SimpleSamples(display, groupName, metrics[..i]))
    {
      var key, metric := metrics[i].0, metrics[i].1;
      var timestamp := TimestampSuffix(key.timestamp);
      var line := groupName + "{" + FormatLabels(key.labels) + "} " + display(metric.value) + timestamp + "\n";
      Formatter.SimpleLineAppended(display, groupName, metrics, i, result, line);
      result := result + line;
    }
    assert metrics[..|metrics|] == metrics;
  }

  /** This file's `format_summary_metric`: quantile lines, `_sum` and `_count` per entry, as the serializer writes them. */
  method FormatSummaryMetric(display: Display, groupName: string, metrics: Entries<SummaryMetric>)
    returns (result: string)
    ensures result == Render(Formatter.SummarySamples(display, groupName, metrics))
  {
    result := "";
    for i := 0 to |metrics|
      invariant result == Render(Formatter.SummarySamples(display, groupName, metrics[..i]))
    {
      var key, metric := metrics[i].0, metrics[i].1;
      var timestamp := TimestampSuffix(key.timestamp);
      var quantiles := metric.quantiles;
      for j := 0 to |quantiles|
        invariant result == Render(Formatter.SummarySamples(display, groupName, metrics[..i]))
                            + Render(Formatter.QuantileSamples(display, groupName, key, quantiles[..j]))
      {
        var quantile := quantiles[j];
        var labels := LabelMaps.Insert(key.labels, "quantile", display(quantile.quantile));
        var line := groupName + "{" + FormatLabels(labels) + "} " + display(quantile.value) + timestamp + "\n";
        Formatter.QuantileLineAppended(display, groupName, key, quantiles, j,
          Render(Formatter.SummarySamples(display, groupName, metrics[..i])), result, line);
        result := result + line;
      }
      var sumLabels := key.labels;
      var sumLine := groupName + "_sum{" + FormatLabels(sumLabels) + "} " + display(metric.sum) + timestamp + "\n";
      var countLabels := key.labels;
      var countLine := groupName + "_count{" + FormatLabels(countLabels) + "} " + NatToString(metric.count) + timestamp + "\n";
      assert result + sumLine + countLine == Render(Formatter.SummarySamples(display, groupName, metrics[..i + 1])) by {
        assert quantiles[..|quantiles|] == quantiles;
        Formatter.SummaryEntryAppended(display, groupName, Formatter.SummarySamples(display, groupName, metrics[..i]),
          key, metric, result, sumLine, countLine);
        assert metrics[..i + 1][..i] == metrics[..i];
      }
      result := result + sumLine + countLine;
    }
    assert metrics[..|metrics|] == metrics;
  }

  /** This file's `format_histogram_metric`: `_bucket` lines, `_sum` and `_count` per entry, as the serializer writes them. */
  method FormatHistogramMetric(display: Display, groupName: string, metrics: Entries<HistogramMetric>)
    returns (result: string)
    ensures result == Render(Formatter.HistogramSamples(display, groupName, metrics))
  {
    result := "";
    for i := 0 to |metrics|
      invariant result == Render(Formatter.HistogramSamples(display, groupName, metrics[..i]))
    {
      var key, metric := metrics[i].0, metrics[i].1;
      var timestamp := TimestampSuffix(key.timestamp);
      var buckets := metric.buckets;
      for j := 0 to |buckets|
        invariant result == Render(Formatter.HistogramSamples(display, groupName, metrics[..i]))
                            + Render(Formatter.BucketSamples(display, groupName, key, buckets[..j]))
      {
        var bucket := buckets[j];
        var labels := LabelMaps.Insert(key.labels, "le", display(bucket.bucket));
        var line := groupName + "_bucket{" + FormatLabels(labels) + "} " + NatToString(bucket.count) + timestamp + "\n";
        Formatter.BucketLineAppended(display, groupName, key, buckets, j,
          Render(Formatter.HistogramSamples(display, groupName, metrics[..i])), result, line);
        result := result + line;
      }
      var sumLabels := key.labels;
      var sumLine := groupName + "_sum{" + FormatLabels(sumLabels) + "} " + display(metric.sum) + timestamp + "\n";
      var countLabels := key.labels;
      var countLine := groupName + "_count{" + FormatLabels(countLabels) + "} " + NatToString(metric.count) + timestamp + "\n";
      assert result + sumLine + countLine == Render(Formatter.HistogramSamples(display, groupName, metrics[..i + 1])) by {
        assert buckets[..|buckets|] == buckets;
        Formatter.HistogramEntryAppended(display, groupName, Formatter.HistogramSamples(display, groupName, metrics[..i]),
          key, metric, result, sumLine, countLine);
        assert metrics[..i + 1][..i] == metrics[..i];
      }
      result := result + sumLine + countLine;
    }
    assert metrics[..|metrics|] == metrics;
  }

  /** This file's `format_simple_group`: the text of the group, by kind, the same as the serializer's. */
  method FormatSimpleGroup(display: Display, group: MetricGroup) returns (text: string)
    ensures text == Formatter.FormatSimpleGroup(display, group)
  {
    match group.metrics
    case Gauge(metrics) =>
      text := FormatSimpleMetric(display, group.name, metrics);
      assert Formatter.GroupSamples(display, group) == Formatter.SimpleSamples(display, group.name, metrics);
    case Counter(metrics) =>
      text := FormatSimpleMetric(display, group.name, metrics);
      assert Formatter.GroupSamples(display, group) == Formatter.SimpleSamples(display, group.name, metrics);
    case Untyped(metrics) =>
      text := FormatSimpleMetric(display, group.name, metrics);
      assert Formatter.GroupSamples(display, group) == Formatter.SimpleSamples(display, group.name, metrics);
    case Summary(metrics) =>
      text := FormatSummaryMetric(display, group.name, metrics);
      assert Formatter.GroupSamples(display, group) == Formatter.SummarySamples(display, group.name, metrics);
    case Histogram(metrics) =>
      text := FormatHistogramMetric(display, group.name, metrics);
      assert Formatter.GroupSamples(display, group) == Formatter.HistogramSamples(display, group.name, metrics);
  }

  /**
   * `metrics.iter().map(format_simple_group).collect::<Vec<_>>()`: the text of
   * each group, in order. Each text is the serializer's
   * `Formatter.FormatSimpleGroup`, not this file's copy: a function cannot
   * call the method `FormatSimpleGroup` above, whose `ensures` proves the two
   * equal on every group.
   */
  function GroupTexts(display: Display, metrics: seq<MetricGroup>): (r: seq<string>)
    ensures |r| == |metrics|
  {
    seq(|metrics|, i requires 0 <= i < |metrics| => Formatter.FormatSimpleGroup(display, metrics[i]))
  }

  /**
   * `RemoteWriter::format_metrics_to_text`: the group texts joined with no
   * separator, which is the text `format_single` gives the same groups; the
   * writer's URL plays no part.
   */
  function FormatMetricsToText(w: RemoteWriter, display: Display, metrics: seq<MetricGroup>): (r: string)
    ensures r == Formatter.FormatSingle(display, metrics)
    ensures metrics == [] ==> r == ""
  {
    var r := Join("", GroupTexts(display, metrics));
    assert r == Formatter.FormatSingle(display, metrics) by {
      JoinEmptySeparator(GroupTexts(display, metrics));
      ConcatGroupTexts(display, metrics);
    }
    r
  }

  lemma {:induction false} ConcatGroupTexts(display: Display, metrics: seq<MetricGroup>)
    ensures Concat(GroupTexts(display, metrics)) == Formatter.FormatSingle(display, metrics)
    decreases |metrics|
  {
    if metrics != [] {
      var init := metrics[..|metrics| - 1];
      assert GroupTexts(display, metrics)[..|metrics| - 1] == GroupTexts(display, init);
      ConcatGroupTexts(display, init);
    }
  }

  /** Two writers, whatever their endpoints, give the same groups the same text. */
  lemma WriterIrrelevant(w1: RemoteWriter, w2: RemoteWriter, display: Display, metrics: seq<MetricGroup>)
    ensures FormatMetricsToText(w1, display, metrics) == FormatMetricsToText(w2, display, metrics)
  {
  }

  /** The text of a writer's groups is the text the batch serializer gives one message carrying them. */
  lemma AgreesWithBatch(w: RemoteWriter, display: Display, msg: MetricsMessage)
    ensures FormatMetricsToText(w, display, msg.metrics) == Formatter.FormatBatch(display, [msg])
  {
    Formatter.FormatBatchOne(display, msg);
  }
}
