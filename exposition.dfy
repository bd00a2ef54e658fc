/**
 * One line of the Prometheus text exposition format as the serializer
 * writes it, `name{labels} value[ timestamp]\n`, the rendering of a list
 * of such lines, and a reader that takes the text apart again.
 */
module Exposition {
  import opened Wrappers
  import opened Text
  import opened LabelMaps
  import opened Metrics

  /** A sample line before rendering: the value is already text. */
  datatype Sample = Sample(name: string, labels: LabelMap, value: string, timestamp: Option<I64>)

  /** The end of a line: a space and the timestamp in milliseconds when there is one, else nothing. */
  function TimestampSuffix(ts: Option<I64>): string {
    match ts
    case Some(t) => " " + IntToString(t)
    case None => ""
  }

  /** The label part of a line: the formatted labels in braces. */
  function LabelBlock(l: LabelMap): string {
    "{" + FormatLabels(l) + "}"
  }

  /** The value part of a line: the value, the timestamp suffix and the line break. */
  function ValueText(value: string, ts: Option<I64>): string {
    value + TimestampSuffix(ts) + "\n"
  }

  /** The `"{}{{{}}} {}{}\n"` line of a sample: name, labels in braces, a space, value, timestamp. */
  function RenderSample(s: Sample): string {
    s.name + LabelBlock(s.labels) + " " + ValueText(s.value, s.timestamp)
  }

  /** The line as `format!` spells it out is the line of the sample. */
  lemma LineShape(name: string, labels: LabelMap, value: string, ts: Option<I64>)
    ensures name + "{" + FormatLabels(labels) + "} " + value + TimestampSuffix(ts) + "\n"
         == RenderSample(Sample(name, labels, value, ts))
  {
    var l, t := FormatLabels(labels), TimestampSuffix(ts);
    assert name + "{" + l + "} " == name + ("{" + l + "}") + " ";
    assert name + "{" + l + "} " + value + t + "\n" == (name + "{" + l + "} ") + (value + t + "\n");
  }

  /** The same for a `{}_sum{{...`-style line, whose name is the family name and a suffix. */
  lemma SuffixedLineShape(name: string, suffix: string, labels: LabelMap, value: string, ts: Option<I64>)
    ensures name + (suffix + "{") + FormatLabels(labels) + "} " + value + TimestampSuffix(ts) + "\n"
         == RenderSample(Sample(name + suffix, labels, value, ts))
  {
    assert name + (suffix + "{") == (name + suffix) + "{";
    LineShape(name + suffix, labels, value, ts);
  }

  /** The line of each sample, in order. */
  function Lines(ss: seq<Sample>): (r: seq<string>)
    ensures |r| == |ss|
  {
    seq(|ss|, i requires 0 <= i < |ss| => RenderSample(ss[i]))
  }

  /** The text of the samples: their lines, one after the other. */
  function Render(ss: seq<Sample>): string {
    Concat(Lines(ss))
  }

  lemma RenderAppend(a: seq<Sample>, b: seq<Sample>)
    ensures Render(a + b) == Render(a) + Render(b)
  {
    assert Lines(a + b) == Lines(a) + Lines(b);
    ConcatAppend(Lines(a), Lines(b));
  }

  lemma RenderOne(s: Sample)
    ensures Render([s]) == RenderSample(s)
  {
    assert Lines([s]) == [RenderSample(s)];
    ConcatOne(RenderSample(s));
  }

  /** Adding a sample at the end adds its line at the end. */
  lemma RenderSnoc(ss: seq<Sample>, s: Sample)
    ensures Render(ss + [s]) == Render(ss) + RenderSample(s)
  {
    RenderAppend(ss, [s]);
    RenderOne(s);
  }

  predicate MetricNameChar(c: char) {
    LabelNameChar(c) || c == ':'
  }

  /** A metric name of the exposition format: letters, digits, `_` and `:`, not empty. */
  predicate IsMetricName(n: string) {
    |n| > 0 && forall i :: 0 <= i < |n| ==> MetricNameChar(n[i])
  }

  /**
   * A sample whose line reads back unambiguously: proper metric and label
   * names, label values without `"`, a value without spaces or line breaks.
   */
  predicate WellFormed(s: Sample) {
    IsMetricName(s.name) && Readable(s.labels) && Avoids(s.value, {' ', '\n'})
  }

  /** Reads `{labels}`: an empty pair of braces, or entries in ascending key order. */
  function ParseLabelBlock(s: string): (r: Option<(LabelMap, string)>)
    ensures r.Some? ==> |r.value.1| < |s|
  {
    if |s| < 2 || s[0] != '{' then None
    else if s[1] == '}' then Some(([], s[2..]))
    else
      match ParseLabelList(s[1..])
      case None => None
      case Some((ps, rest)) =>
        if rest != [] && rest[0] == '}' && SortedKeys(ps) then Some((ps, rest[1..])) else None
  }

  /** Reads `value[ timestamp]\n`. */
  function ParseValue(s: string): (r: Option<(string, Option<I64>, string)>)
    ensures r.Some? ==> |r.value.2| < |s|
  {
    var (value, afterValue) := Span(s, {' ', '\n'});
    if afterValue == [] then None
    else if afterValue[0] == '\n' then Some((value, None, afterValue[1..]))
    else
      var (digits, afterTimestamp) := Span(afterValue[1..], {'\n'});
      match ParseInt(digits)
      case None => None
      case Some(t) =>
        if afterTimestamp != [] && -0x8000_0000_0000_0000 <= t < 0x8000_0000_0000_0000
        then Some((value, Some(t as I64), afterTimestamp[1..]))
        else None
  }

  /** Reads one line and returns what follows it. */
  function ParseSample(s: string): (r: Option<(Sample, string)>)
    ensures r.Some? ==> |r.value.1| < |s|
  {
    var (name, afterName) := Span(s, {'{'});
    match ParseLabelBlock(afterName)
    case None => None
    case Some((labels, afterLabels)) =>
      if afterLabels == [] || afterLabels[0] != ' ' then None
      else
        match ParseValue(afterLabels[1..])
        case None => None
        case Some((value, ts, rest)) => Some((Sample(name, labels, value, ts), rest))
  }

  /** Reads the whole text as lines; fails on anything that is not a line. */
  function ParseSamples(s: string): Option<seq<Sample>>
    decreases |s|
  {
    if s == [] then Some([])
    else
      match ParseSample(s)
      case None => None
      case Some((x, rest)) =>
        match ParseSamples(rest)
        case None => None
        case Some(xs) => Some([x] + xs)
  }

  lemma JoinStartsWithFirst(sep: string, ss: seq<string>)
    requires |ss| > 0 && |ss[0]| > 0
    ensures |Join(sep, ss)| > 0 && Join(sep, ss)[0] == ss[0][0]
  {
  }

  lemma ParseLabelBlockOfText(l: LabelMap, rest: string)
    requires Readable(l)
    ensures ParseLabelBlock(LabelBlock(l) + rest) == Some((l, rest))
  {
    var s := LabelBlock(l) + rest;
    if |l| == 0 {
      assert s == "{}" + rest;
      assert s[2..] == rest;
    } else {
      var text := Join(",", LabelTexts(l));
      JoinStartsWithFirst(",", LabelTexts(l));
      assert s[1] == l[0].0[0];
      assert s[1..] == text + ("}" + rest);
      ParseLabelListOfText(l, "}" + rest);
      assert ("}" + rest)[1..] == rest;
    }
  }

  lemma TimestampOfText(t: I64, rest: string)
    ensures Span(IntToString(t) + ("\n" + rest), {'\n'}) == (IntToString(t), "\n" + rest)
    ensures ParseInt(IntToString(t)) == Some(t as int)
  {
    IntToStringChars(t);
    IntToStringRoundTrip(t);
    SpanOf(IntToString(t), "\n" + rest, {'\n'});
  }

  lemma ParseValueOfText(value: string, ts: Option<I64>, rest: string)
    requires Avoids(value, {' ', '\n'})
    ensures ParseValue(ValueText(value, ts) + rest) == Some((value, ts, rest))
  {
    var afterValue := TimestampSuffix(ts) + ("\n" + rest);
    assert ValueText(value, ts) + rest == value + afterValue;
    SpanOf(value, afterValue, {' ', '\n'});
    if ts.Some? {
      var digits := IntToString(ts.value);
      assert afterValue == " " + (digits + ("\n" + rest));
      assert afterValue[1..] == digits + ("\n" + rest);
      TimestampOfText(ts.value, rest);
    } else {
      assert afterValue == "\n" + rest;
      assert afterValue[1..] == rest;
    }
  }

  /** The line of a well-formed sample reads back as that sample, leaving what follows. */
  lemma ParseSampleOfText(x: Sample, rest: string)
    requires WellFormed(x)
    ensures ParseSample(RenderSample(x) + rest) == Some((x, rest))
  {
    var block, value := LabelBlock(x.labels), ValueText(x.value, x.timestamp);
    var afterLabels := " " + (value + rest);
    var afterName := block + afterLabels;
    assert RenderSample(x) + rest == x.name + afterName;
    assert Avoids(x.name, {'{'});
    SpanOf(x.name, afterName, {'{'});
    ParseLabelBlockOfText(x.labels, afterLabels);
    assert afterLabels[1..] == value + rest;
    ParseValueOfText(x.value, x.timestamp, rest);
  }

  /**
   * Round trip: the text of well-formed samples reads back as exactly those
   * samples, in order; nothing is lost, added or reordered.
   */
  lemma {:induction false} ParseRender(ss: seq<Sample>)
    requires forall i :: 0 <= i < |ss| ==> WellFormed(ss[i])
    ensures ParseSamples(Render(ss)) == Some(ss)
    decreases |ss|
  {
    if ss != [] {
      RenderAppend([ss[0]], ss[1..]);
      RenderOne(ss[0]);
      assert [ss[0]] + ss[1..] == ss;
      ParseSampleOfText(ss[0], Render(ss[1..]));
      ParseRender(ss[1..]);
    }
  }
}
