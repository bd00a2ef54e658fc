/**
 * The two batching workers of `MetricsAgent`, `format` and `write`. A
 * channel is modelled by what passes through it: a worker's input is the
 * list of items it receives before its channel closes, and what it sends
 * is the list of items the next stage receives. Sends are numbered in the
 * order they are attempted; `failure` names the first one that fails, if
 * any.
 */
module Agent {
  import opened Wrappers
  import opened Text
  import opened Metrics
  import opened Exposition
  import Formatter

  type Display = Formatter.Display

  /** The batch sizes at which `format` and `write` flush. */
  const FORMAT_BATCH_SIZE: nat := 32
  const WRITE_BATCH_SIZE: nat := 128

  /** How a worker ends: `Ok(())` once its input channel is closed and drained, or the error of a send. */
  datatype Outcome = Finished | SendFailed

  /** What a worker did: the items it sent, in order, how many items it received, and how it ended. */
  datatype Run = Run(sent: seq<string>, received: nat, outcome: Outcome)

  function Min(a: int, b: int): int {
    if a <= b then a else b
  }

  // ---------------------------------------------------------------------------
  // Cutting the input into batches

  lemma {:induction false} SliceBound(n: nat, k: nat, count: nat)
    requires k < count
    ensures n * k + n <= n * count
    decreases count
  {
    if k + 1 < count {
      SliceBound(n, k, count - 1);
    }
    assert n * count == n * (count - 1) + n;
  }

  lemma SliceBoundAtMost(n: nat, a: nat, b: nat)
    requires a <= b
    ensures n * a <= n * b
  {
    if a < b {
      SliceBound(n, a, b);
    }
  }

  /** The first `count` runs of `n` consecutive items. */
  function Slices<T>(xs: seq<T>, n: nat, count: nat): (r: seq<seq<T>>)
    requires n * count <= |xs|
    ensures |r| == count
  {
    seq(count, k requires 0 <= k < count => SliceBound(n, k, count); xs[n * k .. n * k + n])
  }

  lemma WholeRuns(len: nat, n: nat)
    requires n > 0
    ensures 0 <= n * (len / n) <= len
    ensures len - n * (len / n) == len % n
  {
  }

  /** The runs of `n` that `xs` fills completely. */
  function FullRuns<T>(xs: seq<T>, n: nat): seq<seq<T>>
    requires n > 0
  {
    WholeRuns(|xs|, n);
    Slices(xs, n, |xs| / n)
  }

  /** `xs` cut into runs of `n`, in order; the last run is shorter when `n` does not divide `|xs|`. */
  function Batches<T>(xs: seq<T>, n: nat): seq<seq<T>>
    requires n > 0
  {
    WholeRuns(|xs|, n);
    FullRuns(xs, n) + (if |xs| % n == 0 then [] else [xs[n * (|xs| / n)..]])
  }

  /** What each batch is sent as: `render` applied to each, in order. */
  function Texts<T>(render: seq<T> -> string, batches: seq<seq<T>>): (r: seq<string>)
    ensures |r| == |batches|
  {
    seq(|batches|, k requires 0 <= k < |batches| => render(batches[k]))
  }

  /** The format worker renders a batch with `format_batch`. */
  function FormatText(display: Display): seq<MetricsMessage> -> string {
    batch => Formatter.FormatBatch(display, batch)
  }

  // ---------------------------------------------------------------------------
  // What the workers do

  /**
   * Sending `bodies` one after the other, one per batch of `n` of the `len`
   * items received: all of them when no send fails; otherwise those before
   * the failing one, and the worker stops having received the items up to
   * the end of the failing send's batch and no more.
   */
  function Dispatch(bodies: seq<string>, n: nat, len: nat, failure: Option<nat>): Run {
    if failure.Some? && failure.value < |bodies| then Run(bodies[..failure.value], Min(n * failure.value + n, len), SendFailed)
    else Run(bodies, len, Finished)
  }

  /** A worker that sends the full runs of `n` only. */
  function FullRun<T>(render: seq<T> -> string, input: seq<T>, n: nat, failure: Option<nat>): Run
    requires n > 0
  {
    Dispatch(Texts(render, FullRuns(input, n)), n, |input|, failure)
  }

  /** A worker that sends every batch, the last one included. */
  function BatchedRun<T>(render: seq<T> -> string, input: seq<T>, n: nat, failure: Option<nat>): Run
    requires n > 0
  {
    Dispatch(Texts(render, Batches(input, n)), n, |input|, failure)
  }

  /** `MetricsAgent::format` as written: only full batches are sent; the send of the rest is never awaited. */
  function FormatRun(display: Display, input: seq<MetricsMessage>, failure: Option<nat>): Run {
    FullRun(FormatText(display), input, FORMAT_BATCH_SIZE, failure)
  }

  /** `MetricsAgent::format` with its final send awaited: full batches, then the rest. */
  function FormatRunAwaited(display: Display, input: seq<MetricsMessage>, failure: Option<nat>): Run {
    BatchedRun(FormatText(display), input, FORMAT_BATCH_SIZE, failure)
  }

  /** `MetricsAgent::write`: full batches of 128 texts, then the rest, each sent as one body. */
  function WriteRun(input: seq<string>, failure: Option<nat>): Run {
    BatchedRun(Concat, input, WRITE_BATCH_SIZE, failure)
  }

  // ---------------------------------------------------------------------------
  // The workers

  /**
   * `MetricsAgent::format` as written. Messages are pushed onto the batch
   * one by one; when a push makes it 32 long the batch is formatted, sent
   * and cleared, and a failing send ends the worker at once. Once the input
   * is closed a non-empty rest is formatted, but its send is created and
   * dropped without being awaited, so nothing more is sent.
   */
  method FormatWorker(formatBatch: seq<MetricsMessage> -> string, input: seq<MetricsMessage>, failure: Option<nat>)
    returns (sent: seq<string>, received: nat, outcome: Outcome)
    ensures Run(sent, received, outcome) == FullRun(formatBatch, input, FORMAT_BATCH_SIZE, failure)
  {
    var batch: seq<MetricsMessage> := [];
    sent := [];
    received := 0;
    while received < |input|
      invariant received <= |input|
      invariant |batch| < FORMAT_BATCH_SIZE
      invariant received == FORMAT_BATCH_SIZE * |sent| + |batch|
      invariant batch == input[FORMAT_BATCH_SIZE * |sent| .. received]
      invariant sent == Texts(formatBatch, Slices(input, FORMAT_BATCH_SIZE, |sent|))
      invariant failure.None? || |sent| <= failure.value
    {
      var message := input[received];
      SliceExtend(input, FORMAT_BATCH_SIZE * |sent|, received);
      batch := batch + [message];
      received := received + 1;
      if |batch| >= FORMAT_BATCH_SIZE {
        var formattedText := formatBatch(batch);
        if failure == Some(|sent|) {
          outcome := SendFailed;
          FullRunsFailure(formatBatch, input, FORMAT_BATCH_SIZE, sent);
          return;
        }
        TextsSnoc(formatBatch, input, FORMAT_BATCH_SIZE, sent, batch);
        sent := sent + [formattedText];
        batch := [];
      }
    }
    if |batch| > 0 {
      // The text is computed, but the send it is handed to is never awaited.
      var unsent := formatBatch(batch);
    }
    outcome := Finished;
    FullRunsFinished(formatBatch, input, FORMAT_BATCH_SIZE, sent, batch, failure);
  }

  /** `MetricsAgent::format` with the final send awaited: the rest is sent too, and its failure is an error. */
  method FormatWorkerAwaited(formatBatch: seq<MetricsMessage> -> string, input: seq<MetricsMessage>, failure: Option<nat>)
    returns (sent: seq<string>, received: nat, outcome: Outcome)
    ensures Run(sent, received, outcome) == BatchedRun(formatBatch, input, FORMAT_BATCH_SIZE, failure)
  {
    var batch: seq<MetricsMessage> := [];
    sent := [];
    received := 0;
    while received < |input|
      invariant received <= |input|
      invariant |batch| < FORMAT_BATCH_SIZE
      invariant received == FORMAT_BATCH_SIZE * |sent| + |batch|
      invariant batch == input[FORMAT_BATCH_SIZE * |sent| .. received]
      invariant sent == Texts(formatBatch, Slices(input, FORMAT_BATCH_SIZE, |sent|))
      invariant failure.None? || |sent| <= failure.value
    {
      var message := input[received];
      SliceExtend(input, FORMAT_BATCH_SIZE * |sent|, received);
      batch := batch + [message];
      received := received + 1;
      if |batch| >= FORMAT_BATCH_SIZE {
        var formattedText := formatBatch(batch);
        if failure == Some(|sent|) {
          outcome := SendFailed;
          BatchedFailure(formatBatch, input, FORMAT_BATCH_SIZE, sent);
          return;
        }
        TextsSnoc(formatBatch, input, FORMAT_BATCH_SIZE, sent, batch);
        sent := sent + [formattedText];
        batch := [];
      }
    }
    if |batch| > 0 {
      var formattedText := formatBatch(batch);
      if failure == Some(|sent|) {
        outcome := SendFailed;
        RestFailure(formatBatch, input, FORMAT_BATCH_SIZE, sent, batch);
        return;
      }
      BatchedFinished(formatBatch, input, FORMAT_BATCH_SIZE, sent, batch, failure);
      sent := sent + [formattedText];
    } else {
      BatchedFinished(formatBatch, input, FORMAT_BATCH_SIZE, sent, batch, failure);
    }
    outcome := Finished;
  }

  /**
   * `MetricsAgent::write`: texts are pushed onto the batch one by one; when
   * a push makes it 128 long the batch's concatenation is sent and the
   * batch cleared. Once the input is closed a non-empty rest is sent the
   * same way. A failing send ends the worker at once.
   */
  method WriteWorker(input: seq<string>, failure: Option<nat>)
    returns (sent: seq<string>, received: nat, outcome: Outcome)
    ensures Run(sent, received, outcome) == WriteRun(input, failure)
  {
    var batch: seq<string> := [];
    sent := [];
    received := 0;
    while received < |input|
      invariant received <= |input|
      invariant |batch| < WRITE_BATCH_SIZE
      invariant received == WRITE_BATCH_SIZE * |sent| + |batch|
      invariant batch == input[WRITE_BATCH_SIZE * |sent| .. received]
      invariant sent == Texts(Concat, Slices(input, WRITE_BATCH_SIZE, |sent|))
      invariant failure.None? || |sent| <= failure.value
    {
      var formattedText := input[received];
      SliceExtend(input, WRITE_BATCH_SIZE * |sent|, received);
      batch := batch + [formattedText];
      received := received + 1;
      if |batch| >= WRITE_BATCH_SIZE {
        if failure == Some(|sent|) {
          outcome := SendFailed;
          BatchedFailure(Concat, input, WRITE_BATCH_SIZE, sent);
          return;
        }
        TextsSnoc(Concat, input, WRITE_BATCH_SIZE, sent, batch);
        sent := sent + [Concat(batch)];
        batch := [];
      }
    }
    if |batch| > 0 {
      if failure == Some(|sent|) {
        outcome := SendFailed;
        RestFailure(Concat, input, WRITE_BATCH_SIZE, sent, batch);
        return;
      }
      BatchedFinished(Concat, input, WRITE_BATCH_SIZE, sent, batch, failure);
      sent := sent + [Concat(batch)];
      batch := [];
    } else {
      BatchedFinished(Concat, input, WRITE_BATCH_SIZE, sent, batch, failure);
    }
    outcome := Finished;
  }

  // ---------------------------------------------------------------------------
  // The steps of the workers

  /** Receiving the next item extends the batch by it. */
  lemma SliceExtend<T>(xs: seq<T>, lo: nat, hi: nat)
    requires lo <= hi < |xs|
    ensures xs[lo..hi] + [xs[hi]] == xs[lo..hi + 1]
  {
  }

  lemma SlicesSnoc<T>(xs: seq<T>, n: nat, c: nat)
    requires n * c + n <= |xs|
    ensures n * (c + 1) <= |xs|
    ensures Slices(xs, n, c + 1) == Slices(xs, n, c) + [xs[n * c .. n * c + n]]
  {
    assert n * (c + 1) == n * c + n;
  }

  lemma SlicesPrefix<T>(xs: seq<T>, n: nat, c: nat, k: nat)
    requires k <= c && n * c <= |xs|
    ensures n * k <= |xs|
    ensures Slices(xs, n, c)[..k] == Slices(xs, n, k)
  {
    SliceBoundAtMost(n, k, c);
  }

  /** A full batch is the next run of `n` items, and what it is sent as is the next text. */
  lemma TextsSnoc<T>(render: seq<T> -> string, xs: seq<T>, n: nat, sent: seq<string>, batch: seq<T>)
    requires n * |sent| + |batch| <= |xs| && |batch| == n
    requires batch == xs[n * |sent| .. n * |sent| + |batch|]
    requires sent == Texts(render, Slices(xs, n, |sent|))
    ensures n * (|sent| + 1) <= |xs|
    ensures sent + [render(batch)] == Texts(render, Slices(xs, n, |sent| + 1))
  {
    SlicesSnoc(xs, n, |sent|);
  }

  /** While a full run of `n` is still to come, the full runs begin with the runs before it. */
  lemma FullRunsBefore<T>(xs: seq<T>, n: nat, k: nat)
    requires n > 0 && n * k + n <= |xs|
    ensures k < |FullRuns(xs, n)| && FullRuns(xs, n)[..k] == Slices(xs, n, k)
  {
    WholeRuns(|xs|, n);
    assert k < |xs| / n by {
      if |xs| / n <= k {
        SliceBoundAtMost(n, |xs| / n, k);
      }
    }
    SlicesPrefix(xs, n, |xs| / n, k);
  }

  /** With fewer than `n` items left, the full runs are those cut so far. */
  lemma LastRuns<T>(xs: seq<T>, n: nat, c: nat, rest: seq<T>)
    requires n > 0 && n * c + |rest| == |xs| && |rest| < n
    requires rest == xs[n * c..]
    ensures FullRuns(xs, n) == Slices(xs, n, c)
    ensures Batches(xs, n) == Slices(xs, n, c) + (if |rest| == 0 then [] else [rest])
  {
    WholeRuns(|xs|, n);
    assert |xs| / n == c && |xs| % n == |rest| by {
      var q := |xs| / n;
      if q < c {
        SliceBound(n, q, c);
      } else if c < q {
        SliceBound(n, c, q);
      }
    }
  }

  lemma TextsOfPrefix<T>(render: seq<T> -> string, bs: seq<seq<T>>, k: nat)
    requires k <= |bs|
    ensures Texts(render, bs)[..k] == Texts(render, bs[..k])
  {
  }

  /** A send that fails inside the loop: the worker as written stops with what it sent before. */
  lemma FullRunsFailure<T>(render: seq<T> -> string, xs: seq<T>, n: nat, sent: seq<string>)
    requires n > 0 && n * |sent| + n <= |xs|
    requires sent == Texts(render, Slices(xs, n, |sent|))
    ensures FullRun(render, xs, n, Some(|sent|)) == Run(sent, n * |sent| + n, SendFailed)
  {
    FullRunsBefore(xs, n, |sent|);
    TextsOfPrefix(render, FullRuns(xs, n), |sent|);
  }

  /** The same for a worker that would also send the rest. */
  lemma BatchedFailure<T>(render: seq<T> -> string, xs: seq<T>, n: nat, sent: seq<string>)
    requires n > 0 && n * |sent| + n <= |xs|
    requires sent == Texts(render, Slices(xs, n, |sent|))
    ensures BatchedRun(render, xs, n, Some(|sent|)) == Run(sent, n * |sent| + n, SendFailed)
  {
    FullRunsBefore(xs, n, |sent|);
    var bs := Batches(xs, n);
    assert bs[..|sent|] == FullRuns(xs, n)[..|sent|];
    TextsOfPrefix(render, bs, |sent|);
  }

  /** The send of the rest fails: the worker stops with the full batches sent, all input received. */
  lemma RestFailure<T>(render: seq<T> -> string, xs: seq<T>, n: nat, sent: seq<string>, batch: seq<T>)
    requires n > 0 && n * |sent| + |batch| == |xs| && 0 < |batch| < n
    requires batch == xs[n * |sent| ..]
    requires sent == Texts(render, Slices(xs, n, |sent|))
    ensures BatchedRun(render, xs, n, Some(|sent|)) == Run(sent, |xs|, SendFailed)
  {
    LastRuns(xs, n, |sent|, batch);
    assert Texts(render, Batches(xs, n)) == sent + [render(batch)];
  }

  /** The input is closed and every send so far succeeded: the worker as written has sent the full runs. */
  lemma FullRunsFinished<T>(render: seq<T> -> string, xs: seq<T>, n: nat, sent: seq<string>, batch: seq<T>, failure: Option<nat>)
    requires n > 0 && n * |sent| + |batch| == |xs| && |batch| < n
    requires batch == xs[n * |sent| ..]
    requires sent == Texts(render, Slices(xs, n, |sent|))
    requires failure.None? || |sent| <= failure.value
    ensures FullRun(render, xs, n, failure) == Run(sent, |xs|, Finished)
  {
    LastRuns(xs, n, |sent|, batch);
  }

  /** The input is closed and the send of the rest, if any, succeeds: every batch has been sent. */
  lemma BatchedFinished<T>(render: seq<T> -> string, xs: seq<T>, n: nat, sent: seq<string>, batch: seq<T>, failure: Option<nat>)
    requires n > 0 && n * |sent| + |batch| == |xs| && |batch| < n
    requires batch == xs[n * |sent| ..]
    requires sent == Texts(render, Slices(xs, n, |sent|))
    requires failure.None? || |sent| < failure.value || (|batch| == 0 && |sent| == failure.value)
    ensures BatchedRun(render, xs, n, failure)
         == Run(sent + (if |batch| == 0 then [] else [render(batch)]), |xs|, Finished)
  {
    LastRuns(xs, n, |sent|, batch);
    assert Texts(render, Batches(xs, n)) == sent + (if |batch| == 0 then [] else [render(batch)]);
  }

  // ---------------------------------------------------------------------------
  // What reaches the next stage

  /** A rendering under which a batch's text is the texts of its parts, one after the other, as for `format_batch` and `concat`. */
  ghost predicate Additive<T(!new)>(render: seq<T> -> string) {
    render([]) == "" && forall a: seq<T>, b: seq<T> :: render(a + b) == render(a) + render(b)
  }

  lemma FormatTextAdditive(display: Display)
    ensures Additive(FormatText(display))
  {
    forall a: seq<MetricsMessage>, b: seq<MetricsMessage>
      ensures FormatText(display)(a + b) == FormatText(display)(a) + FormatText(display)(b)
    {
      Formatter.FormatBatchAppend(display, a, b);
    }
  }

  lemma ConcatAdditive()
    ensures Additive(Concat)
  {
    forall a: seq<string>, b: seq<string> ensures Concat(a + b) == Concat(a) + Concat(b) {
      ConcatAppend(a, b);
    }
  }

  lemma ApplyAdditive<T(!new)>(render: seq<T> -> string, a: seq<T>, b: seq<T>)
    requires Additive(render)
    ensures render(a + b) == render(a) + render(b)
  {
  }

  lemma PrefixSplit<T>(xs: seq<T>, i: nat, j: nat)
    requires i <= j <= |xs|
    ensures xs[..j] == xs[..i] + xs[i..j]
  {
  }

  lemma ConcatSnoc(ss: seq<string>, s: string)
    ensures Concat(ss + [s]) == Concat(ss) + s
  {
    assert (ss + [s])[..|ss|] == ss;
  }

  lemma TextsAppend<T>(render: seq<T> -> string, a: seq<seq<T>>, b: seq<seq<T>>)
    ensures Texts(render, a + b) == Texts(render, a) + Texts(render, b)
  {
  }

  /** The texts of the first `c` runs, one after the other, are the text of the items they cover. */
  lemma {:induction false} ConcatSlices<T(!new)>(render: seq<T> -> string, xs: seq<T>, n: nat, c: nat)
    requires Additive(render) && n * c <= |xs|
    ensures Concat(Texts(render, Slices(xs, n, c))) == render(xs[..n * c])
    decreases c
  {
    if c == 0 {
      assert xs[..n * c] == [];
    } else {
      var lo, hi := n * (c - 1), n * c;
      assert hi == lo + n;
      var prev := Texts(render, Slices(xs, n, c - 1));
      var piece := xs[lo .. hi];
      assert Texts(render, Slices(xs, n, c)) == prev + [render(piece)] by {
        SlicesSnoc(xs, n, c - 1);
        TextsAppend(render, Slices(xs, n, c - 1), [piece]);
      }
      ConcatSnoc(prev, render(piece));
      ConcatSlices(render, xs, n, c - 1);
      PrefixSplit(xs, lo, hi);
      ApplyAdditive(render, xs[..lo], piece);
    }
  }

  /** The texts of the full runs cover the items up to the last multiple of `n`. */
  lemma ConcatFullRuns<T(!new)>(render: seq<T> -> string, xs: seq<T>, n: nat)
    requires Additive(render) && n > 0
    ensures n * (|xs| / n) <= |xs|
    ensures Concat(Texts(render, FullRuns(xs, n))) == render(xs[..n * (|xs| / n)])
  {
    WholeRuns(|xs|, n);
    ConcatSlices(render, xs, n, |xs| / n);
  }

  /** The texts of all batches, the short last one included, cover every item. */
  lemma ConcatBatches<T(!new)>(render: seq<T> -> string, xs: seq<T>, n: nat)
    requires Additive(render) && n > 0
    ensures Concat(Texts(render, Batches(xs, n))) == render(xs)
  {
    WholeRuns(|xs|, n);
    ConcatFullRuns(render, xs, n);
    var q := n * (|xs| / n);
    var full := FullRuns(xs, n);
    if |xs| % n == 0 {
      assert xs[..q] == xs;
      assert Batches(xs, n) == full;
    } else {
      var rest := xs[q..];
      assert Batches(xs, n) == full + [rest];
      TextsAppend(render, full, [rest]);
      assert Texts(render, [rest]) == [render(rest)];
      ConcatSnoc(Texts(render, full), render(rest));
      assert xs == xs[..q] + rest;
      ApplyAdditive(render, xs[..q], rest);
    }
  }

  /** How many batches there are: one per full run, and one more for a non-empty rest. */
  lemma BatchCount<T>(xs: seq<T>, n: nat)
    requires n > 0
    ensures |FullRuns(xs, n)| == |xs| / n
    ensures |Batches(xs, n)| == |xs| / n + (if |xs| % n == 0 then 0 else 1)
  {
    WholeRuns(|xs|, n);
  }

  /**
   * The format worker as written, when no send fails: it receives every
   * message and sends one text per full batch of 32, the text of exactly
   * those 32 messages, so that what it sends is the text of the messages up
   * to the last multiple of 32 and the rest is never sent.
   */
  lemma FormatSendsFullBatches(display: Display, input: seq<MetricsMessage>)
    ensures var r := FormatRun(display, input, None);
      && r.outcome == Finished && r.received == |input|
      && |r.sent| == |input| / 32
      && (forall k :: 0 <= k < |r.sent| ==> 32 * k + 32 <= |input| && r.sent[k] == Formatter.FormatBatch(display, input[32 * k .. 32 * k + 32]))
      && Concat(r.sent) == Formatter.FormatBatch(display, input[..32 * (|input| / 32)])
  {
    var r := FormatRun(display, input, None);
    BatchCount(input, FORMAT_BATCH_SIZE);
    forall k | 0 <= k < |r.sent|
      ensures 32 * k + 32 <= |input| && r.sent[k] == Formatter.FormatBatch(display, input[32 * k .. 32 * k + 32])
    {
      SliceBound(32, k, |input| / 32);
    }
    FormatTextAdditive(display);
    ConcatFullRuns(FormatText(display), input, FORMAT_BATCH_SIZE);
  }

  /**
   * The format worker with its last send awaited, when no send fails: it
   * sends one text per batch of at most 32, a short last batch included,
   * and what it sends is the text of all the messages it received.
   */
  lemma FormatAwaitedDeliversAll(display: Display, input: seq<MetricsMessage>)
    ensures var r := FormatRunAwaited(display, input, None);
      && r.outcome == Finished && r.received == |input|
      && |r.sent| == (|input| + 31) / 32
      && Concat(r.sent) == Formatter.FormatBatch(display, input)
  {
    BatchCount(input, FORMAT_BATCH_SIZE);
    FormatTextAdditive(display);
    ConcatBatches(FormatText(display), input, FORMAT_BATCH_SIZE);
  }

  /**
   * The write worker, when no send fails: one body per batch of at most 128
   * texts, a short last batch included, and the bodies together are the
   * texts it received, in order.
   */
  lemma WriteDeliversAll(input: seq<string>)
    ensures var r := WriteRun(input, None);
      && r.outcome == Finished && r.received == |input|
      && |r.sent| == (|input| + 127) / 128
      && Concat(r.sent) == Concat(input)
  {
    BatchCount(input, WRITE_BATCH_SIZE);
    ConcatAdditive();
    ConcatBatches(Concat, input, WRITE_BATCH_SIZE);
  }

  /**
   * A failing send ends a worker early: it fails exactly when the failing
   * send is one it gets to; it then has sent the bodies before it, the
   * beginning of what it sends when nothing fails, and has received no
   * more than the failing batch; otherwise it runs as if nothing failed.
   */
  lemma FailureStopsEarly<T>(render: seq<T> -> string, input: seq<T>, n: nat, k: nat)
    requires n > 0
    ensures var r, all := BatchedRun(render, input, n, Some(k)), BatchedRun(render, input, n, None);
      && (r.outcome == SendFailed <==> k < |all.sent|)
      && (r.outcome == SendFailed ==> r.sent == all.sent[..k] && r.received == Min(n * k + n, |input|) && n * k < |input|)
      && (r.outcome == Finished ==> r == all)
  {
    var all := BatchedRun(render, input, n, None);
    if k < |all.sent| {
      WholeRuns(|input|, n);
      BatchCount(input, n);
      assert n * k < |input| by {
        if k < |input| / n {
          SliceBound(n, k, |input| / n);
        } else {
          assert k == |input| / n;
        }
      }
    }
  }

  /**
   * As written and awaited, the format worker does the same thing up to the
   * end of its input: where a send fails the two stop alike, and otherwise
   * awaiting the last send only adds the text of the short last batch.
   */
  lemma AwaitingAddsTheRest(display: Display, input: seq<MetricsMessage>, failure: Option<nat>)
    ensures var asWritten, awaited := FormatRun(display, input, failure), FormatRunAwaited(display, input, failure);
      && 32 * (|input| / 32) <= |input|
      && (asWritten.outcome == SendFailed ==> awaited == asWritten)
      && (asWritten.outcome == Finished && awaited.outcome == Finished ==>
            awaited.sent == asWritten.sent + (if |input| % 32 == 0 then [] else [Formatter.FormatBatch(display, input[32 * (|input| / 32)..])]))
      && (asWritten.outcome == Finished && awaited.outcome == SendFailed ==>
            awaited.sent == asWritten.sent && |input| % 32 != 0)
  {
    WholeRuns(|input|, FORMAT_BATCH_SIZE);
    var full := Texts(FormatText(display), FullRuns(input, FORMAT_BATCH_SIZE));
    var all := Texts(FormatText(display), Batches(input, FORMAT_BATCH_SIZE));
    assert all == full + (if |input| % 32 == 0 then [] else [Formatter.FormatBatch(display, input[32 * (|input| / 32)..])]);
    assert all[..|full|] == full;
    if failure.Some? && failure.value < |full| {
      assert all[..failure.value] == full[..failure.value];
    }
  }

  /**
   * The finding: given fewer than 32 messages, the format worker as written
   * sends nothing at all, while with its last send awaited it sends their
   * text.
   */
  lemma FewerThanBatchLost(display: Display, input: seq<MetricsMessage>)
    requires 0 < |input| < FORMAT_BATCH_SIZE
    ensures FormatRun(display, input, None) == Run([], |input|, Finished)
    ensures FormatRunAwaited(display, input, None) == Run([Formatter.FormatBatch(display, input)], |input|, Finished)
  {
    LastRuns(input, FORMAT_BATCH_SIZE, 0, input);
  }

  /** A scrape of one summary: the worker as written drops its four lines, the awaited worker sends them. */
  lemma SummaryLost(display: Display)
    requires display(Formatter.F64_HALF) == "0.5" && display(Formatter.F64_NINE_TENTHS) == "0.9"
    requires display(Formatter.F64_TEN) == "10" && display(Formatter.F64_TWENTY) == "20" && display(Formatter.F64_THIRTY) == "30"
    ensures var m := SummaryMetric([SummaryQuantile(Formatter.F64_HALF, Formatter.F64_TEN), SummaryQuantile(Formatter.F64_NINE_TENTHS, Formatter.F64_TWENTY)], 3, Formatter.F64_THIRTY);
      var msg := MetricsMessage("http://localhost:9100/metrics", [MetricGroup("req_latency", Summary([(GroupKey(None, []), m)]))], 0);
      && FormatRun(display, [msg], None).sent == []
      && FormatRunAwaited(display, [msg], None).sent
         == ["req_latency{quantile=\"0.5\"} 10\n" + "req_latency{quantile=\"0.9\"} 20\n"
             + "req_latency_sum{} 30\n" + "req_latency_count{} 3\n"]
  {
    var m := SummaryMetric([SummaryQuantile(Formatter.F64_HALF, Formatter.F64_TEN), SummaryQuantile(Formatter.F64_NINE_TENTHS, Formatter.F64_TWENTY)], 3, Formatter.F64_THIRTY);
    var g := MetricGroup("req_latency", Summary([(GroupKey(None, []), m)]));
    var msg := MetricsMessage("http://localhost:9100/metrics", [g], 0);
    FewerThanBatchLost(display, [msg]);
    Formatter.FormatBatchOne(display, msg);
    Formatter.FormatSingleOne(display, g);
    Formatter.SummaryExample(display);
  }

  /**
   * The two workers one after the other, when no send fails: what reaches
   * the remote endpoint is the text of the scraped messages up to the last
   * multiple of 32 as written, and the text of all of them with the format
   * worker's last send awaited.
   */
  lemma Pipeline(display: Display, input: seq<MetricsMessage>)
    ensures 32 * (|input| / 32) <= |input|
    ensures Concat(WriteRun(FormatRun(display, input, None).sent, None).sent)
         == Formatter.FormatBatch(display, input[..32 * (|input| / 32)])
    ensures Concat(WriteRun(FormatRunAwaited(display, input, None).sent, None).sent)
         == Formatter.FormatBatch(display, input)
  {
    FormatSendsFullBatches(display, input);
    FormatAwaitedDeliversAll(display, input);
    WriteDeliversAll(FormatRun(display, input, None).sent);
    WriteDeliversAll(FormatRunAwaited(display, input, None).sent);
  }
}
