# agent-rs: the serializer and the batching workers, in Dafny

agent-rs is a telemetry relay with three stages:

1. It scrapes a Prometheus endpoint.
2. It turns the decoded metric groups back into Prometheus text exposition format.
3. It posts that text to a remote ingestion endpoint.

This project models the two parts of that pipeline that are plain logic, and proves properties about them.

- **The serializer** of `MetricsFormatter` (`src/metrics_formatter.rs`) and its copy in `RemoteWriter` (`src/remote_write.rs`).
  - Every decoded group becomes lines `name{k="v",...} value[ ts]\n`.
  - Gauge, counter and untyped groups share one rendering.
  - A summary writes its quantile lines, then `_sum`, then `_count`.
  - A histogram writes its `_bucket` lines carrying `le`, then `_sum` and `_count`.
  - Labels come from a `BTreeMap`, so they are written in ascending key order.
- **The batching workers** `MetricsAgent::format` and `MetricsAgent::write` (`src/metrics_agent.rs`).
  - The format worker collects scraped messages into batches of 32 and formats each full batch.
  - The write worker collects texts into batches of 128 and sends each batch's concatenation.
  - Both workers stop on the first failing send.

## Modules

- `Wrappers`, `Text` (`text.dfy`): `Option`; string concatenation and `join`; decimal rendering of integers and its reader; the order of `String`.
- `LabelMaps` (`labels.dfy`): a `BTreeMap<String, String>`, modelled as a list of entries with strictly ascending keys.
  - Covers `insert`, `format_labels`, and a reader for the label text.
- `Metrics` (`metrics.dfy`): the decoded data model: `GroupKey`, the five group kinds and `MetricsMessage`.
  - An `IndexMap<GroupKey, _>` is a list of `(key, value)` entries in insertion order.
  - An `f64` is its 64-bit pattern (`bv64`).
  - Counts are `u64`; timestamps are `i64` milliseconds.
- `Exposition` (`exposition.dfy`): one sample line, the text of a list of lines, and a line reader proved to invert it.
- `Formatter` (`formatter.dfy`): `src/metrics_formatter.rs`.
  - The text of each group kind is specified as a list of sample lines.
  - The three `format_*_metric` loops are methods proved to write exactly those lines.
- `RemoteWrite` (`remote_write.dfy`): `src/remote_write.rs`.
  - The copied helpers are modelled as written in that file.
  - They are proved to produce the same text as the serializer's.
- `Agent` (`agent.dfy`): the two workers, as methods with loops over a `batch` buffer.
  - Each worker is proved equal to a specification of what it sends.
  - Their properties are then proved about those specifications.

How `f64` values are written (Rust's `Display` for `f64`) is a parameter `display` of every operation that writes one, and is never interpreted.

The workers are modelled on channels as follows:

- A channel is the finite sequence of items it delivers before it is closed.
- What a worker sends is the sequence the next stage receives.
- A send's failure is the parameter `failure`: the ordinal of the first send that fails, if any.
- The format worker receives the batch formatter `self.formatter.format_batch` as the function parameter `formatBatch`.
  - `FormatRun` and `FormatRunAwaited` are the workers' specifications instantiated with the serializer, `FormatText(display)`.

Three facts about the workers' code shape the model:

- The flush branch at `src/metrics_agent.rs:68-70` exists to deliver the rest of the batch, but its send is never awaited. So nothing of a partial batch is sent. See "## Findings".
- Every awaited send that fails ends its worker through `?`: at `src/metrics_agent.rs:64`, `:79` and `:84`. The model stops the worker at the first failing send.
- The thresholds are the literals 32 and 128 at `src/metrics_agent.rs:62` and `:78`. The model uses the same constants.

## Model

| member | source | states |
|---|---|---|
| Text.IntToStringRoundTrip | src/metrics_formatter.rs:43-46 | the decimal text of a timestamp reads back as that timestamp |
| Text.LessIsStrictOrder | src/metrics_formatter.rs:149-151 | the order in which a `BTreeMap<String, _>` iterates its keys is a strict total order |
| Text.JoinEmptySeparator | src/remote_write.rs:29-33 | `join("")` of the group texts is their plain concatenation |
| LabelMaps.Insert | src/metrics_formatter.rs:70-71 | inserting `k` into a label map gives a sorted map that maps `k` to the new value (an old value for `k` is replaced) and every other key as before |
| LabelMaps.InsertEntries | src/metrics_formatter.rs:70-71 | every entry after the insert is the inserted entry or one from before it |
| LabelMaps.Canonical | src/metrics_formatter.rs:146-156 | two label maps with the same mapping are the same entry list, so their text depends only on the mapping |
| LabelMaps.FormatLabels | src/metrics_formatter.rs:146-156 | the label text is empty exactly when the map is empty |
| LabelMaps.ParseLabelListOfText | src/metrics_formatter.rs:149-155 | the comma-joined `key="value"` entries of a non-empty readable map read back as exactly those entries, in order, with what follows left over |
| LabelMaps.SortedRendering | src/metrics_formatter.rs:149-155 | inserting `b=2` and then `a=1` is written `a="1",b="2"`: ascending key order, not insertion order |
| LabelMaps.ValuesNotEscaped | src/metrics_formatter.rs:152 | values are written without escaping, so two different label maps can have the same text |
| Exposition.TimestampSuffix | src/metrics_formatter.rs:43-46 | definition: a space and the decimal timestamp when there is one, else the empty text |
| Exposition.RenderSample | src/metrics_formatter.rs:47-53 | definition: the name, the label text in braces, a space, the value, the timestamp suffix and a line break |
| Exposition.LineShape | src/metrics_formatter.rs:47-53 | the text that `format!("{}{{{}}} {}{}\n", ...)` writes is the line of the sample with that name, labels, value and timestamp |
| Exposition.TimestampOfText | src/metrics_formatter.rs:43-46 | a present timestamp is ` ` followed by its decimal digits; those digits end at the line break and read back as the timestamp |
| Exposition.RenderAppend | src/metrics_formatter.rs:41-55 | the text of two runs of lines is the two texts one after the other |
| Exposition.ParseSampleOfText | src/metrics_formatter.rs:47-53 | a well-formed sample's line reads back as that sample, with what follows left over |
| Exposition.ParseRender | src/metrics_formatter.rs:41-55 | the text of any list of well-formed lines reads back as exactly that list |
| Formatter.FormatSimpleMetric | src/metrics_formatter.rs:37-56 | the loop writes exactly the lines of the entries, in entry order |
| Formatter.SimpleSamplesShape | src/metrics_formatter.rs:41-55 | one line per gauge, counter or untyped entry, in entry order, with the bare name, the entry's own labels, its rendered value and its timestamp |
| Formatter.FormatSummaryMetric | src/metrics_formatter.rs:58-100 | the nested loops write exactly the lines of the summary entries, in entry order |
| Formatter.QuantileSamplesShape | src/metrics_formatter.rs:69-79 | one line per quantile, in order: the bare name, the entry's labels with `quantile` set to the rendered quantile (replacing an existing `quantile` label), and the rendered value |
| Formatter.SummaryKeyShape | src/metrics_formatter.rs:63-97 | a summary entry gives two more lines than it has quantiles: its quantile lines, then `_sum` with the sum, then `_count` with the count; `_sum` and `_count` keep the entry's labels unchanged, and every line carries the entry's timestamp |
| Formatter.SummarySamplesAppend | src/metrics_formatter.rs:63-98 | the lines of two runs of summary entries are the two runs' lines, in order |
| Formatter.FormatHistogramMetric | src/metrics_formatter.rs:102-144 | the nested loops write exactly the lines of the histogram entries, in entry order |
| Formatter.BucketSamplesShape | src/metrics_formatter.rs:113-123 | one `_bucket` line per bucket, in order, with `le` set to the rendered bound (replacing an existing `le` label) and the bucket count in decimal |
| Formatter.HistogramKeyShape | src/metrics_formatter.rs:107-141 | a histogram entry gives its bucket lines, then `_sum` and `_count` with the entry's labels unchanged |
| Formatter.HistogramSamplesAppend | src/metrics_formatter.rs:107-142 | the lines of two runs of histogram entries are the two runs' lines, in order |
| Formatter.SimpleKindsAgree | src/metrics_formatter.rs:27-34 | gauge, counter and untyped groups with the same name and entries have the same text |
| Formatter.GroupReadsBack | src/metrics_formatter.rs:27-34 | the text of a readable group reads back as exactly its sample lines, in order |
| Formatter.FormatSimpleGroup | src/metrics_formatter.rs:27-35 | definition: the text of the group's sample lines, chosen by kind; gauge, counter and untyped share the simple lines |
| Formatter.FormatSingle | src/metrics_formatter.rs:19-24 | definition: the texts of the groups, one after the other, in order |
| Formatter.FormatSingleAppend | src/metrics_formatter.rs:19-24 | `format_single` of two runs of groups is the two texts one after the other |
| Formatter.FormatSingleOne | src/metrics_formatter.rs:19-24 | `format_single` of one group is that group's text |
| Formatter.FormatSingleRender | src/metrics_formatter.rs:19-24 | `format_single` writes the sample lines of its groups, group after group |
| Formatter.FormatBatch | src/metrics_formatter.rs:12-18 | definition: `format_single` of the groups of all messages, message after message |
| Formatter.AllGroupsAppend | src/metrics_formatter.rs:13-15 | the groups of two runs of messages are the two runs' groups, in order |
| Formatter.FormatBatchAppend | src/metrics_formatter.rs:12-18 | `format_batch` of two runs of messages is the two texts one after the other |
| Formatter.FormatBatchOne | src/metrics_formatter.rs:12-24 | `format_batch` of one message is `format_single` of its groups, and `format_batch` of no messages is empty |
| Formatter.BatchReadsBack | src/metrics_formatter.rs:12-18 | the text of a batch of readable messages reads back as the sample lines of all their groups, message after message |
| Formatter.SummaryExample | src/metrics_formatter.rs:58-100 | a summary with quantiles 0.5 and 0.9 is written as its two quantile lines, then `_sum{}`, then `_count{}` |
| RemoteWrite.FormatLabels | src/remote_write.rs:156-166 | this file's `format_labels` gives the serializer's label text, empty exactly for the empty map |
| RemoteWrite.FormatSimpleMetric | src/remote_write.rs:47-66 | this file's loop writes the same lines as the serializer's `format_simple_metric` |
| RemoteWrite.FormatSummaryMetric | src/remote_write.rs:68-110 | this file's loops write the serializer's summary lines: all quantile lines of an entry, then `_sum`, then `_count` |
| RemoteWrite.FormatHistogramMetric | src/remote_write.rs:112-154 | this file's loops write the serializer's histogram lines: `_bucket` lines with `le` and the bucket count, then `_sum` and `_count` |
| RemoteWrite.FormatSimpleGroup | src/remote_write.rs:37-45 | this file's `format_simple_group` gives every group the serializer's text |
| RemoteWrite.GroupTexts | src/remote_write.rs:29-32 | there is one text per group, and each is that group's text, in order |
| RemoteWrite.FormatMetricsToText | src/remote_write.rs:28-34 | `format_metrics_to_text` is `format_single` of the same groups, and empty for no groups |
| RemoteWrite.ConcatGroupTexts | src/remote_write.rs:29-32 | the group texts concatenated in order are the serializer's text of the groups |
| RemoteWrite.WriterIrrelevant | src/remote_write.rs:28-34 | two writers give the same groups the same text, whatever their endpoints |
| RemoteWrite.AgreesWithBatch | src/remote_write.rs:28-34 | the writer's text of one message's groups is `format_batch` of that message |
| Agent.FormatWorker | src/metrics_agent.rs:53-72 | `format` as written: it sends the formatter's text of each full batch of 32, in order, stops at the first failing send, and never sends the rest |
| Agent.FormatWorkerAwaited | src/metrics_agent.rs:53-72 | `format` with its last send awaited: it also sends the text of a non-empty rest, and a failure of that send is an error |
| Agent.WriteWorker | src/metrics_agent.rs:74-88 | `write`: it sends the concatenation of each batch of 128 texts and of a non-empty rest, in order, stopping at the first failing send |
| Agent.FormatRun | src/metrics_agent.rs:53-72 | definition: `format` as written sends the text of each full run of 32 messages, and reports a failure at the failing send, having received up to the end of its batch |
| Agent.FormatRunAwaited | src/metrics_agent.rs:53-72 | definition: `format` with its last send awaited sends the text of every batch of at most 32, a short last one included, and stops the same way |
| Agent.WriteRun | src/metrics_agent.rs:74-88 | definition: `write` sends the concatenation of every batch of at most 128 texts, a short last one included, and stops the same way |
| Agent.TextsSnoc | src/metrics_agent.rs:62-65 | a flush when the buffer reaches the batch size sends the text of exactly the next run of consecutive items |
| Agent.BatchCount | src/metrics_agent.rs:62 | there are `⌊n/size⌋` full batches, and one more batch when a rest remains |
| Agent.ConcatSlices | src/metrics_agent.rs:62-65 | for a rendering that respects concatenation, the texts of the first `c` runs together are the text of the items they cover |
| Agent.ConcatBatches | src/metrics_agent.rs:78-85 | for such a rendering, the texts of all batches, a short last one included, together are the text of every item |
| Agent.FormatTextAdditive | src/metrics_formatter.rs:12-18 | `format_batch` respects concatenation, and maps no messages to the empty text |
| Agent.ConcatAdditive | src/metrics_agent.rs:79 | `concat` respects concatenation, and maps no texts to the empty text |
| Agent.FormatSendsFullBatches | src/metrics_agent.rs:59-70 | with every send succeeding, `format` as written receives all `n` messages and sends `⌊n/32⌋` texts; the k-th text is `format_batch` of messages `32k..32k+32`, and all texts together are `format_batch` of the first `32⌊n/32⌋` messages |
| Agent.FormatAwaitedDeliversAll | src/metrics_agent.rs:59-70 | with the last send awaited and every send succeeding, `format` sends `⌈n/32⌉` texts, and together they are `format_batch` of all messages |
| Agent.WriteDeliversAll | src/metrics_agent.rs:76-87 | with every send succeeding, `write` performs `⌈n/128⌉` sends (none for no input), and the bodies together are the concatenation of all texts received |
| Agent.FailureStopsEarly | src/metrics_agent.rs:78-85 | a worker fails exactly when the failing send is one it reaches; it then has sent the bodies before it, and has received only up to the end of the failing batch; otherwise it runs as if nothing failed |
| Agent.AwaitingAddsTheRest | src/metrics_agent.rs:68-70 | as written and awaited, `format` behaves the same while sends fail; otherwise awaiting the last send only adds the text of the short last batch |
| Agent.FewerThanBatchLost | src/metrics_agent.rs:68-70 | given between 1 and 31 messages, `format` as written sends nothing, while with the last send awaited it sends their `format_batch` |
| Agent.SummaryLost | src/metrics_agent.rs:68-70 | one scraped summary group: `format` as written sends nothing, the awaited version sends the group's four lines |
| Agent.Pipeline | src/metrics_agent.rs:53-88 | `format` then `write`, with every send succeeding: as written, the remote endpoint receives `format_batch` of the messages up to the last multiple of 32; with the last format send awaited, it receives `format_batch` of all messages |

## Left out

- `src/scraper.rs` and `MetricsAgent::scrape`: I/O over libraries that are not part of this model. This covers the HTTP fetch, retry with backoff, timeouts, decoding with `prometheus_parser`, and `Instant::now()`. A worker's input is the messages scraped, whatever produced them.
- `RemoteWriter::send`: an HTTP POST. Only its success or failure enters the model, as the `failure` parameter of the workers.
- `RemoteWriter`'s HTTP client: the datatype keeps only the endpoint URL.
- `MetricsAgent::new` and `src/main.rs`: construction, logging setup, task spawning, the scrape interval, and `try_join!`.
- Concurrency and backpressure of the bounded `mpsc` channels, capacity 32: each channel is the sequence of items it delivers before it closes. The model does not capture timing or interleaving.
- The error values of a failed send: only the fact that the worker stops with an error is modelled.
- `Vec::with_capacity(30)`: the capacity is only an allocation hint and plays no part in what is sent.
- Rust's `Display` for `f64`: a parameter of the model, so NaN, infinities and digit choice are not modelled.
- `MetricsMessage.scraped_at` is a plain number: the serializer never reads it.
- Label values: they are written without escaping, as in the source. The readers therefore need values free of `"`, and `LabelMaps.ValuesNotEscaped` shows why.
- Decoding the text back into metric groups: `prometheus_parser` is not part of this model. The reader proved here reads the serializer's own line format back into sample lines, not into metric groups.
- The count fields of summaries and histograms are taken as `u64`. The `prometheus_parser` types are not part of this model.
- Agent.FormatWorker and Agent.FormatWorkerAwaited: stated for any batch formatter passed in. The specification with the serializer itself is `FormatRun` and `FormatRunAwaited`, which instantiate it with `FormatText(display)`.

## Findings

| source | as written | input that shows it | evidently intended | confidence | as-written member | corrected member |
|---|---|---|---|---|---|---|
| src/metrics_agent.rs:68-70 | the final `tx.send(...)` is created and dropped without `.await`; Rust futures are lazy, so the text of a partial batch is never sent and its error never seen | any input whose length is not a multiple of 32, e.g. one scraped summary group (`Agent.SummaryLost`) or 31 messages (`Agent.FewerThanBatchLost`) | `tx.send(...).await?`, so that the rest reaches the write worker | not executed | Agent.FormatWorker | Agent.FormatWorkerAwaited |
