# kafka-sync in Dafny

kafka-sync mirrors one Kafka topic from a source cluster to a destination
cluster. Its main thread is a consumer in a consumer group. Each poll
cycle it:

- turns every polled message into a record for the configured topic;
- hands each record to a writer thread over a channel;
- marks each message set consumed once its messages are handed off;
- commits the consumed offsets once per cycle.

The writer thread keeps received records in a batch. Each time the batch
reaches 100 records, it sends the whole batch to the destination in one
batched write and clears it. After the write it checks every
per-partition confirmation and fails on the first error code. The
configuration is read once at start-up. The TOML file comes first, and a
topic given on the command line replaces the file's topic.

This project models that logic and proves its properties. It has these modules:

- `Wrappers`: `Option` and `Result`.
- `Client`: the data shapes of the Kafka client library the relay
  touches: messages, message sets, records, produce confirmations and
  client errors.
- `Config`: the configuration records, the command line and the
  construction of the process-wide configuration.
- `Reader`: the fallback-offset mapping, and one poll cycle as a method
  that emits an event trace (`Send(record)`, `Consume(set)`, `Commit`).
  The trace is related to reference functions `CycleTrace`, `Forwarded`
  and `SetsTrace`.
- `SendBatch`: the confirmation check of `send_batch`. It is a
  nested-loop method proved against a recursive reference function,
  with lemmas giving its meaning: success exactly when every
  confirmation is an offset, otherwise the first failing code in
  iteration order.
- `Writer`: the batch aggregator as the class `BatchWriter`. It holds
  the buffer `batch`, the count of writes issued, and ghost logs of the
  records received and the batches flushed. The module-level method
  `RunWriter` drives it over a finite channel input.

  The reference functions `FullBatches` and `Pending` cut a record
  stream into full batches and a short remainder.

The Kafka client and the channel are not modelled. Their answers are
inputs:

- what `poll` returned;
- whether the k-th channel send of a cycle succeeds (`handoff: nat -> bool`);
- what `commit_consumed` returned;
- what the destination answers to the n-th batched write of a given batch (`Producer`);
- what the TOML extraction of a file path gives (`parseFile`).

There is no idle or final flush. 250 records give two flushes, records
1-100 and 101-200, and 50 stay pending (`Writer.TwoHundredFiftyRecords`).

## Model

| member | source | states |
|---|---|---|
| SendBatch.Check | src/main.rs:82-101 | the outcome is that of the reference walk: a failed batched write is passed through, else the error of the first failing partition confirmation, else success |
| SendBatch.FirstErrorInNone | src/main.rs:93-97 | the walk over one response's partitions finds nothing exactly when every partition confirmation is an offset |
| SendBatch.FirstErrorInSome | src/main.rs:93-97 | if partition j fails and all earlier ones succeed, the walk over the response returns j's error code |
| SendBatch.FirstErrorInFound | src/main.rs:93-97 | a code found in one response belongs to a failing partition with only successes before it |
| SendBatch.FirstErrorNone | src/main.rs:92-100 | the walk over all responses finds nothing exactly when every confirmation of every response is an offset |
| SendBatch.FirstErrorFound | src/main.rs:92-98 | a code found by the whole walk belongs to a first failing confirmation in iteration order |
| SendBatch.FirstFailureUnique | src/main.rs:92-98 | there is at most one first failing confirmation in iteration order |
| SendBatch.FirstErrorIsFirstFailure | src/main.rs:92-98 | the walk returns code c exactly when c is the code of the first failing confirmation |
| SendBatch.SendBatchSucceedsIff | src/main.rs:90-100 | a flush succeeds exactly when the batched write went through and every partition confirmation is an offset |
| SendBatch.SendBatchReportsFirstFailure | src/main.rs:92-100 | a flush whose write went through fails with error e exactly when e is Kafka(code) of the first failing confirmation |
| SendBatch.PartialSuccessFails | src/main.rs:94-95 | one failing partition makes the whole flush fail with a Kafka error code |
| Writer.FullBatches | src/main.rs:42-47 | every batch the stream is cut into has exactly 100 records, and batches times 100 plus the pending count is the stream length |
| Writer.Pending | src/main.rs:42-47 | what is left after the full batches has fewer than 100 records |
| Writer.FullBatchesThenPending | src/main.rs:42-47 | the full batches, concatenated, followed by the pending records are the stream in order |
| Writer.BatchCounts | src/main.rs:42-48 | after n records there are n / 100 full batches and n % 100 pending records |
| Writer.FullBatchAt | src/main.rs:43-46 | the k-th full batch is records k*100 up to k*100+100 in arrival order |
| Writer.FullBatchesOfPrefix | src/main.rs:42-47 | the batches of a prefix of the stream are a prefix of the stream's batches |
| Writer.ChunkingUnique | src/main.rs:42-47 | a log of 100-record batches and a buffer of fewer than 100 that spell the stream are exactly its full batches and its pending records |
| Writer.TwoHundredFiftyRecords | src/main.rs:42-48 | 250 records give two flushes, records 1-100 and 101-200, and the last 50 stay in the buffer |
| Writer.LogIsPrefix | src/main.rs:42-47 | a writer that is consistent after a prefix of the stream has flushed a prefix of the stream's full batches |
| Writer.BatchWriter.constructor | src/main.rs:40 | the buffer starts empty, nothing has been received, flushed or written, and the loop invariant holds |
| Writer.BatchWriter.Receive | src/main.rs:43-47 | the record is appended; below 100 nothing else changes; at 100 the batch is written once, then cleared and logged on success, or kept and not logged on failure; received = flushed batches then buffer is kept |
| Writer.RunWriter | src/main.rs:40-48 | the loop succeeds exactly when every full batch's write succeeds, and then it has flushed exactly the full batches and holds the pending records; otherwise it stopped at the first failing batch k with the k earlier ones flushed, that batch still buffered and nothing after it received, the failed batch written exactly once and not again |
| Writer.FailedFlush | src/main.rs:45-46 | when the flush triggered by record i fails, the writer has stopped as StoppedAt describes at the batch holding record i, and so not every full batch's write succeeded |
| Reader.FallbackOffset | src/main.rs:17-21 | "earliest" gives Earliest; every other string, "latest" and unknown values included, gives Latest |
| Reader.ProjectionsOfSends | src/main.rs:64-69 | the sends for one message set hand off its records in message order and mark nothing consumed |
| Reader.SetsTraceProjections | src/main.rs:63-77 | after the first n sets the cycle has handed off exactly their records in order and marked exactly sets 0..n-1 consumed in order |
| Reader.CycleTraceProjections | src/main.rs:63-78 | a complete cycle hands off every polled message as a record in set order, then message order, and marks every set consumed once, in order |
| Reader.ForwardedAt | src/main.rs:63-69 | message j of set i is forwarded at position MessagesBefore(i)+j with the configured topic and unchanged key and value bytes; the record built by `Client.FromMessage` (src/main.rs:65-68) carries these |
| Reader.ConsumeInSetsTrace | src/main.rs:63-76 | when a set is marked consumed, the records handed off before it are exactly those of that set and all earlier ones |
| Reader.ConsumeAfterItsMessages | src/main.rs:63-76 | in a complete cycle, marking set i consumed comes right after handing off the messages of sets 0..i and no others |
| Reader.CommitOnceLast | src/main.rs:78 | a complete cycle commits exactly once, as its last event |
| Reader.RefusedHandoff | src/main.rs:69 | the events up to a refused handoff are the start of the complete cycle, with that handoff next |
| Reader.RefusalBeforeEnd | src/main.rs:69 | a trace cut off at a refused handoff has handed off fewer records than the full cycle and contains no commit |
| Reader.PollCycle | src/main.rs:56-79 | a failed poll emits nothing and fails; if every handoff succeeds the trace is the complete cycle and the outcome is the commit's; otherwise the cycle fails at the first refused handoff, its trace is a prefix of the complete cycle, and no commit happened |
| Config.ParseCli | src/config.rs:30-38 | the configuration file path is the given one, or "config.toml" when none is given; the topic option is kept as given |
| Config.LoadConfig | src/config.rs:42-56 | a parse failure aborts with the path and the parser's error and yields no configuration; otherwise a given topic replaces the file's, no topic keeps the file's, and src and dst are the parsed values |

## Left out

- The Kafka client library: consumer and producer construction, broker lists, the required-acks setting, the one-second ack timeout, and the network calls `poll`, `send_all`, `consume_messageset` and `commit_consumed` (src/main.rs:22-27, 32-39). These are network I/O in a foreign library. Their answers are inputs.
- Producer construction failing and its `unwrap` (src/main.rs:32-39). This is a foreign call whose failure is a thread panic before the loop starts.
- The channel and both threads (src/main.rs:29, 31). They exist for concurrency. The writer takes the channel's input as a finite ordered sequence. The reader emits its handoffs as a trace. The interleaving of the two threads is not modelled.
- The infinite poll loop (src/main.rs:56). One cycle (`Reader.PollCycle`) is modelled. A later cycle repeats it with a fresh poll result.
- The result of `consume_messageset` is ignored in the source (src/main.rs:76). The model records the request as a `Consume` event regardless.
- The ordering of events across the two threads. The model does not relate them: the reader's trace says when a record was handed off, not when the writer flushed it.
- `Writer.Producer`: the destination's answers are a function of the write's index and its batch. Answers that depend on anything else, such as timing or broker state, are not distinguished.
- Key and value byte contents are opaque `seq<bv8>` values, copied unchanged.
- TOML parsing (figment), command-line parsing (clap) and the one-time lazy global initialisation (src/config.rs:40-49). These wrap libraries that are not part of this model. `Config.LoadConfig` takes the file extraction as the `parseFile` input, and `Config.ParseCli` takes the two parsed options as inputs.
- The `panic!` on a bad configuration file is the `Failure(ParseError(...))` result of `Config.LoadConfig`. A panic of `send_batch(...).unwrap()` is the `Failure` outcome of `Writer.BatchWriter.Receive` and `Writer.RunWriter`.
- The startup `println!` logging and the commented-out code (src/main.rs:13-16, 50-53, 58-61, 67, 70-74) have no behaviour to model.
