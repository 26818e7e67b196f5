/**
 * The destination writer: it receives records from the handoff channel,
 * appends each to an in-memory batch, and when the batch reaches the
 * threshold it flushes the whole batch with one batched write and clears
 * it. There is no time-based flush. A failed flush is fatal: the writer
 * stops before clearing the batch and nothing is retried.
 */
module Writer {
  import opened Wrappers
  import opened Client
  import opened SendBatch

  /** The flush threshold, hard-coded in the writer loop. */
  const MaxBatch: nat := 100

  /** The answer of the destination to the n-th batched write, given the batch. */
  type Producer = (nat, seq<Record>) -> SendAllResult

  function Flatten(bs: seq<seq<Record>>): seq<Record>
  {
    if bs == [] then [] else bs[0] + Flatten(bs[1..])
  }

  /** Every batch of the log has exactly the threshold size. */
  ghost predicate Chunked(bs: seq<seq<Record>>)
  {
    forall k | 0 <= k < |bs| :: |bs[k]| == MaxBatch
  }

  /**
   * The full batches a stream of records is cut into: consecutive runs of
   * MaxBatch records from the front, as many as fit. Each is exactly
   * full, and what they leave over is the short remainder Pending(rs).
   */
  function FullBatches(rs: seq<Record>): (bs: seq<seq<Record>>)
    ensures Chunked(bs)
    ensures |bs| * MaxBatch + |Pending(rs)| == |rs|
    decreases |rs|
  {
    if |rs| < MaxBatch then []
    else
      var rest := FullBatches(rs[MaxBatch..]);
      assert ([rs[..MaxBatch]] + rest)[1..] == rest;
      [rs[..MaxBatch]] + rest
  }

  /** The records after the last full batch, fewer than MaxBatch: what a writer that saw `rs` still holds. */
  function Pending(rs: seq<Record>): (p: seq<Record>)
    ensures |p| < MaxBatch
    decreases |rs|
  {
    if |rs| < MaxBatch then rs else Pending(rs[MaxBatch..])
  }

  lemma ChunkedTail(bs: seq<seq<Record>>)
    requires bs != [] && Chunked(bs)
    ensures Chunked(bs[1..])
  {
    forall k | 0 <= k < |bs[1..]| ensures |bs[1..][k]| == MaxBatch {
      assert bs[1..][k] == bs[k + 1];
    }
  }

  /** A log of full batches holds MaxBatch records per batch. */
  lemma {:induction false} FlattenLength(bs: seq<seq<Record>>)
    requires Chunked(bs)
    ensures |Flatten(bs)| == |bs| * MaxBatch
  {
    if bs != [] {
      ChunkedTail(bs);
      FlattenLength(bs[1..]);
    }
  }

  lemma {:induction false} FlattenAppend(a: seq<seq<Record>>, b: seq<seq<Record>>)
    ensures Flatten(a + b) == Flatten(a) + Flatten(b)
  {
    if a != [] {
      assert (a + b)[1..] == a[1..] + b;
      FlattenAppend(a[1..], b);
    } else {
      assert a + b == b;
    }
  }

  /** No loss, duplication or reordering: the full batches, then the remainder, spell the stream. */
  lemma {:induction false} FullBatchesThenPending(rs: seq<Record>)
    ensures Flatten(FullBatches(rs)) + Pending(rs) == rs
    decreases |rs|
  {
    if |rs| >= MaxBatch {
      var rest := FullBatches(rs[MaxBatch..]);
      FullBatchesThenPending(rs[MaxBatch..]);
      assert FullBatches(rs) == [rs[..MaxBatch]] + rest;
      assert ([rs[..MaxBatch]] + rest)[1..] == rest;
      assert rs[..MaxBatch] + (Flatten(rest) + Pending(rs[MaxBatch..])) == rs;
    }
  }

  lemma DivMod(k: nat, r: nat)
    requires r < MaxBatch
    ensures (k * MaxBatch + r) / MaxBatch == k && (k * MaxBatch + r) % MaxBatch == r
  {
  }

  /**
   * After n records there have been n / MaxBatch full batches and
   * n % MaxBatch records are pending.
   */
  lemma BatchCounts(rs: seq<Record>)
    ensures |FullBatches(rs)| == |rs| / MaxBatch
    ensures |Pending(rs)| == |rs| % MaxBatch
  {
    FlattenLength(FullBatches(rs));
    DivMod(|FullBatches(rs)|, |Pending(rs)|);
  }

  /** The k-th full batch is records k*MaxBatch up to (k+1)*MaxBatch, in arrival order. */
  lemma {:induction false} FullBatchAt(rs: seq<Record>, k: nat)
    requires k < |FullBatches(rs)|
    ensures k * MaxBatch + MaxBatch <= |rs|
    ensures FullBatches(rs)[k] == rs[k * MaxBatch..k * MaxBatch + MaxBatch]
    decreases k
  {
    if k > 0 {
      FullBatchAt(rs[MaxBatch..], k - 1);
      assert FullBatches(rs)[k] == FullBatches(rs[MaxBatch..])[k - 1];
    }
  }

  /** The batches of a prefix of the stream are a prefix of the stream's batches. */
  lemma FullBatchesOfPrefix(rs: seq<Record>, n: nat)
    requires n <= |rs|
    ensures FullBatches(rs[..n]) <= FullBatches(rs)
  {
    var a, b := FullBatches(rs[..n]), FullBatches(rs);
    assert |a| <= |b|;
    forall k | 0 <= k < |a| ensures a[k] == b[k] {
      SameBatchInPrefix(rs, n, k);
    }
  }

  lemma SameBatchInPrefix(rs: seq<Record>, n: nat, k: nat)
    requires n <= |rs| && k < |FullBatches(rs[..n])| <= |FullBatches(rs)|
    ensures FullBatches(rs[..n])[k] == FullBatches(rs)[k]
  {
    FullBatchAt(rs[..n], k);
    FullBatchAt(rs, k);
  }

  /**
   * The chunking is unique: a log of full batches followed by a short
   * buffer that together spell `rs` is exactly FullBatches(rs) and
   * Pending(rs).
   */
  lemma {:induction false} ChunkingUnique(bs: seq<seq<Record>>, b: seq<Record>, rs: seq<Record>)
    requires Chunked(bs) && |b| < MaxBatch
    requires Flatten(bs) + b == rs
    ensures bs == FullBatches(rs) && b == Pending(rs)
  {
    if bs == [] {
    } else {
      ChunkedTail(bs);
      assert rs == bs[0] + (Flatten(bs[1..]) + b);
      assert rs[..MaxBatch] == bs[0];
      assert rs[MaxBatch..] == Flatten(bs[1..]) + b;
      ChunkingUnique(bs[1..], b, rs[MaxBatch..]);
      assert bs == [bs[0]] + bs[1..];
    }
  }

  /**
   * End to end: 250 records give two flushes, records 1..100 then
   * 101..200, and the last 50 are held, not flushed.
   */
  lemma TwoHundredFiftyRecords(rs: seq<Record>)
    requires |rs| == 250
    ensures |FullBatches(rs)| == 2
    ensures FullBatches(rs)[0] == rs[..100] && FullBatches(rs)[1] == rs[100..200]
    ensures Pending(rs) == rs[200..]
  {
    FullBatchAt(rs, 0);
    FullBatchAt(rs, 1);
  }

  /** The writer thread's state: the current batch, and logs of what it has done. */
  class BatchWriter {
    /** The destination producer, as the answers it gives to successive batched writes. */
    const producer: Producer
    /** The records received but not yet flushed (`batch_records`). */
    var batch: seq<Record>
    /** How many batched writes the writer has issued. */
    var writes: nat
    /** The batches flushed and confirmed, in order. */
    ghost var flushed: seq<seq<Record>>
    /** Every record received from the channel, in arrival order. */
    ghost var received: seq<Record>

    /** No loss, duplication or reordering: the flushed batches, then the buffer, are what arrived. */
    ghost predicate Consistent()
      reads this
    {
      Chunked(flushed) && Flatten(flushed) + batch == received
    }

    /** The state at the top of every iteration of the receive loop. */
    ghost predicate Valid()
      reads this
    {
      && Consistent()
      && |batch| < MaxBatch
      && writes == |flushed|
      && forall k | 0 <= k < |flushed| :: SendBatchOutcome(producer(k, flushed[k])).Success?
    }

    constructor (producer: Producer)
      ensures Valid()
      ensures this.producer == producer
      ensures batch == [] && flushed == [] && received == [] && writes == 0
    {
      this.producer := producer;
      batch := [];
      writes := 0;
      flushed := [];
      received := [];
    }

    /**
     * One iteration of the receive loop: push `r`, and if the batch has
     * reached the threshold, write it as one unit and clear it. A failed
     * write returns its error before the clear.
     */
    method Receive(r: Record) returns (outcome: Result<(), KafkaError>)
      requires Valid()
      modifies this
      ensures received == old(received) + [r]
      ensures Consistent()
      ensures |old(batch)| + 1 < MaxBatch ==>
        && outcome == Success(())
        && batch == old(batch) + [r] && flushed == old(flushed) && writes == old(writes)
      ensures |old(batch)| + 1 == MaxBatch ==>
        && writes == old(writes) + 1
        && outcome == SendBatchOutcome(producer(old(writes), old(batch) + [r]))
      ensures |old(batch)| + 1 == MaxBatch && outcome.Success? ==>
        batch == [] && flushed == old(flushed) + [old(batch) + [r]]
      ensures |old(batch)| + 1 == MaxBatch && outcome.Failure? ==>
        batch == old(batch) + [r] && flushed == old(flushed)
      ensures outcome.Success? ==> Valid()
    {
      batch := batch + [r];
      received := received + [r];
      if |batch| >= MaxBatch {
        var res := Check(producer(writes, batch));
        writes := writes + 1;
        if res.Failure? {
          return res;
        }
        FlattenAppend(flushed, [batch]);
        assert Flatten([batch]) == batch;
        flushed := flushed + [batch];
        batch := [];
      }
      outcome := Success(());
    }
  }

  /** The k-th batched write, of batch b, was confirmed. */
  ghost predicate WriteSucceeds(producer: Producer, k: nat, b: seq<Record>)
  {
    SendBatchOutcome(producer(k, b)).Success?
  }

  /**
   * How a writer over `inputs` ends when its k-th flush fails: the
   * earlier k flushes were confirmed, the k-th full batch was written and
   * rejected, it is still in the buffer (not cleared), and no record after
   * it was received.
   */
  ghost predicate StoppedAt(inputs: seq<Record>, producer: Producer, k: nat, outcome: Result<(), KafkaError>,
                            received: seq<Record>, flushed: seq<seq<Record>>, batch: seq<Record>)
  {
    var all := FullBatches(inputs);
    && k < |all|
    && (forall j | 0 <= j < k :: WriteSucceeds(producer, j, all[j]))
    && outcome == SendBatchOutcome(producer(k, all[k]))
    && outcome.Failure?
    && k * MaxBatch + MaxBatch <= |inputs|
    && received == inputs[..k * MaxBatch + MaxBatch]
    && flushed == all[..k]
    && batch == all[k]
  }

  /**
   * The writer thread over the records the channel delivers before it
   * closes. It ends normally when the input ends, or with the error of
   * the first failed flush.
   */
  method RunWriter(inputs: seq<Record>, producer: Producer) returns (w: BatchWriter, outcome: Result<(), KafkaError>)
    ensures fresh(w) && w.producer == producer
    ensures outcome.Success? <==>
      forall k | 0 <= k < |FullBatches(inputs)| :: WriteSucceeds(producer, k, FullBatches(inputs)[k])
    ensures outcome.Success? ==>
      && w.Valid() && w.received == inputs
      && w.flushed == FullBatches(inputs) && w.batch == Pending(inputs)
    ensures outcome.Failure? ==>
      && (exists k :: StoppedAt(inputs, producer, k, outcome, w.received, w.flushed, w.batch))
      && w.writes == |w.flushed| + 1
  {
    w := new BatchWriter(producer);
    var i := 0;
    while i < |inputs|
      invariant 0 <= i <= |inputs|
      invariant w.producer == producer
      invariant w.Valid() && w.received == inputs[..i]
      invariant w.flushed <= FullBatches(inputs)
    {
      ghost var before, pending := w.flushed, w.batch;
      var res := w.Receive(inputs[i]);
      assert inputs[..i] + [inputs[i]] == inputs[..i + 1];
      if res.Failure? {
        FailedFlush(inputs, producer, i, before, pending, res);
        return w, res;
      }
      LogIsPrefix(inputs, i + 1, w.flushed, w.batch);
      i := i + 1;
    }
    assert inputs[..i] == inputs;
    ChunkingUnique(w.flushed, w.batch, inputs);
    outcome := Success(());
  }

  /** A consistent writer that has seen a prefix of the stream has flushed a prefix of its batches. */
  lemma LogIsPrefix(inputs: seq<Record>, n: nat, flushed: seq<seq<Record>>, batch: seq<Record>)
    requires n <= |inputs|
    requires Chunked(flushed) && |batch| < MaxBatch && Flatten(flushed) + batch == inputs[..n]
    ensures flushed <= FullBatches(inputs)
  {
    ChunkingUnique(flushed, batch, inputs[..n]);
    FullBatchesOfPrefix(inputs, n);
  }

  /** Where the writer stands when the flush triggered by record i fails. */
  lemma FailedFlush(inputs: seq<Record>, producer: Producer, i: nat, before: seq<seq<Record>>,
                    pending: seq<Record>, outcome: Result<(), KafkaError>)
    requires i < |inputs|
    requires Chunked(before) && Flatten(before) + pending == inputs[..i]
    requires |pending| + 1 == MaxBatch
    requires forall j | 0 <= j < |before| :: WriteSucceeds(producer, j, before[j])
    requires outcome == SendBatchOutcome(producer(|before|, pending + [inputs[i]])) && outcome.Failure?
    ensures StoppedAt(inputs, producer, |before|, outcome, inputs[..i + 1], before, pending + [inputs[i]])
    ensures !forall k | 0 <= k < |FullBatches(inputs)| :: WriteSucceeds(producer, k, FullBatches(inputs)[k])
  {
    FailedFlushIndex(inputs, i, before, pending);
    FailedFlushContents(inputs, i, before, pending);
    var all, k := FullBatches(inputs), |before|;
    assert forall j | 0 <= j < k :: all[j] == before[j];
    assert !WriteSucceeds(producer, k, all[k]);
  }

  lemma FailedFlushIndex(inputs: seq<Record>, i: nat, before: seq<seq<Record>>, pending: seq<Record>)
    requires i < |inputs|
    requires Chunked(before) && Flatten(before) + pending == inputs[..i]
    requires |pending| + 1 == MaxBatch
    ensures i + 1 == |before| * MaxBatch + MaxBatch
    ensures |before| < |FullBatches(inputs)|
  {
    FlattenLength(before);
    assert |Flatten(before)| + |pending| == i;
    var all := FullBatches(inputs);
    assert |all| * MaxBatch + |Pending(inputs)| == |inputs|;
  }

  lemma FailedFlushContents(inputs: seq<Record>, i: nat, before: seq<seq<Record>>, pending: seq<Record>)
    requires i < |inputs|
    requires Chunked(before) && Flatten(before) + pending == inputs[..i]
    requires |pending| + 1 == MaxBatch
    requires i + 1 == |before| * MaxBatch + MaxBatch
    requires |before| < |FullBatches(inputs)|
    ensures before == FullBatches(inputs)[..|before|]
    ensures pending + [inputs[i]] == FullBatches(inputs)[|before|]
  {
    FailedFlushLog(inputs, i, before, pending);
    FailedFlushBuffer(inputs, i, before, pending);
  }

  lemma FailedFlushLog(inputs: seq<Record>, i: nat, before: seq<seq<Record>>, pending: seq<Record>)
    requires i < |inputs|
    requires Chunked(before) && Flatten(before) + pending == inputs[..i]
    requires |pending| < MaxBatch
    requires |before| <= |FullBatches(inputs)|
    ensures before == FullBatches(inputs)[..|before|]
  {
    ChunkingUnique(before, pending, inputs[..i]);
    FullBatchesOfPrefix(inputs, i);
  }

  lemma FailedFlushBuffer(inputs: seq<Record>, i: nat, before: seq<seq<Record>>, pending: seq<Record>)
    requires i < |inputs|
    requires Chunked(before) && Flatten(before) + pending == inputs[..i]
    requires i + 1 == |before| * MaxBatch + MaxBatch
    requires |before| < |FullBatches(inputs)|
    ensures pending + [inputs[i]] == FullBatches(inputs)[|before|]
  {
    var k := |before|;
    var lo := k * MaxBatch;
    FlattenLength(before);
    assert |Flatten(before)| == lo;
    assert inputs[..i][lo..] == pending;
    assert inputs[lo..i] == pending;
    FullBatchAt(inputs, k);
    SliceExtend(inputs, lo, i);
  }

  lemma SliceExtend(rs: seq<Record>, lo: nat, i: nat)
    requires lo <= i < |rs|
    ensures rs[lo..i + 1] == rs[lo..i] + [rs[i]]
  {
  }
}
