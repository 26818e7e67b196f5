/**
 * The source reader: the fallback-offset setting of the consumer and one
 * poll cycle of its loop. A cycle forwards every message of every polled
 * message set as a record on the handoff channel, marks each set consumed
 * once all its messages are handed off, and then commits once.
 */
module Reader {
  import opened Wrappers
  import opened Client

  /** Where a consumer group without a committed offset starts reading. */
  datatype FetchOffset = Earliest | Latest

  /** `auto_offset_reset`: "earliest" selects Earliest; "latest" and every other value select Latest. */
  function FallbackOffset(autoOffsetReset: string): (o: FetchOffset)
    ensures o == Earliest <==> autoOffsetReset == "earliest"
    ensures o == Latest <==> autoOffsetReset != "earliest"
  {
    match autoOffsetReset
    case "earliest" => Earliest
    case "latest" => Latest
    case _ => Latest
  }

  /** What one poll cycle does, in order: hand off a record, mark a message set consumed, commit. */
  datatype Event = Send(record: Record) | Consume(setIndex: nat) | Commit

  /** Why a cycle stopped the reader loop. */
  datatype ReaderError =
    | PollFailed(cause: KafkaError)
    | HandoffFailed
    | CommitFailed(cause: KafkaError)

  /** The records built from one message set, in message order. */
  function RecordsOf(topic: string, ms: seq<Message>): seq<Record>
  {
    seq(|ms|, k requires 0 <= k < |ms| => FromMessage(topic, ms[k]))
  }

  /** Every record the cycle forwards, message set by message set. */
  function Forwarded(topic: string, mss: seq<MessageSet>): seq<Record>
  {
    if mss == [] then []
    else Forwarded(topic, mss[..|mss| - 1]) + RecordsOf(topic, mss[|mss| - 1].messages)
  }

  /** The messages of the first i sets, in total. */
  function MessagesBefore(mss: seq<MessageSet>, i: nat): nat
    requires i <= |mss|
  {
    if i == 0 then 0 else MessagesBefore(mss, i - 1) + |mss[i - 1].messages|
  }

  function SendEvents(topic: string, ms: seq<Message>): seq<Event>
  {
    seq(|ms|, k requires 0 <= k < |ms| => Send(FromMessage(topic, ms[k])))
  }

  /** The events of a cycle that handles the first n sets without a failure. */
  function SetsTrace(topic: string, mss: seq<MessageSet>, n: nat): seq<Event>
    requires n <= |mss|
  {
    if n == 0 then []
    else SetsTrace(topic, mss, n - 1) + SendEvents(topic, mss[n - 1].messages) + [Consume(n - 1)]
  }

  /** The events of a cycle in which every handoff succeeds. */
  function CycleTrace(topic: string, mss: seq<MessageSet>): seq<Event>
  {
    SetsTrace(topic, mss, |mss|) + [Commit]
  }

  /** The records a trace hands off, in order. */
  function SentRecords(t: seq<Event>): seq<Record>
  {
    if t == [] then []
    else (if t[0].Send? then [t[0].record] else []) + SentRecords(t[1..])
  }

  /** The message sets a trace marks consumed, in order. */
  function ConsumedSets(t: seq<Event>): seq<nat>
  {
    if t == [] then []
    else (if t[0].Consume? then [t[0].setIndex] else []) + ConsumedSets(t[1..])
  }

  /** The indices 0 .. n-1 in increasing order. */
  function Upto(n: nat): seq<nat>
  {
    seq(n, i requires 0 <= i < n => i)
  }

  /** The k-th handoff of the cycle succeeds, for every k < n. */
  ghost predicate HandsOffAll(handoff: nat -> bool, n: nat)
  {
    forall q | 0 <= q < n :: handoff(q)
  }

  lemma ProjectionsAppend(a: seq<Event>, b: seq<Event>)
    ensures SentRecords(a + b) == SentRecords(a) + SentRecords(b)
    ensures ConsumedSets(a + b) == ConsumedSets(a) + ConsumedSets(b)
  {
    SentRecordsAppend(a, b);
    ConsumedSetsAppend(a, b);
  }

  lemma {:induction false} SentRecordsAppend(a: seq<Event>, b: seq<Event>)
    ensures SentRecords(a + b) == SentRecords(a) + SentRecords(b)
  {
    if a == [] {
      assert a + b == b;
    } else {
      assert (a + b)[0] == a[0];
      assert (a + b)[1..] == a[1..] + b;
      SentRecordsAppend(a[1..], b);
    }
  }

  lemma {:induction false} ConsumedSetsAppend(a: seq<Event>, b: seq<Event>)
    ensures ConsumedSets(a + b) == ConsumedSets(a) + ConsumedSets(b)
  {
    if a == [] {
      assert a + b == b;
    } else {
      assert (a + b)[0] == a[0];
      assert (a + b)[1..] == a[1..] + b;
      ConsumedSetsAppend(a[1..], b);
    }
  }

  lemma {:induction false} ProjectionsOfSends(topic: string, ms: seq<Message>)
    ensures SentRecords(SendEvents(topic, ms)) == RecordsOf(topic, ms)
    ensures ConsumedSets(SendEvents(topic, ms)) == []
  {
    if ms != [] {
      assert SendEvents(topic, ms)[1..] == SendEvents(topic, ms[1..]);
      assert RecordsOf(topic, ms) == [FromMessage(topic, ms[0])] + RecordsOf(topic, ms[1..]);
      ProjectionsOfSends(topic, ms[1..]);
    }
  }

  /**
   * After the first n sets the cycle has handed off exactly their records,
   * in order, and marked exactly those sets consumed, in order.
   */
  lemma {:induction false} SetsTraceProjections(topic: string, mss: seq<MessageSet>, n: nat)
    requires n <= |mss|
    ensures SentRecords(SetsTrace(topic, mss, n)) == Forwarded(topic, mss[..n])
    ensures ConsumedSets(SetsTrace(topic, mss, n)) == Upto(n)
  {
    if n > 0 {
      var prev, sends := SetsTrace(topic, mss, n - 1), SendEvents(topic, mss[n - 1].messages);
      SetsTraceProjections(topic, mss, n - 1);
      ProjectionsAppend(prev, sends);
      ProjectionsAppend(prev + sends, [Consume(n - 1)]);
      ProjectionsOfSends(topic, mss[n - 1].messages);
      calc {
        SentRecords(SetsTrace(topic, mss, n));
        SentRecords(prev) + SentRecords(sends) + SentRecords([Consume(n - 1)]);
        Forwarded(topic, mss[..n - 1]) + RecordsOf(topic, mss[n - 1].messages);
        { assert mss[..n][..n - 1] == mss[..n - 1]; }
        Forwarded(topic, mss[..n]);
      }
      calc {
        ConsumedSets(SetsTrace(topic, mss, n));
        ConsumedSets(prev) + ConsumedSets(sends) + ConsumedSets([Consume(n - 1)]);
        Upto(n - 1) + [n - 1];
        Upto(n);
      }
    }
  }

  /**
   * A complete cycle hands off every polled message as a record, in
   * message-set order and then message order, and marks every set
   * consumed exactly once, in order.
   */
  lemma CycleTraceProjections(topic: string, mss: seq<MessageSet>)
    ensures SentRecords(CycleTrace(topic, mss)) == Forwarded(topic, mss)
    ensures ConsumedSets(CycleTrace(topic, mss)) == Upto(|mss|)
  {
    SetsTraceProjections(topic, mss, |mss|);
    ProjectionsAppend(SetsTrace(topic, mss, |mss|), [Commit]);
    assert mss[..|mss|] == mss;
  }

  /**
   * Record j of set i is forwarded at position MessagesBefore(mss, i) + j
   * and carries the configured topic and the message's key and value
   * bytes unchanged.
   */
  lemma {:induction false} ForwardedAt(topic: string, mss: seq<MessageSet>, i: nat, j: nat)
    requires i < |mss| && j < |mss[i].messages|
    ensures |Forwarded(topic, mss)| == MessagesBefore(mss, |mss|)
    ensures MessagesBefore(mss, i) + j < |Forwarded(topic, mss)|
    ensures Forwarded(topic, mss)[MessagesBefore(mss, i) + j].topic == topic
    ensures Forwarded(topic, mss)[MessagesBefore(mss, i) + j].key == mss[i].messages[j].key
    ensures Forwarded(topic, mss)[MessagesBefore(mss, i) + j].value == mss[i].messages[j].value
    decreases |mss|
  {
    var init := mss[..|mss| - 1];
    assert forall n | 0 <= n <= |init| :: MessagesBefore(init, n) == MessagesBefore(mss, n) by {
      MessagesBeforeOfPrefix(mss, |init|);
    }
    if i < |mss| - 1 {
      ForwardedAt(topic, init, i, j);
      MessagesBeforeMonotonic(mss, i + 1, |mss| - 1);
    } else if |mss| > 1 {
      ForwardedLength(topic, init);
    }
    ForwardedLength(topic, mss);
  }

  lemma {:induction false} ForwardedLength(topic: string, mss: seq<MessageSet>)
    ensures |Forwarded(topic, mss)| == MessagesBefore(mss, |mss|)
    decreases |mss|
  {
    if mss != [] {
      var init := mss[..|mss| - 1];
      ForwardedLength(topic, init);
      MessagesBeforeOfPrefix(mss, |init|);
    }
  }

  lemma {:induction false} MessagesBeforeOfPrefix(mss: seq<MessageSet>, m: nat)
    requires m <= |mss|
    ensures forall n | 0 <= n <= m :: MessagesBefore(mss[..m], n) == MessagesBefore(mss, n)
  {
    forall n | 0 <= n <= m ensures MessagesBefore(mss[..m], n) == MessagesBefore(mss, n) {
      MessagesBeforeOfPrefixAt(mss, m, n);
    }
  }

  lemma {:induction false} MessagesBeforeOfPrefixAt(mss: seq<MessageSet>, m: nat, n: nat)
    requires n <= m <= |mss|
    ensures MessagesBefore(mss[..m], n) == MessagesBefore(mss, n)
    decreases n
  {
    if n > 0 {
      MessagesBeforeOfPrefixAt(mss, m, n - 1);
    }
  }

  lemma {:induction false} MessagesBeforeMonotonic(mss: seq<MessageSet>, a: nat, b: nat)
    requires a <= b <= |mss|
    ensures MessagesBefore(mss, a) <= MessagesBefore(mss, b)
    decreases b
  {
    if a < b {
      MessagesBeforeMonotonic(mss, a, b - 1);
    }
  }

  /** Marking a set consumed comes after handing off its messages and every earlier set's. */
  lemma {:induction false} ConsumeInSetsTrace(topic: string, mss: seq<MessageSet>, n: nat, p: nat)
    requires n <= |mss| && p < |SetsTrace(topic, mss, n)| && SetsTrace(topic, mss, n)[p].Consume?
    ensures SetsTrace(topic, mss, n)[p].setIndex < n
    ensures SentRecords(SetsTrace(topic, mss, n)[..p])
         == Forwarded(topic, mss[..SetsTrace(topic, mss, n)[p].setIndex + 1])
  {
    var prev, sends := SetsTrace(topic, mss, n - 1), SendEvents(topic, mss[n - 1].messages);
    assert SetsTrace(topic, mss, n) == prev + sends + [Consume(n - 1)];
    if p < |prev| {
      ConsumeInSetsTrace(topic, mss, n - 1, p);
      assert SetsTrace(topic, mss, n)[..p] == prev[..p];
    } else if p == |prev| + |sends| {
      assert SetsTrace(topic, mss, n)[..p] == prev + sends;
      SetsTraceProjections(topic, mss, n);
      ProjectionsAppend(prev + sends, [Consume(n - 1)]);
    }
  }

  /**
   * In a complete cycle, when set i is marked consumed, the records handed
   * off so far are exactly those of sets 0 .. i, in order.
   */
  lemma ConsumeAfterItsMessages(topic: string, mss: seq<MessageSet>, p: nat)
    requires p < |CycleTrace(topic, mss)| && CycleTrace(topic, mss)[p].Consume?
    ensures CycleTrace(topic, mss)[p].setIndex < |mss|
    ensures SentRecords(CycleTrace(topic, mss)[..p])
         == Forwarded(topic, mss[..CycleTrace(topic, mss)[p].setIndex + 1])
  {
    var sets := SetsTrace(topic, mss, |mss|);
    assert p < |sets|;
    assert CycleTrace(topic, mss)[..p] == sets[..p];
    ConsumeInSetsTrace(topic, mss, |mss|, p);
  }

  lemma {:induction false} NoCommitInSetsTrace(topic: string, mss: seq<MessageSet>, n: nat)
    requires n <= |mss|
    ensures forall p | 0 <= p < |SetsTrace(topic, mss, n)| :: !SetsTrace(topic, mss, n)[p].Commit?
  {
    if n > 0 {
      NoCommitInSetsTrace(topic, mss, n - 1);
    }
  }

  /** A complete cycle commits exactly once, as its last event. */
  lemma CommitOnceLast(topic: string, mss: seq<MessageSet>)
    ensures CycleTrace(topic, mss)[|CycleTrace(topic, mss)| - 1] == Commit
    ensures forall p | 0 <= p < |CycleTrace(topic, mss)| - 1 :: !CycleTrace(topic, mss)[p].Commit?
  {
    NoCommitInSetsTrace(topic, mss, |mss|);
  }

  lemma {:induction false} SetsTracePrefix(topic: string, mss: seq<MessageSet>, n: nat, m: nat)
    requires n <= m <= |mss|
    ensures SetsTrace(topic, mss, n) <= SetsTrace(topic, mss, m)
    decreases m
  {
    if n < m {
      SetsTracePrefix(topic, mss, n, m - 1);
    }
  }

  /**
   * The events up to the refusal of the handoff of message j of set i
   * are the start of the complete cycle, followed there by that handoff.
   */
  lemma RefusedHandoff(topic: string, mss: seq<MessageSet>, i: nat, j: nat)
    requires i < |mss| && j < |mss[i].messages|
    ensures SetsTrace(topic, mss, i) + SendEvents(topic, mss[i].messages[..j])
          + [Send(FromMessage(topic, mss[i].messages[j]))] <= CycleTrace(topic, mss)
  {
    var ms := mss[i].messages;
    assert SendEvents(topic, ms[..j]) + [Send(FromMessage(topic, ms[j]))] <= SendEvents(topic, ms);
    SetsTracePrefix(topic, mss, i + 1, |mss|);
  }

  /**
   * One poll cycle of the reader loop. `polled` is what the poll
   * returned, `handoff(k)` whether the k-th channel send of the cycle
   * succeeds, `committed` what the commit returns. The trace records the
   * handoffs that succeeded, the sets marked consumed and the commit
   * request, in the order they happen.
   */
  method PollCycle(topic: string, polled: Result<seq<MessageSet>, KafkaError>, handoff: nat -> bool,
                   committed: Result<(), KafkaError>)
    returns (trace: seq<Event>, outcome: Result<(), ReaderError>)
    ensures polled.Failure? ==> trace == [] && outcome == Failure(PollFailed(polled.error))
    ensures polled.Success? && HandsOffAll(handoff, |Forwarded(topic, polled.value)|) ==>
      && trace == CycleTrace(topic, polled.value)
      && outcome == if committed.Success? then Success(()) else Failure(CommitFailed(committed.error))
    ensures polled.Success? && !HandsOffAll(handoff, |Forwarded(topic, polled.value)|) ==>
      && outcome == Failure(HandoffFailed)
      && HandsOffAll(handoff, |SentRecords(trace)|) && !handoff(|SentRecords(trace)|)
      && (exists r :: trace + [Send(r)] <= CycleTrace(topic, polled.value))
      && forall p | 0 <= p < |trace| :: !trace[p].Commit?
  {
    if polled.Failure? {
      return [], Failure(PollFailed(polled.error));
    }
    var mss := polled.value;
    CycleTraceProjections(topic, mss);
    trace := [];
    var sent := 0;
    var i := 0;
    while i < |mss|
      invariant 0 <= i <= |mss|
      invariant trace == SetsTrace(topic, mss, i)
      invariant sent == |SentRecords(trace)|
      invariant HandsOffAll(handoff, sent)
    {
      var ms := mss[i].messages;
      var j := 0;
      while j < |ms|
        invariant 0 <= j <= |ms|
        invariant trace == SetsTrace(topic, mss, i) + SendEvents(topic, ms[..j])
        invariant sent == |SentRecords(trace)|
        invariant HandsOffAll(handoff, sent)
      {
        var rcd := FromMessage(topic, ms[j]);
        if !handoff(sent) {
          RefusedHandoff(topic, mss, i, j);
          assert trace + [Send(rcd)] <= CycleTrace(topic, mss);
          RefusalBeforeEnd(topic, mss, trace, rcd);
          assert !HandsOffAll(handoff, |Forwarded(topic, mss)|);
          return trace, Failure(HandoffFailed);
        }
        ProjectionsAppend(trace, [Send(rcd)]);
        assert SendEvents(topic, ms[..j + 1]) == SendEvents(topic, ms[..j]) + [Send(rcd)];
        trace := trace + [Send(rcd)];
        sent := sent + 1;
        j := j + 1;
      }
      assert ms[..j] == ms;
      ProjectionsAppend(trace, [Consume(i)]);
      trace := trace + [Consume(i)];
      i := i + 1;
    }
    ProjectionsAppend(trace, [Commit]);
    trace := trace + [Commit];
    assert trace == CycleTrace(topic, mss);
    assert sent == |Forwarded(topic, mss)|;
    if committed.Failure? {
      return trace, Failure(CommitFailed(committed.error));
    }
    return trace, Success(());
  }

  /** A trace that stops at a refused handoff hands off fewer records than the complete cycle and has not committed. */
  lemma RefusalBeforeEnd(topic: string, mss: seq<MessageSet>, trace: seq<Event>, r: Record)
    requires trace + [Send(r)] <= CycleTrace(topic, mss)
    ensures |SentRecords(trace)| < |Forwarded(topic, mss)|
    ensures forall p | 0 <= p < |trace| :: !trace[p].Commit?
  {
    var full := CycleTrace(topic, mss);
    var rest := full[|trace| + 1..];
    assert full == trace + [Send(r)] + rest;
    ProjectionsAppend(trace + [Send(r)], rest);
    ProjectionsAppend(trace, [Send(r)]);
    CycleTraceProjections(topic, mss);
    CommitOnceLast(topic, mss);
    assert forall p | 0 <= p < |trace| :: trace[p] == full[p];
  }
}
