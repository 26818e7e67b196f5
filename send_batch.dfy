/**
 * The acknowledgement check a flush performs after the batched write:
 * walk every produce confirmation and every partition confirmation in
 * order and fail with the first error code found.
 */
module SendBatch {
  import opened Wrappers
  import opened Client

  /** The first error code among one topic's partition confirmations, in order. */
  function FirstErrorIn(pcs: seq<PartitionConfirm>): Option<KafkaCode>
  {
    if pcs == [] then None
    else if pcs[0].offset.Failure? then Some(pcs[0].offset.error)
    else FirstErrorIn(pcs[1..])
  }

  /** The first error code over all confirmations, responses first, then partitions. */
  function FirstError(rs: seq<ProduceConfirm>): Option<KafkaCode>
  {
    if rs == [] then None
    else match FirstErrorIn(rs[0].partitionConfirms)
      case Some(c) => Some(c)
      case None => FirstError(rs[1..])
  }

  /** What a flush reports, given what the producer's batched write returned. */
  function SendBatchOutcome(sent: SendAllResult): Result<(), KafkaError>
  {
    match sent
    case Failure(e) => Failure(e)
    case Success(rs) =>
      match FirstError(rs)
      case None => Success(())
      case Some(c) => Failure(Kafka(c))
  }

  /** Every partition confirmation of every response reports an offset. */
  ghost predicate AllConfirmed(rs: seq<ProduceConfirm>)
  {
    forall i, j | 0 <= i < |rs| && 0 <= j < |rs[i].partitionConfirms| ::
      rs[i].partitionConfirms[j].offset.Success?
  }

  /**
   * Confirmation j of response i is an error, and every confirmation
   * before it in iteration order (earlier responses, then earlier
   * partitions of response i) reports an offset.
   */
  ghost predicate IsFirstFailure(rs: seq<ProduceConfirm>, i: int, j: int)
  {
    && 0 <= i < |rs| && 0 <= j < |rs[i].partitionConfirms|
    && rs[i].partitionConfirms[j].offset.Failure?
    && (forall i' , j' | 0 <= i' < i && 0 <= j' < |rs[i'].partitionConfirms| ::
          rs[i'].partitionConfirms[j'].offset.Success?)
    && (forall j' | 0 <= j' < j :: rs[i].partitionConfirms[j'].offset.Success?)
  }

  /**
   * `send_batch`: hand the batch to the producer (its answer is `sent`),
   * propagate a failed write, then return the error of the first
   * partition confirmation that carries one, or success.
   */
  method Check(sent: SendAllResult) returns (r: Result<(), KafkaError>)
    ensures r == SendBatchOutcome(sent)
  {
    if sent.Failure? {
      return Failure(sent.error);
    }
    var rs := sent.value;
    var i := 0;
    while i < |rs|
      invariant 0 <= i <= |rs|
      invariant FirstError(rs) == FirstError(rs[i..])
    {
      var pcs := rs[i].partitionConfirms;
      var j := 0;
      while j < |pcs|
        invariant 0 <= j <= |pcs|
        invariant FirstErrorIn(pcs) == FirstErrorIn(pcs[j..])
      {
        if pcs[j].offset.Failure? {
          return Failure(Kafka(pcs[j].offset.error));
        }
        assert pcs[j..][1..] == pcs[j + 1..];
        j := j + 1;
      }
      assert rs[i..][1..] == rs[i + 1..];
      i := i + 1;
    }
    return Success(());
  }

  lemma {:induction false} FirstErrorInNone(pcs: seq<PartitionConfirm>)
    ensures FirstErrorIn(pcs) == None <==> forall j | 0 <= j < |pcs| :: pcs[j].offset.Success?
  {
    if pcs != [] {
      FirstErrorInNone(pcs[1..]);
      if pcs[0].offset.Success? {
        assert forall j | 1 <= j < |pcs| :: pcs[j] == pcs[1..][j - 1];
      }
    }
  }

  lemma {:induction false} FirstErrorInSome(pcs: seq<PartitionConfirm>, j: int)
    requires 0 <= j < |pcs| && pcs[j].offset.Failure?
    requires forall j' | 0 <= j' < j :: pcs[j'].offset.Success?
    ensures FirstErrorIn(pcs) == Some(pcs[j].offset.error)
  {
    if j > 0 {
      FirstErrorInSome(pcs[1..], j - 1);
    }
  }

  lemma {:induction false} FirstErrorInFound(pcs: seq<PartitionConfirm>)
    requires FirstErrorIn(pcs).Some?
    ensures exists j | 0 <= j < |pcs| ::
      && pcs[j].offset == Failure(FirstErrorIn(pcs).value)
      && forall j' | 0 <= j' < j :: pcs[j'].offset.Success?
  {
    if pcs[0].offset.Success? {
      FirstErrorInFound(pcs[1..]);
      var j :| 0 <= j < |pcs[1..]| && pcs[1..][j].offset == Failure(FirstErrorIn(pcs[1..]).value)
        && forall j' | 0 <= j' < j :: pcs[1..][j'].offset.Success?;
      assert forall j' | 0 <= j' < j + 1 :: pcs[j'].offset.Success? by {
        forall j' | 0 <= j' < j + 1 ensures pcs[j'].offset.Success? {
          if j' > 0 { assert pcs[j'] == pcs[1..][j' - 1]; }
        }
      }
    } else {
      assert pcs[0].offset == Failure(FirstErrorIn(pcs).value);
    }
  }

  /** The whole walk finds nothing exactly when every confirmation is an offset. */
  lemma {:induction false} FirstErrorNone(rs: seq<ProduceConfirm>)
    ensures FirstError(rs) == None <==> AllConfirmed(rs)
  {
    if rs != [] {
      FirstErrorInNone(rs[0].partitionConfirms);
      FirstErrorNone(rs[1..]);
      if FirstErrorIn(rs[0].partitionConfirms) == None {
        assert forall i | 1 <= i < |rs| :: rs[i] == rs[1..][i - 1];
        assert AllConfirmed(rs[1..]) ==> AllConfirmed(rs);
      } else {
        assert !AllConfirmed(rs) by {
          var j :| 0 <= j < |rs[0].partitionConfirms| && rs[0].partitionConfirms[j].offset.Failure?;
        }
      }
    }
  }

  /** When the walk finds an error code, it is the code of a first failing confirmation. */
  lemma {:induction false} FirstErrorFound(rs: seq<ProduceConfirm>)
    requires FirstError(rs).Some?
    ensures exists i, j :: IsFirstFailure(rs, i, j) && rs[i].partitionConfirms[j].offset.error == FirstError(rs).value
  {
    var pcs := rs[0].partitionConfirms;
    if FirstErrorIn(pcs).Some? {
      FirstErrorInFound(pcs);
      var j :| 0 <= j < |pcs| && pcs[j].offset == Failure(FirstErrorIn(pcs).value)
        && forall j' | 0 <= j' < j :: pcs[j'].offset.Success?;
      assert IsFirstFailure(rs, 0, j);
    } else {
      FirstErrorInNone(pcs);
      FirstErrorFound(rs[1..]);
      var i, j :| IsFirstFailure(rs[1..], i, j)
        && rs[1..][i].partitionConfirms[j].offset.error == FirstError(rs[1..]).value;
      assert forall i' | 0 <= i' < i :: rs[1..][i'] == rs[i' + 1];
      assert IsFirstFailure(rs, i + 1, j);
    }
  }

  /** There is at most one first failing confirmation. */
  lemma FirstFailureUnique(rs: seq<ProduceConfirm>, i: int, j: int, i2: int, j2: int)
    requires IsFirstFailure(rs, i, j) && IsFirstFailure(rs, i2, j2)
    ensures i == i2 && j == j2
  {
  }

  /** The code the walk finds belongs to the first failing confirmation, and only to it. */
  lemma FirstErrorIsFirstFailure(rs: seq<ProduceConfirm>, c: KafkaCode)
    ensures FirstError(rs) == Some(c) <==>
      exists i, j :: IsFirstFailure(rs, i, j) && rs[i].partitionConfirms[j].offset.error == c
  {
    if FirstError(rs).Some? {
      FirstErrorFound(rs);
      var i, j :| IsFirstFailure(rs, i, j) && rs[i].partitionConfirms[j].offset.error == FirstError(rs).value;
      forall i2, j2 | IsFirstFailure(rs, i2, j2) ensures i2 == i && j2 == j {
        FirstFailureUnique(rs, i, j, i2, j2);
      }
    } else {
      FirstErrorNone(rs);
    }
  }

  /** A flush succeeds exactly when the write went through and every confirmation is an offset. */
  lemma SendBatchSucceedsIff(sent: SendAllResult)
    ensures SendBatchOutcome(sent).Success? <==> sent.Success? && AllConfirmed(sent.value)
  {
    if sent.Success? {
      FirstErrorNone(sent.value);
    }
  }

  /**
   * A flush whose write went through fails with the code of the first
   * failing confirmation in iteration order, never with another error.
   */
  lemma SendBatchReportsFirstFailure(rs: seq<ProduceConfirm>, e: KafkaError)
    ensures SendBatchOutcome(Success(rs)) == Failure(e) <==>
      exists i, j :: IsFirstFailure(rs, i, j) && e == Kafka(rs[i].partitionConfirms[j].offset.error)
  {
    if e.Kafka? {
      FirstErrorIsFirstFailure(rs, e.code);
    }
  }

  /** Partial success is failure: one rejected partition fails the whole flush. */
  lemma PartialSuccessFails(rs: seq<ProduceConfirm>, i: int, j: int)
    requires 0 <= i < |rs| && 0 <= j < |rs[i].partitionConfirms|
    requires rs[i].partitionConfirms[j].offset.Failure?
    ensures SendBatchOutcome(Success(rs)).Failure?
    ensures SendBatchOutcome(Success(rs)).error.Kafka?
  {
    FirstErrorNone(rs);
  }
}
