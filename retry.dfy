/**
 * The per-part retry protocol run by a worker: up to MaxRetries UploadPart
 * attempts; the first success acknowledges the part, a failure of the last
 * attempt aborts the session and ends the run.
 */
module RetryProtocol {
  import opened MultipartTypes
  import opened Partitioner

  /**
   * The network, as seen by the workers: the answer the service gives to
   * attempt `tryNum` (from 1) of part `partNumber`.
   */
  type Network = (nat, nat) -> Attempt

  /** The attempt that succeeded and the ETag it returned. */
  datatype Success = Success(tryNum: nat, etag: string)

  /** What one worker invocation yields for its task. */
  datatype PartOutcome =
    | Uploaded(part: CompletedPart)
    | Fatal(partNumber: nat)

  /**
   * Reference definition: the first successful attempt for part `p` among
   * attempts tryNum..MaxRetries, if any.
   */
  function FirstSuccess(network: Network, p: nat, tryNum: nat): (r: Option<Success>)
    requires tryNum >= 1
    ensures r.Some? ==>
              && tryNum <= r.value.tryNum <= MaxRetries
              && network(p, r.value.tryNum) == Ok(r.value.etag)
              && forall k :: tryNum <= k < r.value.tryNum ==> network(p, k).Fail?
    ensures r.None? <==> forall k :: tryNum <= k <= MaxRetries ==> network(p, k).Fail?
    decreases MaxRetries + 1 - tryNum
  {
    if tryNum > MaxRetries then None
    else match network(p, tryNum)
      case Ok(etag) => Some(Success(tryNum, etag))
      case Fail => FirstSuccess(network, p, tryNum + 1)
  }

  /** Part `p` exhausts its retries: every one of its MaxRetries attempts fails. */
  predicate PartFails(network: Network, p: nat)
  {
    FirstSuccess(network, p, 1).None?
  }

  /** The UploadPart calls of the first n attempts for a task, each sending `body`. */
  function AttemptCalls(task: UploadTask, body: seq<Byte>, n: nat): (calls: seq<ClientCall>)
    ensures |calls| == n
  {
    seq(n, _ => UploadPartCall(task.session, task.partNumber, body))
  }

  lemma {:induction false} AttemptCallsCounts(task: UploadTask, body: seq<Byte>, n: nat, p: nat)
    ensures UploadsOf(AttemptCalls(task, body, n), p) == if p == task.partNumber then n else 0
    ensures AbortsIn(AttemptCalls(task, body, n)) == 0
    ensures CompletesIn(AttemptCalls(task, body, n)) == 0
  {
    if n > 0 {
      AttemptCallsCounts(task, body, n - 1, p);
      assert AttemptCalls(task, body, n)[..n - 1] == AttemptCalls(task, body, n - 1);
    }
  }

  /**
   * The AbortMultipartUpload request issued when the last attempt fails: it
   * names the task's bucket, key and upload id, and is a single abort in a
   * call trace. Its own answer is only logged.
   */
  function AbortRequest(task: UploadTask): (c: ClientCall)
    ensures c.AbortCall? && c.session == task.session
    ensures AbortsIn([c]) == 1 && CompletesIn([c]) == 0
    ensures forall p :: UploadsOf([c], p) == 0
  {
    var c := AbortCall(task.session);
    assert [c][..0] == [];
    c
  }

  /**
   * One worker invocation on one task. The first successful attempt yields the
   * part's acknowledgement with that attempt's ETag and stops; when attempt
   * MaxRetries fails, the session is aborted and the outcome is fatal (the
   * source panics).
   */
  method UploadPart(task: UploadTask, buffer: seq<Byte>, network: Network) returns (outcome: PartOutcome, calls: seq<ClientCall>)
    requires task.offset + task.length <= |buffer|
    ensures match FirstSuccess(network, task.partNumber, 1)
      case Some(s) =>
        && outcome == Uploaded(CompletedPart(task.partNumber, s.etag))
        && calls == AttemptCalls(task, Payload(buffer, task), s.tryNum)
      case None =>
        && outcome == Fatal(task.partNumber)
        && calls == AttemptCalls(task, Payload(buffer, task), MaxRetries) + [AbortRequest(task)]
    ensures forall k :: 0 <= k < |calls| ==>
              && calls[k].session == task.session
              && (calls[k].UploadPartCall? ==>
                    calls[k].partNumber == task.partNumber && calls[k].body == Payload(buffer, task))
    ensures 1 <= UploadsOf(calls, task.partNumber) <= MaxRetries
    ensures forall q :: q != task.partNumber ==> UploadsOf(calls, q) == 0
    ensures AbortsIn(calls) == if outcome.Fatal? then 1 else 0
    ensures CompletesIn(calls) == 0
  {
    var body := Payload(buffer, task);
    outcome := Fatal(task.partNumber);
    calls := [];
    var tryNum := 1;
    while tryNum <= MaxRetries
      invariant 1 <= tryNum <= MaxRetries
      invariant FirstSuccess(network, task.partNumber, 1) == FirstSuccess(network, task.partNumber, tryNum)
      invariant calls == AttemptCalls(task, body, tryNum - 1)
      decreases MaxRetries - tryNum
    {
      calls := calls + [UploadPartCall(task.session, task.partNumber, body)];
      assert calls == AttemptCalls(task, body, tryNum);
      match network(task.partNumber, tryNum)
      case Fail =>
        if tryNum == MaxRetries {
          calls := calls + [AbortRequest(task)];
          outcome := Fatal(task.partNumber);
          break;
        }
        tryNum := tryNum + 1;
      case Ok(etag) =>
        outcome := Uploaded(CompletedPart(task.partNumber, etag));
        break;
    }
    if outcome.Fatal? {
      WorkerTraceFacts(task, body, tryNum, [AbortRequest(task)]);
    } else {
      assert calls == calls + [];
      WorkerTraceFacts(task, body, tryNum, []);
    }
  }

  /**
   * The trace of a worker on one task: n attempts, possibly followed by the
   * abort, hold n uploads of the task's part, each sending `body`, and every
   * call is on the task's session.
   */
  lemma WorkerTraceFacts(task: UploadTask, body: seq<Byte>, n: nat, tail: seq<ClientCall>)
    requires tail == [] || tail == [AbortRequest(task)]
    ensures UploadsOf(AttemptCalls(task, body, n) + tail, task.partNumber) == n
    ensures forall q :: q != task.partNumber ==> UploadsOf(AttemptCalls(task, body, n) + tail, q) == 0
    ensures AbortsIn(AttemptCalls(task, body, n) + tail) == |tail|
    ensures CompletesIn(AttemptCalls(task, body, n) + tail) == 0
    ensures forall k :: 0 <= k < n + |tail| ==>
              && (AttemptCalls(task, body, n) + tail)[k].session == task.session
              && ((AttemptCalls(task, body, n) + tail)[k].UploadPartCall? ==>
                    && (AttemptCalls(task, body, n) + tail)[k].partNumber == task.partNumber
                    && (AttemptCalls(task, body, n) + tail)[k].body == body)
  {
    var t := AttemptCalls(task, body, n);
    assert tail == [] ==> t + tail == t;
    forall q ensures UploadsOf(t + tail, q) == if q == task.partNumber then n else 0 {
      AttemptCallsCounts(task, body, n, q);
      CountsOfConcat(t, tail, q);
      assert UploadsOf(tail, q) == 0 by {
        if tail != [] {
          assert tail == [AbortRequest(task)];
        }
      }
    }
    AttemptCallsCounts(task, body, n, task.partNumber);
    CountsOfConcat(t, tail, task.partNumber);
    assert AbortsIn(tail) == |tail| && CompletesIn(tail) == 0 by {
      if tail != [] {
        assert tail == [AbortRequest(task)];
      }
    }
    forall k | 0 <= k < n + |tail|
      ensures (t + tail)[k].session == task.session
      ensures (t + tail)[k].UploadPartCall? ==> (t + tail)[k].partNumber == task.partNumber && (t + tail)[k].body == body
    {
      if k < n {
        assert (t + tail)[k] == t[k];
      } else {
        assert (t + tail)[k] == AbortRequest(task);
      }
    }
  }

  /** Failing on attempts 1..MaxRetries-1 and succeeding on attempt MaxRetries still acknowledges the part. */
  lemma LastAttemptSucceeds(network: Network, p: nat, etag: string)
    requires forall k :: 1 <= k < MaxRetries ==> network(p, k).Fail?
    requires network(p, MaxRetries) == Ok(etag)
    ensures FirstSuccess(network, p, 1) == Some(Success(MaxRetries, etag))
  {
    assert network(p, 1).Fail? && network(p, 2).Fail?;
  }
}
