/**
 * The upload coordinator, run sequentially: open the session, cut the file
 * into tasks, let workers take the tasks one at a time in an arbitrary order,
 * and either finalize with the sorted acknowledgements or stop on the first
 * part whose retries run out (that worker has already aborted the session).
 */
module UploadCoordinator {
  import opened MultipartTypes
  import opened Partitioner
  import opened RetryProtocol
  import opened ResultAggregator

  /** How an upload ends. */
  datatype UploadResult =
    | InitiateFailed                             // CreateMultipartUpload failed: nothing dispatched
    | Aborted(failedPart: nat)                   // a part exhausted its retries; the session was aborted
    | Completed(parts: seq<CompletedPart>)       // CompleteMultipartUpload accepted these parts
    | FinalizeFailed(parts: seq<CompletedPart>)  // CompleteMultipartUpload was called with these parts and refused

  /**
   * The order in which the workers take the tasks: every task index 0..n-1
   * exactly once (each task is received by exactly one worker).
   */
  predicate IsSchedule(order: seq<nat>, n: nat)
  {
    && |order| == n
    && (forall i :: 0 <= i < n ==> order[i] < n)
    && (forall i, j :: 0 <= i < j < n ==> order[i] != order[j])
  }

  /** Every part 1..n gets an acknowledgement within its MaxRetries attempts. */
  predicate AllPartsSucceed(network: Network, n: nat)
  {
    forall p :: 1 <= p <= n ==> !PartFails(network, p)
  }

  /** The acknowledgement part `p` yields: its number and the ETag of its first successful attempt. */
  function ExpectedPart(network: Network, p: nat): (c: CompletedPart)
    requires !PartFails(network, p)
    ensures c.partNumber == p
  {
    CompletedPart(p, FirstSuccess(network, p, 1).value.etag)
  }

  /** The attempt on which part `p` first succeeds: the number of UploadPart calls its worker makes. */
  function SuccessfulTry(network: Network, p: nat): (n: nat)
    requires !PartFails(network, p)
    ensures 1 <= n <= MaxRetries && network(p, n).Ok?
    ensures forall k :: 1 <= k < n ==> network(p, k).Fail?
  {
    FirstSuccess(network, p, 1).value.tryNum
  }

  /** The list finalize must receive when every part succeeds: parts 1..n in order. */
  function ExpectedParts(network: Network, n: nat): (parts: seq<CompletedPart>)
    requires AllPartsSucceed(network, n)
    ensures |parts| == n && StrictlyAscending(parts)
    ensures forall i :: 0 <= i < n ==> parts[i] == ExpectedPart(network, i + 1)
  {
    seq(n, i requires 0 <= i < n => ExpectedPart(network, i + 1))
  }

  /**
   * The CompleteMultipartUpload request: it names the session's bucket, key
   * and upload id and carries the part list, and is a single finalize in a
   * call trace.
   */
  function CompleteRequest(session: Session, parts: seq<CompletedPart>): (c: ClientCall)
    ensures c.CompleteCall? && c.session == session && c.parts == parts
    ensures CompletesIn([c]) == 1 && AbortsIn([c]) == 0
    ensures forall p :: UploadsOf([c], p) == 0
  {
    var c := CompleteCall(session, parts);
    assert [c][..0] == [];
    c
  }

  /** Every task of the plan lies within the file buffer. */
  predicate TasksInBuffer(tasks: seq<UploadTask>, buffer: seq<Byte>)
  {
    forall i :: 0 <= i < |tasks| ==> tasks[i].offset + tasks[i].length <= |buffer|
  }

  /**
   * Every call is on the open session, and every UploadPart call sends the
   * payload of the task with that part number.
   */
  predicate CallsFollowTasks(calls: seq<ClientCall>, tasks: seq<UploadTask>, session: Session, buffer: seq<Byte>)
    requires TasksInBuffer(tasks, buffer)
  {
    forall k :: 0 <= k < |calls| ==>
      && calls[k].session == session
      && (calls[k].UploadPartCall? ==>
            && 1 <= calls[k].partNumber <= |tasks|
            && calls[k].body == Payload(buffer, tasks[calls[k].partNumber - 1]))
  }

  lemma CallsFollowConcat(a: seq<ClientCall>, b: seq<ClientCall>, tasks: seq<UploadTask>, session: Session, buffer: seq<Byte>)
    requires TasksInBuffer(tasks, buffer)
    requires CallsFollowTasks(a, tasks, session, buffer) && CallsFollowTasks(b, tasks, session, buffer)
    ensures CallsFollowTasks(a + b, tasks, session, buffer)
  {
    forall k | 0 <= k < |a + b| ensures (a + b)[k] == if k < |a| then a[k] else b[k - |a|] {
    }
  }

  /** The calls of one worker on task j of the plan follow the plan. */
  lemma WorkerCallsFollow(workerCalls: seq<ClientCall>, tasks: seq<UploadTask>, j: nat, session: Session, buffer: seq<Byte>)
    requires TasksInBuffer(tasks, buffer) && j < |tasks|
    requires tasks[j].partNumber == j + 1 && tasks[j].session == session
    requires forall k :: 0 <= k < |workerCalls| ==>
               && workerCalls[k].session == tasks[j].session
               && (workerCalls[k].UploadPartCall? ==>
                     workerCalls[k].partNumber == tasks[j].partNumber && workerCalls[k].body == Payload(buffer, tasks[j]))
    ensures CallsFollowTasks(workerCalls, tasks, session, buffer)
  {
  }

  /**
   * For the plan of the file: every call is on the session, and every
   * UploadPart call sends exactly the slice of the file its part number names.
   */
  lemma {:induction false} PlanCallsAreSlices(calls: seq<ClientCall>, tasks: seq<UploadTask>, session: Session, buffer: seq<Byte>)
    requires IsPlan(tasks, |buffer|, MaxPartSize, session) && TasksInBuffer(tasks, buffer)
    requires CallsFollowTasks(calls, tasks, session, buffer)
    ensures forall k :: 0 <= k < |calls| ==>
              && calls[k].session == session
              && (calls[k].UploadPartCall? ==>
                    && 1 <= calls[k].partNumber <= PartCount(|buffer|, MaxPartSize)
                    && calls[k].body == PartSlice(buffer, MaxPartSize, calls[k].partNumber))
  {
    PlanPayloads(buffer, tasks, MaxPartSize, session);
    forall k | 0 <= k < |calls| && calls[k].UploadPartCall?
      ensures calls[k].body == PartSlice(buffer, MaxPartSize, calls[k].partNumber)
    {
      var i := calls[k].partNumber - 1;
      assert calls[k].body == Payload(buffer, tasks[i]);
    }
  }

  /** The acknowledgements of a schedule carry pairwise distinct part numbers in 1..n. */
  lemma ScheduledArrivalsDistinct(network: Network, order: seq<nat>, n: nat, arrivals: seq<CompletedPart>)
    requires IsSchedule(order, n) && |arrivals| == n
    requires forall j :: 0 <= j < n ==> arrivals[j].partNumber == order[j] + 1
    ensures DistinctParts(arrivals)
    ensures forall j :: 0 <= j < n ==> 1 <= arrivals[j].partNumber <= n
  {
    forall i, j | 0 <= i < j < n ensures arrivals[i].partNumber != arrivals[j].partNumber {
      assert order[i] != order[j];
    }
  }

  /** A schedule reaches every task: each index 0..n-1 occurs in it. */
  lemma ScheduleReachesAll(network: Network, order: seq<nat>, n: nat, arrivals: seq<CompletedPart>)
    requires IsSchedule(order, n) && |arrivals| == n
    requires forall j :: 0 <= j < n ==> arrivals[j].partNumber == order[j] + 1
    ensures forall k :: 0 <= k < n ==> k in order
  {
    ScheduledArrivalsDistinct(network, order, n, arrivals);
    CollectedPartsCoverAll(arrivals, n);
    forall k | 0 <= k < n ensures k in order {
      assert k + 1 in PartRange(n);
      var j :| 0 <= j < n && arrivals[j].partNumber == k + 1;
      assert order[j] == k;
    }
  }

  /** When every task of a schedule has reported, every part 1..n has succeeded. */
  lemma ScheduleAllSucceed(network: Network, order: seq<nat>, n: nat)
    requires IsSchedule(order, n)
    requires forall k :: 0 <= k < n ==> k in order
    requires forall j :: 0 <= j < n ==> !PartFails(network, order[j] + 1)
    ensures AllPartsSucceed(network, n)
  {
    forall p | 1 <= p <= n ensures !PartFails(network, p) {
      assert p - 1 in order;
      var j :| 0 <= j < n && order[j] == p - 1;
    }
  }

  /** The arrivals of a complete schedule are exactly the expected acknowledgements, in some order. */
  lemma ArrivalsAreExpected(network: Network, order: seq<nat>, n: nat, arrivals: seq<CompletedPart>)
    requires IsSchedule(order, n) && |arrivals| == n
    requires forall k :: 0 <= k < n ==> k in order
    requires AllPartsSucceed(network, n)
    requires forall j :: 0 <= j < n ==> arrivals[j] == ExpectedPart(network, order[j] + 1)
    ensures forall x :: x in arrivals <==> x in ExpectedParts(network, n)
  {
    var expected := ExpectedParts(network, n);
    forall x | x in arrivals ensures x in expected {
      var j :| 0 <= j < n && arrivals[j] == x;
      assert expected[order[j]] == x;
    }
    forall x | x in expected ensures x in arrivals {
      var i :| 0 <= i < n && expected[i] == x;
      assert i in order;
      var j :| 0 <= j < n && order[j] == i;
      assert arrivals[j] == x;
    }
  }

  /**
   * Whatever the order the acknowledgements arrived in: once all n tasks of a
   * schedule have reported, every part 1..n succeeded, and sorting the
   * arrivals yields exactly parts 1..n with their ETags, strictly ascending.
   */
  lemma ArrivalsSortToExpected(network: Network, order: seq<nat>, n: nat, arrivals: seq<CompletedPart>, sorted: seq<CompletedPart>)
    requires IsSchedule(order, n) && |arrivals| == n
    requires forall j :: 0 <= j < n ==>
               !PartFails(network, order[j] + 1) && arrivals[j] == ExpectedPart(network, order[j] + 1)
    requires SortedByPartNumber(sorted) && multiset(sorted) == multiset(arrivals)
    ensures AllPartsSucceed(network, n)
    ensures sorted == ExpectedParts(network, n)
  {
    ScheduledArrivalsDistinct(network, order, n, arrivals);
    ScheduleReachesAll(network, order, n, arrivals);
    ScheduleAllSucceed(network, order, n);
    ArrivalsAreExpected(network, order, n, arrivals);
    var expected := ExpectedParts(network, n);
    SameEntriesPermutation(arrivals, expected);
    SortedPermutationUnique(sorted, expected);
  }

  /** The first |arrivals| tasks of the schedule succeeded, and reported in schedule order. */
  ghost predicate ArrivalsMatch(network: Network, order: seq<nat>, arrivals: seq<CompletedPart>)
  {
    && |arrivals| <= |order|
    && forall j :: 0 <= j < |arrivals| ==>
         !PartFails(network, order[j] + 1) && arrivals[j] == ExpectedPart(network, order[j] + 1)
  }

  /** Once every task of the schedule has reported, the acknowledgements carry exactly the part numbers 1..n. */
  lemma ArrivalsCoverParts(network: Network, order: seq<nat>, n: nat, arrivals: seq<CompletedPart>)
    requires IsSchedule(order, n) && |arrivals| == n && ArrivalsMatch(network, order, arrivals)
    ensures PartNumbers(arrivals) == PartRange(n)
  {
    ScheduledArrivalsDistinct(network, order, n, arrivals);
    CollectedPartsCoverAll(arrivals, n);
  }

  /** One more task of the schedule reported its expected acknowledgement. */
  lemma ArrivalsExtend(network: Network, order: seq<nat>, arrivals: seq<CompletedPart>, part: CompletedPart)
    requires ArrivalsMatch(network, order, arrivals) && |arrivals| < |order|
    requires !PartFails(network, order[|arrivals|] + 1)
    requires part == ExpectedPart(network, order[|arrivals|] + 1)
    ensures ArrivalsMatch(network, order, arrivals + [part])
  {
  }

  /**
   * The state of the worker pool after the first |arrivals| tasks of the
   * schedule have reported: no abort and no finalize sent, every part
   * attempted at most MaxRetries times, and parts not yet taken not at all.
   */
  ghost predicate DispatchState(network: Network, order: seq<nat>, arrivals: seq<CompletedPart>, calls: seq<ClientCall>)
  {
    && ArrivalsMatch(network, order, arrivals)
    && AbortsIn(calls) == 0 && CompletesIn(calls) == 0
    && (forall p :: UploadsOf(calls, p) <= MaxRetries)
    && (forall p :: p !in PartNumbers(arrivals) ==> UploadsOf(calls, p) == 0)
    && (forall p :: p in PartNumbers(arrivals) ==>
          !PartFails(network, p) && UploadsOf(calls, p) == SuccessfulTry(network, p))
  }

  /** The next task of a schedule has not been attempted yet. */
  lemma NextTaskUntouched(network: Network, order: seq<nat>, n: nat, arrivals: seq<CompletedPart>)
    requires IsSchedule(order, n) && ArrivalsMatch(network, order, arrivals) && |arrivals| < n
    ensures order[|arrivals|] + 1 !in PartNumbers(arrivals)
  {
    var i := |arrivals|;
    forall j | 0 <= j < i ensures arrivals[j].partNumber != order[i] + 1 {
      assert arrivals[j] == ExpectedPart(network, order[j] + 1);
      assert order[j] != order[i];
    }
  }

  /** Appending one worker's calls adds up the per-part attempt, abort and finalize counts. */
  lemma WorkerCallsCounted(calls: seq<ClientCall>, workerCalls: seq<ClientCall>, arrivals: seq<CompletedPart>, pn: nat)
    requires forall p :: UploadsOf(calls, p) <= MaxRetries
    requires forall p :: p !in PartNumbers(arrivals) ==> UploadsOf(calls, p) == 0
    requires pn !in PartNumbers(arrivals) && UploadsOf(workerCalls, pn) <= MaxRetries
    requires forall q :: q != pn ==> UploadsOf(workerCalls, q) == 0
    ensures forall p :: UploadsOf(calls + workerCalls, p) <= MaxRetries
    ensures forall p :: p !in PartNumbers(arrivals) && p != pn ==> UploadsOf(calls + workerCalls, p) == 0
    ensures AbortsIn(calls + workerCalls) == AbortsIn(calls) + AbortsIn(workerCalls)
    ensures CompletesIn(calls + workerCalls) == CompletesIn(calls) + CompletesIn(workerCalls)
  {
    forall p ensures UploadsOf(calls + workerCalls, p) == UploadsOf(calls, p) + UploadsOf(workerCalls, p) {
      CountsOfConcat(calls, workerCalls, p);
    }
    CountsOfConcat(calls, workerCalls, pn);
  }

  /** The worker of the next task succeeded: its acknowledgement arrives and the state is kept. */
  lemma UploadedStep(network: Network, order: seq<nat>, n: nat, arrivals: seq<CompletedPart>,
                     calls: seq<ClientCall>, workerCalls: seq<ClientCall>, part: CompletedPart)
    requires IsSchedule(order, n) && |arrivals| < n
    requires DispatchState(network, order, arrivals, calls)
    requires !PartFails(network, order[|arrivals|] + 1)
    requires part == ExpectedPart(network, order[|arrivals|] + 1)
    requires UploadsOf(workerCalls, part.partNumber) == SuccessfulTry(network, part.partNumber)
    requires forall q :: q != part.partNumber ==> UploadsOf(workerCalls, q) == 0
    requires AbortsIn(workerCalls) == 0 && CompletesIn(workerCalls) == 0
    ensures DispatchState(network, order, arrivals + [part], calls + workerCalls)
  {
    NextTaskUntouched(network, order, n, arrivals);
    WorkerCallsCounted(calls, workerCalls, arrivals, part.partNumber);
    ArrivalsExtend(network, order, arrivals, part);
    SucceededCounted(network, arrivals, calls, workerCalls, part);
  }

  /** The parts acknowledged so far, with `part` added, were each sent exactly as often as their first successful try. */
  lemma SucceededCounted(network: Network, arrivals: seq<CompletedPart>, calls: seq<ClientCall>,
                         workerCalls: seq<ClientCall>, part: CompletedPart)
    requires forall p :: p in PartNumbers(arrivals) ==>
               !PartFails(network, p) && UploadsOf(calls, p) == SuccessfulTry(network, p)
    requires part.partNumber !in PartNumbers(arrivals) && !PartFails(network, part.partNumber)
    requires forall p :: p !in PartNumbers(arrivals) ==> UploadsOf(calls, p) == 0
    requires UploadsOf(workerCalls, part.partNumber) == SuccessfulTry(network, part.partNumber)
    requires forall q :: q != part.partNumber ==> UploadsOf(workerCalls, q) == 0
    ensures forall p :: p in PartNumbers(arrivals + [part]) ==>
              !PartFails(network, p) && UploadsOf(calls + workerCalls, p) == SuccessfulTry(network, p)
  {
    var after := PartNumbers(arrivals + [part]);
    assert after == PartNumbers(arrivals) + {part.partNumber};
    forall p | p in after
      ensures !PartFails(network, p) && UploadsOf(calls + workerCalls, p) == SuccessfulTry(network, p)
    {
      CountsOfConcat(calls, workerCalls, p);
    }
  }

  /** The worker of the next task exhausted its retries: the trace now holds its MaxRetries attempts and one abort. */
  lemma FatalStep(network: Network, order: seq<nat>, n: nat, arrivals: seq<CompletedPart>,
                  calls: seq<ClientCall>, workerCalls: seq<ClientCall>, pn: nat)
    requires IsSchedule(order, n) && |arrivals| < n && pn == order[|arrivals|] + 1
    requires DispatchState(network, order, arrivals, calls)
    requires UploadsOf(workerCalls, pn) == MaxRetries
    requires forall q :: q != pn ==> UploadsOf(workerCalls, q) == 0
    requires AbortsIn(workerCalls) == 1 && CompletesIn(workerCalls) == 0
    ensures AbortsIn(calls + workerCalls) == 1 && CompletesIn(calls + workerCalls) == 0
    ensures forall p :: UploadsOf(calls + workerCalls, p) <= MaxRetries
    ensures UploadsOf(calls + workerCalls, pn) == MaxRetries
  {
    NextTaskUntouched(network, order, n, arrivals);
    forall p ensures UploadsOf(calls + workerCalls, p) == UploadsOf(calls, p) + UploadsOf(workerCalls, p) {
      CountsOfConcat(calls, workerCalls, p);
    }
    CountsOfConcat(calls, workerCalls, 0);
  }

  /**
   * A worker receives task j of the plan from the queue and runs the retry
   * protocol on it: either part j + 1 succeeds and its expected
   * acknowledgement is sent, or every attempt fails and the worker's last call
   * aborts the session. Its calls follow the plan.
   */
  method TakeTask(tasks: seq<UploadTask>, j: nat, session: Session, buffer: seq<Byte>, network: Network)
    returns (outcome: PartOutcome, workerCalls: seq<ClientCall>)
    requires TasksInBuffer(tasks, buffer) && j < |tasks|
    requires tasks[j].partNumber == j + 1 && tasks[j].session == session
    ensures outcome.Uploaded? ==> !PartFails(network, j + 1) && outcome.part == ExpectedPart(network, j + 1)
    ensures outcome.Fatal? ==>
              && outcome.partNumber == j + 1 && PartFails(network, j + 1)
              && |workerCalls| > 0 && workerCalls[|workerCalls| - 1] == AbortCall(session)
    ensures outcome.Uploaded? ==> UploadsOf(workerCalls, j + 1) == SuccessfulTry(network, j + 1)
    ensures outcome.Fatal? ==> UploadsOf(workerCalls, j + 1) == MaxRetries
    ensures forall q :: q != j + 1 ==> UploadsOf(workerCalls, q) == 0
    ensures AbortsIn(workerCalls) == (if outcome.Fatal? then 1 else 0) && CompletesIn(workerCalls) == 0
    ensures CallsFollowTasks(workerCalls, tasks, session, buffer)
  {
    outcome, workerCalls := UploadPart(tasks[j], buffer, network);
    var body := Payload(buffer, tasks[j]);
    if outcome.Fatal? {
      WorkerTraceFacts(tasks[j], body, MaxRetries, [AbortRequest(tasks[j])]);
    } else {
      AttemptCallsCounts(tasks[j], body, SuccessfulTry(network, j + 1), j + 1);
    }
    WorkerCallsFollow(workerCalls, tasks, j, session, buffer);
  }

  /**
   * The worker pool, run one task at a time: the tasks are taken in the order
   * `order`, each by one worker invocation, until all have reported or one
   * part exhausts its retries (its worker has then aborted the session and the
   * run stops). `arrivals` are the acknowledgements in arrival order.
   */
  method DispatchTasks(tasks: seq<UploadTask>, session: Session, buffer: seq<Byte>, network: Network, order: seq<nat>)
    returns (failed: Option<nat>, arrivals: seq<CompletedPart>, calls: seq<ClientCall>)
    requires forall i :: 0 <= i < |tasks| ==> tasks[i].partNumber == i + 1 && tasks[i].session == session
    requires TasksInBuffer(tasks, buffer)
    requires IsSchedule(order, |tasks|)
    ensures failed.None? ==>
              && |arrivals| == |tasks|
              && ArrivalsMatch(network, order, arrivals)
              && AbortsIn(calls) == 0 && CompletesIn(calls) == 0
              && forall p :: 1 <= p <= |tasks| ==>
                   !PartFails(network, p) && UploadsOf(calls, p) == SuccessfulTry(network, p)
    ensures failed.Some? ==>
              && 1 <= failed.value <= |tasks| && PartFails(network, failed.value)
              && UploadsOf(calls, failed.value) == MaxRetries
              && AbortsIn(calls) == 1 && CompletesIn(calls) == 0
              && calls[|calls| - 1] == AbortCall(session)
    ensures forall p :: UploadsOf(calls, p) <= MaxRetries
    ensures CallsFollowTasks(calls, tasks, session, buffer)
  {
    calls := [];
    arrivals := [];
    var i := 0;
    while i < |order|
      invariant 0 <= i <= |order| && |arrivals| == i
      invariant DispatchState(network, order, arrivals, calls)
      invariant CallsFollowTasks(calls, tasks, session, buffer)
    {
      var outcome, workerCalls := TakeTask(tasks, order[i], session, buffer, network);
      CallsFollowConcat(calls, workerCalls, tasks, session, buffer);
      match outcome
      case Fatal(p) =>
        FatalStep(network, order, |tasks|, arrivals, calls, workerCalls, p);
        calls := calls + workerCalls;
        return Some(p), arrivals, calls;
      case Uploaded(part) =>
        UploadedStep(network, order, |tasks|, arrivals, calls, workerCalls, part);
        calls := calls + workerCalls;
        arrivals := arrivals + [part];
      i := i + 1;
    }
    DispatchDone(network, order, |tasks|, arrivals, calls);
    failed := None;
  }

  /** When the last scheduled task has reported, every part was acknowledged after exactly its first successful try. */
  lemma DispatchDone(network: Network, order: seq<nat>, n: nat, arrivals: seq<CompletedPart>, calls: seq<ClientCall>)
    requires IsSchedule(order, n) && |arrivals| == n
    requires DispatchState(network, order, arrivals, calls)
    ensures ArrivalsMatch(network, order, arrivals)
    ensures AbortsIn(calls) == 0 && CompletesIn(calls) == 0
    ensures forall p :: UploadsOf(calls, p) <= MaxRetries
    ensures forall p :: 1 <= p <= n ==> !PartFails(network, p) && UploadsOf(calls, p) == SuccessfulTry(network, p)
  {
    ArrivalsCoverParts(network, order, n, arrivals);
  }

  /**
   * The aggregator once every task has reported: collect the totalParts
   * acknowledgements, copy them into an array and sort it in place. The result
   * is parts 1..totalParts with their ETags, whatever the arrival order.
   */
  method CollectAndSort(arrivals: seq<CompletedPart>, totalParts: nat, ghost network: Network, ghost order: seq<nat>)
    returns (parts: seq<CompletedPart>)
    requires totalParts > 0 && IsSchedule(order, totalParts)
    requires |arrivals| == totalParts && ArrivalsMatch(network, order, arrivals)
    ensures AllPartsSucceed(network, totalParts)
    ensures parts == ExpectedParts(network, totalParts)
  {
    var completedParts := CollectParts(arrivals, totalParts);
    var a := new CompletedPart[totalParts](k requires 0 <= k < totalParts => completedParts[k]);
    assert a[..] == arrivals;
    SortByPartNumber(a);
    parts := a[..];
    ArrivalsSortToExpected(network, order, totalParts, arrivals, parts);
  }

  /** Appending the finalize request adds one finalize and nothing else to the counts. */
  lemma FinalizeCounted(calls: seq<ClientCall>, request: ClientCall)
    requires request.CompleteCall?
    ensures forall p :: UploadsOf(calls + [request], p) == UploadsOf(calls, p)
    ensures AbortsIn(calls + [request]) == AbortsIn(calls)
    ensures CompletesIn(calls + [request]) == CompletesIn(calls) + 1
  {
    assert [request][..0] == [];
    forall p ensures UploadsOf(calls + [request], p) == UploadsOf(calls, p) {
      CountsOfConcat(calls, [request], p);
    }
    CountsOfConcat(calls, [request], 0);
  }

  /**
   * One upload, with the storage service replaced by its answers: `buffer` is
   * the file, `created` is what CreateMultipartUpload returned, `network` the
   * answer to each UploadPart attempt, `order` the order the workers take the
   * tasks in, and `finalizeOk` whether CompleteMultipartUpload succeeds.
   * `calls` is every request sent on the open session, in order.
   */
  method RunUpload(buffer: seq<Byte>, created: Option<Session>, network: Network, order: seq<nat>, finalizeOk: bool)
    returns (result: UploadResult, calls: seq<ClientCall>)
    requires created.Some? ==> |buffer| > 0 && IsSchedule(order, PartCount(|buffer|, MaxPartSize))
    ensures created.None? <==> result == InitiateFailed
    ensures created.None? ==> calls == []
    ensures result.Aborted? <==>
              created.Some? && exists p :: 1 <= p <= PartCount(|buffer|, MaxPartSize) && PartFails(network, p)
    ensures result.Aborted? ==>
              && 1 <= result.failedPart <= PartCount(|buffer|, MaxPartSize)
              && PartFails(network, result.failedPart)
              && UploadsOf(calls, result.failedPart) == MaxRetries
              && AbortsIn(calls) == 1 && CompletesIn(calls) == 0
              && calls[|calls| - 1] == AbortCall(created.value)
    ensures result.Completed? || result.FinalizeFailed? ==>
              && AllPartsSucceed(network, PartCount(|buffer|, MaxPartSize))
              && result.parts == ExpectedParts(network, PartCount(|buffer|, MaxPartSize))
              && StrictlyAscending(result.parts)
              && (forall p :: 1 <= p <= PartCount(|buffer|, MaxPartSize) ==>
                    !PartFails(network, p) && UploadsOf(calls, p) == SuccessfulTry(network, p))
              && AbortsIn(calls) == 0 && CompletesIn(calls) == 1
              && calls[|calls| - 1] == CompleteCall(created.value, result.parts)
    ensures result.Completed? <==>
              created.Some? && finalizeOk && AllPartsSucceed(network, PartCount(|buffer|, MaxPartSize))
    ensures forall p :: UploadsOf(calls, p) <= MaxRetries
    ensures created.Some? ==> forall k :: 0 <= k < |calls| ==>
              && calls[k].session == created.value
              && (calls[k].UploadPartCall? ==>
                    && 1 <= calls[k].partNumber <= PartCount(|buffer|, MaxPartSize)
                    && calls[k].body == PartSlice(buffer, MaxPartSize, calls[k].partNumber))
  {
    calls := [];
    if created.None? {
      return InitiateFailed, calls;
    }
    var session := created.value;
    var totalParts := PartCount(|buffer|, MaxPartSize);
    var tasks := PartitionTasks(|buffer|, MaxPartSize, session);
    PlanNumbering(tasks, |buffer|, MaxPartSize, session);
    PlanPayloads(buffer, tasks, MaxPartSize, session);
    var failed, arrivals;
    failed, arrivals, calls := DispatchTasks(tasks, session, buffer, network, order);
    if failed.Some? {
      PlanCallsAreSlices(calls, tasks, session, buffer);
      return Aborted(failed.value), calls;
    }
    var parts := CollectAndSort(arrivals, totalParts, network, order);
    var request := CompleteRequest(session, parts);
    FinalizeCounted(calls, request);
    CallsFollowConcat(calls, [request], tasks, session, buffer);
    calls := calls + [request];
    PlanCallsAreSlices(calls, tasks, session, buffer);
    if finalizeOk {
      result := Completed(parts);
    } else {
      result := FinalizeFailed(parts);
    }
  }
}
