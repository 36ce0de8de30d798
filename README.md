# Multipart upload engine, modelled in Dafny

`aws-multipart-upload.go` uploads one file to an S3 bucket as a multipart
upload. It opens a session with CreateMultipartUpload, then cuts the file
buffer into parts of at most 5 MiB (`maxPartSize`) and queues one
`UploadTask` per part. A pool of worker goroutines takes the tasks, and each
worker tries UploadPart up to `maxRetries` (3) times. The first successful
attempt sends the part's `CompletedPart` (part number and ETag) on the result
channel. When the third attempt fails, the worker sends AbortMultipartUpload
and panics, which ends the program. The main goroutine collects
acknowledgements until it has `totalparts` of them, sorts them by part
number and calls CompleteMultipartUpload with the sorted list.

The model has five modules:

- `MultipartTypes` (`types.dfy`) holds the entities: session, task,
  acknowledgement, the answer to one attempt, and the calls sent to the
  storage client. An UploadPart call carries the part's bytes as its body. It also holds the two constants and the functions that
  count calls in a call trace.
- `Partitioner` (`partitioner.dfy`) holds the part count
  (`ceil(size / maxPartSize)`) and the partition loop, a method proved to
  produce a plan. It also proves that the plan is a contiguous, complete
  partition with dense part numbers, and that concatenating the part payloads
  gives back the file.
- `RetryProtocol` (`retry.dfy`) holds the worker's retry loop. It is a method
  proved against a reference function, `FirstSuccess`, which gives the first
  successful attempt. The network is a parameter: the answer to attempt `k`
  of part `p`.
- `ResultAggregator` (`aggregator.dfy`) holds the collection loop and the
  in-place sort of the acknowledgement array. It also proves that `N`
  distinct acknowledgements within `1..N` cover `1..N`, and that a sorted
  permutation of a strictly ascending list is that list.
- `UploadCoordinator` (`coordinator.dfy`) holds the whole run, executed
  sequentially. The workers take the tasks in an arbitrary order `order`, and
  every task is taken exactly once. A part that exhausts its retries ends the
  run as `Aborted`, with exactly one abort and no finalize. Otherwise
  finalize receives exactly parts `1..N`, each with the ETag of its first
  successful attempt, in strictly ascending order, whatever order the
  workers finished in.

## Model

| member | source | states |
|---|---|---|
| `Partitioner.PartCount` | aws-multipart-upload.go:93 | `totalparts` is the ceiling of size / maxPartSize: zero for an empty file, otherwise the unique `n >= 1` with `(n-1)*M < size <= n*M` |
| `Partitioner.PartCountUnique` | aws-multipart-upload.go:93 | any `k` with `(k-1)*M < size <= k*M` is the part count, so the loop's count of parts equals `totalparts` |
| `Partitioner.PartExistsIff` | aws-multipart-upload.go:126-148 | a part with index `i` (offset `i*M`) is cut exactly when `i*M < size` |
| `Partitioner.NextPart` | aws-multipart-upload.go:128-132 | one loop step: the part is `min(M, remaining)` long, and the loop goes on exactly when bytes remain |
| `Partitioner.PartitionTasks` | aws-multipart-upload.go:112-148 | the partition loop yields `PartCount` tasks; task `i` has number `i+1`, offset `i*M`, length `min(M, size - i*M)`, the total part count and the session |
| `Partitioner.PlanNumbering` | aws-multipart-upload.go:136-140 | every task of a plan carries part number `i+1` and the session's bucket, key and upload id |
| `Partitioner.PlanIsPartition` | aws-multipart-upload.go:126-148 | the first part starts at 0, each part starts where the previous ended, all parts but the last are exactly M long, the last is in (0, M] and ends at size, every slice is within bounds, part numbers are 1..N, and the lengths sum to size |
| `Partitioner.PrefixSum` | aws-multipart-upload.go:126-148 | the first `k` parts cover exactly `min(k*M, size)` bytes |
| `Partitioner.Payload` | aws-multipart-upload.go:135 | a task's bytes are the buffer slice at its offset, of its length |
| `Partitioner.ReassemblePrefix` | aws-multipart-upload.go:135 | the payloads of the first `k` parts, concatenated, are the first `min(k*M, size)` bytes of the buffer |
| `Partitioner.PartSlice` | aws-multipart-upload.go:126-135 | the bytes of part `p`: the slice at offset `(p-1)*M`, between 1 and M bytes long while that offset is inside the file, nothing past its end |
| `Partitioner.PlanPayloads` | aws-multipart-upload.go:126-148 | every task of the plan lies within the buffer, and the payload of task `i` is `PartSlice` of part `i+1` |
| `Partitioner.PlanReassembles` | aws-multipart-upload.go:126-148 | every slice is within the buffer, and the payloads of all parts, in part order, are the whole file |
| `Partitioner.ThreePartFile` | aws-multipart-upload.go:112-148 | a 12 MiB file is cut into parts of 5, 5 and 2 MiB |
| `RetryProtocol.FirstSuccess` | aws-multipart-upload.go:203-222 | the first successful attempt from `tryNum` up to maxRetries: its ETag is the service's answer and all earlier attempts failed; there is none exactly when every remaining attempt fails |
| `RetryProtocol.AttemptCalls` | aws-multipart-upload.go:194-204 | `n` attempts make `n` UploadPart calls with the same request |
| `RetryProtocol.AbortRequest` | aws-multipart-upload.go:228-235 | the abort request names the task's bucket, key and upload id, and counts as one abort and no upload or finalize |
| `RetryProtocol.AttemptCallsCounts` | aws-multipart-upload.go:204 | `n` attempts are `n` UploadPart calls for the task's part and no other call |
| `RetryProtocol.UploadPart` | aws-multipart-upload.go:188-243 | a worker on one task: the first success yields exactly one acknowledgement with that attempt's ETag after that many calls; when all maxRetries attempts fail, it makes exactly maxRetries calls, then one abort of the task's session, and the outcome is fatal. Every call is on the task's session and every upload sends the task's own payload, so its ContentLength is the task's length. Never more than maxRetries uploads, no call for another part, no finalize |
| `RetryProtocol.WorkerTraceFacts` | aws-multipart-upload.go:203-222 | a worker's trace of `n` attempts, followed by the abort or by nothing, holds exactly `n` uploads of the task's part and none of any other, as many aborts as the abort tail has, no finalize; every call is on the task's session and every upload sends the task's body |
| `RetryProtocol.LastAttemptSucceeds` | aws-multipart-upload.go:203-222 | failing twice and succeeding on attempt maxRetries still acknowledges the part with that ETag, with no abort |
| `ResultAggregator.PartNumbers` | aws-multipart-upload.go:153-159 | the set of part numbers in a list of acknowledgements is exactly the numbers some entry carries |
| `ResultAggregator.PartRange` | aws-multipart-upload.go:155 | the part numbers `1..n` |
| `ResultAggregator.CollectParts` | aws-multipart-upload.go:153-159 | the collection loop stops after exactly totalparts acknowledgements and keeps them in arrival order |
| `ResultAggregator.CollectedPartsCoverAll` | aws-multipart-upload.go:153-159 | totalparts acknowledgements with distinct numbers in 1..totalparts carry exactly the numbers 1..totalparts |
| `ResultAggregator.Swap` | aws-multipart-upload.go:162-164 | exchanging two entries leaves every other entry and the multiset alone |
| `ResultAggregator.SortByPartNumber` | aws-multipart-upload.go:162-164 | the sort leaves the array ordered by part number and a permutation of its old contents |
| `ResultAggregator.InsertLast` | aws-multipart-upload.go:162-164 | one insertion step extends the sorted prefix by one element; it permutes the array and the prefix `a[..i+1]`, and leaves everything after `i` unchanged |
| `ResultAggregator.MoveLeft` | aws-multipart-upload.go:162-164 | the insertion loop stops with the moving entry at `j`, no larger than anything after it up to `i`, no smaller than its left neighbour, the rest of the prefix in order, the array a permutation with nothing after `i` changed |
| `ResultAggregator.SwapKeepsState` | aws-multipart-upload.go:162-164 | one swap of the moving entry with a larger left neighbour keeps the insertion loop's state |
| `ResultAggregator.InsertedSorted` | aws-multipart-upload.go:162-164 | when the insertion loop stops, the prefix up to `i` is sorted |
| `ResultAggregator.PrefixPermutation` | aws-multipart-upload.go:162-164 | a permutation that leaves the suffix from `n` alone permutes the prefix up to `n` |
| `ResultAggregator.DistinctMultiplicity` | aws-multipart-upload.go:153-159 | with no part twice, every entry occurs exactly once |
| `ResultAggregator.SameEntriesPermutation` | aws-multipart-upload.go:153-164 | two duplicate-free lists with the same entries are permutations of each other |
| `ResultAggregator.SortedPermutationUnique` | aws-multipart-upload.go:162-164 | a sorted permutation of a strictly ascending list is that list, so sorting fixes the finalize input whatever the arrival order |
| `ResultAggregator.SameHead` | aws-multipart-upload.go:162-164 | a sorted list and a strictly ascending permutation of it start with the same entry |
| `UploadCoordinator.ExpectedPart` | aws-multipart-upload.go:217-220 | the acknowledgement of a part that succeeds carries that part's number |
| `UploadCoordinator.ExpectedParts` | aws-multipart-upload.go:175-186 | the list finalize must receive: `n` entries, entry `i` is part `i+1` with its first successful ETag, strictly ascending |
| `UploadCoordinator.CompleteRequest` | aws-multipart-upload.go:175-186 | the finalize request names the session's bucket, key and upload id, carries exactly the given part list, and counts as one finalize and no upload or abort |
| `UploadCoordinator.CallsFollowConcat` | aws-multipart-upload.go:190-223 | two traces whose calls are all on the session, each upload sending its task's payload, still have that property once concatenated |
| `UploadCoordinator.WorkerCallsFollow` | aws-multipart-upload.go:194-201 | the calls of a worker on task `j` are on the session, and each upload sends the payload of the task its part number names |
| `UploadCoordinator.PlanCallsAreSlices` | aws-multipart-upload.go:126-148 | for the plan of the file, every call is on the session and every upload of part `p`, with `p` in 1..N, sends exactly `PartSlice` of part `p` |
| `UploadCoordinator.ScheduledArrivalsDistinct` | aws-multipart-upload.go:120-123 | tasks taken once each report distinct part numbers within 1..n |
| `UploadCoordinator.ScheduleReachesAll` | aws-multipart-upload.go:120-123 | a schedule of n tasks reaches every task |
| `UploadCoordinator.ScheduleAllSucceed` | aws-multipart-upload.go:153-159 | once every task of a schedule has reported, every part 1..n succeeded |
| `UploadCoordinator.ArrivalsAreExpected` | aws-multipart-upload.go:153-159 | the arrivals of a complete schedule hold exactly the expected acknowledgements |
| `UploadCoordinator.ArrivalsSortToExpected` | aws-multipart-upload.go:153-166 | whatever the arrival order, sorting the collected acknowledgements gives exactly parts 1..n with their ETags |
| `UploadCoordinator.ArrivalsExtend` | aws-multipart-upload.go:217-220 | one more successful task of the schedule keeps the arrivals matched to the schedule |
| `UploadCoordinator.NextTaskUntouched` | aws-multipart-upload.go:190 | the next task taken from the queue has not been acknowledged yet |
| `UploadCoordinator.WorkerCallsCounted` | aws-multipart-upload.go:190-223 | adding one worker's calls for a fresh part keeps every part at most maxRetries uploads, leaves untaken parts untouched, and adds up aborts and finalizes |
| `UploadCoordinator.UploadedStep` | aws-multipart-upload.go:190-223 | a successful worker keeps the pool's state: no abort, no finalize, at most maxRetries uploads per part, and every acknowledged part was uploaded exactly as many times as its first successful try number |
| `UploadCoordinator.SucceededCounted` | aws-multipart-upload.go:203-222 | adding the calls of a worker whose part succeeded on try `n`, sent after `n` uploads of that part only, keeps every acknowledged part uploaded exactly as many times as its first successful try |
| `UploadCoordinator.SuccessfulTry` | aws-multipart-upload.go:203-222 | for a part that does not fail every attempt, the try that first succeeds: between 1 and maxRetries, answered Ok, with every earlier try answered with an error |
| `UploadCoordinator.ArrivalsCoverParts` | aws-multipart-upload.go:153-159 | once every task of a schedule of `n` has reported, the acknowledged part numbers are exactly 1..n |
| `UploadCoordinator.DispatchDone` | aws-multipart-upload.go:120-159 | when the last scheduled task has reported, every part 1..n succeeded and was uploaded exactly as many times as its first successful try, with no abort and no finalize |
| `UploadCoordinator.FatalStep` | aws-multipart-upload.go:206-212 | a fatal worker leaves exactly one abort and no finalize in the trace, and its part was uploaded exactly maxRetries times |
| `UploadCoordinator.TakeTask` | aws-multipart-upload.go:190-223 | a worker takes task `j` from the queue: either part `j+1` succeeds and its expected acknowledgement is sent, or all its attempts fail and its last call aborts the session. Part `j+1` is uploaded exactly as many times as its first successful try number when it succeeds, and exactly maxRetries times when it fails. No other part is uploaded. Every upload sends that task's payload on the session, and no finalize is sent |
| `UploadCoordinator.DispatchTasks` | aws-multipart-upload.go:120-148 | the pool, one task at a time: either all tasks report and their acknowledgements match the schedule with no abort, or a part whose every attempt failed stops the run right after its single abort; no finalize; at most maxRetries uploads per part. When all succeed, every part 1..n was uploaded exactly as many times as its first successful try number. The failed part was uploaded exactly maxRetries times. every call is on the session, and every upload sends the payload of the task its part number names |
| `UploadCoordinator.CollectAndSort` | aws-multipart-upload.go:153-164 | collecting and sorting the acknowledgements of a complete schedule gives exactly parts 1..n with their ETags |
| `UploadCoordinator.FinalizeCounted` | aws-multipart-upload.go:166 | sending the finalize adds one finalize and nothing else to the trace |
| `UploadCoordinator.RunUpload` | aws-multipart-upload.go:105-186 | a failed initiate sends nothing. The run is aborted exactly when some part fails all its attempts; an aborted run sends exactly one abort, as its last call, and no finalize. Otherwise exactly one finalize is sent, as the last call, with parts 1..N in strictly ascending order and their ETags, and no abort. The upload completes exactly when every part succeeds and finalize is accepted. Every part gets at most maxRetries upload attempts. When finalize is sent, every part 1..N was uploaded exactly as many times as its first successful try number. In an aborted run, the failed part was uploaded exactly maxRetries times. Every call is on the open session, and every upload of part `p` sends exactly the slice of the file that part `p` covers |

## Left out

- Command-line flags, usage text, opening and reading the file, and all
  printing (lines 39-95, 160, 172, and the printing in the workers and the
  abort) are not modelled. The file's contents are the `buffer` parameter
  of `RunUpload`, and its size is `|buffer|`.
- Credentials and client configuration (lines 97-103) are left out. A
  credential error is only printed and the run goes on, so it does not change
  the control flow.
- Content-type detection, the storage class and the object key path (lines
  82-91) are left out. They go only into CreateMultipartUpload's request. The
  model takes that call's answer as the parameter `created`, which is `None`
  when it fails.
- The storage service is not modelled. UploadPart answers are the parameter
  `network`, CompleteMultipartUpload's answer is `finalizeOk`, and the
  abort's own answer is only printed, so it is dropped. The requests sent are
  recorded as the trace `calls`.
- Goroutines, channels and `maxConnection` (lines 118-124) are not
  modelled. The pool is run sequentially. The order in which tasks are taken
  and finish is the `order` parameter, and every task is taken exactly once.
  The model does not capture interleaving between workers.
- The source does not stop sibling workers when one worker aborts. They keep
  calling UploadPart against the aborted session until `panic` kills the
  process, and two workers failing at the same time could each send an
  abort. The sequential model stops at the first fatal part. It does not
  model the calls that race with the panic.
- `math.Ceil` on `float64` (line 93) is modelled as integer ceiling
  division. The two agree for files up to 2^40 bytes, where float rounding cannot reach an integer boundary.
- An empty file with a successful initiate is excluded by `RunUpload`'s
  precondition. The source would cut no parts and then wait forever on the
  result channel.
- `CollectParts` requires at least `totalparts` arrivals. With fewer, the
  source's range over the channel would block forever.
- The `int64` and `int` widths are not modelled. Every offset and length is
  at most the file size, so none overflows.
- `sort.Slice` is an unstable pattern-defeating quicksort. It is modelled
  as insertion sort, whose contract is only sorted and a permutation, which
  is all the source relies on.
- Every retry of a part is modelled as sending the whole slice of that part
  again. The source builds one request with a single `bytes.Reader` body
  (lines 194-201) and passes it to every attempt (line 204). So the model
  holds only if the AWS SDK rewinds that reader before a retry. The SDK is
  not part of this model.
- The response object that a successful finalize returns is printed and
  then dropped. The model keeps only the part list it was called with.
