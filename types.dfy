/**
 * Entities shared by the multipart-upload engine: the upload session, the
 * per-part work item, the per-part acknowledgement, the outcome of one
 * UploadPart attempt, and the calls the engine makes on the storage client.
 */
module MultipartTypes {

  /** A file byte. */
  type Byte = bv8

  /** Largest part the partitioner cuts: 5 MiB (the `maxPartSize` constant). */
  const MaxPartSize: nat := 5 * 1024 * 1024

  /** Attempts made for one part before the session is aborted (`maxRetries`). */
  const MaxRetries: nat := 3

  datatype Option<T> = None | Some(value: T)

  /** The open multipart session: what CreateMultipartUpload answered. */
  datatype Session = Session(bucket: string, key: string, uploadId: string)

  /**
   * One work item on the task queue. The payload `FileBytes` of the source is
   * the slice buffer[offset .. offset + length] of the shared file buffer.
   */
  datatype UploadTask = UploadTask(
    partNumber: nat,
    offset: nat,
    length: nat,
    totalParts: nat,
    session: Session)

  /** The acknowledgement of one uploaded part, as sent on the result channel. */
  datatype CompletedPart = CompletedPart(partNumber: nat, etag: string)

  /** What the service answers to one UploadPart attempt. */
  datatype Attempt = Fail | Ok(etag: string)

  /**
   * A call the engine issues on the storage service client. An UploadPart call
   * carries the part's bytes as its body; its ContentLength is |body|.
   */
  datatype ClientCall =
    | UploadPartCall(session: Session, partNumber: nat, body: seq<Byte>)
    | AbortCall(session: Session)
    | CompleteCall(session: Session, parts: seq<CompletedPart>)

  /** Number of UploadPart calls for part `p` in a call trace. */
  function UploadsOf(calls: seq<ClientCall>, p: nat): nat
  {
    if calls == [] then 0
    else UploadsOf(calls[..|calls| - 1], p)
         + (if calls[|calls| - 1].UploadPartCall? && calls[|calls| - 1].partNumber == p then 1 else 0)
  }

  /** Number of AbortMultipartUpload calls in a call trace. */
  function AbortsIn(calls: seq<ClientCall>): nat
  {
    if calls == [] then 0
    else AbortsIn(calls[..|calls| - 1]) + (if calls[|calls| - 1].AbortCall? then 1 else 0)
  }

  /** Number of CompleteMultipartUpload calls in a call trace. */
  function CompletesIn(calls: seq<ClientCall>): nat
  {
    if calls == [] then 0
    else CompletesIn(calls[..|calls| - 1]) + (if calls[|calls| - 1].CompleteCall? then 1 else 0)
  }

  lemma {:induction false} CountsOfConcat(a: seq<ClientCall>, b: seq<ClientCall>, p: nat)
    ensures UploadsOf(a + b, p) == UploadsOf(a, p) + UploadsOf(b, p)
    ensures AbortsIn(a + b) == AbortsIn(a) + AbortsIn(b)
    ensures CompletesIn(a + b) == CompletesIn(a) + CompletesIn(b)
    decreases |b|
  {
    if b == [] {
      assert a + b == a;
    } else {
      var b' := b[..|b| - 1];
      assert (a + b)[..|a + b| - 1] == a + b';
      CountsOfConcat(a, b', p);
    }
  }
}
