/**
 * The partitioner: cuts a file of `size` bytes into consecutive parts of at
 * most `maxPartSize` bytes, numbered 1, 2, ..., N, one upload task per part.
 */
module Partitioner {
  import opened MultipartTypes

  function Min(a: int, b: int): int
  {
    if a <= b then a else b
  }

  /**
   * The number of parts, ceil(size / maxPartSize), in integer arithmetic.
   * The result is the one N whose last part is non-empty and not oversized.
   */
  function PartCount(size: nat, maxPartSize: nat): (n: nat)
    requires maxPartSize > 0
    ensures size == 0 ==> n == 0
    ensures size > 0 ==> n >= 1 && (n - 1) * maxPartSize < size <= n * maxPartSize
  {
    var n := (size + maxPartSize - 1) / maxPartSize;
    var r := (size + maxPartSize - 1) % maxPartSize;
    assert size + maxPartSize - 1 == n * maxPartSize + r;
    assert (n - 1) * maxPartSize == n * maxPartSize - maxPartSize;
    n
  }

  lemma MulMonotone(a: nat, b: nat, m: nat)
    requires a <= b
    ensures a * m <= b * m
  {
    assert b * m == a * m + (b - a) * m;
  }

  /** The ceiling is the only count that fits: every k with (k-1)*M < size <= k*M is it. */
  lemma {:induction false} PartCountUnique(size: nat, maxPartSize: nat, k: nat)
    requires maxPartSize > 0 && k >= 1
    requires (k - 1) * maxPartSize < size <= k * maxPartSize
    ensures PartCount(size, maxPartSize) == k
  {
    var n := PartCount(size, maxPartSize);
    if n < k {
      MulMonotone(n, k - 1, maxPartSize);
    } else if n > k {
      MulMonotone(k, n - 1, maxPartSize);
    }
  }

  /** The i-th part (from 0) starts at i * maxPartSize: it exists iff that offset is inside the file. */
  lemma PartExistsIff(size: nat, maxPartSize: nat, i: nat)
    requires maxPartSize > 0
    ensures i < PartCount(size, maxPartSize) <==> i * maxPartSize < size
  {
    var n := PartCount(size, maxPartSize);
    if i < n {
      MulMonotone(i, n - 1, maxPartSize);
    } else if size > 0 {
      MulMonotone(n, i, maxPartSize);
    }
  }

  /**
   * Part i (from 0) of the plan: number i + 1, starting at i * maxPartSize,
   * maxPartSize long or shorter when it is the last; it carries the part count
   * and the session.
   */
  ghost predicate IsPartAt(t: UploadTask, i: nat, size: nat, maxPartSize: nat, totalParts: nat, session: Session)
  {
    && t.partNumber == i + 1
    && t.offset == i * maxPartSize
    && t.length == Min(maxPartSize, size - i * maxPartSize)
    && t.totalParts == totalParts
    && t.session == session
  }

  /** The plan the partitioner must produce: one task per part, in part order. */
  ghost predicate IsPlan(tasks: seq<UploadTask>, size: nat, maxPartSize: nat, session: Session)
    requires maxPartSize > 0
  {
    && |tasks| == PartCount(size, maxPartSize)
    && forall i :: 0 <= i < |tasks| ==> IsPartAt(tasks[i], i, size, maxPartSize, |tasks|, session)
  }

  /**
   * The partition loop: walks `curr` through the buffer, emitting one task per
   * part onto the task queue (here the sequence `tasks`).
   */
  method PartitionTasks(size: nat, maxPartSize: nat, session: Session) returns (tasks: seq<UploadTask>)
    requires size > 0 && maxPartSize > 0
    ensures IsPlan(tasks, size, maxPartSize, session)
  {
    var totalParts := PartCount(size, maxPartSize);
    var curr: nat, partLength: nat := 0, 0;
    var remaining: nat := size;
    var partNumber: nat := 1;
    tasks := [];
    while remaining != 0
      invariant curr + remaining == size
      invariant partNumber == |tasks| + 1
      invariant remaining > 0 ==> curr == |tasks| * maxPartSize && |tasks| < totalParts
      invariant remaining == 0 ==> |tasks| == totalParts
      invariant forall i :: 0 <= i < |tasks| ==> IsPartAt(tasks[i], i, size, maxPartSize, totalParts, session)
      decreases remaining
    {
      if remaining < maxPartSize {
        partLength := remaining;
      } else {
        partLength := maxPartSize;
      }
      NextPart(size, maxPartSize, |tasks|, curr, partLength);
      tasks := tasks + [UploadTask(partNumber, curr, partLength, totalParts, session)];
      remaining := remaining - partLength;
      partNumber := partNumber + 1;
      curr := curr + partLength;
    }
  }

  /** One step of the partition loop: the part it cuts is the planned one, and the loop state moves on. */
  lemma NextPart(size: nat, maxPartSize: nat, k: nat, curr: nat, partLength: nat)
    requires maxPartSize > 0 && curr < size && curr == k * maxPartSize
    requires partLength == Min(maxPartSize, size - curr)
    ensures partLength == Min(maxPartSize, size - k * maxPartSize)
    ensures curr + partLength < size ==> curr + partLength == (k + 1) * maxPartSize && k + 1 < PartCount(size, maxPartSize)
    ensures curr + partLength == size ==> k + 1 == PartCount(size, maxPartSize)
  {
    assert (k + 1) * maxPartSize == curr + maxPartSize;
    PartExistsIff(size, maxPartSize, k + 1);
    if curr + partLength == size {
      PartCountUnique(size, maxPartSize, k + 1);
    }
  }

  /** The tasks of a plan are numbered 1..N in order and all belong to the session. */
  lemma PlanNumbering(tasks: seq<UploadTask>, size: nat, maxPartSize: nat, session: Session)
    requires maxPartSize > 0 && IsPlan(tasks, size, maxPartSize, session)
    ensures forall i :: 0 <= i < |tasks| ==> tasks[i].partNumber == i + 1 && tasks[i].session == session
  {
    forall i | 0 <= i < |tasks| ensures tasks[i].partNumber == i + 1 && tasks[i].session == session {
      assert IsPartAt(tasks[i], i, size, maxPartSize, |tasks|, session);
    }
  }

  /** Sum of the part lengths of the tasks. */
  function SumLengths(tasks: seq<UploadTask>): nat
  {
    if tasks == [] then 0 else SumLengths(tasks[..|tasks| - 1]) + tasks[|tasks| - 1].length
  }

  /**
   * The plan is a partition of [0, size): it starts at 0, each part starts
   * where the previous one ended, all parts but the last are maxPartSize long,
   * the last is in (0, maxPartSize], every slice lies inside the buffer, the
   * part numbers are 1..N and the lengths add up to size.
   */
  lemma {:induction false} PlanIsPartition(tasks: seq<UploadTask>, size: nat, maxPartSize: nat, session: Session)
    requires size > 0 && maxPartSize > 0
    requires IsPlan(tasks, size, maxPartSize, session)
    ensures |tasks| >= 1 && tasks[0].offset == 0
    ensures forall i :: 0 <= i < |tasks| - 1 ==>
              tasks[i].length == maxPartSize && tasks[i + 1].offset == tasks[i].offset + tasks[i].length
    ensures 0 < tasks[|tasks| - 1].length <= maxPartSize
    ensures tasks[|tasks| - 1].offset + tasks[|tasks| - 1].length == size
    ensures forall i :: 0 <= i < |tasks| ==> tasks[i].offset + tasks[i].length <= size
    ensures forall i :: 0 <= i < |tasks| ==> tasks[i].partNumber == i + 1
    ensures SumLengths(tasks) == size
  {
    var n := |tasks|;
    var m := maxPartSize;
    forall i | 0 <= i < n - 1
      ensures tasks[i].length == m && tasks[i + 1].offset == tasks[i].offset + tasks[i].length
    {
      PartExistsIff(size, m, i + 1);
      assert (i + 1) * m == i * m + m;
    }
    PartExistsIff(size, m, n - 1);
    PartExistsIff(size, m, n);
    assert n * m == (n - 1) * m + m;
    forall i | 0 <= i < n ensures tasks[i].offset + tasks[i].length <= size {
      PartExistsIff(size, m, i);
    }
    PrefixSum(tasks, size, m, session, n);
    assert tasks[..n] == tasks;
  }

  /** The first k parts cover exactly [0, tasks[k-1].offset + tasks[k-1].length). */
  lemma {:induction false} PrefixSum(tasks: seq<UploadTask>, size: nat, maxPartSize: nat, session: Session, k: nat)
    requires size > 0 && maxPartSize > 0
    requires IsPlan(tasks, size, maxPartSize, session)
    requires k <= |tasks|
    ensures SumLengths(tasks[..k]) == Min(k * maxPartSize, size)
  {
    var m := maxPartSize;
    if k == 0 {
      assert tasks[..0] == [];
    } else {
      assert tasks[..k][..k - 1] == tasks[..k - 1];
      PrefixSum(tasks, size, m, session, k - 1);
      PartEnd(size, m, k);
      assert IsPartAt(tasks[k - 1], k - 1, size, m, |tasks|, session);
    }
  }

  /** The payload of one task: its slice of the file buffer. */
  function Payload(buffer: seq<Byte>, t: UploadTask): (bytes: seq<Byte>)
    requires t.offset + t.length <= |buffer|
    ensures |bytes| == t.length
  {
    buffer[t.offset .. t.offset + t.length]
  }

  /** The payloads of the tasks, concatenated in part order. */
  function Reassemble(buffer: seq<Byte>, tasks: seq<UploadTask>): seq<Byte>
    requires forall i :: 0 <= i < |tasks| ==> tasks[i].offset + tasks[i].length <= |buffer|
  {
    if tasks == [] then []
    else Reassemble(buffer, tasks[..|tasks| - 1]) + Payload(buffer, tasks[|tasks| - 1])
  }

  /** Concatenating the payloads of the plan, in part-number order, gives back the file. */
  lemma {:induction false} PlanReassembles(buffer: seq<Byte>, tasks: seq<UploadTask>, maxPartSize: nat, session: Session)
    requires |buffer| > 0 && maxPartSize > 0
    requires IsPlan(tasks, |buffer|, maxPartSize, session)
    ensures forall i :: 0 <= i < |tasks| ==> tasks[i].offset + tasks[i].length <= |buffer|
    ensures Reassemble(buffer, tasks) == buffer
  {
    PlanIsPartition(tasks, |buffer|, maxPartSize, session);
    ReassemblePrefix(buffer, tasks, maxPartSize, session, |tasks|);
    assert tasks[..|tasks|] == tasks;
  }

  /** Part k (from 1) ends where the first k parts of a plan end. */
  lemma PartEnd(size: nat, maxPartSize: nat, k: nat)
    requires maxPartSize > 0 && 1 <= k <= PartCount(size, maxPartSize)
    ensures (k - 1) * maxPartSize < size
    ensures (k - 1) * maxPartSize + Min(maxPartSize, size - (k - 1) * maxPartSize) == Min(k * maxPartSize, size)
  {
    PartExistsIff(size, maxPartSize, k - 1);
    assert k * maxPartSize == (k - 1) * maxPartSize + maxPartSize;
  }

  lemma {:induction false} ReassemblePrefix(buffer: seq<Byte>, tasks: seq<UploadTask>, maxPartSize: nat, session: Session, k: nat)
    requires |buffer| > 0 && maxPartSize > 0
    requires IsPlan(tasks, |buffer|, maxPartSize, session)
    requires forall i :: 0 <= i < |tasks| ==> tasks[i].offset + tasks[i].length <= |buffer|
    requires k <= |tasks|
    ensures Min(k * maxPartSize, |buffer|) <= |buffer|
    ensures Reassemble(buffer, tasks[..k]) == buffer[..Min(k * maxPartSize, |buffer|)]
  {
    if k == 0 {
      assert tasks[..0] == [];
    } else {
      var prefix := tasks[..k];
      assert prefix[..k - 1] == tasks[..k - 1];
      ReassemblePrefix(buffer, tasks, maxPartSize, session, k - 1);
      PartEnd(|buffer|, maxPartSize, k);
      var lo := (k - 1) * maxPartSize;
      var hi := Min(k * maxPartSize, |buffer|);
      assert IsPartAt(tasks[k - 1], k - 1, |buffer|, maxPartSize, |tasks|, session);
      assert Payload(buffer, prefix[k - 1]) == buffer[lo..hi];
      assert buffer[..hi] == buffer[..lo] + buffer[lo..hi];
    }
  }

  /**
   * The bytes of part p (from 1) of a file cut into maxPartSize parts: the
   * slice at offset (p - 1) * maxPartSize, maxPartSize long, or shorter at
   * the end of the file; nothing past the end.
   */
  function PartSlice(buffer: seq<Byte>, maxPartSize: nat, p: nat): (bytes: seq<Byte>)
    requires maxPartSize > 0 && p >= 1
    ensures (p - 1) * maxPartSize < |buffer| ==> 0 < |bytes| <= maxPartSize
    ensures (p - 1) * maxPartSize >= |buffer| ==> bytes == []
  {
    var offset := (p - 1) * maxPartSize;
    if offset < |buffer| then buffer[offset .. offset + Min(maxPartSize, |buffer| - offset)] else []
  }

  /** Every task of a plan lies within the file, and its payload is the slice of its part number. */
  lemma PlanPayloads(buffer: seq<Byte>, tasks: seq<UploadTask>, maxPartSize: nat, session: Session)
    requires maxPartSize > 0 && IsPlan(tasks, |buffer|, maxPartSize, session)
    ensures forall i :: 0 <= i < |tasks| ==> tasks[i].offset + tasks[i].length <= |buffer|
    ensures forall i :: 0 <= i < |tasks| ==> Payload(buffer, tasks[i]) == PartSlice(buffer, maxPartSize, i + 1)
  {
    forall i | 0 <= i < |tasks|
      ensures tasks[i].offset + tasks[i].length <= |buffer|
      ensures Payload(buffer, tasks[i]) == PartSlice(buffer, maxPartSize, i + 1)
    {
      assert IsPartAt(tasks[i], i, |buffer|, maxPartSize, |tasks|, session);
      PartExistsIff(|buffer|, maxPartSize, i);
      assert (i + 1 - 1) * maxPartSize == i * maxPartSize;
    }
  }

  /** A 12 MiB file with 5 MiB parts is cut into parts of 5, 5 and 2 MiB. */
  lemma ThreePartFile(tasks: seq<UploadTask>, session: Session)
    requires IsPlan(tasks, 12 * 1024 * 1024, MaxPartSize, session)
    ensures |tasks| == 3
    ensures tasks[0].length == MaxPartSize && tasks[1].length == MaxPartSize
    ensures tasks[2].length == 2 * 1024 * 1024
  {
    PartCountUnique(12 * 1024 * 1024, MaxPartSize, 3);
  }
}
