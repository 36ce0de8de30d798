/**
 * The result aggregator: collects part acknowledgements in whatever order the
 * workers deliver them, stops once every part has reported, and sorts them by
 * part number, the order CompleteMultipartUpload demands.
 */
module ResultAggregator {
  import opened MultipartTypes

  /** The part numbers that occur in a list of acknowledgements. */
  function PartNumbers(s: seq<CompletedPart>): (ps: set<nat>)
    ensures forall p :: p in ps <==> exists i :: 0 <= i < |s| && s[i].partNumber == p
  {
    if s == [] then {}
    else
      var init := s[..|s| - 1];
      var ps := PartNumbers(init) + {s[|s| - 1].partNumber};
      assert forall i :: 0 <= i < |s| - 1 ==> s[i] == init[i];
      ps
  }

  /** The part numbers 1..n. */
  function PartRange(n: nat): (ps: set<nat>)
    ensures forall p :: p in ps <==> 1 <= p <= n
  {
    if n == 0 then {} else PartRange(n - 1) + {n}
  }

  /** No part is acknowledged twice. */
  predicate DistinctParts(s: seq<CompletedPart>)
  {
    forall i, j :: 0 <= i < j < |s| ==> s[i].partNumber != s[j].partNumber
  }

  /** Ordered by part number, as the sort leaves them. */
  predicate SortedByPartNumber(s: seq<CompletedPart>)
  {
    forall i, j :: 0 <= i < j < |s| ==> s[i].partNumber <= s[j].partNumber
  }

  /** Strictly increasing part numbers: what CompleteMultipartUpload accepts. */
  predicate StrictlyAscending(s: seq<CompletedPart>)
  {
    forall i, j :: 0 <= i < j < |s| ==> s[i].partNumber < s[j].partNumber
  }

  /**
   * The collection loop: appends acknowledgements in arrival order and stops as
   * soon as totalParts of them have arrived. Fewer arrivals would block forever.
   */
  method CollectParts(arrivals: seq<CompletedPart>, totalParts: nat) returns (completedParts: seq<CompletedPart>)
    requires 0 < totalParts <= |arrivals|
    ensures |completedParts| == totalParts
    ensures completedParts == arrivals[..totalParts]
  {
    completedParts := [];
    var i := 0;
    while i < |arrivals|
      invariant 0 <= i < totalParts
      invariant completedParts == arrivals[..i]
      decreases |arrivals| - i
    {
      completedParts := completedParts + [arrivals[i]];
      i := i + 1;
      if |completedParts| == totalParts {
        break;
      }
    }
  }

  lemma {:induction false} DistinctCard(s: seq<CompletedPart>)
    requires DistinctParts(s)
    ensures |PartNumbers(s)| == |s|
  {
    if s != [] {
      var init := s[..|s| - 1];
      DistinctCard(init);
      assert s[|s| - 1].partNumber !in PartNumbers(init);
    }
  }

  lemma {:induction false} RangeCard(n: nat)
    ensures |PartRange(n)| == n
  {
    if n > 0 {
      RangeCard(n - 1);
      assert n !in PartRange(n - 1);
      assert |PartRange(n - 1) + {n}| == |PartRange(n - 1)| + 1;
    }
  }

  lemma {:induction false} SubsetSameCard(a: set<nat>, b: set<nat>)
    requires a <= b && |a| == |b|
    ensures a == b
  {
    if a != b {
      var x :| x in b && x !in a;
      assert a <= b - {x};
      assert |b - {x}| == |b| - 1;
      SubsetCard(a, b - {x});
    }
  }

  lemma {:induction false} SubsetCard(a: set<nat>, b: set<nat>)
    requires a <= b
    ensures |a| <= |b|
    decreases b
  {
    if a != {} {
      var x :| x in a;
      SubsetCard(a - {x}, b - {x});
    }
  }

  /**
   * Collection is complete: totalParts acknowledgements, no part twice, every
   * part number in 1..totalParts, means every part 1..totalParts has reported.
   */
  lemma CollectedPartsCoverAll(s: seq<CompletedPart>, totalParts: nat)
    requires |s| == totalParts && DistinctParts(s)
    requires forall i :: 0 <= i < |s| ==> 1 <= s[i].partNumber <= totalParts
    ensures PartNumbers(s) == PartRange(totalParts)
  {
    DistinctCard(s);
    RangeCard(totalParts);
    SubsetSameCard(PartNumbers(s), PartRange(totalParts));
  }

  /** Swap two cells, leaving the rest of the array and its multiset alone. */
  method Swap(a: array<CompletedPart>, i: nat, j: nat)
    requires i < a.Length && j < a.Length
    modifies a
    ensures a[i] == old(a[j]) && a[j] == old(a[i])
    ensures forall k :: 0 <= k < a.Length && k != i && k != j ==> a[k] == old(a[k])
    ensures multiset(a[..]) == old(multiset(a[..]))
  {
    a[i], a[j] := a[j], a[i];
  }

  /**
   * The in-place sort of the collected parts by part number (insertion sort;
   * like the source's sort, it is not required to be stable).
   */
  method SortByPartNumber(a: array<CompletedPart>)
    modifies a
    ensures SortedByPartNumber(a[..])
    ensures multiset(a[..]) == old(multiset(a[..]))
  {
    var i := 0;
    while i < a.Length
      invariant 0 <= i <= a.Length
      invariant SortedByPartNumber(a[..i])
      invariant multiset(a[..]) == old(multiset(a[..]))
    {
      InsertLast(a, i);
      i := i + 1;
    }
  }

  /** Moves a[i] left until a[..i+1] is sorted, given that a[..i] is. */
  method InsertLast(a: array<CompletedPart>, i: nat)
    requires i < a.Length && SortedByPartNumber(a[..i])
    modifies a
    ensures SortedByPartNumber(a[..i + 1])
    ensures multiset(a[..]) == old(multiset(a[..]))
    ensures multiset(a[..i + 1]) == old(multiset(a[..i + 1]))
    ensures a[i + 1..] == old(a[i + 1..])
  {
    ghost var pre := a[..];
    var j := MoveLeft(a, i);
    InsertedSorted(a[..], pre, i, j);
    PrefixPermutation(pre, a[..], i + 1);
  }

  /** The insertion loop: swaps a[i] leftwards past every larger entry; it stops at j. */
  method MoveLeft(a: array<CompletedPart>, i: nat) returns (j: nat)
    requires i < a.Length && SortedByPartNumber(a[..i])
    modifies a
    ensures InsertionState(a[..], old(a[..]), i, j)
    ensures j > 0 ==> a[j - 1].partNumber <= a[j].partNumber
  {
    ghost var pre := a[..];
    j := i;
    while j > 0 && a[j - 1].partNumber > a[j].partNumber
      invariant InsertionState(a[..], pre, i, j)
    {
      ghost var s := a[..];
      Swap(a, j - 1, j);
      SwapKeepsState(s, a[..], pre, i, j);
      j := j - 1;
    }
  }

  /**
   * The insertion loop's state: `s` is a permutation of `pre` that leaves
   * everything after i alone; the moving entry sits at j, the rest of the
   * prefix up to i is in order, and everything after j is larger than it.
   */
  ghost predicate InsertionState(s: seq<CompletedPart>, pre: seq<CompletedPart>, i: nat, j: nat)
  {
    && |s| == |pre| && j <= i < |s|
    && multiset(s) == multiset(pre)
    && s[i + 1..] == pre[i + 1..]
    && (forall k, l :: 0 <= k < l <= i && k != j && l != j ==> s[k].partNumber <= s[l].partNumber)
    && (forall l :: j < l <= i ==> s[j].partNumber < s[l].partNumber)
  }

  /** Swapping the moving entry with a larger left neighbour keeps the loop state. */
  lemma SwapKeepsState(s: seq<CompletedPart>, t: seq<CompletedPart>, pre: seq<CompletedPart>, i: nat, j: nat)
    requires InsertionState(s, pre, i, j) && j > 0 && s[j - 1].partNumber > s[j].partNumber
    requires |t| == |s| && multiset(t) == multiset(s)
    requires t[j - 1] == s[j] && t[j] == s[j - 1]
    requires forall k :: 0 <= k < |s| && k != j - 1 && k != j ==> t[k] == s[k]
    ensures InsertionState(t, pre, i, j - 1)
  {
    assert t[i + 1..] == s[i + 1..];
  }

  /** When the moving entry stops at j, the prefix up to i is sorted. */
  lemma InsertedSorted(s: seq<CompletedPart>, pre: seq<CompletedPart>, i: nat, j: nat)
    requires InsertionState(s, pre, i, j)
    requires j > 0 ==> s[j - 1].partNumber <= s[j].partNumber
    ensures SortedByPartNumber(s[..i + 1])
  {
    forall k, l | 0 <= k < l <= i ensures s[k].partNumber <= s[l].partNumber {
      if k < j && l != j {
        assert s[k].partNumber <= s[l].partNumber;
      } else if l == j && k < j - 1 {
        assert s[k].partNumber <= s[j - 1].partNumber;
      }
    }
  }

  /** Permuting a sequence while leaving its suffix from n alone permutes its prefix up to n. */
  lemma PrefixPermutation(before: seq<CompletedPart>, after: seq<CompletedPart>, n: nat)
    requires |before| == |after| && n <= |before|
    requires multiset(before) == multiset(after) && before[n..] == after[n..]
    ensures multiset(after[..n]) == multiset(before[..n])
  {
    assert before == before[..n] + before[n..];
    assert after == after[..n] + after[n..];
    MultisetCancel(multiset(after[..n]), multiset(before[..n]), multiset(after[n..]));
  }

  lemma MultisetCancel(x: multiset<CompletedPart>, y: multiset<CompletedPart>, z: multiset<CompletedPart>)
    requires x + z == y + z
    ensures x == y
  {
    forall e ensures x[e] == y[e] {
      assert (x + z)[e] == x[e] + z[e] && (y + z)[e] == y[e] + z[e];
    }
  }

  /** In a list where no part occurs twice, every entry occurs exactly once. */
  lemma {:induction false} DistinctMultiplicity(s: seq<CompletedPart>)
    requires DistinctParts(s)
    ensures forall x :: multiset(s)[x] == if x in s then 1 else 0
  {
    if s != [] {
      var init := s[..|s| - 1];
      var last := s[|s| - 1];
      assert s == init + [last];
      DistinctMultiplicity(init);
      assert last !in init;
    }
  }

  /** Two lists without repeated parts that hold the same entries are permutations of each other. */
  lemma SameEntriesPermutation(s: seq<CompletedPart>, t: seq<CompletedPart>)
    requires DistinctParts(s) && DistinctParts(t)
    requires forall x :: x in s <==> x in t
    ensures multiset(s) == multiset(t)
  {
    DistinctMultiplicity(s);
    DistinctMultiplicity(t);
    assert forall x :: multiset(s)[x] == multiset(t)[x];
  }

  /**
   * Sorting determines the result: a sorted permutation of a strictly
   * ascending list is that list, whatever order the parts arrived in.
   */
  lemma {:induction false} SortedPermutationUnique(s: seq<CompletedPart>, t: seq<CompletedPart>)
    requires SortedByPartNumber(s) && StrictlyAscending(t)
    requires multiset(s) == multiset(t)
    ensures s == t
    decreases |s|
  {
    assert |s| == |multiset(s)| == |multiset(t)| == |t|;
    if s != [] {
      SameHead(s, t);
      var x := s[0];
      assert s == [x] + s[1..] && t == [x] + t[1..];
      assert multiset(s[1..]) == multiset(s) - multiset{x};
      assert multiset(t[1..]) == multiset(t) - multiset{x};
      SortedPermutationUnique(s[1..], t[1..]);
    }
  }

  /** The smallest entry of both lists is the same. */
  lemma SameHead(s: seq<CompletedPart>, t: seq<CompletedPart>)
    requires SortedByPartNumber(s) && StrictlyAscending(t)
    requires multiset(s) == multiset(t) && |s| == |t| > 0
    ensures s[0] == t[0]
  {
    assert s[0] in multiset(t);
    var j :| 0 <= j < |t| && t[j] == s[0];
    assert t[0] in multiset(s);
    var i :| 0 <= i < |s| && s[i] == t[0];
    assert s[0].partNumber <= s[i].partNumber;
    assert j == 0;
  }
}
