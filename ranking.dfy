/** The final ranking of a batch: `results.sort(comparator)` puts every
    successful result before every error and orders the successful ones by
    score, highest first. */
module Ranking {
  import opened Types

  /** The order the ranking promises between two results: an error may only
      be followed by errors, and a success is followed by no higher score. */
  predicate InOrder(x: CandidateResult, y: CandidateResult) {
    IsError(y) || (!IsError(x) && x.score >= y.score)
  }

  predicate Ranked(s: seq<CandidateResult>) {
    forall i, j :: 0 <= i < j < |s| ==> InOrder(s[i], s[j])
  }

  lemma {:induction false} InOrderTransitive(x: CandidateResult, y: CandidateResult, z: CandidateResult)
    requires InOrder(x, y) && InOrder(y, z)
    ensures InOrder(x, z)
  {
    if !IsError(z) {
      assert !IsError(y) && y.score >= z.score;
    }
  }

  /** The comparator as the route writes it: `b.error ? -1 : a.error ? 1 :
      b.score - a.score`. A positive answer means `a` must go after `b`. */
  function CompareAsWritten(a: CandidateResult, b: CandidateResult): (c: int)
    ensures c > 0 <==> !InOrder(a, b)
    ensures c == 0 <==> !IsError(a) && !IsError(b) && a.score == b.score
  {
    if IsError(b) then -1 else if IsError(a) then 1 else b.score - a.score
  }

  /** When both results are errors the comparator answers -1 both ways, so
      each is said to come before the other: it is not a consistent
      comparator. */
  lemma ErrorsCompareInconsistently(a: CandidateResult, b: CandidateResult)
    requires IsError(a) && IsError(b)
    ensures CompareAsWritten(a, b) == -1 && CompareAsWritten(b, a) == -1
  {
  }

  /** The comparator with two errors treated as equal. It is antisymmetric in
      sign, and it demands a swap exactly where the comparator as written
      does, so a sort driven by it produces the same ranking guarantees. */
  function Compare(a: CandidateResult, b: CandidateResult): (c: int)
    ensures c > 0 <==> CompareAsWritten(a, b) > 0
    ensures c > 0 <==> !InOrder(a, b)
    ensures c == 0 <==> (IsError(a) && IsError(b)) || CompareAsWritten(a, b) == 0
  {
    if IsError(a) && IsError(b) then 0 else CompareAsWritten(a, b)
  }

  /** The corrected comparator is consistent: swapping its arguments flips
      the sign of its answer. */
  lemma CompareAntisymmetric(a: CandidateResult, b: CandidateResult)
    ensures Compare(a, b) > 0 <==> Compare(b, a) < 0
    ensures Compare(a, b) == 0 <==> Compare(b, a) == 0
  {
  }

  /** `results.sort(...)` in place: an insertion sort driven by `Compare`.
      Afterwards the array is ranked and holds the same results. */
  method Rank(a: array<CandidateResult>)
    modifies a
    ensures Ranked(a[..])
    ensures multiset(a[..]) == multiset(old(a[..]))
  {
    var i := 0;
    while i < a.Length
      invariant 0 <= i <= a.Length
      invariant forall p, q :: 0 <= p < q < i ==> InOrder(a[p], a[q])
      invariant multiset(a[..]) == multiset(old(a[..]))
    {
      Insert(a, i);
      i := i + 1;
    }
  }

  /** One step of the sort: `a[i]` moves left past every earlier result the
      comparator puts after it, so the ranked prefix grows by one. */
  method Insert(a: array<CandidateResult>, i: int)
    requires 0 <= i < a.Length
    requires forall p, q :: 0 <= p < q < i ==> InOrder(a[p], a[q])
    modifies a
    ensures forall p, q :: 0 <= p < q <= i ==> InOrder(a[p], a[q])
    ensures multiset(a[..]) == multiset(old(a[..]))
  {
    var j := i;
    while j > 0 && Compare(a[j - 1], a[j]) > 0
      invariant 0 <= j <= i
      invariant forall p, q :: 0 <= p < q <= i && p != j && q != j ==> InOrder(a[p], a[q])
      invariant forall q :: j < q <= i ==> InOrder(a[j], a[q])
      invariant multiset(a[..]) == multiset(old(a[..]))
    {
      Swap(a, j - 1, j);
      j := j - 1;
    }
    forall p | 0 <= p < j ensures InOrder(a[p], a[j]) {
      if p < j - 1 {
        InOrderTransitive(a[p], a[j - 1], a[j]);
      }
    }
  }

  /** Exchange two entries in place: nothing else moves, and the array holds
      the same results. */
  method Swap(a: array<CandidateResult>, i: int, k: int)
    requires 0 <= i < k < a.Length
    modifies a
    ensures a[i] == old(a[k]) && a[k] == old(a[i])
    ensures forall m :: 0 <= m < a.Length && m != i && m != k ==> a[m] == old(a[m])
    ensures multiset(a[..]) == multiset(old(a[..]))
  {
    a[i], a[k] := a[k], a[i];
  }

  /** Index of the first error in `s` (or `|s|` when there is none). */
  function FirstError(s: seq<CandidateResult>): (k: nat)
    ensures k <= |s|
    ensures forall i :: 0 <= i < k ==> !IsError(s[i])
    ensures k < |s| ==> IsError(s[k])
  {
    if s == [] || IsError(s[0]) then 0 else 1 + FirstError(s[1..])
  }

  /** A ranked list splits in two at its first error: successes in
      non-increasing score order, then only errors. */
  lemma {:induction false} RankedSplits(s: seq<CandidateResult>)
    requires Ranked(s)
    ensures forall i :: FirstError(s) <= i < |s| ==> IsError(s[i])
    ensures forall i, j :: 0 <= i < j < FirstError(s) ==> s[i].score >= s[j].score
  {
    var k := FirstError(s);
    forall i | k < i < |s| ensures IsError(s[i]) {
      assert InOrder(s[k], s[i]);
    }
  }
}
