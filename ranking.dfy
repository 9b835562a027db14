/** `find_max_indices` and `find_min_indices` of hijack_utk.py: pick the k
    largest (or smallest) entries of a float array. NumPy's argpartition and
    argsort leave the order of equal entries unspecified; the methods here
    make one choice and their contracts hold for every admissible one. */
module Ranking {
  import opened Base

  /** A float64 array entry: a finite value or an infinity (NaN is not modelled). */
  datatype Float = NegInf | Finite(v: real) | PosInf

  /** `a <= b` on floats. */
  predicate Le(a: Float, b: Float)
  {
    match a
    case NegInf => true
    case Finite(x) => b.PosInf? || (b.Finite? && x <= b.v)
    case PosInf => b.PosInf?
  }

  /** `a` may be listed before `b`: a is at least b when ranking the largest
      first, at most b when ranking the smallest first. */
  predicate Precedes(a: Float, b: Float, largest: bool)
  {
    if largest then Le(b, a) else Le(a, b)
  }

  /** The exceptions the two functions can raise. */
  datatype RankError =
    | KExceedsLength   // the explicit `raise ValueError` when k > len(arr)
    | KthOutOfBounds   // np.argpartition rejecting a kth outside the array

  predicate InRange(r: seq<nat>, n: nat)
  {
    forall i :: 0 <= i < |r| ==> r[i] < n
  }

  predicate Distinct(r: seq<nat>)
  {
    forall i, j :: 0 <= i < j < |r| ==> r[i] != r[j]
  }

  predicate StrictlyIncreasing(r: seq<nat>)
  {
    forall i, j :: 0 <= i < j < |r| ==> r[i] < r[j]
  }

  /** Every chosen position ranks no later than every position left out. */
  predicate Dominates(arr: seq<Float>, r: seq<nat>, largest: bool)
    requires InRange(r, |arr|)
  {
    forall i, j :: 0 <= i < |r| && 0 <= j < |arr| && j !in r ==> Precedes(arr[r[i]], arr[j], largest)
  }

  /** `r` lists distinct positions of `arr`, in ranking order, and no
      position left out ranks before any chosen one. */
  predicate IsRankedSelection(arr: seq<Float>, r: seq<nat>, largest: bool)
  {
    && InRange(r, |arr|)
    && Distinct(r)
    && (forall i, j :: 0 <= i < j < |r| ==> Precedes(arr[r[i]], arr[r[j]], largest))
    && Dominates(arr, r, largest)
  }

  function RemoveAt(s: seq<nat>, p: nat): (r: seq<nat>)
    requires p < |s|
  {
    s[..p] + s[p + 1..]
  }

  lemma RemoveAtFacts(s: seq<nat>, p: nat)
    requires Distinct(s) && p < |s|
    ensures |RemoveAt(s, p)| == |s| - 1
    ensures Distinct(RemoveAt(s, p))
    ensures forall y :: y in RemoveAt(s, p) <==> y in s && y != s[p]
  {
    var t := RemoveAt(s, p);
    assert forall i :: 0 <= i < |t| ==> t[i] == if i < p then s[i] else s[i + 1];
    forall y | y in s && y != s[p]
      ensures y in t
    {
      var i :| 0 <= i < |s| && s[i] == y;
      if i < p {
        assert t[i] == y;
      } else {
        assert t[i - 1] == y;
      }
    }
  }

  /** A duplicate-free list whose elements all occur in another
      duplicate-free list is no longer than it. */
  lemma {:induction false} SubsetLength(a: seq<nat>, b: seq<nat>)
    requires Distinct(a) && Distinct(b)
    requires forall x :: x in a ==> x in b
    ensures |a| <= |b|
    decreases |a|
  {
    if a != [] {
      var x := a[0];
      assert x in a;
      var p :| 0 <= p < |b| && b[p] == x;
      RemoveAtFacts(b, p);
      forall y | y in a[1..]
        ensures y in RemoveAt(b, p)
      {
        var i :| 0 <= i < |a[1..]| && a[1..][i] == y;
        assert a[i + 1] == y;
      }
      SubsetLength(a[1..], RemoveAt(b, p));
    }
  }

  /** Fewer than n distinct positions below n leave one out. */
  lemma MissingPosition(r: seq<nat>, n: nat)
    requires Distinct(r) && InRange(r, n) && |r| < n
    ensures exists j: nat :: j < n && j !in r
  {
    if forall j: nat :: j < n ==> j in r {
      var all: seq<nat> := seq(n, i requires 0 <= i < n => i);
      SubsetLength(all, r);
    }
  }

  /** In a ranked selection `r` no entry can be strictly better than the
      entry at the same rank of another ranked selection `s` of the same
      length. */
  lemma NoStrictlyBetterAtRank(arr: seq<Float>, r: seq<nat>, s: seq<nat>, i: nat, largest: bool)
    requires IsRankedSelection(arr, r, largest) && IsRankedSelection(arr, s, largest)
    requires |r| == |s| && i < |r|
    ensures Precedes(arr[s[i]], arr[r[i]], largest)
  {
    if !Precedes(arr[s[i]], arr[r[i]], largest) {
      var front := r[..i + 1];
      var prefix := s[..i];
      forall x | x in front
        ensures x in prefix
      {
        var p :| 0 <= p < |front| && front[p] == x;
        assert r[p] == x && Precedes(arr[x], arr[r[i]], largest);
        assert !Precedes(arr[s[i]], arr[x], largest);
        if x in s {
          var q :| 0 <= q < |s| && s[q] == x;
          assert q < i && prefix[q] == x;
        }
      }
      SubsetLength(front, prefix);
    }
  }

  /** Whatever tie-breaking argpartition and argsort use, the entries a
      ranked selection lists are determined: two ranked selections of the
      same length agree value by value, rank by rank. */
  lemma RankedValuesDetermined(arr: seq<Float>, r: seq<nat>, s: seq<nat>, largest: bool)
    requires IsRankedSelection(arr, r, largest) && IsRankedSelection(arr, s, largest)
    requires |r| == |s|
    ensures forall i :: 0 <= i < |r| ==> arr[r[i]] == arr[s[i]]
  {
    forall i | 0 <= i < |r|
      ensures arr[r[i]] == arr[s[i]]
    {
      NoStrictlyBetterAtRank(arr, r, s, i, largest);
      NoStrictlyBetterAtRank(arr, s, r, i, largest);
    }
  }

  /** The position among those not yet chosen that ranks first; among equal
      entries the lowest position wins. */
  method NextRanked(arr: seq<Float>, chosen: seq<nat>, largest: bool) returns (best: nat)
    requires Distinct(chosen) && InRange(chosen, |arr|) && |chosen| < |arr|
    ensures best < |arr| && best !in chosen
    ensures forall j :: 0 <= j < |arr| && j !in chosen ==> Precedes(arr[best], arr[j], largest)
  {
    MissingPosition(chosen, |arr|);
    var found := false;
    best := 0;
    var j := 0;
    while j < |arr|
      invariant 0 <= j <= |arr|
      invariant found ==> best < j && best !in chosen
      invariant found ==> forall k :: 0 <= k < j && k !in chosen ==> Precedes(arr[best], arr[k], largest)
      invariant !found ==> forall k :: 0 <= k < j ==> k in chosen
    {
      if j !in chosen && (!found || !Precedes(arr[best], arr[j], largest)) {
        best, found := j, true;
      }
      j := j + 1;
    }
  }

  /** The first m positions in ranking order (the argpartition step
      followed by the ordering argsort). */
  method SelectRanked(arr: seq<Float>, m: nat, largest: bool) returns (sel: seq<nat>)
    requires m <= |arr|
    ensures |sel| == m && IsRankedSelection(arr, sel, largest)
  {
    sel := [];
    while |sel| < m
      invariant |sel| <= m
      invariant IsRankedSelection(arr, sel, largest)
    {
      var best := NextRanked(arr, sel, largest);
      sel := sel + [best];
    }
  }

  /** `find_max_indices(arr, k)`: positions of the k largest entries, largest
      first. `k > len(arr)` raises; `k == 0` turns the slice `[-0:]` into
      the whole array, so every position comes back (none for an empty
      array, where argpartition skips its bound check on `kth`). */
  method FindMaxIndices(arr: seq<Float>, k: nat) returns (r: Result<seq<nat>, RankError>)
    ensures k > |arr| ==> r == Err(KExceedsLength)
    ensures k <= |arr| ==> r.Ok?
    ensures r.Ok? ==> |r.value| == (if k == 0 then |arr| else k)
    ensures r.Ok? ==> IsRankedSelection(arr, r.value, true)
  {
    if k > |arr| {
      return Err(KExceedsLength);
    }
    var m := if k == 0 then |arr| else k;
    var idx := SelectRanked(arr, m, true);
    r := Ok(idx);
  }

  /** The positions of `chosen` in increasing order (`idx[:k].argsort()`
      applied to the index array itself). */
  method InPositionOrder(chosen: seq<nat>, n: nat) returns (out: seq<nat>)
    requires Distinct(chosen) && InRange(chosen, n)
    ensures StrictlyIncreasing(out) && InRange(out, n) && |out| == |chosen|
    ensures forall x :: x in out <==> x in chosen
  {
    out := [];
    var j := 0;
    while j < n
      invariant 0 <= j <= n
      invariant StrictlyIncreasing(out)
      invariant forall i :: 0 <= i < |out| ==> out[i] < j
      invariant forall x :: x in out <==> x in chosen && x < j
    {
      if j in chosen {
        out := out + [j];
      }
      j := j + 1;
    }
    SubsetLength(out, chosen);
    SubsetLength(chosen, out);
  }

  /** `find_min_indices(arr, k)`: positions of the k smallest entries, in
      increasing position order. `k > len(arr)` raises explicitly and
      `k == len(arr)` is rejected by argpartition, unless the array is
      empty: argpartition checks `kth` only on a non-empty array. */
  method FindMinIndices(arr: seq<Float>, k: nat) returns (r: Result<seq<nat>, RankError>)
    ensures k > |arr| ==> r == Err(KExceedsLength)
    ensures 0 < k == |arr| ==> r == Err(KthOutOfBounds)
    ensures k < |arr| || k == |arr| == 0 ==> r.Ok?
    ensures r.Ok? ==> |r.value| == k && InRange(r.value, |arr|) && StrictlyIncreasing(r.value)
    ensures r.Ok? ==> Dominates(arr, r.value, false)
  {
    if k > |arr| {
      return Err(KExceedsLength);
    }
    if 0 < k == |arr| {
      return Err(KthOutOfBounds);
    }
    var idx := SelectRanked(arr, k, false);
    var sorted := InPositionOrder(idx, |arr|);
    assert forall i :: 0 <= i < |sorted| ==> sorted[i] in idx;
    r := Ok(sorted);
  }
}
