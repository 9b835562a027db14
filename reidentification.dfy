/** The top-1 re-identification count at the end of hijack_utk.py: mask the
    diagonal of the pairwise similarity matrix with -inf, take for every
    sample the most similar entry of its row with `find_max_indices(row, 1)`,
    and count the samples whose match carries the same identity. The
    similarity matrix itself (sklearn's cosine similarity) is an input. */
module Reidentification {
  import opened Base
  import opened Ranking

  /** An n-by-n matrix. */
  predicate IsSquare(sim: seq<seq<real>>, n: nat)
  {
    |sim| == n && forall i :: 0 <= i < n ==> |sim[i]| == n
  }

  /** Row i of the similarity matrix once its diagonal is -inf. */
  function MaskedRow(sim: seq<seq<real>>, i: nat): (row: seq<Float>)
    requires IsSquare(sim, |sim|) && i < |sim|
    ensures |row| == |sim|
    ensures forall j :: 0 <= j < |sim| ==> row[j] == if j == i then NegInf else Finite(sim[i][j])
  {
    seq(|sim|, j requires 0 <= j < |sim| => if j == i then NegInf else Finite(sim[i][j]))
  }

  /** `b` is a nearest neighbour of sample `i` among the other samples. */
  predicate IsNearestOther(sim: seq<seq<real>>, i: nat, b: nat)
    requires IsSquare(sim, |sim|) && i < |sim|
  {
    b < |sim| && b != i && forall j :: 0 <= j < |sim| && j != i ==> sim[i][j] <= sim[i][b]
  }

  /** With at least two samples, taking the single largest entry of the
      masked row is the same as taking a nearest other sample: the -inf
      diagonal is never chosen, and the choice is most similar among the
      rest. */
  lemma Top1OfMaskedRow(sim: seq<seq<real>>, i: nat, b: nat)
    requires IsSquare(sim, |sim|) && i < |sim| && |sim| >= 2
    ensures IsRankedSelection(MaskedRow(sim, i), [b], true) <==> IsNearestOther(sim, i, b)
  {
    var row := MaskedRow(sim, i);
    var single := [b];
    assert single[0] == b;
    if IsRankedSelection(row, single, true) {
      assert b < |sim|;
      forall j | 0 <= j < |sim| && j != b
        ensures Le(row[j], row[b])
      {
        assert j !in single;
      }
      var other := if i == 0 then 1 else 0;
      assert other != b ==> Le(row[other], row[b]);
    }
    if IsNearestOther(sim, i, b) {
      forall p, j | 0 <= p < |single| && 0 <= j < |row| && j !in single
        ensures Precedes(row[single[p]], row[j], true)
      {
      }
    }
  }

  /** Row by row, top-1 choices on the masked rows are nearest other samples. */
  lemma NearestOthers(sim: seq<seq<real>>, best: seq<nat>)
    requires IsSquare(sim, |sim|) && |sim| >= 2 && |best| == |sim|
    requires forall i :: 0 <= i < |sim| ==> IsRankedSelection(MaskedRow(sim, i), [best[i]], true)
    ensures forall i :: 0 <= i < |sim| ==> IsNearestOther(sim, i, best[i])
  {
    forall i | 0 <= i < |sim|
      ensures IsNearestOther(sim, i, best[i])
    {
      Top1OfMaskedRow(sim, i, best[i]);
    }
  }

  /** The samples, below `upTo` and in increasing order, whose chosen match
      `best[i]` has the sample's own identity. */
  function MatchedRows(ids: seq<int>, best: seq<nat>, upTo: nat): (r: seq<nat>)
    requires upTo <= |best| && upTo <= |ids| && InRange(best, |ids|)
    ensures StrictlyIncreasing(r) && InRange(r, upTo) && |r| <= upTo
    decreases upTo
  {
    if upTo == 0 then []
    else
      var prev := MatchedRows(ids, best, upTo - 1);
      var i := upTo - 1;
      if ids[best[i]] == ids[i] then prev + [i] else prev
  }

  /** A sample is among the matched rows exactly when it lies below `upTo`
      and its chosen match has its identity. */
  lemma {:induction false} MatchedRowsMembers(ids: seq<int>, best: seq<nat>, upTo: nat)
    requires upTo <= |best| && upTo <= |ids| && InRange(best, |ids|)
    ensures forall i :: 0 <= i ==> (i in MatchedRows(ids, best, upTo) <==> i < upTo && ids[best[i]] == ids[i])
    decreases upTo
  {
    if upTo > 0 {
      MatchedRowsMembers(ids, best, upTo - 1);
    }
  }

  /** The matched rows below `upTo` depend only on the choices made for them. */
  lemma {:induction false} MatchedRowsStable(ids: seq<int>, a: seq<nat>, b: seq<nat>, upTo: nat)
    requires upTo <= |a| && upTo <= |b| && upTo <= |ids| && InRange(a, |ids|) && InRange(b, |ids|)
    requires a[..upTo] == b[..upTo]
    ensures MatchedRows(ids, a, upTo) == MatchedRows(ids, b, upTo)
    decreases upTo
  {
    if upTo > 0 {
      assert a[upTo - 1] == a[..upTo][upTo - 1] == b[..upTo][upTo - 1] == b[upTo - 1];
      assert a[..upTo - 1] == a[..upTo][..upTo - 1];
      assert b[..upTo - 1] == b[..upTo][..upTo - 1];
      MatchedRowsStable(ids, a, b, upTo - 1);
    }
  }

  /** Choosing the match of the next sample appends it to the matched rows
      exactly when the identities agree. */
  lemma MatchedRowsExtend(ids: seq<int>, best: seq<nat>, b: nat)
    requires |best| < |ids| && InRange(best, |ids|) && b < |ids|
    ensures InRange(best + [b], |ids|)
    ensures MatchedRows(ids, best + [b], |best| + 1)
      == MatchedRows(ids, best, |best|) + (if ids[b] == ids[|best|] then [|best|] else [])
  {
    var next := best + [b];
    assert next[..|best|] == best[..|best|];
    MatchedRowsStable(ids, next, best, |best|);
  }

  /** `correct / n`, or the ZeroDivisionError Python raises when there are no samples. */
  function Accuracy(correct: nat, n: nat): (r: Option<real>)
    ensures r.None? <==> n == 0
    ensures r.Some? ==> r.value * n as real == correct as real
    ensures r.Some? && correct <= n ==> 0.0 <= r.value <= 1.0
  {
    if n == 0 then None else Some(correct as real / n as real)
  }

  /** `np.fill_diagonal(d, value)`, in place. */
  method FillDiagonal(d: array2<Float>, value: Float)
    modifies d
    ensures forall i, j :: 0 <= i < d.Length0 && 0 <= j < d.Length1 ==>
      d[i, j] == if i == j then value else old(d[i, j])
  {
    var i := 0;
    while i < d.Length0 && i < d.Length1
      invariant 0 <= i <= d.Length0 && i <= d.Length1
      invariant forall r, c :: 0 <= r < d.Length0 && 0 <= c < d.Length1 ==>
        d[r, c] == if r == c && r < i then value else old(d[r, c])
    {
      d[i, i] := value;
      i := i + 1;
    }
  }

  /** The similarity matrix as a fresh n-by-n float64 array. */
  method ToArray(sim: seq<seq<real>>, n: nat) returns (d: array2<Float>)
    requires IsSquare(sim, n)
    ensures fresh(d) && d.Length0 == n && d.Length1 == n
    ensures forall a, c :: 0 <= a < n && 0 <= c < n ==> d[a, c] == Finite(sim[a][c])
  {
    d := new Float[n, n];
    var r := 0;
    while r < n
      invariant 0 <= r <= n
      invariant forall a, c :: 0 <= a < r && 0 <= c < n ==> d[a, c] == Finite(sim[a][c])
    {
      var c := 0;
      while c < n
        invariant 0 <= c <= n
        invariant forall a, e :: 0 <= a < r && 0 <= e < n ==> d[a, e] == Finite(sim[a][e])
        invariant forall e :: 0 <= e < c ==> d[r, e] == Finite(sim[r][e])
      {
        d[r, c] := Finite(sim[r][c]);
        c := c + 1;
      }
      r := r + 1;
    }
  }

  /** `find_max_indices(distances[i], 1)` on the masked array: the single
      position of row i that ranks first. */
  method TopMatch(distances: array2<Float>, sim: seq<seq<real>>, i: nat) returns (indices: seq<nat>)
    requires IsSquare(sim, |sim|) && i < |sim|
    requires distances.Length0 == |sim| && distances.Length1 == |sim|
    requires forall c :: 0 <= c < |sim| ==> distances[i, c] == if i == c then NegInf else Finite(sim[i][c])
    ensures |indices| == 1 && IsRankedSelection(MaskedRow(sim, i), indices, true)
  {
    var n := |sim|;
    var row := seq(n, j requires 0 <= j < n reads distances => distances[i, j]);
    assert row == MaskedRow(sim, i);
    var found := FindMaxIndices(row, 1);
    indices := found.value;
  }

  /** Every entry of `best` is the top-1 choice of its masked row. */
  predicate Top1Choices(sim: seq<seq<real>>, best: seq<nat>)
    requires IsSquare(sim, |sim|) && |best| <= |sim|
  {
    forall a :: 0 <= a < |best| ==> IsRankedSelection(MaskedRow(sim, a), [best[a]], true)
  }

  lemma Top1ChoicesExtend(sim: seq<seq<real>>, best: seq<nat>, top: seq<nat>)
    requires IsSquare(sim, |sim|) && |best| < |sim| && Top1Choices(sim, best)
    requires |top| == 1 && IsRankedSelection(MaskedRow(sim, |best|), top, true)
    ensures Top1Choices(sim, best + [top[0]])
  {
    assert top == [top[0]];
  }

  /** The index lists `find_max_indices` returned for the given rows. */
  function ChosenLists(best: seq<nat>, rows: seq<nat>): (r: seq<seq<nat>>)
    requires InRange(rows, |best|)
  {
    seq(|rows|, p requires 0 <= p < |rows| => [best[rows[p]]])
  }

  /** Choosing a match for one more sample leaves the lists of the earlier
      rows alone. */
  lemma ChosenListsExtend(best: seq<nat>, rows: seq<nat>, b: nat)
    requires InRange(rows, |best|)
    ensures InRange(rows + [|best|], |best + [b]|)
    ensures ChosenLists(best + [b], rows) == ChosenLists(best, rows)
    ensures ChosenLists(best + [b], rows + [|best|]) == ChosenLists(best, rows) + [[b]]
  {
  }

  /** The counting loop over the masked array: for every sample its top-1
      match, and the samples whose match has the same identity together
      with the index lists `find_max_indices` returned for them. */
  method CountMatches(distances: array2<Float>, sim: seq<seq<real>>, ids: seq<int>)
    returns (correct: nat, correctIndices: seq<seq<nat>>, correctImages: seq<nat>, ghost best: seq<nat>)
    requires IsSquare(sim, |ids|)
    requires distances.Length0 == |ids| && distances.Length1 == |ids|
    requires forall a, c :: 0 <= a < |ids| && 0 <= c < |ids| ==>
      distances[a, c] == if a == c then NegInf else Finite(sim[a][c])
    ensures |best| == |ids| && InRange(best, |ids|) && Top1Choices(sim, best)
    ensures correctImages == MatchedRows(ids, best, |ids|)
    ensures correct == |correctImages| && correctIndices == ChosenLists(best, correctImages)
  {
    correct, correctIndices, correctImages, best := 0, [], [], [];
    var i := 0;
    while i < |ids|
      invariant 0 <= i <= |ids| && |best| == i && InRange(best, |ids|)
      invariant Top1Choices(sim, best)
      invariant correctImages == MatchedRows(ids, best, i)
      invariant correct == |correctImages|
      invariant correctIndices == ChosenLists(best, correctImages)
    {
      var indices := TopMatch(distances, sim, i);
      var candidates := seq(|indices|, q requires 0 <= q < |indices| => ids[indices[q]]);
      assert indices == [indices[0]];
      MatchedRowsExtend(ids, best, indices[0]);
      Top1ChoicesExtend(sim, best, indices);
      ChosenListsExtend(best, correctImages, indices[0]);
      best := best + [indices[0]];
      assert candidates == [ids[indices[0]]];
      if ids[i] in candidates {
        correctIndices := correctIndices + [indices];
        correctImages := correctImages + [i];
        correct := correct + 1;
      }
      i := i + 1;
    }
  }

  /** The re-identification section of hijack_utk.py for `n` samples with
      pairwise similarities `sim` and identities `ids`. `best` records the
      neighbour chosen for each sample. */
  method Reidentify(sim: seq<seq<real>>, ids: seq<int>)
    returns (correct: nat, correctIndices: seq<seq<nat>>, correctImages: seq<nat>,
             accuracy: Option<real>, ghost best: seq<nat>)
    requires IsSquare(sim, |ids|)
    ensures |best| == |ids| && InRange(best, |ids|)
    ensures forall i :: 0 <= i < |ids| ==> IsRankedSelection(MaskedRow(sim, i), [best[i]], true)
    ensures |ids| >= 2 ==> forall i :: 0 <= i < |ids| ==> IsNearestOther(sim, i, best[i])
    ensures correctImages == MatchedRows(ids, best, |ids|)
    ensures correct == |correctImages|
    ensures |correctIndices| == correct
    ensures forall p :: 0 <= p < |correctIndices| ==> correctIndices[p] == [best[correctImages[p]]]
    ensures accuracy == Accuracy(correct, |ids|)
  {
    var distances := ToArray(sim, |ids|);
    FillDiagonal(distances, NegInf);
    correct, correctIndices, correctImages, best := CountMatches(distances, sim, ids);
    accuracy := Accuracy(correct, |ids|);
    if |ids| >= 2 {
      NearestOthers(sim, best);
    }
  }
}
