/** Two places where djs_reject as written departs from what its comments
    promise, each modelled as written beside the intended definition that
    the rest of the model uses.

    1. The `lower` and `upper` increments (source lines 121 and 131) add the
       boolean `(-diff/sigma > 0) * qbad`, i.e. 0 or 1, not the number of
       sigma the comment at lines 108-113 describes. When `lower` and `upper`
       are the only active criteria (an active `maxdev` adds its own
       multiples), every point they reject ties at badness 1. Under the
       repaired grouping (lines 176 and 196) and the stable argsort this
       model assumes, the `maxrej` cap then keeps the rejected points of
       highest index instead of the worst ones.

    2. The growth loop (source lines 238-240) runs k over 1..grow-1 only, and
       indexes `newmask` with the boolean arrays `(irejects - k) > 0` and
       `(irejects + k) < n - 1`, whose positions are positions in the list of
       rejects, not points of the data. With grow = 1 nothing grows; with
       grow >= 2 and some but not all points rejected the lengths disagree
       and numpy raises an IndexError. */
module AsWritten {
  import opened Wrappers
  import opened Criteria
  import opened Groups
  import opened Capping
  import opened Growth
  import opened DjsReject
  import Scenarios

  // ---------------------------------------------------------------------
  // 1. Increments
  // ---------------------------------------------------------------------

  /** The `upper` increment as written: 1 when the test fires and the
      normalised deviation is positive, else 0. */
  function UpperTermAsWritten(diff: real, pn: PointNoise, upper: real): (t: real)
    ensures t == 0.0 || t == 1.0
    ensures t == 1.0 <==> UpperTerm(diff, pn, upper) != 0.0
  {
    if HighFires(diff, pn, upper) && Normalised(diff, pn) > 0.0 then 1.0 else 0.0
  }

  /** The `lower` increment as written. */
  function LowerTermAsWritten(diff: real, pn: PointNoise, lower: real): (t: real)
    ensures t == 0.0 || t == 1.0
    ensures t == 1.0 <==> LowerTerm(diff, pn, lower) != 0.0
  {
    if LowFires(diff, pn, lower) && -Normalised(diff, pn) > 0.0 then 1.0 else 0.0
  }

  /** A point ten sigma below the model gets increment 1 as written and 10
      as intended. */
  lemma LowerIncrementIsBoolean()
    ensures LowerTermAsWritten(-10.0, BySigma(1.0), 3.0) == 1.0
    ensures LowerTerm(-10.0, BySigma(1.0), 3.0) == 10.0
  {
  }

  /** The badness from `upper` alone, as written. */
  function UpperBadnessAsWritten(diffs: seq<real>, sigma: real, upper: real): (b: seq<real>)
    ensures |b| == |diffs|
    ensures forall i :: 0 <= i < |diffs| ==> (b[i] == 1.0 <==> UpperTerm(diffs[i], BySigma(sigma), upper) != 0.0)
  {
    seq(|diffs|, i requires 0 <= i < |diffs| => UpperTermAsWritten(diffs[i], BySigma(sigma), upper))
  }

  /** Residuals [0,5,3,0], upper = 1, sigma = 1: the 0/1 increments give
      both rejected points badness 1. Fed to the model's cap (repaired
      grouping, stable argsort) with maxrej = [1], that tie keeps point 2
      (3 sigma) rejected and restores point 1 (5 sigma); the intended
      increments give the badness [0,5,3,0], whose cap keeps point 1, the
      worst. */
  lemma CapKeepsWrongPointAsWritten()
    ensures UpperBadnessAsWritten([0.0, 5.0, 3.0, 0.0], 1.0, 1.0) == [0.0, 1.0, 1.0, 0.0]
    ensures Capped([0.0, 1.0, 1.0, 0.0], WholeVector, 1) == [0.0, 0.0, 1.0, 0.0]
    ensures Badness([0.0, 5.0, 3.0, 0.0], [0.0, 0.0, 0.0, 0.0], Sigma(1.0),
                    Limits(None, Some(1.0), None), None, AllGood(4), false) == [0.0, 5.0, 3.0, 0.0]
    ensures Capped([0.0, 5.0, 3.0, 0.0], WholeVector, 1) == [0.0, 5.0, 0.0, 0.0]
  {
    assert UpperBadnessAsWritten([0.0, 5.0, 3.0, 0.0], 1.0, 1.0) == [0.0, 1.0, 1.0, 0.0];
    assert Badness([0.0, 5.0, 3.0, 0.0], [0.0, 0.0, 0.0, 0.0], Sigma(1.0),
                   Limits(None, Some(1.0), None), None, AllGood(4), false) == [0.0, 5.0, 3.0, 0.0];
    TieCap([0.0, 1.0, 1.0, 0.0]);
    Scenarios.WorstCap([0.0, 5.0, 3.0, 0.0]);
  }

  /** The cap of the tied badness [0,1,1,0] at maxrej = 1. */
  lemma TieCap(w: seq<real>)
    requires w == [0.0, 1.0, 1.0, 0.0]
    ensures Capped(w, WholeVector, 1) == [0.0, 0.0, 1.0, 0.0]
  {
    var g := Group(0, 3);
    assert CountBad(w, g) == 2;
    assert Above(w, g, 1) == 1 && Above(w, g, 2) == 0;
    assert CappedAt(w, WholeVector, 1, 1) == 0.0 && CappedAt(w, WholeVector, 1, 2) == 1.0;
  }

  // ---------------------------------------------------------------------
  // 2. Growth
  // ---------------------------------------------------------------------

  /** `np.nonzero(~mask)`: the indices of the rejected points, ascending. */
  function Rejects(mask: seq<bool>): (r: seq<int>)
    ensures forall j :: 0 <= j < |r| ==> 0 <= r[j] < |mask| && !mask[r[j]]
    ensures forall i :: 0 <= i < |mask| && !mask[i] ==> i in r
    ensures forall j, k :: 0 <= j < k < |r| ==> r[j] < r[k]
    ensures |r| <= |mask|
    ensures |r| == |mask| <==> forall i :: 0 <= i < |mask| ==> !mask[i]
  {
    if |mask| == 0 then []
    else
      var last := |mask| - 1;
      var front := Rejects(mask[..last]);
      assert forall i :: 0 <= i < last ==> mask[..last][i] == mask[i];
      if mask[last] then front else front + [last]
  }

  /** `newmask[sel] = 0` with a boolean selector: IndexError (None) when the
      selector's length is not the mask's. */
  function ClearWhere(m: seq<bool>, sel: seq<bool>): (r: Option<seq<bool>>)
    ensures r.Some? <==> |sel| == |m|
    ensures r.Some? ==> |r.value| == |m| && forall i :: 0 <= i < |m| ==> r.value[i] == (m[i] && !sel[i])
  {
    if |sel| != |m| then None
    else Some(seq(|m|, i requires 0 <= i < |m| => m[i] && !sel[i]))
  }

  /** No point of m is good. */
  predicate AllRejected(m: seq<bool>)
  {
    forall i :: 0 <= i < |m| ==> !m[i]
  }

  /** One pass of the loop body for offset k, as written: it raises unless
      there are as many rejects as points, and then it changes nothing. */
  function GrowPassAsWritten(m: seq<bool>, rej: seq<int>, k: int, n: int): (r: Option<seq<bool>>)
    ensures r.Some? <==> |rej| == |m|
    ensures r.Some? && AllRejected(m) ==> r.value == m
  {
    match ClearWhere(m, seq(|rej|, j requires 0 <= j < |rej| => rej[j] - k > 0))
    case None => None
    case Some(m1) => ClearWhere(m1, seq(|rej|, j requires 0 <= j < |rej| => rej[j] + k < n - 1))
  }

  /** The passes for offsets k..grow-1 (`range(1, grow)` from k = 1): with
      no pass left the mask is returned as it is; a pass raises unless there
      are as many rejects as points; and a mask with every point rejected
      comes back unchanged. */
  function GrowLoopAsWritten(m: seq<bool>, rej: seq<int>, k: int, grow: int, n: int): (r: Option<seq<bool>>)
    ensures k >= grow ==> r == Some(m)
    ensures k < grow && |rej| != |m| ==> r.None?
    ensures |rej| == |m| && AllRejected(m) ==> r == Some(m)
    decreases grow - k
  {
    if k >= grow then Some(m)
    else match GrowPassAsWritten(m, rej, k, n)
      case None => None
      case Some(m1) => GrowLoopAsWritten(m1, rej, k + 1, grow, n)
  }

  /** The growth step as written (source lines 234-240); None is the
      IndexError. It raises exactly when grow >= 2 and some but not all
      points are rejected, and otherwise never changes the mask. */
  function GrowAsWritten(mask: seq<bool>, grow: int): (r: Option<seq<bool>>)
    ensures r.None? <==> grow >= 2 && 0 < |Rejects(mask)| < |mask|
    ensures r.Some? ==> r.value == mask
  {
    var rej := Rejects(mask);
    if grow > 0 && |rej| > 0 then GrowLoopAsWritten(mask, rej, 1, grow, |mask|) else Some(mask)
  }

  /** As written, grow = 1 never grows anything, for every mask. */
  lemma GrowOneIsIdentityAsWritten(mask: seq<bool>)
    ensures GrowAsWritten(mask, 1) == Some(mask)
  {
  }

  /** As written, grow >= 2 raises whenever some but not all points are
      rejected. */
  lemma GrowRaisesAsWritten(mask: seq<bool>, grow: int)
    requires grow >= 2
    requires exists i :: 0 <= i < |mask| && !mask[i]
    requires exists i :: 0 <= i < |mask| && mask[i]
    ensures GrowAsWritten(mask, grow).None?
  {
    var i :| 0 <= i < |mask| && !mask[i];
    assert i in Rejects(mask);
  }

  /** mask [T,F,T]: as written grow = 1 leaves it and grow = 2 raises; the
      intended growth by one point on each side rejects all three. */
  lemma GrowthCounterexample()
    ensures GrowAsWritten([true, false, true], 1) == Some([true, false, true])
    ensures GrowAsWritten([true, false, true], 2) == None
    ensures Grown([true, false, true], 1) == [false, false, false]
  {
    GrowOneIsIdentityAsWritten([true, false, true]);
    GrowRaisesAsWritten([true, false, true], 2);
    var m := [true, false, true];
    assert !m[1];
    assert forall j :: 0 <= j < 3 ==> !Grown(m, 1)[j] by {
      forall j | 0 <= j < 3
        ensures !Grown(m, 1)[j]
      {
        GrowthNeighbourhood(m, 1, j);
      }
    }
  }
}
