/** The per-point rejection criteria of djs_reject: `lower`, `upper` and
    `maxdev`, each optional, summed into a non-negative badness score, and the
    badness vector after points excluded by `inmask` (and, when sticky, by the
    previous mask) are zeroed. */
module Criteria {
  import opened Wrappers

  /** The noise scale used by `lower` and `upper`: one sigma for every point
      (given, or estimated by the caller), or the square root of the inverse
      variance of each point. */
  datatype Noise = Sigma(sigma: real) | SqrtInvvar(w: seq<real>)

  /** The noise scale at one point. */
  datatype PointNoise = BySigma(sigma: real) | ByWeight(w: real)

  /** The three optional thresholds. */
  datatype Limits = Limits(lower: Option<real>, upper: Option<real>, maxdev: Option<real>)

  function Abs(x: real): real
  {
    if x < 0.0 then -x else x
  }

  /** True when `lower` or `upper` is set, i.e. when the noise is consulted. */
  predicate UsesNoise(lim: Limits)
  {
    lim.lower.Some? || lim.upper.Some?
  }

  /** When `maxdev` is set it is a positive multiple unit. */
  predicate MaxdevPositive(lim: Limits)
  {
    lim.maxdev.Some? ==> lim.maxdev.value > 0.0
  }

  /** The noise scale is consulted only at indices that it covers. */
  predicate NoiseCovers(noise: Noise, lim: Limits, n: nat)
  {
    UsesNoise(lim) && noise.SqrtInvvar? ==> |noise.w| == n
  }

  function NoiseAt(noise: Noise, i: nat): PointNoise
    requires noise.SqrtInvvar? ==> i < |noise.w|
  {
    match noise
    case Sigma(s) => BySigma(s)
    case SqrtInvvar(w) => ByWeight(w[i])
  }

  /** The sigma divisor: a zero sigma is replaced by one (`sigma + (sigma == 0)`). */
  function SafeSigma(sigma: real): (s: real)
    ensures s != 0.0
  {
    if sigma == 0.0 then 1.0 else sigma
  }

  /** The deviation in units of the noise. */
  function Normalised(diff: real, pn: PointNoise): real
  {
    match pn
    case BySigma(s) => diff / SafeSigma(s)
    case ByWeight(w) => diff * w
  }

  /** The noise scale itself (sigma, or sqrt(invvar)). */
  function Scale(pn: PointNoise): real
  {
    match pn
    case BySigma(s) => s
    case ByWeight(w) => w
  }

  /** The `lower` test: diff < -lower*sigma, or diff*sqrt(invvar) < -lower. */
  predicate LowFires(diff: real, pn: PointNoise, lower: real)
  {
    match pn
    case BySigma(s) => diff < -lower * s
    case ByWeight(w) => diff * w < -lower
  }

  /** The `upper` test: diff > upper*sigma, or diff*sqrt(invvar) > upper. */
  predicate HighFires(diff: real, pn: PointNoise, upper: real)
  {
    match pn
    case BySigma(s) => diff > upper * s
    case ByWeight(w) => diff * w > upper
  }

  /** The `maxdev` test: |diff| > maxdev. */
  predicate DevFires(diff: real, maxdev: real)
  {
    Abs(diff) > maxdev
  }

  /** Increment from `lower`: the number of sigma below the model, counted
      only when the test fires and that number is positive. */
  function LowerTerm(diff: real, pn: PointNoise, lower: real): (t: real)
    ensures t >= 0.0
    ensures t != 0.0 ==> LowFires(diff, pn, lower) && t == -Normalised(diff, pn)
  {
    if LowFires(diff, pn, lower) && -Normalised(diff, pn) > 0.0 then -Normalised(diff, pn) else 0.0
  }

  /** Increment from `upper`: the number of sigma above the model, counted
      only when the test fires and that number is positive. */
  function UpperTerm(diff: real, pn: PointNoise, upper: real): (t: real)
    ensures t >= 0.0
    ensures t != 0.0 ==> HighFires(diff, pn, upper) && t == Normalised(diff, pn)
  {
    if HighFires(diff, pn, upper) && Normalised(diff, pn) > 0.0 then Normalised(diff, pn) else 0.0
  }

  /** Increment from `maxdev`: the number of multiples of maxdev away from
      the model, counted only when the test fires. */
  function MaxdevTerm(diff: real, maxdev: real): (t: real)
    requires maxdev > 0.0
    ensures t >= 0.0
    ensures t != 0.0 <==> DevFires(diff, maxdev)
    ensures DevFires(diff, maxdev) ==> t > 1.0 && t * maxdev == Abs(diff)
  {
    if Abs(diff) > maxdev then
      var q := Abs(diff) / maxdev;
      assert q * maxdev == Abs(diff);
      q
    else 0.0
  }

  /** The fired criteria that are switched on. */
  predicate Fires(diff: real, pn: PointNoise, lim: Limits)
  {
    (lim.lower.Some? && LowFires(diff, pn, lim.lower.value))
    || (lim.upper.Some? && HighFires(diff, pn, lim.upper.value))
    || (lim.maxdev.Some? && DevFires(diff, lim.maxdev.value))
  }

  /** The badness of one point: the sum of the active criteria's increments. */
  function PointBadness(diff: real, pn: PointNoise, lim: Limits): (b: real)
    requires MaxdevPositive(lim)
    ensures b >= 0.0
  {
    (if lim.lower.Some? then LowerTerm(diff, pn, lim.lower.value) else 0.0)
    + (if lim.upper.Some? then UpperTerm(diff, pn, lim.upper.value) else 0.0)
    + (if lim.maxdev.Some? then MaxdevTerm(diff, lim.maxdev.value) else 0.0)
  }

  /** With a non-negative threshold and noise scale, the `lower` increment is
      positive exactly when the test fires; with a positive scale it then
      exceeds `lower` sigma. */
  lemma LowerTermPositive(diff: real, pn: PointNoise, lower: real)
    requires lower >= 0.0 && Scale(pn) >= 0.0
    ensures LowerTerm(diff, pn, lower) > 0.0 <==> LowFires(diff, pn, lower)
    ensures LowFires(diff, pn, lower) && Scale(pn) > 0.0 ==> LowerTerm(diff, pn, lower) > lower
  {
    match pn
    case BySigma(s) =>
      if LowFires(diff, pn, lower) {
        assert diff < 0.0 by {
          assert lower * s >= 0.0;
        }
        if s > 0.0 {
          assert -diff / s > lower by {
            assert -diff > lower * s;
          }
        }
      }
    case ByWeight(w) =>
  }

  /** Symmetric to LowerTermPositive for `upper`. */
  lemma UpperTermPositive(diff: real, pn: PointNoise, upper: real)
    requires upper >= 0.0 && Scale(pn) >= 0.0
    ensures UpperTerm(diff, pn, upper) > 0.0 <==> HighFires(diff, pn, upper)
    ensures HighFires(diff, pn, upper) && Scale(pn) > 0.0 ==> UpperTerm(diff, pn, upper) > upper
  {
    match pn
    case BySigma(s) =>
      if HighFires(diff, pn, upper) {
        assert diff > 0.0 by {
          assert upper * s >= 0.0;
        }
        if s > 0.0 {
          assert diff / s > upper by {
            assert diff > upper * s;
          }
        }
      }
    case ByWeight(w) =>
  }

  /** A point gets positive badness exactly when one of the active criteria
      fires (thresholds and noise scale non-negative). */
  lemma PointBadnessPositive(diff: real, pn: PointNoise, lim: Limits)
    requires MaxdevPositive(lim)
    requires lim.lower.Some? ==> lim.lower.value >= 0.0
    requires lim.upper.Some? ==> lim.upper.value >= 0.0
    requires Scale(pn) >= 0.0
    ensures PointBadness(diff, pn, lim) > 0.0 <==> Fires(diff, pn, lim)
  {
    if lim.lower.Some? {
      LowerTermPositive(diff, pn, lim.lower.value);
    }
    if lim.upper.Some? {
      UpperTermPositive(diff, pn, lim.upper.value);
    }
  }

  /** Is point i excluded from scoring: masked by `inmask`, or already
      rejected in the previous mask when sticky. */
  predicate Excluded(inmask: Option<seq<bool>>, out: seq<bool>, sticky: bool, i: nat)
    requires inmask.Some? ==> i < |inmask.value|
    requires i < |out|
  {
    (inmask.Some? && !inmask.value[i]) || (sticky && !out[i])
  }

  /** The shapes under which the badness vector is defined. */
  predicate Aligned(data: seq<real>, model: seq<real>, noise: Noise, lim: Limits,
                    inmask: Option<seq<bool>>, out: seq<bool>)
  {
    |model| == |data| && |out| == |data|
    && (inmask.Some? ==> |inmask.value| == |data|)
    && NoiseCovers(noise, lim, |data|) && MaxdevPositive(lim)
  }

  /** The noise scale the criteria consult at point i (none is consulted
      when neither `lower` nor `upper` is set). */
  function NoiseUsedAt(noise: Noise, lim: Limits, i: nat): PointNoise
    requires UsesNoise(lim) && noise.SqrtInvvar? ==> i < |noise.w|
  {
    if UsesNoise(lim) then NoiseAt(noise, i) else BySigma(0.0)
  }

  /** The badness of point i from the criteria alone (source lines 118-140). */
  function ScoreAt(data: seq<real>, model: seq<real>, noise: Noise, lim: Limits, i: nat): real
    requires |model| == |data| && NoiseCovers(noise, lim, |data|) && MaxdevPositive(lim)
    requires i < |data|
  {
    PointBadness(data[i] - model[i], NoiseUsedAt(noise, lim, i), lim)
  }

  /** The badness of point i after excluded points are zeroed. */
  function BadnessAt(data: seq<real>, model: seq<real>, noise: Noise, lim: Limits,
                     inmask: Option<seq<bool>>, out: seq<bool>, sticky: bool, i: nat): real
    requires Aligned(data, model, noise, lim, inmask, out)
    requires i < |data|
  {
    if Excluded(inmask, out, sticky, i) then 0.0
    else ScoreAt(data, model, noise, lim, i)
  }

  /** The badness vector (source lines 114-149): never negative, and zero
      wherever `inmask` excludes the point or, when sticky, wherever the
      previous mask rejected it. */
  function Badness(data: seq<real>, model: seq<real>, noise: Noise, lim: Limits,
                   inmask: Option<seq<bool>>, out: seq<bool>, sticky: bool): (b: seq<real>)
    requires Aligned(data, model, noise, lim, inmask, out)
    ensures |b| == |data|
    ensures forall i :: 0 <= i < |data| ==> b[i] >= 0.0
    ensures forall i :: 0 <= i < |data| && Excluded(inmask, out, sticky, i) ==> b[i] == 0.0
  {
    seq(|data|, i requires 0 <= i < |data| => BadnessAt(data, model, noise, lim, inmask, out, sticky, i))
  }

  /** With non-negative thresholds and noise, a point has positive badness
      exactly when it is not excluded and one of the active criteria fires. */
  lemma BadnessPositive(data: seq<real>, model: seq<real>, noise: Noise, lim: Limits,
                        inmask: Option<seq<bool>>, out: seq<bool>, sticky: bool, i: nat)
    requires Aligned(data, model, noise, lim, inmask, out)
    requires lim.lower.Some? ==> lim.lower.value >= 0.0
    requires lim.upper.Some? ==> lim.upper.value >= 0.0
    requires i < |data| && Scale(NoiseUsedAt(noise, lim, i)) >= 0.0
    ensures Badness(data, model, noise, lim, inmask, out, sticky)[i] > 0.0 <==>
      !Excluded(inmask, out, sticky, i) && Fires(data[i] - model[i], NoiseUsedAt(noise, lim, i), lim)
  {
    PointBadnessPositive(data[i] - model[i], NoiseUsedAt(noise, lim, i), lim);
  }
}
