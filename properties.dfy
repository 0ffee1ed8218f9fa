/** What one call of djs_reject guarantees, stated on RejectSpec: the shape
    errors, the pass-through without a model, the monotonicity of the mask
    under `inmask` and `sticky`, the meaning of `done`, the rejection rule
    when no cap and no growth apply, and the per-group bound of the cap. */
module RejectProperties {
  import opened Wrappers
  import opened Criteria
  import opened Groups
  import opened Capping
  import opened Counting
  import opened DjsReject

  /** Without a model the call returns `inmask` if given, else the incoming
      mask (all good when absent), with `done` false. */
  lemma NoModelPassThrough(data: seq<real>, outmask: Option<seq<bool>>, inmask: Option<seq<bool>>,
                           p: Params, goodStd: real)
    requires MaxdevPositive(LimitsOf(p))
    requires outmask.Some? ==> |outmask.value| == |data|
    ensures RejectSpec(data, None, outmask, inmask, p, goodStd)
      == Ok(Outcome(if inmask.Some? then inmask.value
                    else if outmask.Some? then outmask.value
                    else AllGood(|data|), false))
  {
  }

  /** Each shape error is raised exactly when its check is the first to
      fail, in the source's order: outmask, model, inmask, then the length
      of maxrej against groupdim and against groupsize. */
  lemma ShapeErrors(data: seq<real>, model: Option<seq<real>>, outmask: Option<seq<bool>>,
                    inmask: Option<seq<bool>>, p: Params, goodStd: real)
    requires MaxdevPositive(LimitsOf(p))
    ensures var r := RejectSpec(data, model, outmask, inmask, p, goodStd);
      var outOk := outmask.None? || |outmask.value| == |data|;
      var modelOk := outOk && model.Some? && |model.value| == |data|;
      var inOk := modelOk && (inmask.None? || |inmask.value| == |data|);
      var dimOk := inOk && !(p.maxrej.Some? && p.groupdim.Some? && |p.maxrej.value| != |p.groupdim.value|);
      && (r == Err(OutmaskShape) <==> !outOk)
      && (r == Err(ModelShape) <==> outOk && model.Some? && |model.value| != |data|)
      && (r == Err(InmaskShape) <==> modelOk && inmask.Some? && |inmask.value| != |data|)
      && (r == Err(MaxrejGroupdimLength) <==> inOk && !dimOk)
      && (r == Err(MaxrejGroupsizeLength) <==>
            dimOk && p.maxrej.Some? && p.groupsize.Some? && |p.maxrej.value| != |p.groupsize.value|)
  {
  }

  /** With a model, a returned mask has the shape of the data; a point that
      `inmask` excludes is rejected; with `sticky`, a point the incoming mask
      rejected stays rejected; and `done` holds exactly when the new mask
      equals the incoming one point by point. */
  lemma MaskMonotone(data: seq<real>, model: Option<seq<real>>, outmask: Option<seq<bool>>,
                     inmask: Option<seq<bool>>, p: Params, goodStd: real)
    requires MaxdevPositive(LimitsOf(p))
    requires model.Some? && RejectSpec(data, model, outmask, inmask, p, goodStd).Ok?
    ensures var o := RejectSpec(data, model, outmask, inmask, p, goodStd).value;
      var out := StartMask(data, outmask);
      && |o.mask| == |data| == |out|
      && (forall i :: 0 <= i < |data| && inmask.Some? && !inmask.value[i] ==> !o.mask[i])
      && (forall i :: 0 <= i < |data| && p.sticky && !out[i] ==> !o.mask[i])
      && (o.done <==> forall i :: 0 <= i < |data| ==> o.mask[i] == out[i])
  {
    var o := RejectSpec(data, model, outmask, inmask, p, goodStd).value;
    var out := StartMask(data, outmask);
    if forall i :: 0 <= i < |data| ==> o.mask[i] == out[i] {
      assert o.mask == out;
    }
  }

  /** The noise scales are non-negative wherever they are consulted. */
  predicate NoiseNonNegative(p: Params, goodStd: real)
  {
    (p.sigma.Some? ==> p.sigma.value >= 0.0)
    && (p.sqrtInvvar.Some? ==> forall k :: 0 <= k < |p.sqrtInvvar.value| ==> p.sqrtInvvar.value[k] >= 0.0)
    && goodStd >= 0.0
  }

  /** Without `maxrej` and `grow`, and with non-negative thresholds and noise,
      point i is kept exactly when `inmask` keeps it, the incoming mask keeps
      it if sticky, and none of the active criteria fires. */
  lemma KeptIffNoCriterionFires(data: seq<real>, model: seq<real>, outmask: Option<seq<bool>>,
                                inmask: Option<seq<bool>>, p: Params, goodStd: real, i: nat)
    requires MaxdevPositive(LimitsOf(p))
    requires p.maxrej.None? && p.grow <= 0
    requires p.lower.Some? ==> p.lower.value >= 0.0
    requires p.upper.Some? ==> p.upper.value >= 0.0
    requires NoiseNonNegative(p, goodStd)
    requires |model| == |data| && (outmask.Some? ==> |outmask.value| == |data|)
    requires inmask.Some? ==> |inmask.value| == |data|
    requires UsesNoise(LimitsOf(p)) && p.sigma.None? && p.sqrtInvvar.Some? ==> |p.sqrtInvvar.value| == |data|
    requires i < |data|
    ensures RejectSpec(data, Some(model), outmask, inmask, p, goodStd).Ok?
    ensures var o := RejectSpec(data, Some(model), outmask, inmask, p, goodStd).value;
      var out := StartMask(data, outmask);
      var noise := ResolveNoise(p, inmask, out, goodStd);
      o.mask[i] == ((inmask.Some? ==> inmask.value[i]) && (p.sticky ==> out[i])
                    && !Fires(data[i] - model[i], NoiseUsedAt(noise, LimitsOf(p), i), LimitsOf(p)))
  {
    var out := StartMask(data, outmask);
    var noise := ResolveNoise(p, inmask, out, goodStd);
    var lim := LimitsOf(p);
    assert Scale(NoiseUsedAt(noise, lim, i)) >= 0.0;
    assert CheckShapes(data, model, inmask, p).None? && NoiseCovers(noise, lim, |data|);
    var b := Badness(data, model, noise, lim, inmask, out, p.sticky);
    BadnessPositive(data, model, noise, lim, inmask, out, p.sticky, i);
    assert RejectSpec(data, Some(model), outmask, inmask, p, goodStd) == AfterScoring(b, p, inmask, out);
    assert CapStep(b, p) == Ok(b);
  }

  /** Without `maxrej` and with grow > 0 (thresholds and noise
      non-negative), point i is kept exactly when `inmask` keeps it, the
      incoming mask keeps it if sticky, and no criterion fires at any point
      within grow of it that is not excluded from scoring. */
  lemma KeptIffNoneFiresNear(data: seq<real>, model: seq<real>, outmask: Option<seq<bool>>,
                             inmask: Option<seq<bool>>, p: Params, goodStd: real, i: nat)
    requires MaxdevPositive(LimitsOf(p))
    requires p.maxrej.None? && p.grow > 0
    requires p.lower.Some? ==> p.lower.value >= 0.0
    requires p.upper.Some? ==> p.upper.value >= 0.0
    requires NoiseNonNegative(p, goodStd)
    requires |model| == |data| && (outmask.Some? ==> |outmask.value| == |data|)
    requires inmask.Some? ==> |inmask.value| == |data|
    requires UsesNoise(LimitsOf(p)) && p.sigma.None? && p.sqrtInvvar.Some? ==> |p.sqrtInvvar.value| == |data|
    requires i < |data|
    ensures RejectSpec(data, Some(model), outmask, inmask, p, goodStd).Ok?
    ensures var o := RejectSpec(data, Some(model), outmask, inmask, p, goodStd).value;
      var out := StartMask(data, outmask);
      var noise := ResolveNoise(p, inmask, out, goodStd);
      o.mask[i] == ((inmask.Some? ==> inmask.value[i]) && (p.sticky ==> out[i])
                    && forall j :: 0 <= j < |data| && i - p.grow <= j <= i + p.grow ==>
                         Excluded(inmask, out, p.sticky, j)
                         || !Fires(data[j] - model[j], NoiseUsedAt(noise, LimitsOf(p), j), LimitsOf(p)))
  {
    var out := StartMask(data, outmask);
    var noise := ResolveNoise(p, inmask, out, goodStd);
    var lim := LimitsOf(p);
    assert CheckShapes(data, model, inmask, p).None? && NoiseCovers(noise, lim, |data|);
    var b := Badness(data, model, noise, lim, inmask, out, p.sticky);
    forall j | 0 <= j < |data|
      ensures b[j] == 0.0 <==> Excluded(inmask, out, p.sticky, j) || !Fires(data[j] - model[j], NoiseUsedAt(noise, lim, j), lim)
    {
      assert Scale(NoiseUsedAt(noise, lim, j)) >= 0.0;
      BadnessPositive(data, model, noise, lim, inmask, out, p.sticky, j);
    }
    assert RejectSpec(data, Some(model), outmask, inmask, p, goodStd) == AfterScoring(b, p, inmask, out);
    assert CapStep(b, p) == Ok(b);
    FinalMaskGrown(b, p, inmask, out, i);
  }

  // ---------------------------------------------------------------------
  // The cap, group by group
  // ---------------------------------------------------------------------

  /** g is one of the groups of the grouping on badness b. */
  ghost predicate IsGroupOf(mode: Grouping, b: seq<real>, g: Group)
  {
    match mode
    case WholeVector => g == Group(0, |b| - 1)
    case FixedChunks(gs) => exists k :: 0 <= k < |b| / gs + 1 && g == FixedGroups(|b|, gs)[k]
    case BadPixelRuns => MaximalRun(b, g)
  }

  lemma GroupOfWithin(mode: Grouping, b: seq<real>, g: Group)
    requires IsGroupOf(mode, b, g)
    ensures Within(g, |b|)
  {
    if mode.FixedChunks? {
      var k :| 0 <= k < |b| / mode.size + 1 && g == FixedGroups(|b|, mode.size)[k];
      FixedGroupShape(|b|, mode.size, k);
    }
  }

  /** Inside one of its groups the full cap acts as the cap of that group alone. */
  lemma CappedWithinGroup(b: seq<real>, mode: Grouping, maxrej: int, g: Group, i: int)
    requires IsGroupOf(mode, b, g) && InGroup(g, i) && 0 <= i < |b|
    ensures Capped(b, mode, maxrej)[i] == CapGroupSpec(b, g, maxrej)[i]
  {
    assert CapGroupSpec(b, g, maxrej)[i] == CapAt(b, g, maxrej, i);
    assert Capped(b, mode, maxrej)[i] == CappedAt(b, mode, maxrej, i);
    match mode
    case WholeVector =>
    case FixedChunks(gs) =>
      var k :| 0 <= k < |b| / gs + 1 && g == FixedGroups(|b|, gs)[k];
      FixedGroupMember(|b|, gs, k, i);
      assert g == ChunkOf(|b|, gs, i);
    case BadPixelRuns =>
      MaximalRunUnique(b, g, i);
      if b[i] != 0.0 {
        assert g == RunOf(b, i);
      }
  }

  /** After the cap a group of non-negative badness holds
      min(its number of bad points, maxrej) bad points. */
  lemma CapBoundPerGroup(b: seq<real>, mode: Grouping, maxrej: int, g: Group)
    requires IsGroupOf(mode, b, g)
    requires forall k :: g.lo <= k <= g.hi ==> b[k] >= 0.0
    requires maxrej >= 0
    ensures CountBad(Capped(b, mode, maxrej), g) == if CountBad(b, g) > maxrej then maxrej else CountBad(b, g)
  {
    GroupOfWithin(mode, b, g);
    var c := Capped(b, mode, maxrej);
    var s := CapGroupSpec(b, g, maxrej);
    forall k | g.lo <= k <= g.hi
      ensures Nonzero(c)(k) == Nonzero(s)(k)
    {
      CappedWithinGroup(b, mode, maxrej, g, k);
    }
    CountExt(g.lo, g.hi, Nonzero(c), Nonzero(s));
    if CountBad(b, g) > maxrej {
      CapExact(b, g, maxrej);
    } else {
      CountExt(g.lo, g.hi, Nonzero(s), Nonzero(b));
    }
  }

  /** Within a group, a point the cap made good again comes before every
      point that stays bad in the stable ascending argsort of the badness. */
  lemma CapKeepsWorstPerGroup(b: seq<real>, mode: Grouping, maxrej: int, g: Group, i: int, j: int)
    requires IsGroupOf(mode, b, g) && InGroup(g, i) && InGroup(g, j)
    requires Capped(b, mode, maxrej)[i] != 0.0
    requires b[j] != 0.0 && Capped(b, mode, maxrej)[j] == 0.0
    ensures RanksAbove(b, j, i) && b[j] <= b[i]
  {
    GroupOfWithin(mode, b, g);
    CappedWithinGroup(b, mode, maxrej, g, i);
    CappedWithinGroup(b, mode, maxrej, g, j);
    CapKeepsWorst(b, g, maxrej, i, j);
  }
}
