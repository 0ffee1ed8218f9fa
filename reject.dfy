/** djs_reject: one rejection step of an iterative fit. From the data, the
    model, the mask of the previous step and the optional input mask it
    scores every point, caps the number of rejections per group, grows the
    rejections, and returns the new mask with the flag `done` that says the
    mask did not change.

    RejectSpec states the result as a function of the arguments; the method
    Reject computes it the way the source does, step by step over arrays. */
module DjsReject {
  import opened Wrappers
  import opened Criteria
  import opened Groups
  import opened Capping
  import opened Growth

  /** The keyword arguments of djs_reject other than data, model, outmask
      and inmask. `sqrtInvvar` is the square root of `invvar`, taken by the
      caller. Only the length of `groupdim` matters to the model. */
  datatype Params = Params(
    sigma: Option<real>,
    sqrtInvvar: Option<seq<real>>,
    lower: Option<real>,
    upper: Option<real>,
    maxdev: Option<real>,
    maxrej: Option<seq<int>>,
    groupdim: Option<seq<int>>,
    groupsize: Option<seq<nat>>,
    groupbadpix: bool,
    grow: int,
    sticky: bool)

  /** The exceptions djs_reject raises. MultiDimGrouping is the grouping
      along `groupdim`, which this model does not cover. */
  datatype Error =
    | OutmaskShape
    | ModelShape
    | InmaskShape
    | MaxrejGroupdimLength
    | MaxrejGroupsizeLength
    | InvvarShape
    | MultiDimGrouping
    | GroupIndexOutOfRange
    | GroupsizeZero

  /** The returned pair `(outmask, qdone)`. */
  datatype Outcome = Outcome(mask: seq<bool>, done: bool)

  type Positive = x: nat | x > 0 witness 1

  /** How the vector is cut into groups for the cap. */
  datatype Grouping = WholeVector | FixedChunks(size: Positive) | BadPixelRuns

  function LimitsOf(p: Params): Limits
  {
    Limits(p.lower, p.upper, p.maxdev)
  }

  function AllGood(n: nat): (m: seq<bool>)
    ensures |m| == n && forall i :: 0 <= i < n ==> m[i]
  {
    seq(n, i => true)
  }

  /** The incoming mask: `outmask`, or a mask that masks nothing. */
  function StartMask(data: seq<real>, outmask: Option<seq<bool>>): (m: seq<bool>)
    ensures outmask.Some? ==> m == outmask.value
    ensures outmask.None? ==> |m| == |data| && forall i :: 0 <= i < |m| ==> m[i]
  {
    if outmask.Some? then outmask.value else AllGood(|data|)
  }

  /** Some point is good in the incoming mask and in `inmask`. */
  ghost predicate AnyGood(inmask: Option<seq<bool>>, out: seq<bool>)
  {
    exists i :: 0 <= i < |out| && out[i] && (inmask.Some? ==> i < |inmask.value| && inmask.value[i])
  }

  /** The noise used by `lower` and `upper`: `sigma` if given, else
      sqrt(`invvar`) if given, else the caller's standard deviation of the
      residuals of the good points (`goodStd`), or 0 when no point is good. */
  ghost function ResolveNoise(p: Params, inmask: Option<seq<bool>>, out: seq<bool>, goodStd: real): (r: Noise)
    ensures p.sigma.Some? ==> r == Sigma(p.sigma.value)
    ensures r.SqrtInvvar? <==> p.sigma.None? && p.sqrtInvvar.Some?
    ensures r.SqrtInvvar? ==> r.w == p.sqrtInvvar.value
    ensures p.sigma.None? && p.sqrtInvvar.None? ==> r == Sigma(if AnyGood(inmask, out) then goodStd else 0.0)
  {
    if p.sigma.Some? then Sigma(p.sigma.value)
    else if p.sqrtInvvar.Some? then SqrtInvvar(p.sqrtInvvar.value)
    else if AnyGood(inmask, out) then Sigma(goodStd)
    else Sigma(0.0)
  }

  /** The grouping the cap uses: bad-pixel runs when `groupbadpix`, else
      chunks of `groupsize[0]` points when `groupsize` is given, else the
      whole vector. */
  function GroupingOf(p: Params): (r: Result<Grouping, Error>)
    ensures p.groupbadpix ==> r == Ok(BadPixelRuns)
    ensures r == Ok(WholeVector) <==> !p.groupbadpix && p.groupsize.None?
    ensures r.Ok? && r.value.FixedChunks? ==>
      p.groupsize.Some? && |p.groupsize.value| > 0 && r.value.size == p.groupsize.value[0]
    ensures !p.groupbadpix && p.groupsize.Some? && |p.groupsize.value| > 0 && p.groupsize.value[0] > 0 ==>
      r == Ok(FixedChunks(p.groupsize.value[0]))
    ensures r == Err(GroupIndexOutOfRange) <==> !p.groupbadpix && p.groupsize.Some? && |p.groupsize.value| == 0
    ensures r == Err(GroupsizeZero) <==>
      !p.groupbadpix && p.groupsize.Some? && |p.groupsize.value| > 0 && p.groupsize.value[0] == 0
    ensures r.Err? ==> !p.groupbadpix && p.groupsize.Some?
  {
    if p.groupbadpix then Ok(BadPixelRuns)
    else if p.groupsize.Some? then
      if |p.groupsize.value| == 0 then Err(GroupIndexOutOfRange)
      else if p.groupsize.value[0] == 0 then Err(GroupsizeZero)
      else Ok(FixedChunks(p.groupsize.value[0]))
    else Ok(WholeVector)
  }

  /** The grouping has at least one non-empty group, so the cap reads maxrej[0]. */
  ghost predicate HasGroup(mode: Grouping, b: seq<real>)
  {
    if mode.BadPixelRuns? then exists i :: IsBadAt(b, i) else |b| > 0
  }

  /** The badness of point i after the cap: capped within its own group. A
      point of zero badness is in no bad-pixel run and stays at zero. */
  ghost function CappedAt(b: seq<real>, mode: Grouping, maxrej: int, i: int): real
    requires 0 <= i < |b|
  {
    match mode
    case WholeVector => CapAt(b, Group(0, |b| - 1), maxrej, i)
    case FixedChunks(gs) => CapAt(b, ChunkOf(|b|, gs, i), maxrej, i)
    case BadPixelRuns => if b[i] == 0.0 then b[i] else CapAt(b, RunOf(b, i), maxrej, i)
  }

  ghost function Capped(b: seq<real>, mode: Grouping, maxrej: int): (r: seq<real>)
    ensures |r| == |b|
    ensures forall i :: 0 <= i < |b| ==> r[i] == b[i] || r[i] == 0.0
    ensures forall i :: 0 <= i < |b| && b[i] == 0.0 ==> r[i] == 0.0
  {
    seq(|b|, i requires 0 <= i < |b| => CappedAt(b, mode, maxrej, i))
  }

  /** The cap stage (source lines 155-226) on the single vector: it fails
      when the grouping does, or when `maxrej` is empty and some group is
      not (the read of `maxrej[0]`); otherwise it only clears badness. */
  ghost function CapStage(b: seq<real>, p: Params): (r: Result<seq<real>, Error>)
    requires p.maxrej.Some?
    ensures r.Err? <==> GroupingOf(p).Err? || (|p.maxrej.value| == 0 && HasGroup(GroupingOf(p).value, b))
    ensures r.Err? ==> r.error in {GroupIndexOutOfRange, GroupsizeZero}
    ensures r.Ok? ==> |r.value| == |b| && forall i :: 0 <= i < |b| ==> r.value[i] == b[i] || r.value[i] == 0.0
    ensures r.Ok? && |p.maxrej.value| == 0 ==> r.value == b
  {
    match GroupingOf(p)
    case Err(e) => Err(e)
    case Ok(mode) =>
      if |p.maxrej.value| == 0 then
        if HasGroup(mode, b) then Err(GroupIndexOutOfRange) else Ok(b)
      else Ok(Capped(b, mode, p.maxrej.value[0]))
  }

  /** No cap without `maxrej`; the grouping along `groupdim` is not modelled. */
  ghost function CapStep(b: seq<real>, p: Params): (r: Result<seq<real>, Error>)
    ensures p.maxrej.None? ==> r == Ok(b)
    ensures r == Err(MultiDimGrouping) <==> p.maxrej.Some? && p.groupdim.Some? && |p.groupdim.value| > 0
    ensures r.Ok? ==> |r.value| == |b| && forall i :: 0 <= i < |b| ==> r.value[i] == b[i] || r.value[i] == 0.0
  {
    if p.maxrej.None? then Ok(b)
    else if p.groupdim.Some? && |p.groupdim.value| > 0 then Err(MultiDimGrouping)
    else CapStage(b, p)
  }

  /** The mask combination (source lines 241-244). */
  ghost function Combine(grown: seq<bool>, inmask: Option<seq<bool>>, out: seq<bool>, sticky: bool): (m: seq<bool>)
    requires |out| == |grown| && (inmask.Some? ==> |inmask.value| == |grown|)
    ensures |m| == |grown|
    ensures forall i :: 0 <= i < |grown| && m[i] ==> grown[i]
    ensures forall i :: 0 <= i < |grown| && inmask.Some? && !inmask.value[i] ==> !m[i]
    ensures forall i :: 0 <= i < |grown| && sticky && !out[i] ==> !m[i]
    ensures inmask.None? && !sticky ==> m == grown
  {
    seq(|grown|, i requires 0 <= i < |grown| =>
      grown[i] && (inmask.Some? ==> inmask.value[i]) && (sticky ==> out[i]))
  }

  /** `badness == 0`. */
  function ZeroBadness(b: seq<real>): (m: seq<bool>)
    ensures |m| == |b|
    ensures forall i :: 0 <= i < |b| ==> (m[i] <==> b[i] == 0.0)
  {
    seq(|b|, i requires 0 <= i < |b| => b[i] == 0.0)
  }

  /** The returned mask (source lines 232-244): only points of zero badness
      are kept, never one that `inmask` or, when sticky, the incoming mask
      rejects; without growth these are exactly the kept points. */
  ghost function FinalMask(b: seq<real>, p: Params, inmask: Option<seq<bool>>, out: seq<bool>): (m: seq<bool>)
    requires |out| == |b| && (inmask.Some? ==> |inmask.value| == |b|)
    ensures |m| == |b|
    ensures forall i :: 0 <= i < |b| && m[i] ==> b[i] == 0.0
    ensures forall i :: 0 <= i < |b| && inmask.Some? && !inmask.value[i] ==> !m[i]
    ensures forall i :: 0 <= i < |b| && p.sticky && !out[i] ==> !m[i]
    ensures p.grow <= 0 ==> forall i :: 0 <= i < |b| ==>
      (m[i] <==> b[i] == 0.0 && (inmask.Some? ==> inmask.value[i]) && (p.sticky ==> out[i]))
  {
    Combine(Grown(ZeroBadness(b), p.grow), inmask, out, p.sticky)
  }

  /** With grow > 0, point i is kept exactly when every point within grow
      of it has zero badness and `inmask` and, when sticky, the incoming
      mask keep it (source lines 44-46, 232-244). */
  lemma FinalMaskGrown(b: seq<real>, p: Params, inmask: Option<seq<bool>>, out: seq<bool>, i: int)
    requires |out| == |b| && (inmask.Some? ==> |inmask.value| == |b|)
    requires p.grow > 0 && 0 <= i < |b|
    ensures FinalMask(b, p, inmask, out)[i] <==>
      (forall j :: 0 <= j < |b| && i - p.grow <= j <= i + p.grow ==> b[j] == 0.0)
      && (inmask.Some? ==> inmask.value[i]) && (p.sticky ==> out[i])
  {
    GrowthNeighbourhood(ZeroBadness(b), p.grow, i);
  }

  /** The shape checks that precede scoring, in the source's order. */
  function CheckShapes(data: seq<real>, model: seq<real>, inmask: Option<seq<bool>>, p: Params): (r: Option<Error>)
    ensures r.None? ==> |model| == |data| && (inmask.Some? ==> |inmask.value| == |data|)
    ensures r.None? && p.maxrej.Some? ==>
      (p.groupdim.Some? ==> |p.groupdim.value| == |p.maxrej.value|)
      && (p.groupsize.Some? ==> |p.groupsize.value| == |p.maxrej.value|)
    ensures r.Some? ==> r.value in {ModelShape, InmaskShape, MaxrejGroupdimLength, MaxrejGroupsizeLength}
  {
    if |model| != |data| then Some(ModelShape)
    else if inmask.Some? && |inmask.value| != |data| then Some(InmaskShape)
    else if p.maxrej.Some? && p.groupdim.Some? && |p.maxrej.value| != |p.groupdim.value| then Some(MaxrejGroupdimLength)
    else if p.maxrej.Some? && p.groupsize.Some? && |p.maxrej.value| != |p.groupsize.value| then Some(MaxrejGroupsizeLength)
    else None
  }

  /** What djs_reject returns, or the exception it raises. */
  ghost function RejectSpec(data: seq<real>, model: Option<seq<real>>, outmask: Option<seq<bool>>,
                            inmask: Option<seq<bool>>, p: Params, goodStd: real): (r: Result<Outcome, Error>)
    requires MaxdevPositive(LimitsOf(p))
    ensures outmask.Some? && |outmask.value| != |data| ==> r == Err(OutmaskShape)
    ensures model.Some? && r.Ok? ==>
      (|r.value.mask| == |data| && (r.value.done <==> r.value.mask == StartMask(data, outmask)))
    ensures model.None? ==> r.Err? || !r.value.done
  {
    if outmask.Some? && |outmask.value| != |data| then Err(OutmaskShape)
    else
      var out := StartMask(data, outmask);
      if model.None? then Ok(Outcome(if inmask.Some? then inmask.value else out, false))
      else match CheckShapes(data, model.value, inmask, p)
      case Some(e) => Err(e)
      case None =>
        var noise := ResolveNoise(p, inmask, out, goodStd);
        if !NoiseCovers(noise, LimitsOf(p), |data|) then Err(InvvarShape)
        else
          AfterScoring(Badness(data, model.value, noise, LimitsOf(p), inmask, out, p.sticky), p, inmask, out)
  }

  /** The steps after scoring: the cap, then the final mask and `done`. */
  ghost function AfterScoring(b: seq<real>, p: Params, inmask: Option<seq<bool>>, out: seq<bool>): (r: Result<Outcome, Error>)
    requires |out| == |b| && (inmask.Some? ==> |inmask.value| == |b|)
    ensures r.Err? <==> CapStep(b, p).Err?
    ensures r.Err? ==> r.error == CapStep(b, p).error
    ensures r.Ok? ==> |r.value.mask| == |b| && (r.value.done <==> r.value.mask == out)
    ensures r.Ok? ==> forall i :: 0 <= i < |b| && inmask.Some? && !inmask.value[i] ==> !r.value.mask[i]
    ensures r.Ok? ==> forall i :: 0 <= i < |b| && p.sticky && !out[i] ==> !r.value.mask[i]
  {
    match CapStep(b, p)
    case Err(e) => Err(e)
    case Ok(c) =>
      var mask := FinalMask(c, p, inmask, out);
      Ok(Outcome(mask, mask == out))
  }

  // ---------------------------------------------------------------------
  // Groups of each grouping
  // ---------------------------------------------------------------------

  /** `groups` is the list of groups the source builds for `mode`. */
  ghost predicate GroupsFor(mode: Grouping, b: seq<real>, groups: seq<Group>)
  {
    match mode
    case WholeVector => groups == [Group(0, |b| - 1)]
    case FixedChunks(gs) => groups == FixedGroups(|b|, gs)
    case BadPixelRuns =>
      (forall k :: 0 <= k < |groups| ==> MaximalRun(b, groups[k]))
      && (forall k, l :: 0 <= k < l < |groups| ==> groups[k].hi + 1 < groups[l].lo)
      && (forall i :: IsBadAt(b, i) ==> exists k :: 0 <= k < |groups| && InGroup(groups[k], i))
  }

  /** The groups of every grouping lie in the vector and are disjoint. */
  lemma GroupsWellFormed(mode: Grouping, b: seq<real>, groups: seq<Group>)
    requires GroupsFor(mode, b, groups)
    ensures forall k :: 0 <= k < |groups| ==> Within(groups[k], |b|)
    ensures Disjoint(groups)
  {
    match mode
    case WholeVector =>
    case FixedChunks(gs) =>
      forall k | 0 <= k < |groups|
        ensures Within(groups[k], |b|)
      {
        FixedGroupShape(|b|, gs, k);
      }
      forall k, l, i | 0 <= k < l < |groups| && InGroup(groups[k], i)
        ensures !InGroup(groups[l], i)
      {
        FixedGroupShape(|b|, gs, k);
        FixedGroupMember(|b|, gs, k, i);
        FixedGroupMember(|b|, gs, l, i);
      }
    case BadPixelRuns =>
  }

  /** A non-empty group exists exactly when HasGroup holds. */
  lemma GroupsNonEmpty(mode: Grouping, b: seq<real>, groups: seq<Group>)
    requires GroupsFor(mode, b, groups)
    ensures HasGroup(mode, b) <==> exists k :: 0 <= k < |groups| && Size(groups[k]) > 0
  {
    match mode
    case WholeVector =>
    case FixedChunks(gs) =>
      if |b| > 0 {
        FixedGroupMember(|b|, gs, 0, 0);
      } else {
        forall k | 0 <= k < |groups|
          ensures Size(groups[k]) <= 0
        {
          FixedGroupShape(|b|, gs, k);
        }
      }
    case BadPixelRuns =>
      if exists k :: 0 <= k < |groups| && Size(groups[k]) > 0 {
        var k :| 0 <= k < |groups| && Size(groups[k]) > 0;
        assert IsBadAt(b, groups[k].lo);
      }
  }

  /** The result of capping each group of a list in turn (the postcondition
      of CapGroups). */
  ghost predicate CappedPerGroup(orig: seq<real>, after: seq<real>, groups: seq<Group>, maxrej: int)
  {
    |after| == |orig|
    && (forall k, i :: 0 <= k < |groups| && InGroup(groups[k], i) && 0 <= i < |orig| ==>
          after[i] == CapAt(orig, groups[k], maxrej, i))
    && (forall i :: 0 <= i < |orig| && (forall k :: 0 <= k < |groups| ==> !InGroup(groups[k], i)) ==>
          after[i] == orig[i])
  }

  lemma CappedWhole(orig: seq<real>, after: seq<real>, groups: seq<Group>, maxrej: int)
    requires GroupsFor(WholeVector, orig, groups) && CappedPerGroup(orig, after, groups, maxrej)
    ensures after == Capped(orig, WholeVector, maxrej)
  {
    forall i | 0 <= i < |orig|
      ensures after[i] == CappedAt(orig, WholeVector, maxrej, i)
    {
      assert InGroup(groups[0], i);
    }
  }

  lemma CappedChunks(gs: Positive, orig: seq<real>, after: seq<real>, groups: seq<Group>, maxrej: int)
    requires GroupsFor(FixedChunks(gs), orig, groups) && CappedPerGroup(orig, after, groups, maxrej)
    ensures after == Capped(orig, FixedChunks(gs), maxrej)
  {
    forall i | 0 <= i < |orig|
      ensures after[i] == CappedAt(orig, FixedChunks(gs), maxrej, i)
    {
      CappedChunkAt(gs, orig, after, groups, maxrej, i);
    }
  }

  lemma CappedChunkAt(gs: Positive, orig: seq<real>, after: seq<real>, groups: seq<Group>, maxrej: int, i: int)
    requires groups == FixedGroups(|orig|, gs) && CappedPerGroup(orig, after, groups, maxrej)
    requires 0 <= i < |orig|
    ensures after[i] == CappedAt(orig, FixedChunks(gs), maxrej, i)
  {
    var k := i / gs;
    FixedGroupMember(|orig|, gs, k, i);
    var g := groups[k];
    assert g == ChunkOf(|orig|, gs, i) && InGroup(g, i);
    assert after[i] == CapAt(orig, g, maxrej, i);
  }

  lemma CappedRuns(orig: seq<real>, after: seq<real>, groups: seq<Group>, maxrej: int)
    requires GroupsFor(BadPixelRuns, orig, groups) && CappedPerGroup(orig, after, groups, maxrej)
    ensures after == Capped(orig, BadPixelRuns, maxrej)
  {
    forall i | 0 <= i < |orig|
      ensures after[i] == CappedAt(orig, BadPixelRuns, maxrej, i)
    {
      if orig[i] != 0.0 {
        assert IsBadAt(orig, i);
        var k :| 0 <= k < |groups| && InGroup(groups[k], i);
        MaximalRunUnique(orig, groups[k], i);
      } else {
        forall k | 0 <= k < |groups|
          ensures !InGroup(groups[k], i)
        {
          assert MaximalRun(orig, groups[k]);
        }
      }
    }
  }

  /** Capping the groups one after the other, as CapGroups does, yields
      Capped: every point capped within its own group. */
  lemma CappedByGroups(mode: Grouping, orig: seq<real>, after: seq<real>, groups: seq<Group>, maxrej: int)
    requires GroupsFor(mode, orig, groups) && CappedPerGroup(orig, after, groups, maxrej)
    ensures after == Capped(orig, mode, maxrej)
  {
    match mode
    case WholeVector => CappedWhole(orig, after, groups, maxrej);
    case FixedChunks(gs) => CappedChunks(gs, orig, after, groups, maxrej);
    case BadPixelRuns => CappedRuns(orig, after, groups, maxrej);
  }

  // ---------------------------------------------------------------------
  // The method
  // ---------------------------------------------------------------------

  /** Is some point good in both masks (`(inmask & outmask).nonzero()`). */
  method HasGoodPoint(inmask: Option<seq<bool>>, out: seq<bool>) returns (any: bool)
    requires inmask.Some? ==> |inmask.value| == |out|
    ensures any == AnyGood(inmask, out)
  {
    any := false;
    var i := 0;
    while i < |out|
      invariant 0 <= i <= |out|
      invariant any == exists k :: 0 <= k < i && out[k] && (inmask.Some? ==> inmask.value[k])
    {
      if out[i] && (inmask.None? || inmask.value[i]) {
        any := true;
      }
      i := i + 1;
    }
  }

  /** The badness array (source lines 114-149): the criteria's increments,
      then zeroed where `inmask` excludes the point and, when sticky, where
      the incoming mask rejected it. */
  method ScoreBadness(data: seq<real>, model: seq<real>, noise: Noise, lim: Limits,
                      inmask: Option<seq<bool>>, out: seq<bool>, sticky: bool) returns (bad: array<real>)
    requires Aligned(data, model, noise, lim, inmask, out)
    ensures fresh(bad)
    ensures bad[..] == Badness(data, model, noise, lim, inmask, out, sticky)
  {
    var n := |data|;
    bad := new real[n];
    var i := 0;
    while i < n
      invariant 0 <= i <= n && bad.Length == n
      invariant forall k :: 0 <= k < i ==> bad[k] == ScoreAt(data, model, noise, lim, k)
    {
      var pn := if UsesNoise(lim) then NoiseAt(noise, i) else BySigma(0.0);
      bad[i] := PointBadness(data[i] - model[i], pn, lim);
      i := i + 1;
    }
    if inmask.Some? {
      i := 0;
      while i < n
        invariant 0 <= i <= n
        invariant forall k :: 0 <= k < n ==>
          bad[k] == (if k < i && !inmask.value[k] then 0.0 else ScoreAt(data, model, noise, lim, k))
      {
        if !inmask.value[i] {
          bad[i] := 0.0;
        }
        i := i + 1;
      }
    }
    if sticky {
      i := 0;
      while i < n
        invariant 0 <= i <= n
        invariant forall k :: 0 <= k < n ==>
          bad[k] == (if (inmask.Some? && !inmask.value[k]) || (k < i && !out[k]) then 0.0 else ScoreAt(data, model, noise, lim, k))
      {
        if !out[i] {
          bad[i] := 0.0;
        }
        i := i + 1;
      }
    }
    assert bad[..] == Badness(data, model, noise, lim, inmask, out, sticky);
  }

  /** The groups the source builds for a grouping (source lines 186-204). */
  method BuildGroups(mode: Grouping, b: seq<real>) returns (groups: seq<Group>)
    ensures GroupsFor(mode, b, groups)
  {
    match mode
    case WholeVector =>
      groups := [Group(0, |b| - 1)];
    case FixedChunks(gs) =>
      groups := FixedGroups(|b|, gs);
    case BadPixelRuns =>
      groups := BadRuns(b);
  }

  /** True when some group is non-empty. */
  method AnyNonEmpty(groups: seq<Group>) returns (any: bool)
    ensures any == exists k :: 0 <= k < |groups| && Size(groups[k]) > 0
  {
    any := false;
    var k := 0;
    while k < |groups|
      invariant 0 <= k <= |groups|
      invariant any == exists j :: 0 <= j < k && Size(groups[j]) > 0
    {
      if Size(groups[k]) > 0 {
        any := true;
      }
      k := k + 1;
    }
  }

  /** The cap stage in place on the badness array (source lines 155-226). */
  method CapBadness(bad: array<real>, p: Params) returns (err: Option<Error>)
    modifies bad
    ensures CapStep(old(bad[..]), p).Err? ==> err == Some(CapStep(old(bad[..]), p).error)
    ensures CapStep(old(bad[..]), p).Ok? ==> err == None && bad[..] == CapStep(old(bad[..]), p).value
  {
    if p.maxrej.None? {
      return None;
    }
    if p.groupdim.Some? && |p.groupdim.value| > 0 {
      return Some(MultiDimGrouping);
    }
    ghost var orig := bad[..];
    var mode;
    match GroupingOf(p)
    case Err(e) =>
      return Some(e);
    case Ok(md) =>
      mode := md;
    var groups := BuildGroups(mode, bad[..]);
    GroupsWellFormed(mode, orig, groups);
    GroupsNonEmpty(mode, orig, groups);
    var maxrej := p.maxrej.value;
    if |maxrej| == 0 {
      var any := AnyNonEmpty(groups);
      if any {
        return Some(GroupIndexOutOfRange);
      }
      return None;
    }
    CapGroups(bad, groups, maxrej[0]);
    CappedByGroups(mode, orig, bad[..], groups, maxrej[0]);
    return None;
  }

  /** The new mask and `qdone` from the capped badness (source lines
      232-248): `badness == 0`, grown, combined with `inmask` and, when
      sticky, with the incoming mask, then compared with the incoming mask. */
  method MaskFromBadness(bad: seq<real>, p: Params, inmask: Option<seq<bool>>, out: seq<bool>)
    returns (mask: seq<bool>, done: bool)
    requires |out| == |bad| && (inmask.Some? ==> |inmask.value| == |bad|)
    ensures mask == FinalMask(bad, p, inmask, out)
    ensures done == (mask == out)
  {
    var n := |bad|;
    var newmask := new bool[n];
    var i := 0;
    while i < n
      invariant 0 <= i <= n
      invariant forall k :: 0 <= k < i ==> newmask[k] == (bad[k] == 0.0)
    {
      newmask[i] := bad[i] == 0.0;
      i := i + 1;
    }
    assert newmask[..] == ZeroBadness(bad);
    GrowRejections(newmask, p.grow);
    ghost var grown := newmask[..];
    if inmask.Some? {
      i := 0;
      while i < n
        invariant 0 <= i <= n
        invariant forall k :: 0 <= k < n ==> newmask[k] == (grown[k] && (k < i ==> inmask.value[k]))
      {
        newmask[i] := newmask[i] && inmask.value[i];
        i := i + 1;
      }
    }
    ghost var masked := newmask[..];
    if p.sticky {
      i := 0;
      while i < n
        invariant 0 <= i <= n
        invariant forall k :: 0 <= k < n ==> newmask[k] == (masked[k] && (k < i ==> out[k]))
      {
        newmask[i] := newmask[i] && out[i];
        i := i + 1;
      }
    }
    assert newmask[..] == Combine(grown, inmask, out, p.sticky);
    done := true;
    i := 0;
    while i < n
      invariant 0 <= i <= n
      invariant done == forall k :: 0 <= k < i ==> newmask[k] == out[k]
    {
      if newmask[i] != out[i] {
        done := false;
      }
      i := i + 1;
    }
    assert done == (newmask[..] == out);
    mask := newmask[..];
  }

  /** One rejection step, computed as the source does it. */
  method Reject(data: seq<real>, model: Option<seq<real>>, outmask: Option<seq<bool>>,
                inmask: Option<seq<bool>>, p: Params, goodStd: real) returns (r: Result<Outcome, Error>)
    requires MaxdevPositive(LimitsOf(p))
    ensures r == RejectSpec(data, model, outmask, inmask, p, goodStd)
  {
    if outmask.Some? && |outmask.value| != |data| {
      return Err(OutmaskShape);
    }
    var out := StartMask(data, outmask);
    if model.None? {
      return Ok(Outcome(if inmask.Some? then inmask.value else out, false));
    }
    var mdl := model.value;
    var shapeErr := CheckShapes(data, mdl, inmask, p);
    if shapeErr.Some? {
      return Err(shapeErr.value);
    }
    var noise := ChooseNoise(p, inmask, out, goodStd);
    var lim := LimitsOf(p);
    if UsesNoise(lim) && noise.SqrtInvvar? && |noise.w| != |data| {
      return Err(InvvarShape);
    }
    var bad := ScoreBadness(data, mdl, noise, lim, inmask, out, p.sticky);
    r := CapAndMask(bad, p, inmask, out);
  }

  /** The noise for `lower` and `upper` (source lines 97-106). */
  method ChooseNoise(p: Params, inmask: Option<seq<bool>>, out: seq<bool>, goodStd: real) returns (noise: Noise)
    requires inmask.Some? ==> |inmask.value| == |out|
    ensures noise == ResolveNoise(p, inmask, out, goodStd)
  {
    if p.sigma.Some? {
      noise := Sigma(p.sigma.value);
    } else if p.sqrtInvvar.Some? {
      noise := SqrtInvvar(p.sqrtInvvar.value);
    } else {
      var any := HasGoodPoint(inmask, out);
      noise := if any then Sigma(goodStd) else Sigma(0.0);
    }
  }

  /** The cap in place, then the mask and `done` (source lines 155-248). */
  method CapAndMask(bad: array<real>, p: Params, inmask: Option<seq<bool>>, out: seq<bool>)
    returns (r: Result<Outcome, Error>)
    requires |out| == bad.Length && (inmask.Some? ==> |inmask.value| == bad.Length)
    modifies bad
    ensures r == AfterScoring(old(bad[..]), p, inmask, out)
  {
    var err := CapBadness(bad, p);
    if err.Some? {
      return Err(err.value);
    }
    var mask, done := MaskFromBadness(bad[..], p, inmask, out);
    r := Ok(Outcome(mask, done));
  }
}
