# djs_reject in Dafny

A model of `djs_reject` from pydl (`pydl/pydlutils/math/djs_reject.py`), the
rejection step of an iterative fit. One call takes the data, the model, the
mask of the previous iteration (`outmask`), an optional input mask (`inmask`)
and the rejection options. It then:

- scores each point. The badness is the sum of the active criteria: the
  number of sigma below the model past `lower`, the number of sigma above it
  past `upper`, and the number of multiples of `maxdev` past `maxdev`;
- zeroes the badness of points that `inmask` excludes and, with `sticky`, of
  points the previous mask rejected;
- caps the number of rejections per group at `maxrej`. The groups are the
  whole vector, chunks of `groupsize` points, or the runs of consecutive bad
  points (`groupbadpix`). Only the worst points of a group stay bad;
- grows every rejection by `grow` points on each side;
- combines the new mask with `inmask` and, with `sticky`, with the previous
  mask;
- returns the mask and `done`, which says whether the mask is unchanged.

The modules follow the steps of the routine:

- `Criteria` (criteria.dfy): the criterion tests, their increments and the
  badness vector.
- `Groups` (groups.dfy): fixed chunks and the method that scans for runs of
  bad points.
- `Counting` (counting.dfy): counting lemmas that the cap's proofs use.
- `Capping` (capping.dfy): the in-place cap of one group and of a list of
  disjoint groups.
- `Growth` (growth.dfy): the in-place growth of rejections.
- `DjsReject` (reject.dfy): the whole call. `RejectSpec` is its
  specification as a function. The method `Reject` computes the call over
  arrays in the source's order and is proved equal to `RejectSpec`.
- `RejectProperties` (properties.dfy): the guarantees of one call, proved
  about `RejectSpec`.
- `Scenarios` (scenarios.dfy): worked examples.
- `AsWritten` (findings.dfy): the code as written where it departs from its
  documented intent.
- `Wrappers` (wrappers.dfy): `Option` and `Result`.

Inputs and modelling choices:

- Data and model are `seq<real>` and masks are `seq<bool>`, one-dimensional.
  An exception the routine raises is an `Err` of `DjsReject.Error`.
- `sigma` is one real.
- `invvar` enters as its square root, `sqrtInvvar`, computed by the caller.
- When neither `sigma` nor `invvar` is given, the standard deviation of the
  good residuals is the parameter `goodStd`. It is used when some point is
  good in both masks. Otherwise sigma is 0, and a zero sigma divides as one.
  The code tests `len(igood > 1)` (line 102), which is the number of good
  points, so this model follows the code: any good point is enough.
- The cap's `np.argsort` is taken to be stable, so among equal badness the
  lower index comes first. `Capping.Above` is the position of a point in
  that order, counted from the top.

Where the code cannot run as written, the model follows the evident intent:

- `kwargs` is undefined (line 196). Chunks of `groupsize[0]` points are used
  when `groupsize` is given, and the whole vector otherwise.
- `nin/groupsize` is a float division (line 197). Integer division is used.
- `max(dimnum)` is taken of the int 0 for the single vector (line 176), so
  as written every call with `maxrej` raises a TypeError there and never
  reaches the cap. The model caps the one vector.
- `groupsize[iloop]` fails when `groupsize` is the integer default (line
  226). That increment has no effect on the result and is not modelled.
- The run starts use `np.diff` on a boolean array (line 188). `np.insert`
  keeps the boolean dtype, so that `np.diff` is an exclusive or, and
  `-1*... == 1` is never true. The run ends (line 189) are correct, because
  `np.append(goodtemp, 1)` promotes to integers and its `np.diff` is a true
  difference. As written `groups_lower` is therefore always empty, and
  `groupbadpix` caps nothing even once line 176 is repaired. The model takes the groups to be the
  maximal runs of nonzero badness, as the docstring (lines 41-43)
  describes.
- The guard `i1 != -1` (line 215) can never be false in the model, because
  every group starts at an index of at least 0.
- Two defects, in the increments and in the growth loop, are modelled both
  as written and as intended under "## Findings".

## Model

| member | source | states |
|---|---|---|
| Criteria.SafeSigma | pydl/pydlutils/math/djs_reject.py:121 | the sigma divisor is never zero: a zero sigma divides as one |
| Criteria.LowerTerm | pydl/pydlutils/math/djs_reject.py:118-124 | the `lower` increment is non-negative, and nonzero only when the lower test fires, when it is the number of sigma below the model |
| Criteria.UpperTerm | pydl/pydlutils/math/djs_reject.py:128-134 | the `upper` increment is non-negative, and nonzero only when the upper test fires, when it is the number of sigma above the model |
| Criteria.MaxdevTerm | pydl/pydlutils/math/djs_reject.py:138-140 | the `maxdev` increment is nonzero exactly when abs(diff) > maxdev; it is then exactly abs(diff)/maxdev, which exceeds 1; otherwise it is 0 |
| Criteria.PointBadness | pydl/pydlutils/math/djs_reject.py:114-140 | the badness of a point is never negative |
| Criteria.LowerTermPositive | pydl/pydlutils/math/djs_reject.py:118-124 | with non-negative `lower` and noise, the increment is positive iff the lower test fires, and with positive noise it then exceeds `lower` |
| Criteria.UpperTermPositive | pydl/pydlutils/math/djs_reject.py:128-134 | with non-negative `upper` and noise, the increment is positive iff the upper test fires, and with positive noise it then exceeds `upper` |
| Criteria.PointBadnessPositive | pydl/pydlutils/math/djs_reject.py:118-140 | a point's badness is positive iff some active criterion fires |
| Criteria.Badness | pydl/pydlutils/math/djs_reject.py:114-149 | the badness vector has the data's length, is never negative, and is zero where `inmask` excludes the point and, when sticky, where the previous mask rejected it |
| Criteria.BadnessPositive | pydl/pydlutils/math/djs_reject.py:118-149 | with non-negative thresholds and noise, a point's badness is positive iff it is not excluded and some active criterion fires |
| Groups.FixedGroups | pydl/pydlutils/math/djs_reject.py:197-200 | there are `n / groupsize + 1` chunks (integer division); their bounds and the partition they form are stated by FixedGroupShape and FixedGroupMember |
| Groups.FixedGroupShape | pydl/pydlutils/math/djs_reject.py:196-201 | every fixed chunk lies in 0..n-1; all but the last hold `groupsize` points, and the last holds n mod groupsize, so it is empty when groupsize divides n |
| Groups.FixedGroupMember | pydl/pydlutils/math/djs_reject.py:196-201 | point i lies in chunk k iff k = i / groupsize, so the chunks partition 0..n-1 |
| Groups.RunStart | pydl/pydlutils/math/djs_reject.py:188 | the start of the run through a bad point: every point from it to i is bad, and the point before it is not |
| Groups.RunEnd | pydl/pydlutils/math/djs_reject.py:189 | the end of the run through a bad point: every point from i to it is bad, and the point after it is not |
| Groups.RunOf | pydl/pydlutils/math/djs_reject.py:187-190 | every bad point lies in a maximal run of bad points |
| Groups.MaximalRunUnique | pydl/pydlutils/math/djs_reject.py:187-190 | a maximal run is the run of each of its points, so the runs do not overlap |
| Groups.BadRuns | pydl/pydlutils/math/djs_reject.py:186-191 | the `groupbadpix` groups are maximal runs, in index order, separated by a good point, and together they cover every bad point |
| Capping.CapGroupSpec | pydl/pydlutils/math/djs_reject.py:215-225 | the cap of one group keeps the length, only sets entries to zero, only inside its group, and leaves a group with at most maxrej bad points untouched |
| Capping.CapAt | pydl/pydlutils/math/djs_reject.py:220-225 | a point's badness is kept or set to zero, and it changes exactly when it is bad, lies in the group, the group has more than maxrej bad points and at least maxrej members follow it in the argsort |
| Capping.RanksAboveTotal | pydl/pydlutils/math/djs_reject.py:221 | the argsort order is strict and total on distinct points |
| Capping.AboveStrict | pydl/pydlutils/math/djs_reject.py:221 | a point later in the argsort has fewer group members after it |
| Capping.RanksArePositions | pydl/pydlutils/math/djs_reject.py:221 | the argsort positions of a group's points are distinct and lie in 0..nii-1 |
| Capping.ZeroRanksLow | pydl/pydlutils/math/djs_reject.py:221-225 | a zero-badness point sorts below all bad points of its group |
| Capping.CapExact | pydl/pydlutils/math/djs_reject.py:220-225 | when a group with non-negative badness has more than maxrej bad points, exactly maxrej of them are still bad after the cap |
| Capping.CapKeepsWorst | pydl/pydlutils/math/djs_reject.py:221-225 | every point the cap made good sorts below every point that stays bad: its badness is no larger |
| Capping.CapLocal | pydl/pydlutils/math/djs_reject.py:216-225 | the cap of a group depends only on the group's own entries |
| Capping.CountBadIn | pydl/pydlutils/math/djs_reject.py:220 | the loop counts the group's points with nonzero badness |
| Capping.AboveIn | pydl/pydlutils/math/djs_reject.py:221 | the loop counts the group's points after i in the argsort |
| Capping.CapGroup | pydl/pydlutils/math/djs_reject.py:215-225 | capping a non-empty group in place leaves the array equal to the specification, CapGroupSpec, of the old badness |
| Capping.CapGroups | pydl/pydlutils/math/djs_reject.py:205-225 | after capping disjoint groups in turn, each point of a group holds its cap within that group, computed from the badness before any cap; points in no group are unchanged |
| Growth.GrowthNeighbourhood | pydl/pydlutils/math/djs_reject.py:44-46 | with grow > 0, every in-bounds point within grow of a rejected point is rejected; a rejected point stays rejected; nothing else is rejected; grow <= 0 changes nothing |
| Growth.Grown | pydl/pydlutils/math/djs_reject.py:44-46 | growth keeps the length, never turns a rejected point good, and with grow <= 0 changes nothing (the full neighbourhood statement is GrowthNeighbourhood) |
| Growth.GrowRejections | pydl/pydlutils/math/djs_reject.py:234-240 | growing in place leaves the mask equal to Grown of the old mask |
| DjsReject.ResolveNoise | pydl/pydlutils/math/djs_reject.py:97-105 | sigma wins when given; sqrt(invvar) is used exactly when sigma is absent and invvar given; otherwise sigma is the good points' standard deviation when some point is good in both masks, else 0 |
| DjsReject.GroupingOf | pydl/pydlutils/math/djs_reject.py:186-204 | groupbadpix overrides groupsize (docstring 41-43); otherwise a given groupsize with groupsize[0] > 0 yields chunks of exactly groupsize[0] points, and the whole vector is used exactly when groupsize is absent; an empty groupsize is an index error and groupsize[0] = 0 the zero-size error, each exactly then |
| DjsReject.CapStage | pydl/pydlutils/math/djs_reject.py:159-226 | the single-vector cap fails exactly when the grouping does or when maxrej is empty and some group is not; its errors are the index and zero-size errors; otherwise it only clears badness, and with an empty maxrej changes nothing |
| DjsReject.CapStep | pydl/pydlutils/math/djs_reject.py:155-226 | without maxrej nothing is capped; the groupdim grouping is its error exactly when maxrej and a non-empty groupdim are given; a result keeps the length and only clears badness |
| DjsReject.Capped | pydl/pydlutils/math/djs_reject.py:205-225 | the cap over all groups keeps the length, only sets entries to zero, and leaves zero badness at zero |
| DjsReject.Combine | pydl/pydlutils/math/djs_reject.py:241-244 | the combined mask keeps only points good after growth, rejects every point inmask excludes and, when sticky, every point the previous mask rejected; without inmask and sticky it is the grown mask |
| DjsReject.ZeroBadness | pydl/pydlutils/math/djs_reject.py:232 | `newmask` has the badness's length and is true exactly where the badness is zero |
| DjsReject.FinalMask | pydl/pydlutils/math/djs_reject.py:232-244 | a kept point has zero badness and is kept by inmask and, when sticky, by the incoming mask; without growth these conditions are also sufficient; with growth the exact rule is FinalMaskGrown |
| DjsReject.FinalMaskGrown | pydl/pydlutils/math/djs_reject.py:232-244 | with grow > 0 a point is kept exactly when every point within grow of it has zero badness and inmask and, when sticky, the incoming mask keep it (lines 44-46) |
| DjsReject.AfterScoring | pydl/pydlutils/math/djs_reject.py:155-248 | the steps after scoring fail exactly when the cap does, with its error; otherwise the mask keeps the length, rejects what inmask and a sticky incoming mask reject, and done holds exactly when the mask is the incoming one |
| DjsReject.CheckShapes | pydl/pydlutils/math/djs_reject.py:81-94 | when the checks pass, model and inmask have the data's length and maxrej has the length of groupdim and groupsize; a failure is one of the four shape errors |
| DjsReject.RejectSpec | pydl/pydlutils/math/djs_reject.py:68-249 | a mismatched outmask raises; with a model a returned mask has the data's length and done holds iff it equals the incoming mask; without a model done is false |
| DjsReject.StartMask | pydl/pydlutils/math/djs_reject.py:68-69 | the incoming mask is outmask when given, else a mask of the data's length that keeps every point |
| DjsReject.AllGood | pydl/pydlutils/math/djs_reject.py:68-69 | a missing outmask is a mask that masks nothing |
| DjsReject.GroupsWellFormed | pydl/pydlutils/math/djs_reject.py:186-204 | the groups of every grouping lie in the vector and are pairwise disjoint |
| DjsReject.GroupsNonEmpty | pydl/pydlutils/math/djs_reject.py:215-221 | a grouping has a non-empty group exactly when HasGroup holds, which is when the cap reads maxrej |
| DjsReject.CappedByGroups | pydl/pydlutils/math/djs_reject.py:205-225 | capping the groups one after another leaves each point capped within its own group (Capped) |
| DjsReject.HasGoodPoint | pydl/pydlutils/math/djs_reject.py:97-102 | the loop finds whether some point is good in both masks |
| DjsReject.ScoreBadness | pydl/pydlutils/math/djs_reject.py:114-149 | the three passes build a fresh array equal to the badness vector, Badness |
| DjsReject.BuildGroups | pydl/pydlutils/math/djs_reject.py:186-204 | the groups built for a grouping are those GroupsFor describes |
| DjsReject.AnyNonEmpty | pydl/pydlutils/math/djs_reject.py:215 | the loop finds whether some group has nii > 0 |
| DjsReject.CapBadness | pydl/pydlutils/math/djs_reject.py:155-226 | the cap stage fails exactly as CapStep does; otherwise the array equals CapStep of its old contents |
| DjsReject.MaskFromBadness | pydl/pydlutils/math/djs_reject.py:232-248 | the new mask is the grown zero-badness mask combined with inmask and sticky (FinalMask); done is true iff that mask equals the incoming one |
| DjsReject.ChooseNoise | pydl/pydlutils/math/djs_reject.py:97-106 | the noise is sigma if given, else sqrt(invvar) if given, else the standard deviation of the good residuals when a point is good in both masks, else 0 (ResolveNoise) |
| DjsReject.CapAndMask | pydl/pydlutils/math/djs_reject.py:155-248 | capping in place and then building the mask gives the cap's exception, or the final mask with done (AfterScoring of the old badness) |
| DjsReject.Reject | pydl/pydlutils/math/djs_reject.py:68-249 | the step-by-step computation returns exactly RejectSpec: the same mask and flag, or the same exception |
| RejectProperties.NoModelPassThrough | pydl/pydlutils/math/djs_reject.py:68-79 | without a model the result is (inmask, False) if inmask is given, else (outmask, False), a missing outmask masking nothing |
| RejectProperties.ShapeErrors | pydl/pydlutils/math/djs_reject.py:71-94 | each shape error (outmask, model, inmask, maxrej against groupdim, maxrej against groupsize) is raised iff its check is the first to fail |
| RejectProperties.MaskMonotone | pydl/pydlutils/math/djs_reject.py:241-248 | the new mask has the data's length; a point inmask excludes is rejected; with sticky a previously rejected point stays rejected; done iff the masks agree pointwise |
| RejectProperties.KeptIffNoCriterionFires | pydl/pydlutils/math/djs_reject.py:118-149 | without maxrej and grow, point i is kept iff inmask keeps it, the previous mask keeps it when sticky, and no active criterion fires |
| RejectProperties.KeptIffNoneFiresNear | pydl/pydlutils/math/djs_reject.py:118-149 | without maxrej and with grow > 0, point i is kept iff inmask keeps it, the previous mask keeps it when sticky, and no active criterion fires at any point within grow of it that is not excluded from scoring (lines 44-46, 234-244) |
| RejectProperties.GroupOfWithin | pydl/pydlutils/math/djs_reject.py:186-204 | every group of a grouping lies in 0..n-1 |
| RejectProperties.CappedWithinGroup | pydl/pydlutils/math/djs_reject.py:205-225 | inside any of its groups the full cap acts as that group's cap alone |
| RejectProperties.CapBoundPerGroup | pydl/pydlutils/math/djs_reject.py:215-225 | after the cap each group holds min(its bad points, maxrej) bad points |
| RejectProperties.CapKeepsWorstPerGroup | pydl/pydlutils/math/djs_reject.py:221-225 | in every group, each point the cap made good sorts below each point that stays bad |
| Scenarios.UpperRejectsOutlier | pydl/pydlutils/math/djs_reject.py:128-132 | data [0,0,0,10], zero model, upper 3, sigma 1: mask [T,T,T,F], done false |
| Scenarios.StickyRepeatIsDone | pydl/pydlutils/math/djs_reject.py:146-149 | repeating that call with its mask and sticky keeps the mask and reports done |
| Scenarios.MaxdevMultiples | pydl/pydlutils/math/djs_reject.py:138-140 | maxdev 2 with residuals [0,1,3,5]: badness [0,0,1.5,2.5], mask [T,T,F,F] |
| Scenarios.CapKeepsSingleWorst | pydl/pydlutils/math/djs_reject.py:215-225 | maxrej [1] over badness [0,5,3,0]: only the worst point stays rejected |
| Scenarios.ChunksCappedSeparately | pydl/pydlutils/math/djs_reject.py:196-225 | groupsize [2], maxrej [1], badness [5,3,4,0]: the chunks are capped on their own, so the mask is [F,T,F,T] |
| Scenarios.ChunkCap | pydl/pydlutils/math/djs_reject.py:196-225 | the cap in chunks of two of badness [5,3,4,0] at maxrej 1 restores only point 1 |
| Scenarios.RunsCap | pydl/pydlutils/math/djs_reject.py:186-225 | runs [0,1] and [3,4] of badness [2,2,0,3,3] are capped separately |
| Scenarios.RunsCappedSeparately | pydl/pydlutils/math/djs_reject.py:186-225 | groupbadpix with maxrej [1] over badness [2,2,0,3,3]: mask [T,F,T,T,F] |
| AsWritten.UpperTermAsWritten | pydl/pydlutils/math/djs_reject.py:131 | as written the upper increment is 0 or 1, and 1 exactly where the intended increment is nonzero |
| AsWritten.LowerTermAsWritten | pydl/pydlutils/math/djs_reject.py:121 | as written the lower increment is 0 or 1, and 1 exactly where the intended increment is nonzero |
| AsWritten.UpperBadnessAsWritten | pydl/pydlutils/math/djs_reject.py:128-134 | as written the `upper` badness of each point is 1 exactly when the intended upper increment is nonzero |
| AsWritten.LowerIncrementIsBoolean | pydl/pydlutils/math/djs_reject.py:121 | ten sigma below the model adds 1 as written and 10 as intended |
| AsWritten.CapKeepsWrongPointAsWritten | pydl/pydlutils/math/djs_reject.py:131 | the 0/1 increments give a 3-sigma and a 5-sigma point the same badness; under the repaired grouping and the stable argsort the cap then keeps the 3-sigma point and restores the 5-sigma one, while the intended increments score the same residuals [0,5,3,0] and the cap keeps the 5-sigma point |
| AsWritten.TieCap | pydl/pydlutils/math/djs_reject.py:215-225 | the cap at maxrej 1 of the tied badness [0,1,1,0] keeps only the later point |
| Scenarios.WorstCap | pydl/pydlutils/math/djs_reject.py:215-225 | the cap at maxrej 1 of badness [0,5,3,0] keeps only the worst point |
| AsWritten.Rejects | pydl/pydlutils/math/djs_reject.py:237 | `irejects` lists exactly the rejected points, in ascending order; its length is n iff every point is rejected |
| AsWritten.ClearWhere | pydl/pydlutils/math/djs_reject.py:239-240 | a boolean-indexed store fails iff the selector's length differs from the mask's, and otherwise clears the selected points |
| AsWritten.GrowPassAsWritten | pydl/pydlutils/math/djs_reject.py:239-240 | one pass raises unless there are as many rejects as points, and on a mask with every point rejected it changes nothing |
| AsWritten.GrowLoopAsWritten | pydl/pydlutils/math/djs_reject.py:238-240 | with no offset left the mask is returned; any pass raises unless there are as many rejects as points; a mask with every point rejected comes back unchanged |
| AsWritten.GrowAsWritten | pydl/pydlutils/math/djs_reject.py:234-240 | as written growth raises exactly when grow >= 2 and some but not all points are rejected, and otherwise never changes the mask |
| AsWritten.GrowOneIsIdentityAsWritten | pydl/pydlutils/math/djs_reject.py:238 | as written grow = 1 changes no mask |
| AsWritten.GrowRaisesAsWritten | pydl/pydlutils/math/djs_reject.py:238-240 | as written grow >= 2 raises whenever some but not all points are rejected |
| AsWritten.GrowthCounterexample | pydl/pydlutils/math/djs_reject.py:238-240 | for mask [T,F,T], as written grow 1 leaves the mask and grow 2 raises; the intended growth rejects all three points |

## Left out

- pydl/photoop/window.py is not part of this model. It reads and writes FITS files and environment variables and calls helpers that are not shown.
- The standard deviation `np.std` of the good residuals (lines 103-105) is the parameter `goodStd`. It is floating-point numerics.
- The square root `np.sqrt(invvar)` (lines 123, 133) is taken by the caller, who passes `sqrtInvvar`.
- `sigma` is one real. A per-point `sigma` array is not modelled; per-point noise enters through `sqrtInvvar`.
- Numpy broadcasting is not modelled: a length-1 `invvar` is not broadcast. An `invvar` whose length differs from the data is the error `InvvarShape`, raised only when `lower` or `upper` consult it.
- Grouping along `groupdim` through `djs_laxisnum` (lines 163-176) is not modelled. The helper is not shown, and the code names an undefined `ydata`. `maxrej` with a non-empty `groupdim` returns the error `MultiDimGrouping`. Only the single vector, read through `maxrej[0]` and `groupsize[0]`, is modelled.
- Data and masks are one-dimensional. Shapes are lengths.
- IEEE floating point (NaN, infinities, rounding) is not modelled. Values are Dafny reals.
- Capping: numpy's default argsort is not guaranteed stable on ties. The model takes the stable order, so among equal badness the lower index is made good first.
- DjsReject.Reject: requires `maxdev`, when given, to be positive. A zero or negative `maxdev` makes the source divide by zero or produce negative badness.
- DjsReject.RejectSpec: requires `maxdev`, when given, to be positive. A zero or negative `maxdev` makes the source divide by zero or produce negative badness.
- Criteria.MaxdevTerm: requires `maxdev`, when given, to be positive. A zero or negative `maxdev` makes the source divide by zero or produce negative badness.
- Criteria.PointBadness: requires `maxdev`, when given, to be positive. A zero or negative `maxdev` makes the source divide by zero or produce negative badness.
- Criteria.Badness: requires `maxdev`, when given, to be positive. A zero or negative `maxdev` makes the source divide by zero or produce negative badness.
- Every other member taking `maxdev` (the lemmas about RejectSpec, ScoreBadness, ScoreAt, BadnessAt): require `maxdev`, when given, to be positive. A zero or negative `maxdev` makes the source divide by zero or produce negative badness.
- DjsReject.Params: `maxrej` is a list. An int `m`, which the docstring (lines 36-38) allows, is modelled as `[m]`. As written an int `maxrej` raises a TypeError: at line 88 or 93 when `len` is taken of it, otherwise at line 176, and at line 220 once line 176 is repaired.
- DjsReject.Params: `groupsize` holds naturals, so a negative group size is not modelled. A zero group size is the error `GroupsizeZero`.
- RejectProperties.KeptIffNoCriterionFires: requires non-negative `lower`, `upper` and noise. With a negative threshold a test can fire while its increment is zero.
- RejectProperties.KeptIffNoneFiresNear: requires non-negative `lower`, `upper` and noise. With a negative threshold a test can fire while its increment is zero.
- RejectProperties.CapBoundPerGroup: requires non-negative badness and maxrej, which the criteria guarantee for every badness they produce.

## Findings

| source | as written | input that shows it | evidently intended | confidence | as-written member | corrected member |
|---|---|---|---|---|---|---|
| pydl/pydlutils/math/djs_reject.py:121 | the lower increment is the comparison `(-diff/sigma) > 0` times the test, i.e. 0 or 1 | diff = -10, sigma = 1, lower = 3: the increment is 1, not 10 | the number of sigma below the model, as the comment at lines 108-113 says | high, not executed | AsWritten.LowerIncrementIsBoolean | Criteria.LowerTermPositive |
| pydl/pydlutils/math/djs_reject.py:131 | the upper increment is 0 or 1, so all points rejected by `upper` tie at badness 1 | residuals [0,5,3,0], upper = 1, sigma = 1: both rejected points get badness 1. As written a call with maxrej raises at line 176 first. Under the repaired grouping (lines 176, 196) and the stable argsort the model assumes, maxrej = [1] then keeps point 2 (3 sigma) and restores point 1 (5 sigma) | the number of sigma above the model, so the cap keeps the worst point | high, not executed | AsWritten.CapKeepsWrongPointAsWritten | Capping.CapKeepsWorst |
| pydl/pydlutils/math/djs_reject.py:238-240 | offsets run over 1..grow-1, and `newmask` is indexed by boolean arrays over the positions of `irejects` | mask [T,F,T]: grow = 1 leaves it unchanged; grow = 2 raises IndexError | the grow nearest neighbours on each side of every rejected point, clipped to the vector, are rejected (lines 44-46): [F,F,F] | high, not executed | AsWritten.GrowthCounterexample | Growth.GrowthNeighbourhood |
