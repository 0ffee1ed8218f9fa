/** Worked examples of single calls, checked against RejectSpec. */
module Scenarios {
  import opened Wrappers
  import opened Criteria
  import opened Groups
  import opened Capping
  import opened DjsReject

  function NoOptions(): Params
  {
    Params(None, None, None, None, None, None, None, None, false, 0, false)
  }

  /** data [0,0,0,10] against a zero model with upper = 3 and sigma = 1:
      the last point is rejected and the mask changed. */
  lemma UpperRejectsOutlier()
    ensures RejectSpec([0.0, 0.0, 0.0, 10.0], Some([0.0, 0.0, 0.0, 0.0]), None, None,
                       NoOptions().(sigma := Some(1.0), upper := Some(3.0)), 0.0)
      == Ok(Outcome([true, true, true, false], false))
  {
    var p := NoOptions().(sigma := Some(1.0), upper := Some(3.0));
    var data := [0.0, 0.0, 0.0, 10.0];
    var model := [0.0, 0.0, 0.0, 0.0];
    var out := AllGood(4);
    var b := Badness(data, model, Sigma(1.0), LimitsOf(p), None, out, false);
    assert b == [0.0, 0.0, 0.0, 10.0];
    assert FinalMask(b, p, None, out) == [true, true, true, false];
    assert FinalMask(b, p, None, out)[3] != out[3];
    assert RejectSpec(data, Some(model), None, None, p, 0.0) == Ok(Outcome(FinalMask(b, p, None, out), false));
  }

  /** The same call again with that mask and sticky set: nothing changes and
      the step reports done. */
  lemma StickyRepeatIsDone()
    ensures RejectSpec([0.0, 0.0, 0.0, 10.0], Some([0.0, 0.0, 0.0, 0.0]), Some([true, true, true, false]), None,
                       NoOptions().(sigma := Some(1.0), upper := Some(3.0), sticky := true), 0.0)
      == Ok(Outcome([true, true, true, false], true))
  {
    var p := NoOptions().(sigma := Some(1.0), upper := Some(3.0), sticky := true);
    var data := [0.0, 0.0, 0.0, 10.0];
    var model := [0.0, 0.0, 0.0, 0.0];
    var out := [true, true, true, false];
    var b := Badness(data, model, Sigma(1.0), LimitsOf(p), None, out, true);
    assert b == [0.0, 0.0, 0.0, 0.0];
    assert FinalMask(b, p, None, out) == [true, true, true, false];
  }

  /** maxdev = 2 with residuals [0,1,3,5]: badness [0,0,1.5,2.5], so the
      last two points are rejected. */
  lemma MaxdevMultiples()
    ensures Badness([0.0, 1.0, 3.0, 5.0], [0.0, 0.0, 0.0, 0.0], Sigma(0.0),
                    Limits(None, None, Some(2.0)), None, AllGood(4), false) == [0.0, 0.0, 1.5, 2.5]
    ensures RejectSpec([0.0, 1.0, 3.0, 5.0], Some([0.0, 0.0, 0.0, 0.0]), None, None,
                       NoOptions().(maxdev := Some(2.0)), 0.0)
      == Ok(Outcome([true, true, false, false], false))
  {
    var p := NoOptions().(maxdev := Some(2.0));
    var b := Badness([0.0, 1.0, 3.0, 5.0], [0.0, 0.0, 0.0, 0.0], Sigma(0.0), LimitsOf(p), None, AllGood(4), false);
    assert b == [0.0, 0.0, 1.5, 2.5];
    assert FinalMask(b, p, None, AllGood(4)) == [true, true, false, false];
    assert FinalMask(b, p, None, AllGood(4))[3] != AllGood(4)[3];
  }

  /** maxrej = [1] over the whole vector with badness [0,5,3,0]: only the
      worst point stays rejected. */
  lemma CapKeepsSingleWorst()
    ensures RejectSpec([0.0, 5.0, 3.0, 0.0], Some([0.0, 0.0, 0.0, 0.0]), None, None,
                       NoOptions().(maxdev := Some(1.0), maxrej := Some([1])), 0.0)
      == Ok(Outcome([true, false, true, true], false))
  {
    var p := NoOptions().(maxdev := Some(1.0), maxrej := Some([1]));
    var b := Badness([0.0, 5.0, 3.0, 0.0], [0.0, 0.0, 0.0, 0.0], Sigma(0.0), LimitsOf(p), None, AllGood(4), false);
    assert b == [0.0, 5.0, 3.0, 0.0];
    WorstCap(b);
    var c := Capped(b, WholeVector, 1);
    assert FinalMask(c, p, None, AllGood(4)) == [true, false, true, true];
    assert FinalMask(c, p, None, AllGood(4))[1] != AllGood(4)[1];
  }

  /** The cap of badness [0,5,3,0] over the whole vector at maxrej = 1. */
  lemma WorstCap(b: seq<real>)
    requires b == [0.0, 5.0, 3.0, 0.0]
    ensures Capped(b, WholeVector, 1) == [0.0, 5.0, 0.0, 0.0]
  {
    var g := Group(0, 3);
    assert CountBad(b, g) == 2;
    assert Above(b, g, 1) == 0 && Above(b, g, 2) == 1;
    assert CappedAt(b, WholeVector, 1, 1) == 5.0 && CappedAt(b, WholeVector, 1, 2) == 0.0;
  }

  /** groupsize = [2] and maxrej = [1] with badness [5,3,4,0]: the chunks
      [5,3] and [4,0] are capped separately, so point 2 stays rejected
      beside the worst point of the first chunk. */
  lemma ChunksCappedSeparately()
    ensures RejectSpec([5.0, 3.0, 4.0, 0.0], Some([0.0, 0.0, 0.0, 0.0]), None, None,
                       NoOptions().(maxdev := Some(1.0), maxrej := Some([1]), groupsize := Some([2])), 0.0)
      == Ok(Outcome([false, true, false, true], false))
  {
    var p := NoOptions().(maxdev := Some(1.0), maxrej := Some([1]), groupsize := Some([2]));
    var b := Badness([5.0, 3.0, 4.0, 0.0], [0.0, 0.0, 0.0, 0.0], Sigma(0.0), LimitsOf(p), None, AllGood(4), false);
    assert b == [5.0, 3.0, 4.0, 0.0];
    assert GroupingOf(p) == Ok(FixedChunks(2));
    ChunkCap(b);
    var c := Capped(b, FixedChunks(2), 1);
    assert FinalMask(c, p, None, AllGood(4)) == [false, true, false, true];
    assert FinalMask(c, p, None, AllGood(4))[0] != AllGood(4)[0];
  }

  /** The cap of badness [5,3,4,0] in chunks of two at maxrej = 1. */
  lemma ChunkCap(b: seq<real>)
    requires b == [5.0, 3.0, 4.0, 0.0]
    ensures Capped(b, FixedChunks(2), 1) == [5.0, 0.0, 4.0, 0.0]
  {
    var g1, g2 := Group(0, 1), Group(2, 3);
    assert ChunkOf(4, 2, 0) == g1 && ChunkOf(4, 2, 1) == g1;
    assert ChunkOf(4, 2, 2) == g2 && ChunkOf(4, 2, 3) == g2;
    assert CountBad(b, g1) == 2 && CountBad(b, g2) == 1;
    assert Above(b, g1, 0) == 0 && Above(b, g1, 1) == 1;
    assert CappedAt(b, FixedChunks(2), 1, 0) == 5.0 && CappedAt(b, FixedChunks(2), 1, 1) == 0.0;
    assert CappedAt(b, FixedChunks(2), 1, 2) == 4.0 && CappedAt(b, FixedChunks(2), 1, 3) == 0.0;
  }

  /** The badness of the groupbadpix example: maxdev = 1 over the residuals. */
  lemma RunsBadness()
    ensures Badness([2.0, 2.0, 0.0, 3.0, 3.0], [0.0, 0.0, 0.0, 0.0, 0.0], Sigma(0.0),
                    Limits(None, None, Some(1.0)), None, AllGood(5), false) == [2.0, 2.0, 0.0, 3.0, 3.0]
  {
  }

  /** The cap of the groupbadpix example, run by run. */
  lemma RunsCap(b: seq<real>)
    requires b == [2.0, 2.0, 0.0, 3.0, 3.0]
    ensures Capped(b, BadPixelRuns, 1) == [0.0, 2.0, 0.0, 0.0, 3.0]
  {
    var g1, g2 := Group(0, 1), Group(3, 4);
    assert !IsBadAt(b, 2) && !IsBadAt(b, -1) && !IsBadAt(b, 5);
    assert MaximalRun(b, g1) && MaximalRun(b, g2);
    MaximalRunUnique(b, g1, 0);
    MaximalRunUnique(b, g1, 1);
    MaximalRunUnique(b, g2, 3);
    MaximalRunUnique(b, g2, 4);
    assert CountBad(b, g1) == 2 && CountBad(b, g2) == 2;
    assert Above(b, g1, 0) == 1 && Above(b, g1, 1) == 0;
    assert Above(b, g2, 3) == 1 && Above(b, g2, 4) == 0;
    assert CappedAt(b, BadPixelRuns, 1, 0) == 0.0;
    assert CappedAt(b, BadPixelRuns, 1, 1) == 2.0;
    assert CappedAt(b, BadPixelRuns, 1, 2) == 0.0;
    assert CappedAt(b, BadPixelRuns, 1, 3) == 0.0;
    assert CappedAt(b, BadPixelRuns, 1, 4) == 3.0;
  }

  /** groupbadpix with badness [2,2,0,3,3] and maxrej = [1]: the two runs
      are capped separately, and within each run of equal badness the later
      point stays rejected. */
  lemma RunsCappedSeparately()
    ensures RejectSpec([2.0, 2.0, 0.0, 3.0, 3.0], Some([0.0, 0.0, 0.0, 0.0, 0.0]), None, None,
                       NoOptions().(maxdev := Some(1.0), maxrej := Some([1]), groupbadpix := true), 0.0)
      == Ok(Outcome([true, false, true, true, false], false))
  {
    var p := NoOptions().(maxdev := Some(1.0), maxrej := Some([1]), groupbadpix := true);
    var b := Badness([2.0, 2.0, 0.0, 3.0, 3.0], [0.0, 0.0, 0.0, 0.0, 0.0], Sigma(0.0), LimitsOf(p), None, AllGood(5), false);
    RunsBadness();
    RunsCap(b);
    var c := Capped(b, BadPixelRuns, 1);
    assert FinalMask(c, p, None, AllGood(5)) == [true, false, true, true, false];
    assert FinalMask(c, p, None, AllGood(5))[1] != AllGood(5)[1];
  }
}
