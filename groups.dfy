/** The groups over which djs_reject caps rejections: fixed-size chunks of
    `groupsize` points, or the maximal runs of consecutive points that have
    nonzero badness (`groupbadpix`). A group is an inclusive index range
    i1..i2, as in the source's `groups_lower`/`groups_upper`. */
module Groups {

  /** The points lo..hi, both ends included; empty when hi < lo. */
  datatype Group = Group(lo: int, hi: int)

  predicate InGroup(g: Group, i: int)
  {
    g.lo <= i <= g.hi
  }

  /** The source's `nii = i2 - i1 + 1`. */
  function Size(g: Group): int
  {
    g.hi - g.lo + 1
  }

  /** The group lies in 0..n-1 (an empty group may sit just past the end). */
  predicate Within(g: Group, n: nat)
  {
    0 <= g.lo && g.hi < n && g.lo <= g.hi + 1
  }

  function Min(a: int, b: int): int
  {
    if a < b then a else b
  }

  // ---------------------------------------------------------------------
  // Fixed-size chunks
  // ---------------------------------------------------------------------

  /** The fixed chunks of n points: `ngroups = n / groupsize + 1` groups,
      group k spanning k*groupsize .. min((k+1)*groupsize, n) - 1. */
  function FixedGroups(n: nat, groupsize: nat): (gr: seq<Group>)
    requires groupsize > 0
    ensures |gr| == n / groupsize + 1
  {
    seq(n / groupsize + 1, k => Group(k * groupsize, Min((k + 1) * groupsize, n) - 1))
  }

  /** The chunk that holds point i. */
  function ChunkOf(n: nat, groupsize: nat, i: int): Group
    requires groupsize > 0
  {
    Group((i / groupsize) * groupsize, Min((i / groupsize + 1) * groupsize, n) - 1)
  }

  lemma MulMono(a: int, b: int, c: int)
    requires a <= b && c >= 0
    ensures a * c <= b * c
  {
  }

  /** Every chunk lies inside 0..n-1; all but the last hold exactly
      `groupsize` points and the last holds n % groupsize, so it is empty
      (and skipped by the cap) exactly when groupsize divides n. */
  lemma FixedGroupShape(n: nat, groupsize: nat, k: int)
    requires groupsize > 0 && 0 <= k < n / groupsize + 1
    ensures Within(FixedGroups(n, groupsize)[k], n)
    ensures k < n / groupsize ==> Size(FixedGroups(n, groupsize)[k]) == groupsize
    ensures k == n / groupsize ==> Size(FixedGroups(n, groupsize)[k]) == n % groupsize
  {
    var q := n / groupsize;
    assert n == q * groupsize + n % groupsize;
    if k < q {
      MulMono(k + 1, q, groupsize);
    } else {
      assert (k + 1) * groupsize == q * groupsize + groupsize;
    }
  }

  /** Point i of 0..n-1 lies in chunk k exactly when k == i / groupsize, and
      that chunk is ChunkOf(n, groupsize, i): the chunks partition 0..n-1. */
  lemma FixedGroupMember(n: nat, groupsize: nat, k: int, i: int)
    requires groupsize > 0 && 0 <= k < n / groupsize + 1 && 0 <= i < n
    ensures InGroup(FixedGroups(n, groupsize)[k], i) <==> k == i / groupsize
    ensures i / groupsize < n / groupsize + 1
    ensures FixedGroups(n, groupsize)[i / groupsize] == ChunkOf(n, groupsize, i)
  {
    var q := i / groupsize;
    DivBounds(i, groupsize);
    DivBounds(n, groupsize);
    if k < q {
      MulMono(k + 1, q, groupsize);
    } else if k > q {
      MulMono(q + 1, k, groupsize);
    }
    if q >= n / groupsize + 1 {
      MulMono(n / groupsize + 1, q, groupsize);
    }
    ChunkBounds(k * groupsize, (k + 1) * groupsize, q * groupsize, (q + 1) * groupsize, i, n, k, q);
  }

  /** The linear core of FixedGroupMember: chunk k spans lo..min(next, n)-1,
      and chunk q is the one whose span brackets i. */
  lemma ChunkBounds(lo: int, next: int, qlo: int, qnext: int, i: int, n: int, k: int, q: int)
    requires qlo <= i < qnext && i < n
    requires k < q ==> next <= qlo
    requires k > q ==> lo >= qnext
    requires k == q ==> lo == qlo && next == qnext
    ensures (lo <= i <= Min(next, n) - 1) <==> k == q
  {
  }

  /** The quotient brackets its dividend. */
  lemma DivBounds(i: nat, d: nat)
    requires d > 0
    ensures (i / d) * d <= i < (i / d + 1) * d
  {
    assert i == (i / d) * d + i % d;
    assert (i / d + 1) * d == (i / d) * d + d;
  }

  // ---------------------------------------------------------------------
  // Runs of bad points
  // ---------------------------------------------------------------------

  /** Point i exists and has nonzero badness. */
  predicate IsBadAt(b: seq<real>, i: int)
  {
    0 <= i < |b| && b[i] != 0.0
  }

  /** g is a maximal run of consecutive points with nonzero badness. */
  ghost predicate MaximalRun(b: seq<real>, g: Group)
  {
    0 <= g.lo <= g.hi < |b|
    && (forall i :: g.lo <= i <= g.hi ==> b[i] != 0.0)
    && !IsBadAt(b, g.lo - 1) && !IsBadAt(b, g.hi + 1)
  }

  /** First point of the run of bad points through i. */
  function RunStart(b: seq<real>, i: int): (s: int)
    requires IsBadAt(b, i)
    ensures 0 <= s <= i && !IsBadAt(b, s - 1)
    ensures forall j :: s <= j <= i ==> b[j] != 0.0
    decreases i
  {
    if IsBadAt(b, i - 1) then RunStart(b, i - 1) else i
  }

  /** Last point of the run of bad points through i. */
  function RunEnd(b: seq<real>, i: int): (e: int)
    requires IsBadAt(b, i)
    ensures i <= e < |b| && !IsBadAt(b, e + 1)
    ensures forall j :: i <= j <= e ==> b[j] != 0.0
    decreases |b| - i
  {
    if IsBadAt(b, i + 1) then RunEnd(b, i + 1) else i
  }

  /** The maximal run of bad points through i. */
  function RunOf(b: seq<real>, i: int): (g: Group)
    requires IsBadAt(b, i)
    ensures MaximalRun(b, g) && InGroup(g, i)
  {
    Group(RunStart(b, i), RunEnd(b, i))
  }

  lemma {:induction false} RunStartOf(b: seq<real>, g: Group, i: int)
    requires MaximalRun(b, g) && InGroup(g, i)
    ensures RunStart(b, i) == g.lo
    decreases i
  {
    if i > g.lo {
      RunStartOf(b, g, i - 1);
    }
  }

  lemma {:induction false} RunEndOf(b: seq<real>, g: Group, i: int)
    requires MaximalRun(b, g) && InGroup(g, i)
    ensures RunEnd(b, i) == g.hi
    decreases |b| - i
  {
    if i < g.hi {
      RunEndOf(b, g, i + 1);
    }
  }

  /** A maximal run is determined by any one of its points. */
  lemma MaximalRunUnique(b: seq<real>, g: Group, i: int)
    requires MaximalRun(b, g) && InGroup(g, i)
    ensures IsBadAt(b, i) && g == RunOf(b, i)
  {
    RunStartOf(b, g, i);
    RunEndOf(b, g, i);
  }

  /** The groups of `groupbadpix` mode (source lines 186-190): in index
      order, the maximal runs of points with nonzero badness, separated by
      at least one zero-badness point, covering every bad point. */
  method BadRuns(b: seq<real>) returns (runs: seq<Group>)
    ensures forall k :: 0 <= k < |runs| ==> MaximalRun(b, runs[k])
    ensures forall k, l :: 0 <= k < l < |runs| ==> runs[k].hi + 1 < runs[l].lo
    ensures forall i :: IsBadAt(b, i) ==> exists k :: 0 <= k < |runs| && InGroup(runs[k], i)
  {
    runs := [];
    var i := 0;
    while i < |b|
      invariant 0 <= i <= |b|
      invariant !IsBadAt(b, i - 1) || !IsBadAt(b, i)
      invariant forall k :: 0 <= k < |runs| ==> MaximalRun(b, runs[k]) && runs[k].hi < i
      invariant forall k, l :: 0 <= k < l < |runs| ==> runs[k].hi + 1 < runs[l].lo
      invariant forall j :: 0 <= j < i && IsBadAt(b, j) ==> exists k :: 0 <= k < |runs| && InGroup(runs[k], j)
    {
      if b[i] == 0.0 {
        i := i + 1;
      } else {
        var j := i;
        while j + 1 < |b| && b[j + 1] != 0.0
          invariant i <= j < |b|
          invariant forall t :: i <= t <= j ==> b[t] != 0.0
        {
          j := j + 1;
        }
        var g := Group(i, j);
        assert MaximalRun(b, g);
        forall k | 0 <= k < |runs|
          ensures runs[k].hi + 1 < g.lo
        {
          assert !IsBadAt(b, runs[k].hi + 1);
        }
        ghost var old_runs := runs;
        runs := runs + [g];
        forall t | 0 <= t < j + 1 && IsBadAt(b, t)
          ensures exists k :: 0 <= k < |runs| && InGroup(runs[k], t)
        {
          if t < i {
            var k :| 0 <= k < |old_runs| && InGroup(old_runs[k], t);
            assert runs[k] == old_runs[k];
          } else {
            assert InGroup(runs[|runs| - 1], t);
          }
        }
        i := j + 1;
      }
    }
  }
}
