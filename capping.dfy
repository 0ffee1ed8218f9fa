/** The `maxrej` cap of djs_reject (source lines 205-225): inside one group,
    when more than `maxrej` points have nonzero badness, the badness of the
    `nii - maxrej` points that come first in the ascending argsort of the
    group's badness is set to zero, so only the `maxrej` worst stay bad.

    The argsort is taken to be stable (ties in index order). The position of
    point i in it is described by Above(b, g, i), the number of members of g
    that come after i; i is among the first `nii - maxrej` exactly when
    Above(b, g, i) >= maxrej. */
module Capping {
  import opened Counting
  import opened Groups

  /** In the stable ascending argsort of b, j comes after i. */
  predicate RanksAbove(b: seq<real>, i: int, j: int)
  {
    0 <= i < |b| && 0 <= j < |b| && (b[j] > b[i] || (b[j] == b[i] && j > i))
  }

  function AboveOf(b: seq<real>, i: int): int -> bool
  {
    j => RanksAbove(b, i, j)
  }

  function Nonzero(b: seq<real>): int -> bool
  {
    k => 0 <= k < |b| && b[k] != 0.0
  }

  function Everywhere(): int -> bool
  {
    k => true
  }

  /** Number of members of g that come after i in the argsort. */
  function Above(b: seq<real>, g: Group, i: int): nat
  {
    CountWhere(g.lo, g.hi, AboveOf(b, i))
  }

  function RankOf(b: seq<real>, g: Group): int -> int
  {
    i => Above(b, g, i)
  }

  /** `np.sum(badness[jj] != 0)`: the number of bad members of g. */
  function CountBad(b: seq<real>, g: Group): nat
  {
    CountWhere(g.lo, g.hi, Nonzero(b))
  }

  /** The badness of point i once group g is capped at maxrej. */
  function CapAt(b: seq<real>, g: Group, maxrej: int, i: int): (r: real)
    requires 0 <= i < |b|
    ensures r == b[i] || r == 0.0
    ensures !InGroup(g, i) || CountBad(b, g) <= maxrej ==> r == b[i]
    ensures r != b[i] <==> b[i] != 0.0 && InGroup(g, i) && CountBad(b, g) > maxrej && Above(b, g, i) >= maxrej
  {
    if InGroup(g, i) && CountBad(b, g) > maxrej && Above(b, g, i) >= maxrej then 0.0 else b[i]
  }

  /** The badness vector once group g is capped at maxrej: the cap only
      clears entries, only inside the group, and leaves a group with at most
      maxrej bad points untouched. */
  function CapGroupSpec(b: seq<real>, g: Group, maxrej: int): (r: seq<real>)
    ensures |r| == |b|
    ensures forall i :: 0 <= i < |b| ==> r[i] == b[i] || r[i] == 0.0
    ensures forall i :: 0 <= i < |b| && !InGroup(g, i) ==> r[i] == b[i]
    ensures CountBad(b, g) <= maxrej ==> r == b
  {
    seq(|b|, i requires 0 <= i < |b| => CapAt(b, g, maxrej, i))
  }

  /** The argsort order is strict and total on distinct points. */
  lemma RanksAboveTotal(b: seq<real>, i: int, j: int)
    requires 0 <= i < |b| && 0 <= j < |b| && i != j
    ensures RanksAbove(b, i, j) != RanksAbove(b, j, i)
  {
  }

  /** A point later in the argsort has fewer members after it. */
  lemma AboveStrict(b: seq<real>, g: Group, i: int, j: int)
    requires Within(g, |b|) && InGroup(g, i) && InGroup(g, j)
    requires RanksAbove(b, i, j)
    ensures Above(b, g, j) < Above(b, g, i)
  {
    forall k | g.lo <= k <= g.hi && AboveOf(b, j)(k)
      ensures AboveOf(b, i)(k)
    {
    }
    CountStrict(g.lo, g.hi, AboveOf(b, j), AboveOf(b, i), j);
  }

  /** The ranks of a group's members are distinct and lie in 0..nii-1. */
  lemma RanksArePositions(b: seq<real>, g: Group)
    requires Within(g, |b|)
    ensures InjectiveOn(g.lo, g.hi, RankOf(b, g))
    ensures forall k :: g.lo <= k <= g.hi ==> 0 <= RankOf(b, g)(k) <= g.hi - g.lo
  {
    forall k, l | g.lo <= k <= g.hi && g.lo <= l <= g.hi && k != l
      ensures RankOf(b, g)(k) != RankOf(b, g)(l)
    {
      RanksAboveTotal(b, k, l);
      if RanksAbove(b, k, l) {
        AboveStrict(b, g, k, l);
      } else {
        AboveStrict(b, g, l, k);
      }
    }
    CountAll(g.lo, g.hi, Everywhere());
    forall k | g.lo <= k <= g.hi
      ensures RankOf(b, g)(k) <= g.hi - g.lo
    {
      CountStrict(g.lo, g.hi, AboveOf(b, k), Everywhere(), k);
    }
  }

  /** A zero-badness member comes before every bad member, so it has at least
      as many members after it as the group has bad points. */
  lemma ZeroRanksLow(b: seq<real>, g: Group, i: int)
    requires Within(g, |b|) && InGroup(g, i)
    requires forall k :: g.lo <= k <= g.hi ==> b[k] >= 0.0
    requires b[i] == 0.0
    ensures Above(b, g, i) >= CountBad(b, g)
  {
    CountMono(g.lo, g.hi, Nonzero(b), AboveOf(b, i));
  }

  /** When a group with non-negative badness has more than maxrej bad points,
      exactly maxrej of them are still bad after the cap. */
  lemma {:induction false} CapExact(b: seq<real>, g: Group, maxrej: int)
    requires Within(g, |b|)
    requires forall k :: g.lo <= k <= g.hi ==> b[k] >= 0.0
    requires 0 <= maxrej < CountBad(b, g)
    ensures CountBad(CapGroupSpec(b, g, maxrej), g) == maxrej
  {
    var r := CapGroupSpec(b, g, maxrej);
    forall k | g.lo <= k <= g.hi
      ensures Nonzero(r)(k) == Below(RankOf(b, g), maxrej)(k)
    {
      if Above(b, g, k) < maxrej && b[k] == 0.0 {
        ZeroRanksLow(b, g, k);
      }
    }
    CountExt(g.lo, g.hi, Nonzero(r), Below(RankOf(b, g), maxrej));
    RanksArePositions(b, g);
    RanksFill(g.lo, g.hi, RankOf(b, g), maxrej);
  }

  /** The points the cap makes good again come before every point that stays
      bad in the argsort: their badness is no larger, and on a tie their
      index is smaller. */
  lemma CapKeepsWorst(b: seq<real>, g: Group, maxrej: int, i: int, j: int)
    requires Within(g, |b|) && InGroup(g, i) && InGroup(g, j)
    requires CapGroupSpec(b, g, maxrej)[i] != 0.0
    requires b[j] != 0.0 && CapGroupSpec(b, g, maxrej)[j] == 0.0
    ensures RanksAbove(b, j, i) && b[j] <= b[i]
  {
    if i != j {
      RanksAboveTotal(b, i, j);
      if RanksAbove(b, i, j) {
        AboveStrict(b, g, i, j);
      }
    }
  }

  /** The cap of a group depends only on the group's own entries. */
  lemma CapLocal(cur: seq<real>, orig: seq<real>, g: Group, maxrej: int, i: int)
    requires |cur| == |orig| && Within(g, |orig|) && InGroup(g, i)
    requires forall k :: g.lo <= k <= g.hi ==> cur[k] == orig[k]
    ensures CapAt(cur, g, maxrej, i) == CapAt(orig, g, maxrej, i)
  {
    CountExt(g.lo, g.hi, Nonzero(cur), Nonzero(orig));
    CountExt(g.lo, g.hi, AboveOf(cur, i), AboveOf(orig, i));
  }

  /** `np.sum(badness[jj] != 0)` over group g. */
  method CountBadIn(s: seq<real>, g: Group) returns (c: nat)
    requires Within(g, |s|)
    ensures c == CountBad(s, g)
  {
    c := 0;
    var k := g.lo;
    while k <= g.hi
      invariant g.lo <= k <= g.hi + 1
      invariant c == CountWhere(g.lo, k - 1, Nonzero(s))
    {
      if s[k] != 0.0 {
        c := c + 1;
      }
      k := k + 1;
    }
  }

  /** The number of members of g after point i in the argsort. */
  method AboveIn(s: seq<real>, g: Group, i: int) returns (c: nat)
    requires Within(g, |s|) && InGroup(g, i)
    ensures c == Above(s, g, i)
  {
    c := 0;
    var k := g.lo;
    while k <= g.hi
      invariant g.lo <= k <= g.hi + 1
      invariant c == CountWhere(g.lo, k - 1, AboveOf(s, i))
    {
      if s[k] > s[i] || (s[k] == s[i] && k > i) {
        c := c + 1;
      }
      k := k + 1;
    }
  }

  /** Caps one non-empty group in place (source lines 216-225). */
  method CapGroup(bad: array<real>, g: Group, maxrej: int)
    requires Within(g, bad.Length) && g.lo <= g.hi
    modifies bad
    ensures bad[..] == CapGroupSpec(old(bad[..]), g, maxrej)
  {
    var snap := bad[..];
    var nbad := CountBadIn(snap, g);
    if nbad > maxrej {
      var i := g.lo;
      while i <= g.hi
        invariant g.lo <= i <= g.hi + 1
        invariant forall k :: 0 <= k < bad.Length ==>
          bad[k] == if g.lo <= k < i then CapAt(snap, g, maxrej, k) else snap[k]
      {
        var above := AboveIn(snap, g, i);
        if above >= maxrej {
          bad[i] := 0.0;
        }
        i := i + 1;
      }
    }
  }

  /** Groups that share no point. */
  ghost predicate Disjoint(groups: seq<Group>)
  {
    forall k, l, i :: 0 <= k < l < |groups| && InGroup(groups[k], i) ==> !InGroup(groups[l], i)
  }

  /** Caps every group of a list of disjoint groups in turn, skipping the
      empty ones (`if nii > 0`). Each point of a group ends up capped within
      that group, as computed from the badness before any group was capped;
      points in no group keep their badness. */
  method CapGroups(bad: array<real>, groups: seq<Group>, maxrej: int)
    requires forall k :: 0 <= k < |groups| ==> Within(groups[k], bad.Length)
    requires Disjoint(groups)
    modifies bad
    ensures forall k, i :: 0 <= k < |groups| && InGroup(groups[k], i) && 0 <= i < bad.Length ==>
      bad[i] == CapAt(old(bad[..]), groups[k], maxrej, i)
    ensures forall i :: 0 <= i < bad.Length && (forall k :: 0 <= k < |groups| ==> !InGroup(groups[k], i)) ==>
      bad[i] == old(bad[i])
  {
    ghost var orig := bad[..];
    var t := 0;
    while t < |groups|
      invariant 0 <= t <= |groups|
      invariant forall k, i :: 0 <= k < t && InGroup(groups[k], i) && 0 <= i < bad.Length ==>
        bad[i] == CapAt(orig, groups[k], maxrej, i)
      invariant forall i :: 0 <= i < bad.Length && (forall k :: 0 <= k < t ==> !InGroup(groups[k], i)) ==>
        bad[i] == orig[i]
    {
      var g := groups[t];
      if Size(g) > 0 {
        ghost var cur := bad[..];
        forall k | g.lo <= k <= g.hi
          ensures cur[k] == orig[k]
        {
          forall l | 0 <= l < t
            ensures !InGroup(groups[l], k)
          {
            assert InGroup(groups[t], k);
          }
        }
        CapGroup(bad, g, maxrej);
        forall i | 0 <= i < bad.Length && InGroup(g, i)
          ensures bad[i] == CapAt(orig, g, maxrej, i)
        {
          CapLocal(cur, orig, g, maxrej, i);
        }
      }
      t := t + 1;
    }
  }
}
