/** Growth of rejections (`grow`): every point within `grow` positions of a
    rejected point, on either side and clipped to the ends of the vector, is
    rejected too. */
module Growth {

  /** Some point rejected in mask, with index below `upto`, lies within
      `grow` positions of j. */
  ghost predicate RejectedNear(mask: seq<bool>, grow: int, j: int, upto: int)
  {
    exists r :: 0 <= r < upto && r < |mask| && !mask[r] && j - grow <= r <= j + grow
  }

  /** The mask after growth: with grow > 0 a point stays good exactly when
      no rejected point lies within grow of it; otherwise nothing changes. */
  ghost function Grown(mask: seq<bool>, grow: int): (g: seq<bool>)
    ensures |g| == |mask|
    ensures forall j :: 0 <= j < |mask| && !mask[j] ==> !g[j]
    ensures grow <= 0 ==> g == mask
  {
    if grow > 0 then
      seq(|mask|, j requires 0 <= j < |mask| => mask[j] && !RejectedNear(mask, grow, j, |mask|))
    else mask
  }

  /** Growth rejects every in-bounds neighbour within grow of a rejected
      point, never turns a rejected point good, and rejects nothing else;
      with grow <= 0 it changes nothing. */
  lemma GrowthNeighbourhood(mask: seq<bool>, grow: int, j: int)
    requires 0 <= j < |mask|
    ensures grow > 0 ==> forall r :: 0 <= r < |mask| && !mask[r] && j - grow <= r <= j + grow ==> !Grown(mask, grow)[j]
    ensures !mask[j] ==> !Grown(mask, grow)[j]
    ensures mask[j] && !Grown(mask, grow)[j] ==>
      grow > 0 && exists r :: 0 <= r < |mask| && !mask[r] && j - grow <= r <= j + grow
    ensures grow <= 0 ==> Grown(mask, grow)[j] == mask[j]
  {
  }

  /** Grows the rejections of mask in place (source lines 234-240): for each
      point rejected before growth, the points at distance 1..grow on each
      side that exist are rejected. */
  method GrowRejections(mask: array<bool>, grow: int)
    modifies mask
    ensures mask[..] == Grown(old(mask[..]), grow)
  {
    if grow > 0 {
      var orig := mask[..];
      var n := mask.Length;
      var i := 0;
      while i < n
        invariant 0 <= i <= n
        invariant forall j :: 0 <= j < n ==> mask[j] == (orig[j] && !RejectedNear(orig, grow, j, i))
      {
        if !orig[i] {
          var k := 1;
          while k <= grow
            invariant 1 <= k <= grow + 1
            invariant forall j :: 0 <= j < n ==>
              mask[j] == (orig[j] && !RejectedNear(orig, grow, j, i) && !(i - k < j < i + k))
          {
            if i - k >= 0 {
              mask[i - k] := false;
            }
            if i + k < n {
              mask[i + k] := false;
            }
            k := k + 1;
          }
        }
        forall j | 0 <= j < n
          ensures RejectedNear(orig, grow, j, i + 1) == (RejectedNear(orig, grow, j, i) || (!orig[i] && j - grow <= i <= j + grow))
        {
          if !orig[i] && j - grow <= i <= j + grow {
            assert 0 <= i < i + 1;
          }
        }
        i := i + 1;
      }
      assert mask[..] == Grown(orig, grow);
    }
  }
}
