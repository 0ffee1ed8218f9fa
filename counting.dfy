/** Counting the indices of an inclusive range that satisfy a predicate, and the
    pigeonhole fact behind the rejection cap: distinct ranks 0..n-1 given to n
    points put exactly m of them below m. */
module Counting {

  /** Number of k with lo <= k <= hi and P(k). */
  function CountWhere(lo: int, hi: int, P: int -> bool): (c: nat)
    ensures c <= if hi < lo then 0 else hi - lo + 1
    decreases hi - lo
  {
    if hi < lo then 0 else CountWhere(lo, hi - 1, P) + (if P(hi) then 1 else 0)
  }

  /** The predicate "f(k) < m". */
  function Below(f: int -> int, m: int): int -> bool
  {
    k => f(k) < m
  }

  /** The predicate "f(k) == v". */
  function Hits(f: int -> int, v: int): int -> bool
  {
    k => f(k) == v
  }

  lemma {:induction false} CountExt(lo: int, hi: int, P: int -> bool, Q: int -> bool)
    requires forall k :: lo <= k <= hi ==> P(k) == Q(k)
    ensures CountWhere(lo, hi, P) == CountWhere(lo, hi, Q)
    decreases hi - lo
  {
    if lo <= hi {
      CountExt(lo, hi - 1, P, Q);
    }
  }

  lemma {:induction false} CountMono(lo: int, hi: int, P: int -> bool, Q: int -> bool)
    requires forall k :: lo <= k <= hi && P(k) ==> Q(k)
    ensures CountWhere(lo, hi, P) <= CountWhere(lo, hi, Q)
    decreases hi - lo
  {
    if lo <= hi {
      CountMono(lo, hi - 1, P, Q);
    }
  }

  /** Enlarging a predicate by one witness in range enlarges the count. */
  lemma {:induction false} CountStrict(lo: int, hi: int, P: int -> bool, Q: int -> bool, w: int)
    requires forall k :: lo <= k <= hi && P(k) ==> Q(k)
    requires lo <= w <= hi && Q(w) && !P(w)
    ensures CountWhere(lo, hi, P) < CountWhere(lo, hi, Q)
    decreases hi - lo
  {
    if w == hi {
      CountMono(lo, hi - 1, P, Q);
    } else {
      CountStrict(lo, hi - 1, P, Q, w);
    }
  }

  lemma {:induction false} CountNone(lo: int, hi: int, P: int -> bool)
    requires forall k :: lo <= k <= hi ==> !P(k)
    ensures CountWhere(lo, hi, P) == 0
    decreases hi - lo
  {
    if lo <= hi {
      CountNone(lo, hi - 1, P);
    }
  }

  lemma {:induction false} CountAll(lo: int, hi: int, P: int -> bool)
    requires lo <= hi + 1
    requires forall k :: lo <= k <= hi ==> P(k)
    ensures CountWhere(lo, hi, P) == hi - lo + 1
    decreases hi - lo
  {
    if lo <= hi {
      CountAll(lo, hi - 1, P);
    }
  }

  /** R holds exactly where one of two disjoint predicates holds. */
  lemma {:induction false} CountDisjointUnion(lo: int, hi: int, P: int -> bool, Q: int -> bool, R: int -> bool)
    requires forall k :: lo <= k <= hi ==> R(k) == (P(k) || Q(k)) && !(P(k) && Q(k))
    ensures CountWhere(lo, hi, R) == CountWhere(lo, hi, P) + CountWhere(lo, hi, Q)
    decreases hi - lo
  {
    if lo <= hi {
      CountDisjointUnion(lo, hi - 1, P, Q, R);
    }
  }

  ghost predicate InjectiveOn(lo: int, hi: int, f: int -> int)
  {
    forall k, l :: lo <= k <= hi && lo <= l <= hi && k != l ==> f(k) != f(l)
  }

  /** An injective f takes each value at most once on the range. */
  lemma {:induction false} AtMostOneHit(lo: int, hi: int, f: int -> int, v: int)
    requires InjectiveOn(lo, hi, f)
    ensures CountWhere(lo, hi, Hits(f, v)) <= 1
    decreases hi - lo
  {
    if lo <= hi {
      if f(hi) == v {
        forall k | lo <= k <= hi - 1
          ensures !Hits(f, v)(k)
        {
          assert f(k) != f(hi);
        }
        CountNone(lo, hi - 1, Hits(f, v));
      } else {
        AtMostOneHit(lo, hi - 1, f, v);
      }
    }
  }

  /** Raising the bound from m1 to m2 admits at most m2 - m1 more points. */
  lemma {:induction false} BelowGrowth(lo: int, hi: int, f: int -> int, m1: int, m2: int)
    requires InjectiveOn(lo, hi, f)
    requires m1 <= m2
    ensures CountWhere(lo, hi, Below(f, m2)) <= CountWhere(lo, hi, Below(f, m1)) + (m2 - m1)
    decreases m2 - m1
  {
    if m1 < m2 {
      BelowGrowth(lo, hi, f, m1, m2 - 1);
      CountDisjointUnion(lo, hi, Below(f, m2 - 1), Hits(f, m2 - 1), Below(f, m2));
      AtMostOneHit(lo, hi, f, m2 - 1);
    }
  }

  /** Distinct ranks in 0..n-1 on a range of n points: exactly m of them are below m. */
  lemma {:induction false} RanksFill(lo: int, hi: int, f: int -> int, m: int)
    requires lo <= hi + 1
    requires forall k :: lo <= k <= hi ==> 0 <= f(k) <= hi - lo
    requires InjectiveOn(lo, hi, f)
    requires 0 <= m <= hi - lo + 1
    ensures CountWhere(lo, hi, Below(f, m)) == m
  {
    var n := hi - lo + 1;
    CountNone(lo, hi, Below(f, 0));
    CountAll(lo, hi, Below(f, n));
    BelowGrowth(lo, hi, f, 0, m);
    BelowGrowth(lo, hi, f, m, n);
  }
}
