/** Lower and upper (Darboux) sums of a function over the finite partitions of [0, 1]. */
module Integral {

  ghost predicate Partition(ps: seq<real>) {
    && |ps| >= 2 && ps[0] == 0.0 && ps[|ps| - 1] == 1.0
    && forall i :: 0 <= i < |ps| - 1 ==> ps[i] <= ps[i + 1]
  }

  /** The sum over the first n intervals, each weighted with the value at its left end. */
  ghost function LeftSum(f: real -> real, ps: seq<real>, n: nat): real
    requires n < |ps|
  {
    if n == 0 then 0.0 else LeftSum(f, ps, n - 1) + f(ps[n - 1]) * (ps[n] - ps[n - 1])
  }

  ghost function RightSum(f: real -> real, ps: seq<real>, n: nat): real
    requires n < |ps|
  {
    if n == 0 then 0.0 else RightSum(f, ps, n - 1) + f(ps[n]) * (ps[n] - ps[n - 1])
  }

  /** f does not decrease on [0, 1], so that the left sums are its lower sums and
      the right sums its upper sums. */
  ghost predicate Rising(f: real -> real) {
    forall a, b :: 0.0 <= a <= b <= 1.0 ==> f(a) <= f(b)
  }

  /** No partition tells r apart from the integral of the rising function f. */
  ghost predicate IsIntegral(f: real -> real, r: real) {
    forall ps :: Partition(ps) ==> LeftSum(f, ps, |ps| - 1) <= r <= RightSum(f, ps, |ps| - 1)
  }

  /** An area over a width lies between the rectangles of two heights. */
  ghost predicate Rect(lo: real, hi: real, width: real, area: real) {
    lo <= hi && width >= 0.0 && lo * width <= area <= hi * width
  }

  ghost predicate Fits(f: real -> real, area: real -> real, a: real, b: real) {
    Rect(f(a), f(b), b - a, area(b) - area(a))
  }

  lemma Glue(lo: real, mid: real, mid': real, hi: real, w1: real, w2: real, a1: real, a2: real)
    requires Rect(lo, mid, w1, a1) && Rect(mid', hi, w2, a2) && mid <= mid'
    ensures Rect(lo, hi, w1 + w2, a1 + a2)
  {
    ProductNonNegative(mid' - lo, w2);
    ProductNonNegative(hi - mid, w1);
  }

  lemma ProductNonNegative(x: real, y: real)
    requires x >= 0.0 && y >= 0.0
    ensures x * y >= 0.0
  {}

  lemma TrapezoidRect(lo: real, hi: real, width: real)
    requires lo <= hi && width >= 0.0
    ensures Rect(lo, hi, width, (hi + lo) / 2.0 * width)
  {
    ProductNonNegative(hi - lo, width);
  }

  lemma {:induction false} PartitionInside(ps: seq<real>, i: nat)
    requires Partition(ps) && i < |ps|
    ensures 0.0 <= ps[i] <= 1.0
  {
    RisesFromZero(ps, i);
    FallsFromOne(ps, i);
  }

  lemma {:induction false} RisesFromZero(ps: seq<real>, i: nat)
    requires Partition(ps) && i < |ps|
    ensures 0.0 <= ps[i]
  {
    if i == 0 {
    } else {
      RisesFromZero(ps, i - 1);
      assert ps[i - 1] <= ps[i - 1 + 1];
    }
  }

  lemma {:induction false} FallsFromOne(ps: seq<real>, i: nat)
    requires Partition(ps) && i < |ps|
    ensures ps[i] <= 1.0
    decreases |ps| - i
  {
    if i >= |ps| - 1 {
    } else {
      FallsFromOne(ps, i + 1);
      assert ps[i] <= ps[i + 1];
    }
  }

  lemma {:induction false} SumsEnclose(f: real -> real, area: real -> real, ps: seq<real>, n: nat)
    requires Partition(ps) && n < |ps|
    requires forall a, b :: 0.0 <= a <= b <= 1.0 ==> Fits(f, area, a, b)
    ensures LeftSum(f, ps, n) <= area(ps[n]) - area(ps[0]) <= RightSum(f, ps, n)
  {
    if n == 0 {
    } else {
      SumsEnclose(f, area, ps, n - 1);
      PartitionInside(ps, n - 1);
      PartitionInside(ps, n);
      assert ps[n - 1] <= ps[n - 1 + 1];
      assert Fits(f, area, ps[n - 1], ps[n]);
    }
  }

  /** An area function whose increments fit f gives the integral of f. */
  lemma AreaIsIntegral(f: real -> real, area: real -> real)
    requires forall a, b :: 0.0 <= a <= b <= 1.0 ==> Fits(f, area, a, b)
    ensures IsIntegral(f, area(1.0) - area(0.0))
  {
    forall ps | Partition(ps)
      ensures LeftSum(f, ps, |ps| - 1) <= area(1.0) - area(0.0) <= RightSum(f, ps, |ps| - 1)
    {
      SumsEnclose(f, area, ps, |ps| - 1);
    }
  }

  // ---------- the integral is one number ----------

  /** The partition of [0, 1] into m equal parts. */
  ghost function Equal(m: nat): seq<real>
    requires m > 0
  {
    seq(m + 1, i => i as real / m as real)
  }

  lemma EqualIsPartition(m: nat)
    requires m > 0
    ensures Partition(Equal(m))
  {
    var ps := Equal(m);
    forall i | 0 <= i < |ps| - 1 ensures ps[i] <= ps[i + 1] {
      EqualStep(m, i);
    }
  }

  lemma EqualStep(m: nat, i: nat)
    requires m > 0 && i < m
    ensures Equal(m)[i + 1] - Equal(m)[i] == 1.0 / m as real
  {
    assert (i + 1) as real == i as real + 1.0;
    assert (i as real + 1.0) / m as real == i as real / m as real + 1.0 / m as real;
  }

  /** Over equal parts the two sums differ by the rise of f, shared out. */
  lemma {:induction false} EqualGap(f: real -> real, m: nat, n: nat)
    requires m > 0 && n <= m
    ensures RightSum(f, Equal(m), n) - LeftSum(f, Equal(m), n) == (f(Equal(m)[n]) - f(Equal(m)[0])) * (1.0 / m as real)
  {
    if n == 0 {
    } else {
      EqualGap(f, m, n - 1);
      EqualStep(m, n - 1);
    }
  }

  lemma EqualGapAll(f: real -> real, m: nat)
    requires m > 0
    ensures RightSum(f, Equal(m), m) - LeftSum(f, Equal(m), m) == (f(1.0) - f(0.0)) / m as real
  {
    EqualGap(f, m, m);
    EqualIsPartition(m);
  }

  lemma Archimedes(rise: real, gap: real) returns (m: nat)
    requires rise >= 0.0 && gap > 0.0
    ensures m > 0 && rise / m as real < gap
  {
    m := (rise / gap).Floor + 1;
    assert m as real > rise / gap;
    assert m as real * gap > rise;
  }

  lemma IntegralUnique(f: real -> real, r: real, s: real)
    requires Rising(f) && IsIntegral(f, r) && IsIntegral(f, s)
    ensures r == s
  {
    if r != s {
      var m := Archimedes(f(1.0) - f(0.0), if r < s then s - r else r - s);
      EqualIsPartition(m);
      EqualGapAll(f, m);
      assert false;
    }
  }
}
