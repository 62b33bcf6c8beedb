/** The inverse-CDF sampler of the large-scale simulation and the closed form for
    its mean. Reals stand for doubles; the uniform draw x is a parameter. */
module Cdf {
  import opened Integral

  datatype Entry = Entry(value: real, cdf: real)

  const TG_CDF_TABLE_ENTRY := 32

  /** Values and cdf are nonnegative and never decrease, and the cdf stays within [0, 1]. */
  ghost predicate Monotone(t: seq<Entry>) {
    && t != []
    && t[0].value >= 0.0 && t[0].cdf >= 0.0 && t[|t| - 1].cdf <= 1.0
    && forall i :: 0 <= i < |t| - 1 ==> t[i].value <= t[i + 1].value && t[i].cdf <= t[i + 1].cdf
  }

  function Interpolate(x: real, x1: real, y1: real, x2: real, y2: real): real {
    if x1 == x2 then (y1 + y2) / 2.0 else y1 + (x - x1) * (y2 - y1) / (x2 - x1)
  }

  /** The corner points of the distribution: the origin, then the entries. */
  function C(t: seq<Entry>, k: nat): real
    requires k <= |t|
  {
    if k == 0 then 0.0 else t[k - 1].cdf
  }

  function V(t: seq<Entry>, k: nat): real
    requires k <= |t|
  {
    if k == 0 then 0.0 else t[k - 1].value
  }

  /** The first entry from i on whose cdf reaches x; |t| if none does. */
  ghost function Segment(t: seq<Entry>, i: nat, x: real): nat
    requires i <= |t|
    ensures i <= Segment(t, i, x) <= |t|
    decreases |t| - i
  {
    if i == |t| || x <= t[i].cdf then i else Segment(t, i + 1, x)
  }

  /** What gen_random_cdf returns for the draw x. */
  ghost function Sample(t: seq<Entry>, x: real): real
    requires t != []
  {
    var i := Segment(t, 0, x);
    if i == |t| then V(t, i) else Interpolate(x, C(t, i), V(t, i), C(t, i + 1), V(t, i + 1))
  }

  /** What the first n rounds of avg_cdf add up. */
  ghost function Area(t: seq<Entry>, n: nat): real
    requires n <= |t|
  {
    if n == 0 then 0.0
    else Area(t, n - 1) + (V(t, n) + V(t, n - 1)) / 2.0 * (C(t, n) - C(t, n - 1))
  }

  lemma {:induction false} SegmentIs(t: seq<Entry>, k: nat, i: nat, x: real)
    requires k <= i <= |t| && (forall j :: k <= j < i ==> t[j].cdf < x) && (i < |t| ==> x <= t[i].cdf)
    ensures Segment(t, k, x) == i
    decreases i - k
  {
    if k == i {
    } else {
      SegmentIs(t, k + 1, i, x);
    }
  }

  /** A draw that the i-th entry is the first to reach is interpolated between the entry
      before (or the origin) and this one; halfway if both have the same cdf. */
  lemma SampleBetween(t: seq<Entry>, i: nat, x: real)
    requires i < |t| && (forall j :: 0 <= j < i ==> t[j].cdf < x) && x <= t[i].cdf
    ensures var left := if i == 0 then Entry(0.0, 0.0) else t[i - 1];
      var width := t[i].cdf - left.cdf;
      if width == 0.0 then 2.0 * Sample(t, x) == left.value + t[i].value
      else (Sample(t, x) - left.value) * width == (x - left.cdf) * (t[i].value - left.value)
  {
    SegmentIs(t, 0, i, x);
    var left := if i == 0 then Entry(0.0, 0.0) else t[i - 1];
    OnTheLine(x, left.cdf, left.value, t[i].cdf, t[i].value);
  }

  lemma OnTheLine(x: real, x1: real, y1: real, x2: real, y2: real)
    ensures var y := Interpolate(x, x1, y1, x2, y2);
      if x2 - x1 == 0.0 then 2.0 * y == y1 + y2 else (y - y1) * (x2 - x1) == (x - x1) * (y2 - y1)
  {
    if x1 != x2 { Divided((x - x1) * (y2 - y1), x2 - x1); }
  }

  lemma Divided(a: real, b: real)
    requires b != 0.0
    ensures a / b * b == a
  {}

  /** A draw that no entry reaches gives the last value; a draw of 0, when the first cdf is
      0, half of the first one. */
  lemma SampleAtEnds(t: seq<Entry>, x: real)
    requires t != []
    ensures (forall j :: 0 <= j < |t| ==> t[j].cdf < x) ==> Sample(t, x) == t[|t| - 1].value
    ensures t[0].cdf == 0.0 && x <= 0.0 ==> Sample(t, x) == t[0].value / 2.0
  {
    if forall j :: 0 <= j < |t| ==> t[j].cdf < x { SegmentIs(t, 0, |t|, x); }
    if t[0].cdf == 0.0 && x <= 0.0 { SampleBetween(t, 0, x); }
  }

  // ---------- one segment ----------

  /** The area between the left end of a segment and x, under the line to height y. */
  ghost function Part(c: real, v: real, x: real, y: real): real {
    (x - c) * (v + y) / 2.0
  }

  lemma LinePart(c: real, v: real, slope: real, a: real, ya: real, b: real, yb: real)
    requires slope >= 0.0 && a <= b
    requires ya == v + (a - c) * slope && yb == v + (b - c) * slope
    ensures Rect(ya, yb, b - a, Part(c, v, b, yb) - Part(c, v, a, ya))
  {
    ProductNonNegative(b - a, slope);
    assert (b - c) * slope == (a - c) * slope + (b - a) * slope;
    var u, w := a - c, b - c;
    assert w * (v + yb) == 2.0 * (w * v) + w * w * slope;
    assert u * (v + ya) == 2.0 * (u * v) + u * u * slope;
    assert (w - u) * (ya + yb) == 2.0 * (w * v) - 2.0 * (u * v) + w * w * slope - u * u * slope;
    TrapezoidRect(ya, yb, b - a);
  }

  lemma SlopeForm(x: real, c: real, v: real, c1: real, v1: real)
    requires c < c1
    ensures Interpolate(x, c, v, c1, v1) == v + (x - c) * ((v1 - v) / (c1 - c))
  {}

  lemma SlopeNonNegative(dy: real, dx: real)
    requires dy >= 0.0 && dx > 0.0
    ensures dy / dx >= 0.0
  {}

  /** On one segment the interpolated line rises and its area fits. */
  lemma SegmentFits(c: real, v: real, c1: real, v1: real, a: real, b: real)
    requires c < c1 && v <= v1 && a <= b
    ensures var ya, yb := Interpolate(a, c, v, c1, v1), Interpolate(b, c, v, c1, v1);
      Rect(ya, yb, b - a, Part(c, v, b, yb) - Part(c, v, a, ya))
  {
    SlopeForm(a, c, v, c1, v1);
    SlopeForm(b, c, v, c1, v1);
    SlopeNonNegative(v1 - v, c1 - c);
    LinePart(c, v, (v1 - v) / (c1 - c), a, Interpolate(a, c, v, c1, v1), b, Interpolate(b, c, v, c1, v1));
  }

  lemma SegmentEnds(c: real, v: real, c1: real, v1: real)
    requires c < c1
    ensures Interpolate(c, c, v, c1, v1) == v && Part(c, v, c, v) == 0.0
    ensures Interpolate(c1, c, v, c1, v1) == v1
    ensures Part(c, v, c1, v1) == (v1 + v) / 2.0 * (c1 - c)
  {
    assert (c1 - c) * (v1 - v) / (c1 - c) == v1 - v;
  }

  // ---------- all segments ----------

  /** The area under the sampler from 0 to x. */
  ghost function AreaTo(t: seq<Entry>, x: real): real
    requires t != []
  {
    var i := Segment(t, 0, x);
    Area(t, i) + Part(C(t, i), V(t, i), x, Sample(t, x))
  }

  lemma CornersRise(t: seq<Entry>, i: nat)
    requires Monotone(t) && i < |t|
    ensures 0.0 <= C(t, i) <= C(t, i + 1) && 0.0 <= V(t, i) <= V(t, i + 1)
  {
    if i > 0 {
      CornersRise(t, i - 1);
      assert t[i - 1].value <= t[i - 1 + 1].value;
    }
  }

  lemma CornerStep(t: seq<Entry>, i: nat)
    requires Monotone(t) && i < |t|
    ensures Rect(V(t, i), V(t, i + 1), C(t, i + 1) - C(t, i), Area(t, i + 1) - Area(t, i))
  {
    CornersRise(t, i);
    AreaStep(t, i);
    OneTrapezoid(V(t, i), V(t, i + 1), C(t, i + 1) - C(t, i), Area(t, i), Area(t, i + 1));
  }

  lemma OneTrapezoid(lo: real, hi: real, width: real, before: real, after: real)
    requires lo <= hi && width >= 0.0 && after == before + (hi + lo) / 2.0 * width
    ensures Rect(lo, hi, width, after - before)
  {
    TrapezoidRect(lo, hi, width);
  }

  lemma {:induction false} CornersFit(t: seq<Entry>, i: nat, j: nat)
    requires Monotone(t) && i <= j <= |t|
    ensures Rect(V(t, i), V(t, j), C(t, j) - C(t, i), Area(t, j) - Area(t, i))
    decreases j - i
  {
    if i == j {
      NoWidth(V(t, i));
    } else {
      CornersFit(t, i, j - 1);
      CornerStep(t, j - 1);
      Glue(V(t, i), V(t, j - 1), V(t, j - 1), V(t, j), C(t, j - 1) - C(t, i), C(t, j) - C(t, j - 1),
           Area(t, j - 1) - Area(t, i), Area(t, j) - Area(t, j - 1));
    }
  }

  lemma NoWidth(v: real)
    ensures Rect(v, v, 0.0, 0.0)
  {}

  lemma {:induction false} SegmentFacts(t: seq<Entry>, i: nat, x: real)
    requires Monotone(t) && i <= |t| && C(t, i) <= x
    ensures var j := Segment(t, i, x);
      && (j > i ==> C(t, j) < x)
      && C(t, j) <= x && (j < |t| ==> x <= C(t, j + 1))
    decreases |t| - i
  {
    if i == |t| || x <= t[i].cdf {
    } else {
      SegmentFacts(t, i + 1, x);
    }
  }

  lemma {:induction false} SegmentMonotone(t: seq<Entry>, i: nat, a: real, b: real)
    requires i <= |t| && a <= b
    ensures Segment(t, i, a) <= Segment(t, i, b)
    decreases |t| - i
  {
    if i == |t| || a <= t[i].cdf {
    } else {
      SegmentMonotone(t, i + 1, a, b);
    }
  }

  /** x lies in segment i, where the sampler has height y and area sum is reached. */
  ghost predicate At(t: seq<Entry>, i: nat, x: real, y: real, sum: real) {
    && i <= |t|
    && Rect(V(t, i), y, x - C(t, i), sum - Area(t, i))
    && (i < |t| ==> Rect(y, V(t, i + 1), C(t, i + 1) - x, Area(t, i + 1) - sum))
  }

  lemma SegmentRects(c: real, v: real, c1: real, v1: real, x: real)
    requires c < c1 && v <= v1 && c <= x <= c1
    ensures var y := Interpolate(x, c, v, c1, v1);
      && Rect(v, y, x - c, Part(c, v, x, y))
      && Rect(y, v1, c1 - x, (v1 + v) / 2.0 * (c1 - c) - Part(c, v, x, y))
  {
    SegmentEnds(c, v, c1, v1);
    SegmentFits(c, v, c1, v1, c, x);
    SegmentFits(c, v, c1, v1, x, c1);
  }

  lemma AtProper(t: seq<Entry>, i: nat, x: real)
    requires Monotone(t) && i < |t| && C(t, i) < C(t, i + 1) && C(t, i) <= x <= C(t, i + 1)
    ensures var y := Interpolate(x, C(t, i), V(t, i), C(t, i + 1), V(t, i + 1));
      At(t, i, x, y, Area(t, i) + Part(C(t, i), V(t, i), x, y))
  {
    CornersRise(t, i);
    var y, part := LineAt(C(t, i), V(t, i), C(t, i + 1), V(t, i + 1), x);
    AtFromRects(t, i, x, y, part);
  }

  /** The height of the line at x, and the area to the left of x. */
  lemma LineAt(c: real, v: real, c1: real, v1: real, x: real) returns (y: real, part: real)
    requires c < c1 && v <= v1 && c <= x <= c1
    ensures y == Interpolate(x, c, v, c1, v1) && part == Part(c, v, x, y)
    ensures Rect(v, y, x - c, part)
    ensures Rect(y, v1, c1 - x, (v1 + v) / 2.0 * (c1 - c) - part)
  {
    y := Interpolate(x, c, v, c1, v1);
    part := Part(c, v, x, y);
    SegmentRects(c, v, c1, v1, x);
  }

  lemma AtFromRects(t: seq<Entry>, i: nat, x: real, y: real, part: real)
    requires i < |t|
    requires Rect(V(t, i), y, x - C(t, i), part)
    requires Rect(y, V(t, i + 1), C(t, i + 1) - x, (V(t, i + 1) + V(t, i)) / 2.0 * (C(t, i + 1) - C(t, i)) - part)
    ensures At(t, i, x, y, Area(t, i) + part)
  {
    AreaStep(t, i);
  }

  lemma AreaStep(t: seq<Entry>, i: nat)
    requires i < |t|
    ensures Area(t, i + 1) == Area(t, i) + (V(t, i + 1) + V(t, i)) / 2.0 * (C(t, i + 1) - C(t, i))
  {}

  lemma PartFlat(c: real, v: real, x: real)
    ensures Part(c, v, x, v) == v * (x - c) && Part(c, v, c, x) == 0.0
  {}

  lemma SampleAt(t: seq<Entry>, x: real)
    requires Monotone(t) && 0.0 <= x
    ensures At(t, Segment(t, 0, x), x, Sample(t, x), AreaTo(t, x))
  {
    var i := Segment(t, 0, x);
    SegmentFacts(t, 0, x);
    PartFlat(C(t, i), V(t, i), x);
    if i < |t| {
      CornersRise(t, i);
      if C(t, i) < C(t, i + 1) {
        AtProper(t, i, x);
      } else {
        AtDegenerate(t, x);
      }
    }
  }

  /** A first entry with cdf 0: only the draw 0 falls on it. */
  lemma AtDegenerate(t: seq<Entry>, x: real)
    requires Monotone(t) && 0.0 <= x && Segment(t, 0, x) < |t|
    requires C(t, Segment(t, 0, x)) == C(t, Segment(t, 0, x) + 1)
    ensures Segment(t, 0, x) == 0 && x == 0.0
    ensures At(t, 0, x, Sample(t, x), AreaTo(t, x))
  {
    SegmentFacts(t, 0, x);
    PartFlat(0.0, 0.0, Sample(t, x));
  }

  lemma AcrossSegments(t: seq<Entry>, i: nat, a: real, ya: real, sa: real, j: nat, b: real, yb: real, sb: real)
    requires Monotone(t) && At(t, i, a, ya, sa) && At(t, j, b, yb, sb) && i < j
    ensures Rect(ya, yb, b - a, sb - sa)
  {
    CornersFit(t, i + 1, j);
    Glue(ya, V(t, i + 1), V(t, i + 1), V(t, j), C(t, i + 1) - a, C(t, j) - C(t, i + 1),
         Area(t, i + 1) - sa, Area(t, j) - Area(t, i + 1));
    Glue(ya, V(t, j), V(t, j), yb, C(t, j) - a, b - C(t, j), Area(t, j) - sa, sb - Area(t, j));
  }

  lemma WithinSegment(t: seq<Entry>, a: real, b: real)
    requires Monotone(t) && 0.0 <= a <= b && Segment(t, 0, a) == Segment(t, 0, b)
    ensures Rect(Sample(t, a), Sample(t, b), b - a, AreaTo(t, b) - AreaTo(t, a))
  {
    var i := Segment(t, 0, a);
    SegmentFacts(t, 0, a);
    SegmentFacts(t, 0, b);
    if i == |t| {
      FlatTail(C(t, i), V(t, i), a, b);
    } else {
      CornersRise(t, i);
      if C(t, i) < C(t, i + 1) {
        SegmentFits(C(t, i), V(t, i), C(t, i + 1), V(t, i + 1), a, b);
      }
    }
  }

  lemma FlatTail(c: real, v: real, a: real, b: real)
    requires a <= b
    ensures Rect(v, v, b - a, Part(c, v, b, v) - Part(c, v, a, v))
  {}

  /** The sampler is monotone, across segments too, and the area over [a, b] lies
      between the rectangles of its two end heights. */
  lemma AreaBetween(t: seq<Entry>, a: real, b: real)
    requires Monotone(t) && 0.0 <= a <= b
    ensures Rect(Sample(t, a), Sample(t, b), b - a, AreaTo(t, b) - AreaTo(t, a))
  {
    SegmentMonotone(t, 0, a, b);
    var i, j := Segment(t, 0, a), Segment(t, 0, b);
    if i == j {
      WithinSegment(t, a, b);
    } else {
      SampleAt(t, a);
      SampleAt(t, b);
      AcrossSegments(t, i, a, Sample(t, a), AreaTo(t, a), j, b, Sample(t, b), AreaTo(t, b));
    }
  }

  // ---------- the mean ----------

  ghost function Sampler(t: seq<Entry>): real -> real
    requires t != []
  {
    x => Sample(t, x)
  }

  ghost function WithTail(area: real, c: real, v: real): real {
    area + (1.0 - c) * v
  }

  /** avg_cdf, plus the last value for the draws that no entry reaches. */
  ghost function Mean(t: seq<Entry>): real
    requires t != []
  {
    WithTail(Area(t, |t|), C(t, |t|), V(t, |t|))
  }

  lemma AreaToZero(t: seq<Entry>)
    requires Monotone(t)
    ensures AreaTo(t, 0.0) == 0.0
  {
    SegmentFacts(t, 0, 0.0);
  }

  lemma AreaToOne(t: seq<Entry>)
    requires Monotone(t)
    ensures AreaTo(t, 1.0) == Mean(t)
  {
    var i := Segment(t, 0, 1.0);
    SegmentFacts(t, 0, 1.0);
    if i < |t| {
      SampleAt(t, 1.0);
      CdfEndsAtOne(t, i + 1);
      NothingAfterOne(t, i + 1, Sample(t, 1.0), AreaTo(t, 1.0));
    } else {
      PartFlat(C(t, i), V(t, i), 1.0);
    }
  }

  lemma CdfEndsAtOne(t: seq<Entry>, k: nat)
    requires Monotone(t) && k <= |t| && C(t, k) >= 1.0
    ensures C(t, k) == 1.0 && C(t, |t|) == 1.0
  {
    CornersClimb(t, k, |t|);
  }

  lemma {:induction false} CornersClimb(t: seq<Entry>, i: nat, j: nat)
    requires Monotone(t) && i <= j <= |t|
    ensures C(t, i) <= C(t, j)
    decreases j - i
  {
    if i == j {
    } else {
      CornersClimb(t, i, j - 1);
      CornersRise(t, j - 1);
    }
  }

  lemma NothingAfterOne(t: seq<Entry>, k: nat, y: real, sum: real)
    requires Monotone(t) && k <= |t| && C(t, k) == 1.0 && C(t, |t|) == 1.0
    requires Rect(y, V(t, k), 0.0, Area(t, k) - sum)
    ensures sum == Mean(t)
  {
    CornersFit(t, k, |t|);
    NothingLeft(y, V(t, k), Area(t, k) - sum);
    NothingLeft(V(t, k), V(t, |t|), Area(t, |t|) - Area(t, k));
  }

  lemma NothingLeft(lo: real, hi: real, area: real)
    requires Rect(lo, hi, 0.0, area)
    ensures area == 0.0
  {}

  /** The sampler rises, and its mean over a uniform draw from [0, 1] is Mean(t). */
  lemma MeanOfSampler(t: seq<Entry>)
    requires Monotone(t)
    ensures Rising(Sampler(t)) && IsIntegral(Sampler(t), Mean(t))
  {
    var f := Sampler(t);
    var area := x => AreaTo(t, x);
    forall a, b | 0.0 <= a <= b <= 1.0 ensures Fits(f, area, a, b) {
      AreaBetween(t, a, b);
    }
    forall a, b | 0.0 <= a <= b <= 1.0 ensures f(a) <= f(b) {
      assert Fits(f, area, a, b);
    }
    AreaIsIntegral(f, area);
    AreaToZero(t);
    AreaToOne(t);
  }

  lemma MeanIsUnique(t: seq<Entry>, r: real)
    requires Monotone(t)
    ensures IsIntegral(Sampler(t), r) <==> r == Mean(t)
  {
    MeanOfSampler(t);
    if IsIntegral(Sampler(t), r) { IntegralUnique(Sampler(t), r, Mean(t)); }
  }

  lemma TailMatters(area: real, c: real, v: real)
    ensures area == WithTail(area, c, v) <==> c == 1.0 || v == 0.0
  {
    var d := 1.0 - c;
    if d != 0.0 && v != 0.0 { assert d * v != 0.0; }
  }

  /** avg_cdf's closed form is the mean exactly when the last cdf is 1 (or the
      last value is 0, so that the draws beyond it count for nothing). */
  lemma AreaIsMeanIff(t: seq<Entry>)
    requires Monotone(t)
    ensures IsIntegral(Sampler(t), Area(t, |t|)) <==> t[|t| - 1].cdf == 1.0 || t[|t| - 1].value == 0.0
  {
    MeanIsUnique(t, Area(t, |t|));
    TailMatters(Area(t, |t|), C(t, |t|), V(t, |t|));
  }

  /** Half of the draws return 10, which the closed form leaves out: it gives 2.5,
      and the mean is 7.5. */
  lemma AreaIsNotMean()
    ensures var t := [Entry(10.0, 0.5)];
      Monotone(t) && Area(t, 1) == 2.5 && IsIntegral(Sampler(t), 7.5) && !IsIntegral(Sampler(t), Area(t, 1))
  {
    var t := [Entry(10.0, 0.5)];
    assert Area(t, 1) == Area(t, 0) + (10.0 + 0.0) / 2.0 * (0.5 - 0.0);
    MeanOfSampler(t);
    AreaIsMeanIff(t);
  }

  // ---------- the table, updated in place ----------

  ghost function Least(m: real, lines: seq<Entry>): real {
    if lines == [] then m
    else
      var rest := Least(m, lines[..|lines| - 1]);
      if rest > lines[|lines| - 1].cdf then lines[|lines| - 1].cdf else rest
  }

  ghost function Greatest(m: real, lines: seq<Entry>): real {
    if lines == [] then m
    else
      var rest := Greatest(m, lines[..|lines| - 1]);
      if rest < lines[|lines| - 1].cdf then lines[|lines| - 1].cdf else rest
  }

  /** The limits are reached, and nothing lies outside of them. */
  lemma {:induction false} LimitsAre(m: real, lines: seq<Entry>)
    ensures Least(m, lines) <= m <= Greatest(m, lines)
    ensures forall i :: 0 <= i < |lines| ==> Least(m, lines) <= lines[i].cdf <= Greatest(m, lines)
    ensures Least(m, lines) == m || exists i :: 0 <= i < |lines| && Least(m, lines) == lines[i].cdf
    ensures Greatest(m, lines) == m || exists i :: 0 <= i < |lines| && Greatest(m, lines) == lines[i].cdf
  {
    if lines == [] {
    } else {
      var front := lines[..|lines| - 1];
      LimitsAre(m, front);
      assert forall i :: 0 <= i < |front| ==> front[i] == lines[i];
    }
  }

  /** For a proper distribution the draws are taken from [0, 1], no more and no less. */
  lemma {:induction false} DrawsFromUnitInterval(t: seq<Entry>)
    requires forall i :: 0 <= i < |t| ==> 0.0 <= t[i].cdf <= 1.0
    ensures Least(0.0, t) == 0.0 && Greatest(1.0, t) == 1.0
  {
    if t == [] {
    } else {
      DrawsFromUnitInterval(t[..|t| - 1]);
    }
  }

  class CdfTable {
    var entries: array<Entry>
    var numEntry: nat
    var maxEntry: nat
    var minCdf: real
    var maxCdf: real

    ghost predicate Valid()
      reads this
    {
      numEntry <= maxEntry == entries.Length && maxEntry > 0
    }

    ghost function Contents(): seq<Entry>
      reads this, entries
      requires Valid()
    {
      entries[..numEntry]
    }

    /** init_cdf */
    constructor ()
      ensures Valid() && fresh(entries) && Contents() == []
      ensures maxEntry == TG_CDF_TABLE_ENTRY && minCdf == 0.0 && maxCdf == 1.0
    {
      entries := new Entry[TG_CDF_TABLE_ENTRY](_ => Entry(0.0, 0.0));
      numEntry := 0;
      maxEntry := TG_CDF_TABLE_ENTRY;
      minCdf := 0.0;
      maxCdf := 1.0;
    }

    /** The resizing step of load_cdf: twice the room, the same entries. */
    method Resize()
      requires Valid()
      modifies this`entries, this`maxEntry
      ensures Valid() && fresh(entries) && Contents() == old(Contents())
      ensures maxEntry == 2 * old(maxEntry)
    {
      maxEntry := maxEntry * 2;
      var e := new Entry[maxEntry](_ => Entry(0.0, 0.0));
      for i := 0 to numEntry
        invariant e[..i] == entries[..i]
        modifies e
      {
        e[i] := entries[i];
      }
      entries := e;
    }

    /** load_cdf, given the pairs scanned from the lines of the file. */
    method Load(lines: seq<Entry>)
      requires Valid()
      modifies this, entries
      ensures Valid() && (entries == old(entries) || fresh(entries))
      ensures Contents() == old(Contents()) + lines
      ensures minCdf == Least(old(minCdf), lines) && maxCdf == Greatest(old(maxCdf), lines)
    {
      for k := 0 to |lines|
        invariant Valid() && (entries == old(entries) || fresh(entries))
        invariant Contents() == old(Contents()) + lines[..k]
        invariant minCdf == Least(old(minCdf), lines[..k]) && maxCdf == Greatest(old(maxCdf), lines[..k])
      {
        assert lines[..k + 1][..k] == lines[..k];
        Store(lines[k]);
      }
      assert lines[..|lines|] == lines;
    }

    /** One round of load_cdf. */
    method Store(e: Entry)
      requires Valid()
      modifies this, entries
      ensures Valid() && (entries == old(entries) || fresh(entries))
      ensures Contents() == old(Contents()) + [e]
      ensures minCdf == (if e.cdf < old(minCdf) then e.cdf else old(minCdf))
      ensures maxCdf == (if e.cdf > old(maxCdf) then e.cdf else old(maxCdf))
    {
      if numEntry >= maxEntry {
        Resize();
      }
      entries[numEntry] := e;
      if minCdf > entries[numEntry].cdf {
        minCdf := entries[numEntry].cdf;
      }
      if maxCdf < entries[numEntry].cdf {
        maxCdf := entries[numEntry].cdf;
      }
      numEntry := numEntry + 1;
    }

    /** avg_cdf */
    method Avg() returns (avg: real)
      requires Valid()
      ensures avg == Area(Contents(), numEntry)
      ensures Monotone(Contents()) ==>
        (IsIntegral(Sampler(Contents()), avg) <==>
           Contents()[numEntry - 1].cdf == 1.0 || Contents()[numEntry - 1].value == 0.0)
    {
      ghost var t := Contents();
      avg := 0.0;
      var i := 0;
      while i < numEntry
        invariant 0 <= i <= numEntry && avg == Area(t, i)
      {
        assert entries[i] == t[i];
        var value, prob;
        if i == 0 {
          value := entries[i].value / 2.0;
          prob := entries[i].cdf;
        } else {
          assert entries[i - 1] == t[i - 1];
          value := (entries[i].value + entries[i - 1].value) / 2.0;
          prob := entries[i].cdf - entries[i - 1].cdf;
        }
        avg := avg + value * prob;
        i := i + 1;
      }
      if Monotone(t) { AreaIsMeanIff(t); }
    }

    /** gen_random_cdf for the draw x; an empty table would be read out of bounds. */
    method GenRandom(x: real) returns (r: real)
      requires Valid() && numEntry > 0
      ensures r == Sample(Contents(), x)
    {
      ghost var t := Contents();
      var i := 0;
      while i < numEntry
        invariant 0 <= i <= numEntry && Segment(t, 0, x) == Segment(t, i, x)
      {
        assert entries[i] == t[i];
        if x <= entries[i].cdf {
          if i == 0 {
            return Interpolate(x, 0.0, 0.0, entries[i].cdf, entries[i].value);
          } else {
            assert entries[i - 1] == t[i - 1];
            return Interpolate(x, entries[i - 1].cdf, entries[i - 1].value, entries[i].cdf, entries[i].value);
          }
        }
        i := i + 1;
      }
      return entries[numEntry - 1].value;
    }
  }
}
