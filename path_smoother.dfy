/**
  Turning a grid path into the drawn route: line-of-sight sampling
  (`isLineWalkable`), look-ahead smoothing (`smoothPath`) and the curve
  segments of the SVG path (`createSmoothSvgPath`).
*/
module PathSmoother {
  import opened Geometry
  import opened Layout

  // ---------------------------------------------------------------------------
  // Line of sight

  /** The number of half-grid steps between the samples, rounded down: max(|dx|, |dy|) / (g / 2). */
  function StepCount(g: int, a: Point, b: Point): (n: nat)
    requires g > 0
    ensures n * g <= 2 * Max(Abs(b.x - a.x), Abs(b.y - a.y)) < (n + 1) * g
  {
    (2 * Max(Abs(b.x - a.x), Abs(b.y - a.y))) / g
  }

  /** The unrounded step count `steps`. */
  function Steps(g: int, a: Point, b: Point): real
    requires g > 0
  {
    (2 * Max(Abs(b.x - a.x), Abs(b.y - a.y))) as real / g as real
  }

  /** The coordinate `t` of the way from `u` to `v`. */
  function Lerp(u: real, v: real, t: real): real {
    u + (v - u) * t
  }

  /** Sample `i` of the line from `a` to `b`: `a + (b - a) * (i / steps)`. */
  function Sample(g: int, a: Point, b: Point, i: nat): RPoint
    requires g > 0 && a != b
  {
    var t := i as real / Steps(g, a, b);
    RPoint(Lerp(a.x as real, b.x as real, t), Lerp(a.y as real, b.y as real, t))
  }

  /**
    The line from `a` to `b` is walkable: every sample `i = 0, 1, ...` up to
    `steps` lies in a corridor. Departments are not consulted. When `a == b`
    the only sample is 0/0, which lies in no corridor, so the line is not
    walkable.
  */
  ghost predicate LineWalkable(layout: StoreLayout, a: Point, b: Point)
    requires layout.gridSize > 0
  {
    a != b && forall i: nat | i <= StepCount(layout.gridSize, a, b) ::
      IsWalkable(layout, Sample(layout.gridSize, a, b, i).x, Sample(layout.gridSize, a, b, i).y)
  }

  lemma MulLe(a: real, b: real, c: real)
    requires c > 0.0
    ensures a <= b <==> a * c <= b * c
  {
  }

  lemma MulLeInt(a: int, b: int, c: nat)
    requires a <= b
    ensures a * c <= b * c
  {
  }

  lemma RealDivBound(i: int, m: int, g: int)
    requires g > 0
    ensures (i as real <= m as real / g as real) <==> i * g <= m
  {
    var q := m as real / g as real;
    assert q * g as real == m as real;
    MulLe(i as real, q, g as real);
    assert (i * g) as real == i as real * g as real;
  }

  lemma IntDivBound(i: int, m: int, g: int)
    requires g > 0
    ensures i <= m / g <==> i * g <= m
  {
    var n := m / g;
    assert n * g <= m < (n + 1) * g;
    if i <= n {
      MulLeInt(i, n, g);
    } else {
      MulLeInt(n + 1, i, g);
    }
  }

  /** `i <= steps` exactly when `i` is at most the rounded-down step count. */
  lemma StepBound(g: int, a: Point, b: Point, i: nat)
    requires g > 0
    ensures (i as real <= Steps(g, a, b)) <==> i <= StepCount(g, a, b)
  {
    var m := 2 * Max(Abs(b.x - a.x), Abs(b.y - a.y));
    RealDivBound(i, m, g);
    IntDivBound(i, m, g);
  }

  /** `isLineWalkable`: samples the line at half-grid steps and stops at the first sample off the corridors. */
  method IsLineWalkable(layout: StoreLayout, a: Point, b: Point) returns (walkable: bool)
    requires layout.gridSize > 0
    ensures walkable == LineWalkable(layout, a, b)
  {
    var g := layout.gridSize;
    var steps := (2 * Max(Abs(b.x - a.x), Abs(b.y - a.y))) as real / g as real;
    if steps == 0.0 {
      // The only sample is 0/0: not a number, inside no corridor.
      return false;
    }
    assert a != b;
    var i: nat := 0;
    while i as real <= steps
      invariant steps == Steps(g, a, b)
      invariant forall k: nat | k < i :: IsWalkable(layout, Sample(g, a, b, k).x, Sample(g, a, b, k).y)
      invariant i <= StepCount(g, a, b) + 1
      decreases StepCount(g, a, b) + 1 - i
    {
      StepBound(g, a, b, i);
      var p := Sample(g, a, b, i);
      if !IsWalkable(layout, p.x, p.y) {
        return false;
      }
      i := i + 1;
    }
    StepBound(g, a, b, i);
    return true;
  }

  /** The first sample is the start point, so a walkable line starts in a corridor. */
  lemma LineWalkableStartsWalkable(layout: StoreLayout, a: Point, b: Point)
    requires layout.gridSize > 0
    ensures LineWalkable(layout, a, b) ==> Walkable(layout, a)
  {
    if LineWalkable(layout, a, b) {
      assert Sample(layout.gridSize, a, b, 0) == ToReal(a);
    }
  }

  /** Every sample lies on the segment: between the endpoints on both axes. */
  lemma SampleOnSegment(g: int, a: Point, b: Point, i: nat)
    requires g > 0 && a != b && i <= StepCount(g, a, b)
    ensures var s := Sample(g, a, b, i);
      && RMin(a.x as real, b.x as real) <= s.x <= RMax(a.x as real, b.x as real)
      && RMin(a.y as real, b.y as real) <= s.y <= RMax(a.y as real, b.y as real)
  {
    StepBound(g, a, b, i);
    var steps := Steps(g, a, b);
    StepsPositive(g, a, b);
    var t := i as real / steps;
    FractionInUnit(i as real, steps);
    LerpBetween(a.x as real, b.x as real, t);
    LerpBetween(a.y as real, b.y as real, t);
  }

  /** Distinct end points are at least one half-grid step apart. */
  lemma StepsPositive(g: int, a: Point, b: Point)
    requires g > 0 && a != b
    ensures Steps(g, a, b) > 0.0
  {
    assert Max(Abs(b.x - a.x), Abs(b.y - a.y)) > 0;
  }

  lemma FractionInUnit(n: real, d: real)
    requires d > 0.0 && 0.0 <= n <= d
    ensures 0.0 <= n / d <= 1.0
  {
    assert n / d * d == n;
  }

  /** A point `t` of the way from `u` to `v`, for `t` in `[0, 1]`, lies between them. */
  lemma LerpBetween(u: real, v: real, t: real)
    requires 0.0 <= t <= 1.0
    ensures RMin(u, v) <= Lerp(u, v, t) <= RMax(u, v)
  {
    var w := (v - u) * t;
    ScaledBetween(v - u, t);
    assert Lerp(u, v, t) == u + w;
    if u < v {
      assert 0.0 <= w <= v - u;
    } else {
      assert v - u <= w <= 0.0;
    }
  }

  /** Scaling by a factor in `[0, 1]` moves a length towards zero without crossing it. */
  lemma ScaledBetween(d: real, t: real)
    requires 0.0 <= t <= 1.0
    ensures d >= 0.0 ==> 0.0 <= d * t <= d
    ensures d < 0.0 ==> d <= d * t <= 0.0
  {
    ScaledDown(d, t);
    ScaledDown(-d, t);
    NegatedProduct(d, t);
  }

  lemma NegatedProduct(d: real, t: real)
    ensures (-d) * t == -(d * t)
  {
  }

  lemma ScaledDown(d: real, t: real)
    requires 0.0 <= t <= 1.0
    ensures d >= 0.0 ==> 0.0 <= d * t <= d
  {
    if d >= 0.0 {
      assert d * t <= d * 1.0;
    }
  }

  /**
    Line of sight ignores departments: along the top cross aisle from (140,80)
    to (200,80) every sample is in a corridor although (150,80) lies inside
    Bakery.
  */
  lemma LineThroughBakeryIsWalkable()
    ensures LineWalkable(Shipped(), Point(140, 80), Point(200, 80))
    ensures InDepartment(Shipped(), Point(150, 80))
  {
    var layout := Shipped();
    var a, b := Point(140, 80), Point(200, 80);
    assert StepCount(15, a, b) == 8;
    forall i: nat | i <= 8 ensures IsWalkable(layout, Sample(15, a, b, i).x, Sample(15, a, b, i).y) {
      SampleOnSegment(15, a, b, i);
      assert InRect(layout.walkablePaths[3], Sample(15, a, b, i).x, Sample(15, a, b, i).y);
    }
    assert InRect(layout.departments[1].sections[0], 150.0, 80.0);
  }

  // ---------------------------------------------------------------------------
  // Smoothing

  /**
    The furthest index `i` in `[cur + 2, hi)` whose point is in line of sight
    of `path[cur]`, or `cur + 1` when there is none.
  */
  ghost function Furthest(layout: StoreLayout, path: seq<Point>, cur: nat, hi: nat): (f: nat)
    requires layout.gridSize > 0 && cur + 1 < hi <= |path|
    ensures cur < f < hi
    ensures f == cur + 1 || LineWalkable(layout, path[cur], path[f])
    ensures forall i | f < i < hi && cur + 2 <= i :: !LineWalkable(layout, path[cur], path[i])
    decreases hi
  {
    if hi <= cur + 2 then cur + 1
    else if LineWalkable(layout, path[cur], path[hi - 1]) then hi - 1
    else Furthest(layout, path, cur, hi - 1)
  }

  /** The indices the smoothing keeps after `cur`. */
  ghost function KeptAfter(layout: StoreLayout, path: seq<Point>, cur: nat): (r: seq<nat>)
    requires layout.gridSize > 0 && cur < |path|
    ensures forall k | 0 <= k < |r| :: cur < r[k] < |path|
    decreases |path| - cur
  {
    if cur >= |path| - 1 then []
    else
      var f := Furthest(layout, path, cur, |path|);
      [f] + KeptAfter(layout, path, f)
  }

  /** The indices `smoothPath` keeps: all of them for two points or fewer. */
  ghost function KeptIndices(layout: StoreLayout, path: seq<Point>): (r: seq<nat>)
    requires layout.gridSize > 0
    ensures forall k | 0 <= k < |r| :: r[k] < |path|
  {
    if |path| <= 2 then seq(|path|, k => k) else [0] + KeptAfter(layout, path, 0)
  }

  function Pick(path: seq<Point>, idx: seq<nat>): (r: seq<Point>)
    requires forall k | 0 <= k < |idx| :: idx[k] < |path|
    ensures |r| == |idx| && forall k | 0 <= k < |idx| :: r[k] == path[idx[k]]
  {
    if |idx| == 0 then [] else [path[idx[0]]] + Pick(path, idx[1..])
  }

  ghost function Smoothed(layout: StoreLayout, path: seq<Point>): seq<Point>
    requires layout.gridSize > 0
  {
    Pick(path, KeptIndices(layout, path))
  }

  predicate Increasing(r: seq<nat>) {
    forall i, j | 0 <= i < j < |r| :: r[i] < r[j]
  }

  /**
    From `cur`, the kept indices rise strictly, each is the furthest point in
    line of sight of the one before, and the last is the final index.
  */
  lemma {:induction false} KeptAfterShape(layout: StoreLayout, path: seq<Point>, cur: nat)
    requires layout.gridSize > 0 && cur < |path| - 1
    ensures var r := KeptAfter(layout, path, cur);
      && |r| >= 1
      && r[0] == Furthest(layout, path, cur, |path|)
      && r[|r| - 1] == |path| - 1
      && Increasing(r)
      && (forall k | 1 <= k < |r| :: r[k] == Furthest(layout, path, r[k - 1], |path|))
    decreases |path| - cur
  {
    var f := Furthest(layout, path, cur, |path|);
    if f < |path| - 1 {
      KeptAfterShape(layout, path, f);
    }
  }

  /**
    The smoothing contract: paths of two points or fewer are kept whole;
    otherwise the kept indices start at 0, end at the last index and rise
    strictly, and each is `Furthest` from the one before it: the furthest
    later point in line of sight, or the next point when there is none.
  */
  lemma SmoothedShape(layout: StoreLayout, path: seq<Point>)
    requires layout.gridSize > 0
    ensures |path| <= 2 ==> Smoothed(layout, path) == path
    ensures var idx := KeptIndices(layout, path);
      && (|path| >= 1 ==> |idx| >= 1 && idx[0] == 0 && idx[|idx| - 1] == |path| - 1)
      && Increasing(idx)
      && (|path| > 2 ==> forall k | 1 <= k < |idx| :: idx[k] == Furthest(layout, path, idx[k - 1], |path|))
  {
    if |path| <= 2 {
      assert Smoothed(layout, path) == path;
    } else {
      KeptAfterShape(layout, path, 0);
      var idx := KeptIndices(layout, path);
      var rest := KeptAfter(layout, path, 0);
      assert forall k | 1 <= k < |idx| :: idx[k] == rest[k - 1];
    }
  }

  /** Smoothing keeps the first and the last point. */
  lemma SmoothedEnds(layout: StoreLayout, path: seq<Point>)
    requires layout.gridSize > 0 && |path| >= 1
    ensures var s := Smoothed(layout, path);
      |s| >= 1 && s[0] == path[0] && s[|s| - 1] == path[|path| - 1]
  {
    var idx := KeptIndices(layout, path);
    if |path| > 2 {
      KeptAfterShape(layout, path, 0);
      assert idx[|idx| - 1] == |path| - 1;
    }
  }

  /**
    Each hop of the smoothed path joins two points in line of sight, or two
    points that were neighbours in the input.
  */
  lemma SmoothedHops(layout: StoreLayout, path: seq<Point>)
    requires layout.gridSize > 0
    ensures var idx := KeptIndices(layout, path);
      forall k | 1 <= k < |idx| ::
        idx[k] == idx[k - 1] + 1 || LineWalkable(layout, Smoothed(layout, path)[k - 1], Smoothed(layout, path)[k])
  {
    SmoothedShape(layout, path);
  }

  /** The look-ahead of `smoothPath`: scans `current + 2 ..` and keeps the last index in line of sight. */
  method LookAhead(layout: StoreLayout, path: seq<Point>, current: nat) returns (furthest: nat)
    requires layout.gridSize > 0 && current + 1 < |path|
    ensures furthest == Furthest(layout, path, current, |path|)
  {
    furthest := current + 1;
    var i := current + 2;
    while i < |path|
      invariant current + 2 <= i <= |path|
      invariant furthest == Furthest(layout, path, current, i)
    {
      var visible := IsLineWalkable(layout, path[current], path[i]);
      if visible {
        furthest := i;
      }
      i := i + 1;
    }
  }

  /** `smoothPath`: from each kept point, jump to the furthest point in line of sight. */
  method SmoothPath(layout: StoreLayout, path: seq<Point>) returns (smoothed: seq<Point>)
    requires layout.gridSize > 0
    ensures smoothed == Smoothed(layout, path)
  {
    if |path| <= 2 {
      return path;
    }
    smoothed := [path[0]];
    var current := 0;
    while current < |path| - 1
      invariant 0 <= current < |path|
      invariant smoothed + Pick(path, KeptAfter(layout, path, current)) == Smoothed(layout, path)
      decreases |path| - current
    {
      var furthest := LookAhead(layout, path, current);
      assert KeptAfter(layout, path, current) == [furthest] + KeptAfter(layout, path, furthest);
      smoothed := smoothed + [path[furthest]];
      current := furthest;
    }
  }

  // ---------------------------------------------------------------------------
  // Curve segments

  /** One command of the SVG path: `M x,y`, `L x,y` or `C c1x,c1y c2x,c2y x,y`. */
  datatype Segment = MoveTo(end: RPoint) | LineTo(end: RPoint) | CurveTo(c1: RPoint, c2: RPoint, end: RPoint)

  /**
    `seg` is a cubic curve ending at `p2` whose control points sit
    symmetrically about `p1`, their difference being a third of `p2 - p0`:
    the curve leaves `p1` parallel to the chord from `p0` to `p2`.
  */
  predicate CurveThrough(p0: Point, p1: Point, p2: Point, seg: Segment) {
    && seg.CurveTo?
    && seg.end == ToReal(p2)
    && seg.c1.x + seg.c2.x == 2.0 * p1.x as real
    && seg.c1.y + seg.c2.y == 2.0 * p1.y as real
    && seg.c2.x - seg.c1.x == (p2.x - p0.x) as real / 3.0
    && seg.c2.y - seg.c1.y == (p2.y - p0.y) as real / 3.0
  }

  /**
    `createSmoothSvgPath`: nothing for fewer than two points; a move and a
    line for two; otherwise a move to the first point and, for every interior
    point, one cubic curve through it to the next point.
  */
  method CreateSmoothSvgPath(points: seq<Point>) returns (path: seq<Segment>)
    ensures |points| < 2 ==> path == []
    ensures |points| == 2 ==> path == [MoveTo(ToReal(points[0])), LineTo(ToReal(points[1]))]
    ensures |points| >= 3 ==>
      && |path| == |points| - 1
      && path[0] == MoveTo(ToReal(points[0]))
      && forall i | 1 <= i < |points| - 1 :: CurveThrough(points[i - 1], points[i], points[i + 1], path[i])
    ensures |points| >= 2 ==>
      |path| >= 2 && path[0] == MoveTo(ToReal(points[0])) && path[|path| - 1].end == ToReal(points[|points| - 1])
  {
    if |points| < 2 {
      return [];
    }
    if |points| == 2 {
      return [MoveTo(ToReal(points[0])), LineTo(ToReal(points[1]))];
    }
    path := [MoveTo(ToReal(points[0]))];
    var i := 1;
    while i < |points| - 1
      invariant 1 <= i <= |points| - 1
      invariant |path| == i && path[0] == MoveTo(ToReal(points[0]))
      invariant forall j | 1 <= j < i :: CurveThrough(points[j - 1], points[j], points[j + 1], path[j])
    {
      var p0, p1, p2 := ToReal(points[i - 1]), ToReal(points[i]), ToReal(points[i + 1]);
      var cp1 := RPoint(p1.x - (p2.x - p0.x) / 6.0, p1.y - (p2.y - p0.y) / 6.0);
      var cp2 := RPoint(p1.x + (p2.x - p0.x) / 6.0, p1.y + (p2.y - p0.y) / 6.0);
      assert CurveThrough(points[i - 1], points[i], points[i + 1], CurveTo(cp1, cp2, p2));
      path := path + [CurveTo(cp1, cp2, p2)];
      i := i + 1;
    }
    assert CurveThrough(points[i - 2], points[i - 1], points[i], path[i - 1]);
  }
}
