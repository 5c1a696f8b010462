/**
  Aisle snapping (`findNearestAislePoint`) and the aisle intersection finder
  (`getAisleIntersections`).
*/
module AisleGraph {
  import opened Wrappers
  import opened Geometry
  import opened Layout

  // ---------------------------------------------------------------------------
  // Snapping a point to the nearest aisle edge

  /** A snap target together with its distance from the point being snapped. */
  datatype Candidate = Candidate(pt: Point, dist: nat)

  /** The point's y lies within the aisle's y-span: it may snap to the left or right edge. */
  predicate RowAligned(p: Point, a: Aisle) {
    a.box.y <= p.y <= a.box.Bottom()
  }

  /** The point's x lies within the aisle's x-span: it may snap to the top or bottom edge. */
  predicate ColumnAligned(p: Point, a: Aisle) {
    a.box.x <= p.x <= a.box.Right()
  }

  /** The snap targets one aisle offers, in the order they are examined: left, right, top, bottom. */
  function AisleCandidates(p: Point, a: Aisle): seq<Candidate> {
    (if RowAligned(p, a)
     then [Candidate(Point(a.box.x, p.y), Abs(p.x - a.box.x)),
           Candidate(Point(a.box.Right(), p.y), Abs(p.x - a.box.Right()))]
     else [])
    +
    (if ColumnAligned(p, a)
     then [Candidate(Point(p.x, a.box.y), Abs(p.y - a.box.y)),
           Candidate(Point(p.x, a.box.Bottom()), Abs(p.y - a.box.Bottom()))]
     else [])
  }

  /** All snap targets of all aisles, aisle by aisle in layout order. */
  function Candidates(p: Point, aisles: seq<Aisle>): seq<Candidate> {
    if |aisles| == 0 then []
    else Candidates(p, aisles[..|aisles| - 1]) + AisleCandidates(p, aisles[|aisles| - 1])
  }

  /** `nearestPoint` and `minDistance` (None stands for `Infinity`). */
  datatype SnapState = SnapState(nearest: Point, minDistance: Option<nat>)

  /** One `if (dist < minDistance)` step. */
  function Consider(st: SnapState, c: Candidate): SnapState {
    if st.minDistance.None? || c.dist < st.minDistance.value then SnapState(c.pt, Some(c.dist)) else st
  }

  /** The state after examining the candidates in order, starting from `st`. */
  function ConsiderAll(st: SnapState, cs: seq<Candidate>): SnapState {
    if |cs| == 0 then st else Consider(ConsiderAll(st, cs[..|cs| - 1]), cs[|cs| - 1])
  }

  lemma {:induction false} ConsiderAllAppend(st: SnapState, a: seq<Candidate>, b: seq<Candidate>)
    ensures ConsiderAll(st, a + b) == ConsiderAll(ConsiderAll(st, a), b)
  {
    if |b| > 0 {
      ConsiderAllAppend(st, a, b[..|b| - 1]);
      assert (a + b)[..|a + b| - 1] == a + b[..|b| - 1];
    } else {
      assert a + b == a;
    }
  }

  lemma ConsiderAllPair(st: SnapState, a: Candidate, b: Candidate)
    ensures ConsiderAll(st, [a]) == Consider(st, a)
    ensures ConsiderAll(st, [a, b]) == Consider(Consider(st, a), b)
  {
    assert [a][..0] == [];
    assert [a, b][..1] == [a];
  }

  /** The state after examining the candidates in order, starting from the point itself and `Infinity`. */
  function BestOf(p: Point, cs: seq<Candidate>): SnapState {
    ConsiderAll(SnapState(p, None), cs)
  }

  function NearestAislePoint(p: Point, aisles: seq<Aisle>): Point {
    BestOf(p, Candidates(p, aisles)).nearest
  }

  /**
    With no candidate the point comes back unchanged; otherwise the result is
    the candidate at the FIRST index whose distance is minimal (a later equal
    distance never replaces it, because the comparison is strict).
  */
  lemma {:induction false} BestOfIsFirstMinimum(p: Point, cs: seq<Candidate>)
    ensures |cs| == 0 ==> BestOf(p, cs) == SnapState(p, None)
    ensures |cs| > 0 ==> exists k | 0 <= k < |cs| ::
      && BestOf(p, cs) == SnapState(cs[k].pt, Some(cs[k].dist))
      && (forall j | 0 <= j < |cs| :: cs[k].dist <= cs[j].dist)
      && (forall j | 0 <= j < k :: cs[k].dist < cs[j].dist)
  {
    if |cs| > 1 {
      var init := cs[..|cs| - 1];
      BestOfIsFirstMinimum(p, init);
      var k :| 0 <= k < |init| && BestOf(p, init) == SnapState(init[k].pt, Some(init[k].dist))
        && (forall j | 0 <= j < |init| :: init[k].dist <= init[j].dist)
        && (forall j | 0 <= j < k :: init[k].dist < init[j].dist);
      var last := cs[|cs| - 1];
      if last.dist < init[k].dist {
        assert BestOf(p, cs) == SnapState(last.pt, Some(last.dist));
        assert forall j | 0 <= j < |cs| - 1 :: cs[j] == init[j];
      } else {
        assert BestOf(p, cs) == SnapState(cs[k].pt, Some(cs[k].dist));
        assert forall j | 0 <= j < |cs| - 1 :: cs[j] == init[j];
      }
    } else if |cs| == 1 {
      assert cs == [cs[0]];
      ConsiderAllPair(SnapState(p, None), cs[0], cs[0]);
    }
  }

  /** Every candidate keeps one coordinate of the point and moves the other onto an aligned aisle's edge. */
  lemma {:induction false} CandidateShape(p: Point, aisles: seq<Aisle>, c: Candidate)
    requires c in Candidates(p, aisles)
    ensures exists i | 0 <= i < |aisles| ::
      || (RowAligned(p, aisles[i]) && c.pt.y == p.y && c.dist == Abs(p.x - c.pt.x)
          && (c.pt.x == aisles[i].box.x || c.pt.x == aisles[i].box.Right()))
      || (ColumnAligned(p, aisles[i]) && c.pt.x == p.x && c.dist == Abs(p.y - c.pt.y)
          && (c.pt.y == aisles[i].box.y || c.pt.y == aisles[i].box.Bottom()))
  {
    var n := |aisles|;
    var init := aisles[..n - 1];
    if c in Candidates(p, init) {
      CandidateShape(p, init, c);
      var i :| 0 <= i < |init| &&
        (|| (RowAligned(p, init[i]) && c.pt.y == p.y && c.dist == Abs(p.x - c.pt.x)
             && (c.pt.x == init[i].box.x || c.pt.x == init[i].box.Right()))
         || (ColumnAligned(p, init[i]) && c.pt.x == p.x && c.dist == Abs(p.y - c.pt.y)
             && (c.pt.y == init[i].box.y || c.pt.y == init[i].box.Bottom())));
      assert aisles[i] == init[i];
    } else {
      assert c in AisleCandidates(p, aisles[n - 1]);
    }
  }

  /** There is no candidate exactly when no aisle spans the point's x or its y. */
  lemma {:induction false} NoCandidatesIff(p: Point, aisles: seq<Aisle>)
    ensures Candidates(p, aisles) == [] <==>
      forall i | 0 <= i < |aisles| :: !RowAligned(p, aisles[i]) && !ColumnAligned(p, aisles[i])
  {
    if |aisles| > 0 {
      var init := aisles[..|aisles| - 1];
      NoCandidatesIff(p, init);
      assert forall i | 0 <= i < |aisles| - 1 :: aisles[i] == init[i];
    }
  }

  /**
    The snapping contract. When no aisle spans the point's x or y the point is
    returned unchanged. Otherwise the result keeps the point's y and sits on
    the left or right edge of an aisle whose y-span holds the point, or keeps
    its x and sits on the top or bottom edge of an aisle whose x-span holds
    it, and no candidate edge is closer.
  */
  lemma SnapContract(p: Point, aisles: seq<Aisle>)
    ensures (forall i | 0 <= i < |aisles| :: !RowAligned(p, aisles[i]) && !ColumnAligned(p, aisles[i]))
      ==> NearestAislePoint(p, aisles) == p
    ensures (exists i | 0 <= i < |aisles| :: RowAligned(p, aisles[i]) || ColumnAligned(p, aisles[i]))
      ==> var r := NearestAislePoint(p, aisles);
          && (exists i | 0 <= i < |aisles| ::
               || (RowAligned(p, aisles[i]) && r.y == p.y
                   && (r.x == aisles[i].box.x || r.x == aisles[i].box.Right()))
               || (ColumnAligned(p, aisles[i]) && r.x == p.x
                   && (r.y == aisles[i].box.y || r.y == aisles[i].box.Bottom())))
          && (forall c | c in Candidates(p, aisles) :: Abs(p.x - r.x) + Abs(p.y - r.y) <= c.dist)
  {
    var cs := Candidates(p, aisles);
    NoCandidatesIff(p, aisles);
    BestOfIsFirstMinimum(p, cs);
    if |cs| > 0 {
      var k :| 0 <= k < |cs| && BestOf(p, cs) == SnapState(cs[k].pt, Some(cs[k].dist))
        && (forall j | 0 <= j < |cs| :: cs[k].dist <= cs[j].dist);
      CandidateShape(p, aisles, cs[k]);
    }
  }

  /** The body of the `forEach`: examines the left, right, top and bottom edges of one aisle. */
  method SnapToAisle(point: Point, aisle: Aisle, nearestIn: Point, minIn: Option<nat>)
    returns (nearestPoint: Point, minDistance: Option<nat>)
    ensures SnapState(nearestPoint, minDistance)
      == ConsiderAll(SnapState(nearestIn, minIn), AisleCandidates(point, aisle))
  {
    nearestPoint, minDistance := nearestIn, minIn;
    ghost var seen: seq<Candidate> := [];
    // Check horizontal alignment
    if point.y >= aisle.box.y && point.y <= aisle.box.y + aisle.box.height {
      var distToLeft := Abs(point.x - aisle.box.x);
      if minDistance.None? || distToLeft < minDistance.value {
        minDistance := Some(distToLeft);
        nearestPoint := Point(aisle.box.x, point.y);
      }
      var distToRight := Abs(point.x - (aisle.box.x + aisle.box.width));
      if minDistance.None? || distToRight < minDistance.value {
        minDistance := Some(distToRight);
        nearestPoint := Point(aisle.box.x + aisle.box.width, point.y);
      }
      seen := [Candidate(Point(aisle.box.x, point.y), distToLeft),
               Candidate(Point(aisle.box.x + aisle.box.width, point.y), distToRight)];
      ConsiderAllPair(SnapState(nearestIn, minIn), seen[0], seen[1]);
    }
    assert SnapState(nearestPoint, minDistance) == ConsiderAll(SnapState(nearestIn, minIn), seen);
    ghost var rowState := SnapState(nearestPoint, minDistance);
    ghost var col: seq<Candidate> := [];
    // Check vertical alignment
    if point.x >= aisle.box.x && point.x <= aisle.box.x + aisle.box.width {
      var distToTop := Abs(point.y - aisle.box.y);
      if minDistance.None? || distToTop < minDistance.value {
        minDistance := Some(distToTop);
        nearestPoint := Point(point.x, aisle.box.y);
      }
      var distToBottom := Abs(point.y - (aisle.box.y + aisle.box.height));
      if minDistance.None? || distToBottom < minDistance.value {
        minDistance := Some(distToBottom);
        nearestPoint := Point(point.x, aisle.box.y + aisle.box.height);
      }
      col := [Candidate(Point(point.x, aisle.box.y), distToTop),
              Candidate(Point(point.x, aisle.box.y + aisle.box.height), distToBottom)];
      ConsiderAllPair(rowState, col[0], col[1]);
    }
    assert SnapState(nearestPoint, minDistance) == ConsiderAll(rowState, col);
    assert AisleCandidates(point, aisle) == seen + col;
    ConsiderAllAppend(SnapState(nearestIn, minIn), seen, col);
  }

  /** `findNearestAislePoint`: examines every aisle, keeping the strictly closest edge seen so far. */
  method FindNearestAislePoint(aisles: seq<Aisle>, point: Point) returns (nearestPoint: Point)
    ensures nearestPoint == NearestAislePoint(point, aisles)
  {
    nearestPoint := point;
    var minDistance: Option<nat> := None;
    var i := 0;
    while i < |aisles|
      invariant 0 <= i <= |aisles|
      invariant SnapState(nearestPoint, minDistance) == BestOf(point, Candidates(point, aisles[..i]))
    {
      assert aisles[..i + 1][..i] == aisles[..i];
      ConsiderAllAppend(SnapState(point, None), Candidates(point, aisles[..i]), AisleCandidates(point, aisles[i]));
      nearestPoint, minDistance := SnapToAisle(point, aisles[i], nearestPoint, minDistance);
      i := i + 1;
    }
    assert aisles[..i] == aisles;
  }

  /** The entrance (450,600) snaps to (450,550), the bottom of A2; H3's equally close bottom edge comes later and loses. */
  lemma EntranceSnapsToCenterAisle()
    ensures NearestAislePoint(Shipped().entrance, Shipped().aisles) == Point(450, 550)
  {
    var p := Shipped().entrance;
    var al := ShippedAisles();
    assert al == [AisleA1(), AisleA2(), AisleA3(), AisleH1(), AisleH2(), AisleH3()];
    CandidatesOfSix(p, al);
    EntranceCandidates();
    var c1, c2, c3 := AisleCandidates(p, AisleA1()), AisleCandidates(p, AisleA2()), AisleCandidates(p, AisleA3());
    var c4, c5, c6 := AisleCandidates(p, AisleH1()), AisleCandidates(p, AisleH2()), AisleCandidates(p, AisleH3());
    var start := SnapState(p, None);
    var found := SnapState(Point(450, 550), Some(50));
    ConsiderAllAppend(start, c1, c2);
    ConsiderAllPair(start, c2[0], c2[1]);
    assert ConsiderAll(start, c1 + c2) == found;
    ConsiderAllAppend(start, c1 + c2, c3);
    ConsiderAllAppend(start, c1 + c2 + c3, c4);
    ConsiderAllPair(found, c4[0], c4[1]);
    ConsiderAllAppend(start, c1 + c2 + c3 + c4, c5);
    ConsiderAllPair(found, c5[0], c5[1]);
    ConsiderAllAppend(start, c1 + c2 + c3 + c4 + c5, c6);
    ConsiderAllPair(found, c6[0], c6[1]);
  }

  /** What each shipped aisle offers the entrance (450,600): only the centre column and the cross aisles align. */
  lemma EntranceCandidates()
    ensures AisleCandidates(Point(450, 600), AisleA1()) == []
    ensures AisleCandidates(Point(450, 600), AisleA2()) == [Candidate(Point(450, 50), 550), Candidate(Point(450, 550), 50)]
    ensures AisleCandidates(Point(450, 600), AisleA3()) == []
    ensures AisleCandidates(Point(450, 600), AisleH1()) == [Candidate(Point(450, 50), 550), Candidate(Point(450, 110), 490)]
    ensures AisleCandidates(Point(450, 600), AisleH2()) == [Candidate(Point(450, 270), 330), Candidate(Point(450, 330), 270)]
    ensures AisleCandidates(Point(450, 600), AisleH3()) == [Candidate(Point(450, 490), 110), Candidate(Point(450, 550), 50)]
  {
  }

  lemma CandidatesOfSix(p: Point, al: seq<Aisle>)
    requires |al| == 6
    ensures Candidates(p, al) == AisleCandidates(p, al[0]) + AisleCandidates(p, al[1]) + AisleCandidates(p, al[2])
      + AisleCandidates(p, al[3]) + AisleCandidates(p, al[4]) + AisleCandidates(p, al[5])
  {
    assert al[..1][..0] == [];
    assert Candidates(p, al[..1]) == AisleCandidates(p, al[0]);
    assert al[..2][..1] == al[..1];
    assert Candidates(p, al[..2]) == Candidates(p, al[..1]) + AisleCandidates(p, al[1]);
    assert al[..3][..2] == al[..2];
    assert Candidates(p, al[..3]) == Candidates(p, al[..2]) + AisleCandidates(p, al[2]);
    assert al[..4][..3] == al[..3];
    assert Candidates(p, al[..4]) == Candidates(p, al[..3]) + AisleCandidates(p, al[3]);
    assert al[..5][..4] == al[..4];
    assert Candidates(p, al[..5]) == Candidates(p, al[..4]) + AisleCandidates(p, al[4]);
    assert al[..5] == al[..|al| - 1];
  }

  // ---------------------------------------------------------------------------
  // Aisle intersections

  /** `aisle1.id !== aisle2.id && aisle1.connectedTo.includes(aisle2.id)` */
  predicate Linked(a1: Aisle, a2: Aisle) {
    a1.id != a2.id && a2.id in a1.connectedTo
  }

  /** The inclusive bounding-box overlap test. */
  predicate Overlap(r1: Rect, r2: Rect) {
    r1.x <= r2.Right() && r1.Right() >= r2.x && r1.y <= r2.Bottom() && r1.Bottom() >= r2.y
  }

  /** The floor-midpoint of the overlap box, `(max + min) >> 1` on each axis. */
  function OverlapMid(r1: Rect, r2: Rect): Point {
    Point((Max(r1.x, r2.x) + Min(r1.Right(), r2.Right())) / 2,
          (Max(r1.y, r2.y) + Min(r1.Bottom(), r2.Bottom())) / 2)
  }

  /** The point the ordered pair (a1, a2) contributes, if any. */
  function PairPoint(a1: Aisle, a2: Aisle): seq<Point> {
    if Linked(a1, a2) && Overlap(a1.box, a2.box) then [OverlapMid(a1.box, a2.box)] else []
  }

  /** The points contributed by `a1` against the aisles in `others`, in order. */
  function PairPoints(a1: Aisle, others: seq<Aisle>): seq<Point> {
    if |others| == 0 then []
    else PairPoints(a1, others[..|others| - 1]) + PairPoint(a1, others[|others| - 1])
  }

  /** The points contributed by every aisle of `firsts` against all of `aisles`. */
  function IntersectionsFrom(firsts: seq<Aisle>, aisles: seq<Aisle>): seq<Point> {
    if |firsts| == 0 then []
    else IntersectionsFrom(firsts[..|firsts| - 1], aisles) + PairPoints(firsts[|firsts| - 1], aisles)
  }

  /** One point per ordered pair of linked, overlapping aisles. */
  function Intersections(aisles: seq<Aisle>): seq<Point> {
    IntersectionsFrom(aisles, aisles)
  }

  /** `getAisleIntersections`: two nested loops over the aisles pushing one point per qualifying ordered pair. */
  method GetAisleIntersections(aisles: seq<Aisle>) returns (intersections: seq<Point>)
    ensures intersections == Intersections(aisles)
  {
    intersections := [];
    var i := 0;
    while i < |aisles|
      invariant 0 <= i <= |aisles|
      invariant intersections == IntersectionsFrom(aisles[..i], aisles)
    {
      intersections := PushPairPoints(intersections, aisles[i], aisles);
      assert aisles[..i + 1][..i] == aisles[..i];
      i := i + 1;
    }
    assert aisles[..i] == aisles;
  }

  /** The inner loop of `getAisleIntersections`: `aisle1` against every aisle, pushing each qualifying midpoint. */
  method PushPairPoints(intersections0: seq<Point>, aisle1: Aisle, aisles: seq<Aisle>) returns (intersections: seq<Point>)
    ensures intersections == intersections0 + PairPoints(aisle1, aisles)
  {
    intersections := intersections0;
    var j := 0;
    while j < |aisles|
      invariant 0 <= j <= |aisles|
      invariant intersections == intersections0 + PairPoints(aisle1, aisles[..j])
    {
      var aisle2 := aisles[j];
      assert aisles[..j + 1][..j] == aisles[..j];
      if aisle1.id != aisle2.id && aisle2.id in aisle1.connectedTo {
        if aisle1.box.x <= aisle2.box.x + aisle2.box.width &&
           aisle1.box.x + aisle1.box.width >= aisle2.box.x &&
           aisle1.box.y <= aisle2.box.y + aisle2.box.height &&
           aisle1.box.y + aisle1.box.height >= aisle2.box.y {
          var x := (Max(aisle1.box.x, aisle2.box.x) + Min(aisle1.box.x + aisle1.box.width, aisle2.box.x + aisle2.box.width)) / 2;
          var y := (Max(aisle1.box.y, aisle2.box.y) + Min(aisle1.box.y + aisle1.box.height, aisle2.box.y + aisle2.box.height)) / 2;
          intersections := intersections + [Point(x, y)];
        }
      }
      j := j + 1;
    }
    assert aisles[..j] == aisles;
  }

  lemma {:induction false} PairPointsIff(a1: Aisle, others: seq<Aisle>, q: Point)
    ensures q in PairPoints(a1, others) <==>
      exists j | 0 <= j < |others| :: Linked(a1, others[j]) && Overlap(a1.box, others[j].box)
        && q == OverlapMid(a1.box, others[j].box)
  {
    if |others| > 0 {
      var init := others[..|others| - 1];
      PairPointsIff(a1, init, q);
      assert forall j | 0 <= j < |others| - 1 :: others[j] == init[j];
    }
  }

  lemma {:induction false} IntersectionsFromIff(firsts: seq<Aisle>, aisles: seq<Aisle>, q: Point)
    ensures q in IntersectionsFrom(firsts, aisles) <==>
      exists i, j | 0 <= i < |firsts| && 0 <= j < |aisles| ::
        Linked(firsts[i], aisles[j]) && Overlap(firsts[i].box, aisles[j].box)
        && q == OverlapMid(firsts[i].box, aisles[j].box)
  {
    if |firsts| > 0 {
      var n := |firsts|;
      var init := firsts[..n - 1];
      var last := firsts[n - 1];
      IntersectionsFromIff(init, aisles, q);
      PairPointsIff(last, aisles, q);
      if q in IntersectionsFrom(firsts, aisles) {
        if q in PairPoints(last, aisles) {
          var j :| 0 <= j < |aisles| && Linked(last, aisles[j]) && Overlap(last.box, aisles[j].box)
            && q == OverlapMid(last.box, aisles[j].box);
          assert Linked(firsts[n - 1], aisles[j]);
        } else {
          var i, j :| 0 <= i < |init| && 0 <= j < |aisles| && Linked(init[i], aisles[j])
            && Overlap(init[i].box, aisles[j].box) && q == OverlapMid(init[i].box, aisles[j].box);
          assert firsts[i] == init[i];
        }
      }
      if exists i, j | 0 <= i < n && 0 <= j < |aisles| ::
          Linked(firsts[i], aisles[j]) && Overlap(firsts[i].box, aisles[j].box)
          && q == OverlapMid(firsts[i].box, aisles[j].box) {
        var i, j :| 0 <= i < n && 0 <= j < |aisles| && Linked(firsts[i], aisles[j])
          && Overlap(firsts[i].box, aisles[j].box) && q == OverlapMid(firsts[i].box, aisles[j].box);
        if i < n - 1 {
          assert init[i] == firsts[i];
        }
      }
    }
  }

  /**
    A point is an intersection exactly when it is the overlap floor-midpoint
    of some ordered pair (a1, a2) with distinct ids, a2 listed in
    a1.connectedTo, and overlapping boxes.
  */
  lemma IntersectionsIff(aisles: seq<Aisle>, q: Point)
    ensures q in Intersections(aisles) <==>
      exists i, j | 0 <= i < |aisles| && 0 <= j < |aisles| ::
        Linked(aisles[i], aisles[j]) && Overlap(aisles[i].box, aisles[j].box)
        && q == OverlapMid(aisles[i].box, aisles[j].box)
  {
    IntersectionsFromIff(aisles, aisles, q);
  }

  /** The floor-midpoint of two overlapping well-formed boxes lies inside both. */
  lemma OverlapMidInsideBoth(r1: Rect, r2: Rect)
    requires r1.WellFormed() && r2.WellFormed() && Overlap(r1, r2)
    ensures ContainsPoint(r1, OverlapMid(r1, r2)) && ContainsPoint(r2, OverlapMid(r1, r2))
  {
  }

  /** Every intersection lies inside both aisles it comes from. */
  lemma IntersectionsInsideAisles(layout: StoreLayout, q: Point)
    requires layout.Valid()
    requires q in Intersections(layout.aisles)
    ensures exists i, j | 0 <= i < |layout.aisles| && 0 <= j < |layout.aisles| ::
      i != j && ContainsPoint(layout.aisles[i].box, q) && ContainsPoint(layout.aisles[j].box, q)
  {
    IntersectionsIff(layout.aisles, q);
    var i, j :| 0 <= i < |layout.aisles| && 0 <= j < |layout.aisles| &&
      Linked(layout.aisles[i], layout.aisles[j]) && Overlap(layout.aisles[i].box, layout.aisles[j].box)
      && q == OverlapMid(layout.aisles[i].box, layout.aisles[j].box);
    OverlapMidInsideBoth(layout.aisles[i].box, layout.aisles[j].box);
  }

  lemma PairPointsOfSix(a1: Aisle, al: seq<Aisle>)
    requires |al| == 6
    ensures PairPoints(a1, al) == PairPoint(a1, al[0]) + PairPoint(a1, al[1]) + PairPoint(a1, al[2])
      + PairPoint(a1, al[3]) + PairPoint(a1, al[4]) + PairPoint(a1, al[5])
  {
    assert al[..1][..0] == [];
    assert PairPoints(a1, al[..1]) == PairPoint(a1, al[0]);
    assert al[..2][..1] == al[..1];
    assert PairPoints(a1, al[..2]) == PairPoints(a1, al[..1]) + PairPoint(a1, al[1]);
    assert al[..3][..2] == al[..2];
    assert PairPoints(a1, al[..3]) == PairPoints(a1, al[..2]) + PairPoint(a1, al[2]);
    assert al[..4][..3] == al[..3];
    assert PairPoints(a1, al[..4]) == PairPoints(a1, al[..3]) + PairPoint(a1, al[3]);
    assert al[..5][..4] == al[..4];
    assert PairPoints(a1, al[..5]) == PairPoints(a1, al[..4]) + PairPoint(a1, al[4]);
    assert al[..5] == al[..|al| - 1];
  }

  lemma IntersectionsOfSix(al: seq<Aisle>)
    requires |al| == 6
    ensures Intersections(al) == PairPoints(al[0], al) + PairPoints(al[1], al) + PairPoints(al[2], al)
      + PairPoints(al[3], al) + PairPoints(al[4], al) + PairPoints(al[5], al)
  {
    assert al[..1][..0] == [];
    assert IntersectionsFrom(al[..1], al) == PairPoints(al[0], al);
    assert al[..2][..1] == al[..1];
    assert IntersectionsFrom(al[..2], al) == IntersectionsFrom(al[..1], al) + PairPoints(al[1], al);
    assert al[..3][..2] == al[..2];
    assert IntersectionsFrom(al[..3], al) == IntersectionsFrom(al[..2], al) + PairPoints(al[2], al);
    assert al[..4][..3] == al[..3];
    assert IntersectionsFrom(al[..4], al) == IntersectionsFrom(al[..3], al) + PairPoints(al[3], al);
    assert al[..5][..4] == al[..4];
    assert IntersectionsFrom(al[..5], al) == IntersectionsFrom(al[..4], al) + PairPoints(al[4], al);
    assert al[..5] == al[..|al| - 1];
  }

  lemma ShippedPairPointsA1()
    ensures PairPoints(ShippedAisles()[0], ShippedAisles()) == [Point(150, 80), Point(150, 300), Point(150, 520)]
  {
    var al := ShippedAisles();
    assert al == [AisleA1(), AisleA2(), AisleA3(), AisleH1(), AisleH2(), AisleH3()];
    PairPointsOfSix(AisleA1(), al);
    A1Misses();
    A1Crosses();
  }

  lemma A1Misses()
    ensures PairPoint(AisleA1(), AisleA1()) == []
    ensures PairPoint(AisleA1(), AisleA2()) == []
    ensures PairPoint(AisleA1(), AisleA3()) == []
  {
  }

  lemma A1Crosses()
    ensures PairPoint(AisleA1(), AisleH1()) == [Point(150, 80)]
    ensures PairPoint(AisleA1(), AisleH2()) == [Point(150, 300)]
    ensures PairPoint(AisleA1(), AisleH3()) == [Point(150, 520)]
  {
  }

  lemma ShippedPairPointsA2()
    ensures PairPoints(ShippedAisles()[1], ShippedAisles()) == [Point(460, 80), Point(460, 300), Point(460, 520)]
  {
    var al := ShippedAisles();
    assert al == [AisleA1(), AisleA2(), AisleA3(), AisleH1(), AisleH2(), AisleH3()];
    PairPointsOfSix(AisleA2(), al);
    A2Misses();
    A2Crosses();
  }

  lemma A2Misses()
    ensures PairPoint(AisleA2(), AisleA1()) == []
    ensures PairPoint(AisleA2(), AisleA2()) == []
    ensures PairPoint(AisleA2(), AisleA3()) == []
  {
  }

  lemma A2Crosses()
    ensures PairPoint(AisleA2(), AisleH1()) == [Point(460, 80)]
    ensures PairPoint(AisleA2(), AisleH2()) == [Point(460, 300)]
    ensures PairPoint(AisleA2(), AisleH3()) == [Point(460, 520)]
  {
  }

  lemma ShippedPairPointsA3()
    ensures PairPoints(ShippedAisles()[2], ShippedAisles()) == [Point(770, 80), Point(770, 300), Point(770, 520)]
  {
    var al := ShippedAisles();
    assert al == [AisleA1(), AisleA2(), AisleA3(), AisleH1(), AisleH2(), AisleH3()];
    PairPointsOfSix(AisleA3(), al);
    A3Misses();
    A3Crosses();
  }

  lemma A3Misses()
    ensures PairPoint(AisleA3(), AisleA1()) == []
    ensures PairPoint(AisleA3(), AisleA2()) == []
    ensures PairPoint(AisleA3(), AisleA3()) == []
  {
  }

  lemma A3Crosses()
    ensures PairPoint(AisleA3(), AisleH1()) == [Point(770, 80)]
    ensures PairPoint(AisleA3(), AisleH2()) == [Point(770, 300)]
    ensures PairPoint(AisleA3(), AisleH3()) == [Point(770, 520)]
  {
  }

  lemma ShippedPairPointsH1()
    ensures PairPoints(ShippedAisles()[3], ShippedAisles()) == [Point(150, 80), Point(460, 80), Point(770, 80)]
  {
    var al := ShippedAisles();
    assert al == [AisleA1(), AisleA2(), AisleA3(), AisleH1(), AisleH2(), AisleH3()];
    PairPointsOfSix(AisleH1(), al);
    H1Misses();
    H1Crosses();
  }

  lemma H1Misses()
    ensures PairPoint(AisleH1(), AisleH1()) == []
    ensures PairPoint(AisleH1(), AisleH2()) == []
    ensures PairPoint(AisleH1(), AisleH3()) == []
  {
  }

  lemma H1Crosses()
    ensures PairPoint(AisleH1(), AisleA1()) == [Point(150, 80)]
    ensures PairPoint(AisleH1(), AisleA2()) == [Point(460, 80)]
    ensures PairPoint(AisleH1(), AisleA3()) == [Point(770, 80)]
  {
  }

  lemma ShippedPairPointsH2()
    ensures PairPoints(ShippedAisles()[4], ShippedAisles()) == [Point(150, 300), Point(460, 300), Point(770, 300)]
  {
    var al := ShippedAisles();
    assert al == [AisleA1(), AisleA2(), AisleA3(), AisleH1(), AisleH2(), AisleH3()];
    PairPointsOfSix(AisleH2(), al);
    H2Misses();
    H2Crosses();
  }

  lemma H2Misses()
    ensures PairPoint(AisleH2(), AisleH1()) == []
    ensures PairPoint(AisleH2(), AisleH2()) == []
    ensures PairPoint(AisleH2(), AisleH3()) == []
  {
  }

  lemma H2Crosses()
    ensures PairPoint(AisleH2(), AisleA1()) == [Point(150, 300)]
    ensures PairPoint(AisleH2(), AisleA2()) == [Point(460, 300)]
    ensures PairPoint(AisleH2(), AisleA3()) == [Point(770, 300)]
  {
  }

  lemma ShippedPairPointsH3()
    ensures PairPoints(ShippedAisles()[5], ShippedAisles()) == [Point(150, 520), Point(460, 520), Point(770, 520)]
  {
    var al := ShippedAisles();
    assert al == [AisleA1(), AisleA2(), AisleA3(), AisleH1(), AisleH2(), AisleH3()];
    PairPointsOfSix(AisleH3(), al);
    H3Misses();
    H3Crosses();
  }

  lemma H3Misses()
    ensures PairPoint(AisleH3(), AisleH1()) == []
    ensures PairPoint(AisleH3(), AisleH2()) == []
    ensures PairPoint(AisleH3(), AisleH3()) == []
  {
  }

  lemma H3Crosses()
    ensures PairPoint(AisleH3(), AisleA1()) == [Point(150, 520)]
    ensures PairPoint(AisleH3(), AisleA2()) == [Point(460, 520)]
    ensures PairPoint(AisleH3(), AisleA3()) == [Point(770, 520)]
  {
  }

  /**
    In the shipped layout the connected but disjoint pairs (A1-A2, A2-A3) emit
    nothing and every long aisle crosses every cross aisle, so there are 18
    entries, each crossing once from each side.
  */
  lemma ShippedIntersectionCount()
    ensures |Intersections(ShippedAisles())| == 18
  {
    ShippedPairPointsA1();
    ShippedPairPointsA2();
    ShippedPairPointsA3();
    ShippedPairPointsH1();
    ShippedPairPointsH2();
    ShippedPairPointsH3();
    IntersectionsOfSix(ShippedAisles());
  }

}
