/**
  The neighbour generator of the grid search (`getNeighbors`): aisle
  intersections close to the node, then the eight grid steps that land on open
  floor.
*/
module GridGraph {
  import opened Geometry
  import opened Layout
  import opened AisleGraph

  /** Up, right, down, left, then the four diagonals: upper-right, lower-right, lower-left, upper-left. */
  function Directions(g: int): (dirs: seq<(int, int)>)
    ensures |dirs| == 8
  {
    [(0, -g), (g, 0), (0, g), (-g, 0), (g, -g), (g, g), (-g, g), (-g, -g)]
  }

  /** An intersection is offered when it is strictly closer than two grid steps on both axes. */
  predicate CloseIntersection(g: int, node: Point, q: Point) {
    Abs(node.x - q.x) < 2 * g && Abs(node.y - q.y) < 2 * g
  }

  /** The intersections close to `node`, in list order, with no walkability or department check. */
  function CloseIntersections(g: int, node: Point, ints: seq<Point>): seq<Point> {
    if |ints| == 0 then []
    else
      var q := ints[|ints| - 1];
      CloseIntersections(g, node, ints[..|ints| - 1]) + (if CloseIntersection(g, node, q) then [q] else [])
  }

  function Offset(node: Point, d: (int, int)): Point {
    Point(node.x + d.0, node.y + d.1)
  }

  /** The grid steps in direction order that land on walkable floor outside every department section. */
  function GridSteps(layout: StoreLayout, node: Point, dirs: seq<(int, int)>): seq<Point> {
    if |dirs| == 0 then []
    else
      var q := Offset(node, dirs[|dirs| - 1]);
      GridSteps(layout, node, dirs[..|dirs| - 1]) + (if OpenFloor(layout, q) then [q] else [])
  }

  /** The neighbour list of `node`: close intersections first, then grid steps. */
  function Neighbors(layout: StoreLayout, node: Point): seq<Point> {
    CloseIntersections(layout.gridSize, node, Intersections(layout.aisles))
      + GridSteps(layout, node, Directions(layout.gridSize))
  }

  /** `getNeighbors`. */
  method GetNeighbors(layout: StoreLayout, node: Point) returns (neighbors: seq<Point>)
    ensures neighbors == Neighbors(layout, node)
  {
    var intersections := GetAisleIntersections(layout.aisles);
    neighbors := CollectCloseIntersections(layout.gridSize, node, intersections);
    neighbors := PushGridSteps(layout, node, neighbors);
  }

  /** The first loop of `getNeighbors`: keep the intersections within two grid steps, in list order. */
  method CollectCloseIntersections(g: int, node: Point, intersections: seq<Point>) returns (neighbors: seq<Point>)
    ensures neighbors == CloseIntersections(g, node, intersections)
  {
    neighbors := [];
    var i := 0;
    while i < |intersections|
      invariant 0 <= i <= |intersections|
      invariant neighbors == CloseIntersections(g, node, intersections[..i])
    {
      var point := intersections[i];
      assert intersections[..i + 1][..i] == intersections[..i];
      if Abs(node.x - point.x) < g * 2 && Abs(node.y - point.y) < g * 2 {
        neighbors := neighbors + [point];
      }
      i := i + 1;
    }
    assert intersections[..i] == intersections;
  }

  /** The second loop of `getNeighbors`: append the grid steps that land on open floor, in direction order. */
  method PushGridSteps(layout: StoreLayout, node: Point, neighbors0: seq<Point>) returns (neighbors: seq<Point>)
    ensures neighbors == neighbors0 + GridSteps(layout, node, Directions(layout.gridSize))
  {
    var directions := Directions(layout.gridSize);
    neighbors := neighbors0;
    var k := 0;
    while k < |directions|
      invariant 0 <= k <= |directions|
      invariant neighbors == neighbors0 + GridSteps(layout, node, directions[..k])
    {
      var dir := directions[k];
      var newX, newY := node.x + dir.0, node.y + dir.1;
      assert directions[..k + 1][..k] == directions[..k];
      if IsWalkable(layout, newX as real, newY as real) && !IsPointInDepartment(layout, newX as real, newY as real) {
        neighbors := neighbors + [Point(newX, newY)];
      }
      k := k + 1;
    }
    assert directions[..k] == directions;
  }

  lemma {:induction false} CloseIntersectionsIff(g: int, node: Point, ints: seq<Point>, q: Point)
    ensures |CloseIntersections(g, node, ints)| <= |ints|
    ensures q in CloseIntersections(g, node, ints) <==> q in ints && CloseIntersection(g, node, q)
  {
    if |ints| > 0 {
      var init := ints[..|ints| - 1];
      CloseIntersectionsIff(g, node, init, q);
      assert ints == init + [ints[|ints| - 1]];
    }
  }

  /** A step offset: each axis moves by -g, 0 or g, and not both by 0. */
  predicate GridOffset(g: int, node: Point, q: Point) {
    var dx, dy := q.x - node.x, q.y - node.y;
    (dx == -g || dx == 0 || dx == g) && (dy == -g || dy == 0 || dy == g) && !(dx == 0 && dy == 0)
  }

  lemma {:induction false} GridStepsShape(layout: StoreLayout, node: Point, dirs: seq<(int, int)>, q: Point)
    ensures |GridSteps(layout, node, dirs)| <= |dirs|
    ensures q in GridSteps(layout, node, dirs) <==>
      OpenFloor(layout, q) && exists k | 0 <= k < |dirs| :: q == Offset(node, dirs[k])
  {
    if |dirs| > 0 {
      var init := dirs[..|dirs| - 1];
      GridStepsShape(layout, node, init, q);
      assert forall k | 0 <= k < |dirs| - 1 :: init[k] == dirs[k];
    }
  }

  lemma DirectionsAreGridOffsets(g: int, node: Point, q: Point)
    requires g > 0
    ensures (exists k | 0 <= k < 8 :: q == Offset(node, Directions(g)[k])) <==> GridOffset(g, node, q)
  {
    var dirs := Directions(g);
    if GridOffset(g, node, q) {
      var dx, dy := q.x - node.x, q.y - node.y;
      var k := if dx == 0 && dy == -g then 0 else if dx == g && dy == 0 then 1
        else if dx == 0 && dy == g then 2 else if dx == -g && dy == 0 then 3
        else if dx == g && dy == -g then 4 else if dx == g && dy == g then 5
        else if dx == -g && dy == g then 6 else 7;
      assert q == Offset(node, dirs[k]);
    }
  }

  /** Every entry of the neighbour list qualifies, and every qualifying point is an entry. */
  lemma NeighborsIff(layout: StoreLayout, node: Point, q: Point)
    requires layout.gridSize > 0
    ensures q in Neighbors(layout, node) <==>
      || (q in Intersections(layout.aisles) && CloseIntersection(layout.gridSize, node, q))
      || (GridOffset(layout.gridSize, node, q) && OpenFloor(layout, q))
  {
    var g := layout.gridSize;
    CloseIntersectionsIff(g, node, Intersections(layout.aisles), q);
    GridStepsShape(layout, node, Directions(g), q);
    DirectionsAreGridOffsets(g, node, q);
  }

  /**
    The neighbour list holds at most |intersections| + 8 entries: first the
    close intersections (with no floor check), then grid steps of -g, 0 or
    +g per axis, not both 0, onto walkable floor outside every department
    section.
  */
  lemma NeighborsLayout(layout: StoreLayout, node: Point)
    requires layout.gridSize > 0
    ensures var ints := Intersections(layout.aisles);
      var r := Neighbors(layout, node);
      var m := |CloseIntersections(layout.gridSize, node, ints)|;
      && |r| <= |ints| + 8
      && m <= |r|
      && (forall k | 0 <= k < m :: r[k] in ints && CloseIntersection(layout.gridSize, node, r[k]))
      && (forall k | m <= k < |r| :: GridOffset(layout.gridSize, node, r[k]) && OpenFloor(layout, r[k]))
  {
    var g := layout.gridSize;
    var ints := Intersections(layout.aisles);
    var near := CloseIntersections(g, node, ints);
    var steps := GridSteps(layout, node, Directions(g));
    CloseIntersectionsIff(g, node, ints, node);
    GridStepsShape(layout, node, Directions(g), node);
    forall k | 0 <= k < |near| ensures near[k] in ints && CloseIntersection(g, node, near[k]) {
      CloseIntersectionsIff(g, node, ints, near[k]);
    }
    forall k | 0 <= k < |steps| ensures GridOffset(g, node, steps[k]) && OpenFloor(layout, steps[k]) {
      GridStepsShape(layout, node, Directions(g), steps[k]);
      DirectionsAreGridOffsets(g, node, steps[k]);
    }
  }

  /** The crossing of two linked, overlapping aisles is a neighbour of every node close to it. */
  lemma CrossingIsNeighbor(layout: StoreLayout, i: nat, j: nat, node: Point)
    requires layout.gridSize > 0 && i < |layout.aisles| && j < |layout.aisles|
    requires Linked(layout.aisles[i], layout.aisles[j]) && Overlap(layout.aisles[i].box, layout.aisles[j].box)
    requires CloseIntersection(layout.gridSize, node, OverlapMid(layout.aisles[i].box, layout.aisles[j].box))
    ensures OverlapMid(layout.aisles[i].box, layout.aisles[j].box) in Neighbors(layout, node)
  {
    var q := OverlapMid(layout.aisles[i].box, layout.aisles[j].box);
    IntersectionsIff(layout.aisles, q);
    NeighborsIff(layout, node, q);
  }

  /**
    Intersection neighbours bypass the floor check: the A1/H1 crossing
    (150,80) lies inside Bakery's first section (50,50,110,110), yet it is a
    neighbour of the node (150,95).
  */
  lemma IntersectionInsideBakeryIsNeighbor()
    ensures Point(150, 80) in Neighbors(Shipped(), Point(150, 95))
    ensures InDepartment(Shipped(), Point(150, 80)) && !OpenFloor(Shipped(), Point(150, 80))
  {
    var layout := Shipped();
    var a1, h1 := layout.aisles[0], layout.aisles[3];
    assert Linked(a1, h1) && Overlap(a1.box, h1.box);
    assert OverlapMid(a1.box, h1.box) == Point(150, 80);
    CrossingIsNeighbor(layout, 0, 3, Point(150, 95));
    assert InRect(layout.departments[1].sections[0], 150.0, 80.0);
  }
}
