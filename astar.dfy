/**
  The A* search of `findPath` over an arena of nodes. A node's parent is an
  arena index rather than an object reference; the ghost `order` records when
  each node was closed, which is what makes the parent chain finite.
*/
module AStar {
  import opened Wrappers
  import opened Geometry
  import opened Layout
  import opened GridGraph

  /** A search node: position, cost so far, estimate to go, their sum, and its parent's arena index. */
  datatype Node = Node(pt: Point, g: real, h: real, f: real, parent: Option<nat>)

  /** A path from start to goal; or the open set emptied; or the step bound ran out. */
  datatype SearchResult = Reached(path: seq<Point>) | Exhausted | OutOfFuel

  /** The Manhattan distance. */
  function Heuristic(a: Point, b: Point): (r: real)
    ensures r >= 0.0
    ensures r == 0.0 <==> a == b
  {
    (Abs(a.x - b.x) + Abs(a.y - b.y)) as real
  }

  /** Strictly within half a grid step on both axes: the duplicate test of the open and closed sets. */
  predicate Near(g: int, a: Point, b: Point) {
    2 * Abs(a.x - b.x) < g && 2 * Abs(a.y - b.y) < g
  }

  /** Strictly within one grid step of the goal on both axes: the arrival test. */
  predicate AtGoal(g: int, a: Point, goal: Point) {
    Abs(a.x - goal.x) < g && Abs(a.y - goal.y) < g
  }

  /** `to` is one of `from`'s neighbours, up to the duplicate radius. */
  predicate Step(layout: StoreLayout, from: Point, to: Point) {
    exists q | q in Neighbors(layout, from) :: Near(layout.gridSize, q, to)
  }

  function Reverse<T>(s: seq<T>): (r: seq<T>)
    ensures |r| == |s|
    ensures forall k | 0 <= k < |s| :: r[k] == s[|s| - 1 - k]
  {
    if |s| == 0 then [] else Reverse(s[1..]) + [s[0]]
  }

  /** The position in `open` of the lowest `f`; the first such position on ties. */
  method LowestF(arena: seq<Node>, open: seq<nat>) returns (currentIndex: nat)
    requires |open| > 0
    requires forall k | 0 <= k < |open| :: open[k] < |arena|
    ensures currentIndex < |open|
    ensures forall k | 0 <= k < |open| :: arena[open[currentIndex]].f <= arena[open[k]].f
    ensures forall k | 0 <= k < currentIndex :: arena[open[currentIndex]].f < arena[open[k]].f
  {
    currentIndex := 0;
    var index := 1;
    while index < |open|
      invariant 1 <= index <= |open| && currentIndex < index
      invariant forall k | 0 <= k < index :: arena[open[currentIndex]].f <= arena[open[k]].f
      invariant forall k | 0 <= k < currentIndex :: arena[open[currentIndex]].f < arena[open[k]].f
    {
      if arena[open[index]].f < arena[open[currentIndex]].f {
        currentIndex := index;
      }
      index := index + 1;
    }
  }

  /** The position in `open` of the first node within the duplicate radius of `pt`. */
  function FindOpen(arena: seq<Node>, open: seq<nat>, g: int, pt: Point): (r: Option<nat>)
    requires forall k | 0 <= k < |open| :: open[k] < |arena|
    ensures r.Some? ==>
      && r.value < |open|
      && Near(g, arena[open[r.value]].pt, pt)
      && forall k | 0 <= k < r.value :: !Near(g, arena[open[k]].pt, pt)
    ensures r.None? ==> forall k | 0 <= k < |open| :: !Near(g, arena[open[k]].pt, pt)
  {
    if |open| == 0 then None
    else if Near(g, arena[open[0]].pt, pt) then Some(0)
    else
      match FindOpen(arena, open[1..], g, pt)
      case None => None
      case Some(k) => Some(k + 1)
  }

  /** The closing position of node `i`, or `n` while it is open. */
  function Rank(order: seq<int>, i: nat, n: int): int
    requires i < |order|
  {
    if order[i] >= 0 then order[i] else n
  }

  /**
    `order[i]` is the position at which node `i` was closed, or -1 while it is
    open; a parent is always closed, and before its closed children.
  */
  predicate Ranked(arena: seq<Node>, order: seq<int>, n: int) {
    && |order| == |arena|
    && (forall i | 0 <= i < |arena| :: -1 <= order[i] < n)
    && (forall i | 0 <= i < |arena| && arena[i].parent.Some? ::
          var p := arena[i].parent.value;
          p < |arena| && 0 <= order[p] && (order[i] >= 0 ==> order[p] < order[i]))
  }

  /** The positions from node `i` back along its parents to a root. */
  function Chain(arena: seq<Node>, order: seq<int>, n: int, i: nat): (c: seq<Point>)
    requires Ranked(arena, order, n) && i < |arena|
    ensures |c| >= 1 && c[0] == arena[i].pt
    decreases Rank(order, i, n)
  {
    match arena[i].parent
    case None => [arena[i].pt]
    case Some(p) => [arena[i].pt] + Chain(arena, order, n, p)
  }

  /** The state the main loop keeps. */
  predicate Explored(layout: StoreLayout, start: Point, goal: Point,
                     arena: seq<Node>, open: seq<nat>, closed: seq<nat>, order: seq<int>)
  {
    && layout.gridSize > 0
    && |arena| >= 1
    && Ranked(arena, order, |closed|)
    && (forall i | 0 <= i < |arena| :: arena[i].parent.None? ==> arena[i].pt == start)
    && (forall i | 0 <= i < |arena| :: arena[i].h == (if i == 0 then 0.0 else Heuristic(arena[i].pt, goal)))
    && (forall i | 0 <= i < |arena| :: arena[i].g >= 0.0 && arena[i].f == arena[i].g + arena[i].h)
    && (forall i | 0 <= i < |arena| && arena[i].parent.Some? && arena[i].parent.value < |arena| ::
          Step(layout, arena[arena[i].parent.value].pt, arena[i].pt))
    && (forall k | 0 <= k < |open| :: open[k] < |arena| && order[open[k]] == -1)
    && (forall k, l | 0 <= k < l < |open| :: open[k] != open[l])
    && (forall k | 0 <= k < |closed| :: closed[k] < |arena|)
  }

  /** Moving the open node at position `ci` to the closed list keeps the state. */
  lemma CloseKeepsExplored(layout: StoreLayout, start: Point, goal: Point,
                           arena: seq<Node>, open: seq<nat>, closed: seq<nat>, order: seq<int>, ci: nat)
    requires Explored(layout, start, goal, arena, open, closed, order)
    requires ci < |open|
    ensures Explored(layout, start, goal, arena, open[..ci] + open[ci + 1..], closed + [open[ci]],
                     order[open[ci] := |closed|])
  {
    var c := open[ci];
    var open' := open[..ci] + open[ci + 1..];
    var order' := order[c := |closed|];
    forall k | 0 <= k < |open'| ensures open'[k] < |arena| && order'[open'[k]] == -1 {
      var k0 := if k < ci then k else k + 1;
      assert open'[k] == open[k0] && k0 != ci;
    }
    forall k, l | 0 <= k < l < |open'| ensures open'[k] != open'[l] {
      var k0, l0 := if k < ci then k else k + 1, if l < ci then l else l + 1;
      assert open'[k] == open[k0] && open'[l] == open[l0];
    }
  }

  /** Appending a fresh node whose parent is the last closed node keeps the state. */
  lemma AddKeepsExplored(layout: StoreLayout, start: Point, goal: Point,
                         arena: seq<Node>, open: seq<nat>, closed: seq<nat>, order: seq<int>,
                         c: nat, pt: Point, gScore: real)
    requires Explored(layout, start, goal, arena, open, closed, order)
    requires c < |arena| && 0 <= order[c]
    requires pt in Neighbors(layout, arena[c].pt) && gScore >= 0.0
    ensures Explored(layout, start, goal,
                     arena + [Node(pt, gScore, Heuristic(pt, goal), gScore + Heuristic(pt, goal), Some(c))],
                     open + [|arena|], closed, order + [-1])
    ensures (arena + [Node(pt, gScore, Heuristic(pt, goal), gScore + Heuristic(pt, goal), Some(c))])[c] == arena[c]
    ensures (order + [-1])[c] == order[c]
  {
    var arena' := arena + [Node(pt, gScore, Heuristic(pt, goal), gScore + Heuristic(pt, goal), Some(c))];
    assert Near(layout.gridSize, pt, pt);
    assert Step(layout, arena'[c].pt, pt);
  }

  /** Giving an open node a cheaper cost and the last closed node as parent keeps the state. */
  lemma RelinkKeepsExplored(layout: StoreLayout, start: Point, goal: Point,
                            arena: seq<Node>, open: seq<nat>, closed: seq<nat>, order: seq<int>,
                            c: nat, e: nat, pt: Point, gScore: real)
    requires Explored(layout, start, goal, arena, open, closed, order)
    requires c < |arena| && 0 <= order[c]
    requires e < |arena| && order[e] == -1
    requires pt in Neighbors(layout, arena[c].pt) && Near(layout.gridSize, arena[e].pt, pt) && gScore >= 0.0
    ensures Explored(layout, start, goal,
                     arena[e := arena[e].(g := gScore, f := gScore + arena[e].h, parent := Some(c))],
                     open, closed, order)
    ensures arena[e := arena[e].(g := gScore, f := gScore + arena[e].h, parent := Some(c))][c].pt == arena[c].pt
  {
    var arena' := arena[e := arena[e].(g := gScore, f := gScore + arena[e].h, parent := Some(c))];
    assert Near(layout.gridSize, pt, arena[e].pt);
    assert Step(layout, arena'[c].pt, arena'[e].pt);
    forall i | 0 <= i < |arena'| && arena'[i].parent.Some? && arena'[i].parent.value < |arena'|
      ensures Step(layout, arena'[arena'[i].parent.value].pt, arena'[i].pt)
    {
      if i != e {
        assert arena'[i] == arena[i] && arena'[arena[i].parent.value].pt == arena[arena[i].parent.value].pt;
      }
    }
    assert Ranked(arena', order, |closed|);
    assert forall i | 0 <= i < |arena'| :: arena'[i].parent.None? ==> arena'[i].pt == start;
    assert forall i | 0 <= i < |arena'| :: arena'[i].h == (if i == 0 then 0.0 else Heuristic(arena'[i].pt, goal));
    assert forall i | 0 <= i < |arena'| :: arena'[i].g >= 0.0 && arena'[i].f == arena'[i].g + arena'[i].h;
  }

  /**
    Every chain ends at the start, and each position on it is a step from the
    next one.
  */
  lemma {:induction false} ChainSteps(layout: StoreLayout, start: Point, goal: Point,
                                      arena: seq<Node>, open: seq<nat>, closed: seq<nat>, order: seq<int>, i: nat)
    requires Explored(layout, start, goal, arena, open, closed, order) && i < |arena|
    ensures var c := Chain(arena, order, |closed|, i);
      && c[|c| - 1] == start
      && forall k | 0 <= k < |c| - 1 :: Step(layout, c[k + 1], c[k])
    decreases Rank(order, i, |closed|)
  {
    match arena[i].parent
    case None =>
    case Some(p) =>
      ChainSteps(layout, start, goal, arena, open, closed, order, p);
      var rest := Chain(arena, order, |closed|, p);
      assert Chain(arena, order, |closed|, i) == [arena[i].pt] + rest;
  }

  /** Follows the parents from node `c` to the root and reverses the result. */
  method Reconstruct(arena: seq<Node>, ghost order: seq<int>, ghost n: int, c: nat) returns (path: seq<Point>)
    requires Ranked(arena, order, n) && c < |arena|
    ensures path == Reverse(Chain(arena, order, n, c))
  {
    var trail: seq<Point> := [];
    var temp: Option<nat> := Some(c);
    while temp.Some?
      invariant temp.Some? ==> temp.value < |arena| && trail + Chain(arena, order, n, temp.value) == Chain(arena, order, n, c)
      invariant temp.None? ==> trail == Chain(arena, order, n, c)
      decreases if temp.Some? then Rank(order, temp.value, n) + 1 else 0
    {
      var node := arena[temp.value];
      trail := trail + [node.pt];
      temp := node.parent;
    }
    path := Reverse(trail);
  }

  /** Every open and closed entry is an arena index. */
  predicate Indexed(arena: seq<Node>, open: seq<nat>, closed: seq<nat>) {
    && (forall k | 0 <= k < |open| :: open[k] < |arena|)
    && (forall k | 0 <= k < |closed| :: closed[k] < |arena|)
  }

  /**
    One neighbour of the just-closed node `c` (whose node is `current`), on
    the arena and the open set: a neighbour near a closed node changes
    nothing; one near no open node is appended with g = current.g + cost,
    the Manhattan estimate, f = g + h and parent `c`; otherwise the first
    open node near it takes that g, f = g + h and parent `c` when the new g
    is lower, and is left as it was when it is not.
  */
  function VisitStep(g: int, cost: (Point, Point) -> real, endPoint: Point,
                     arena: seq<Node>, open: seq<nat>, closed: seq<nat>,
                     c: nat, current: Node, neighbor: Point): (r: (seq<Node>, seq<nat>))
    requires Indexed(arena, open, closed)
    ensures Indexed(r.0, r.1, closed) && |r.0| >= |arena|
  {
    if exists k | 0 <= k < |closed| :: Near(g, arena[closed[k]].pt, neighbor) then (arena, open)
    else
      var gScore := current.g + cost(current.pt, neighbor);
      match FindOpen(arena, open, g, neighbor)
      case None =>
        var h := Heuristic(neighbor, endPoint);
        (arena + [Node(neighbor, gScore, h, gScore + h, Some(c))], open + [|arena|])
      case Some(k) =>
        (Relink(arena, open[k], gScore, c), open)
  }

  /** The open node `e` after a route of cost `gScore` through `c` reaches it. */
  function Relink(arena: seq<Node>, e: nat, gScore: real, c: nat): (r: seq<Node>)
    requires e < |arena|
    ensures |r| == |arena| && r[e].pt == arena[e].pt
    ensures forall i | 0 <= i < |arena| && i != e :: r[i] == arena[i]
    ensures r[e].g == (if gScore < arena[e].g then gScore else arena[e].g)
  {
    if gScore < arena[e].g
    then arena[e := arena[e].(g := gScore, f := gScore + arena[e].h, parent := Some(c))]
    else arena
  }

  /** A neighbour that lies on a closed node leaves the state as it is. */
  lemma VisitStepClosed(g: int, cost: (Point, Point) -> real, endPoint: Point,
                        arena: seq<Node>, open: seq<nat>, closed: seq<nat>,
                        c: nat, current: Node, neighbor: Point, k: nat)
    requires Indexed(arena, open, closed)
    requires k < |closed| && Near(g, arena[closed[k]].pt, neighbor)
    ensures VisitStep(g, cost, endPoint, arena, open, closed, c, current, neighbor) == (arena, open)
  {
  }

  /** A neighbour on no closed node and no open node is appended and opened. */
  lemma VisitStepFresh(g: int, cost: (Point, Point) -> real, endPoint: Point,
                       arena: seq<Node>, open: seq<nat>, closed: seq<nat>,
                       c: nat, current: Node, neighbor: Point)
    requires Indexed(arena, open, closed)
    requires forall k | 0 <= k < |closed| :: !Near(g, arena[closed[k]].pt, neighbor)
    requires FindOpen(arena, open, g, neighbor).None?
    ensures var gScore := current.g + cost(current.pt, neighbor);
      var h := Heuristic(neighbor, endPoint);
      VisitStep(g, cost, endPoint, arena, open, closed, c, current, neighbor)
        == (arena + [Node(neighbor, gScore, h, gScore + h, Some(c))], open + [|arena|])
  {
  }

  /** A neighbour already open is relinked when the new route to it is cheaper. */
  lemma VisitStepOpen(g: int, cost: (Point, Point) -> real, endPoint: Point,
                      arena: seq<Node>, open: seq<nat>, closed: seq<nat>,
                      c: nat, current: Node, neighbor: Point, k: nat)
    requires Indexed(arena, open, closed)
    requires forall k | 0 <= k < |closed| :: !Near(g, arena[closed[k]].pt, neighbor)
    requires FindOpen(arena, open, g, neighbor) == Some(k) && k < |open|
    ensures VisitStep(g, cost, endPoint, arena, open, closed, c, current, neighbor)
      == (Relink(arena, open[k], current.g + cost(current.pt, neighbor), c), open)
  {
  }

  /** The neighbours `ns` visited in order, starting from `arena` and `open`. */
  function VisitAll(g: int, cost: (Point, Point) -> real, endPoint: Point,
                    arena: seq<Node>, open: seq<nat>, closed: seq<nat>,
                    c: nat, current: Node, ns: seq<Point>): (r: (seq<Node>, seq<nat>))
    requires Indexed(arena, open, closed)
    ensures Indexed(r.0, r.1, closed) && |r.0| >= |arena|
    decreases |ns|
  {
    if |ns| == 0 then (arena, open)
    else
      var s := VisitStep(g, cost, endPoint, arena, open, closed, c, current, ns[0]);
      VisitAll(g, cost, endPoint, s.0, s.1, closed, c, current, ns[1..])
  }

  /** A node keeps its position and never gets dearer. */
  predicate Relaxed(before: seq<Node>, after: seq<Node>) {
    |before| <= |after| && forall i | 0 <= i < |before| :: after[i].pt == before[i].pt && after[i].g <= before[i].g
  }

  /**
    Visiting a neighbour only appends nodes or lowers costs, and afterwards
    some node of the arena lies within the duplicate radius of the neighbour.
  */
  lemma VisitStepRelaxes(g: int, cost: (Point, Point) -> real, endPoint: Point,
                         arena: seq<Node>, open: seq<nat>, closed: seq<nat>,
                         c: nat, current: Node, neighbor: Point)
    requires g > 0 && Indexed(arena, open, closed)
    ensures var r := VisitStep(g, cost, endPoint, arena, open, closed, c, current, neighbor);
      Relaxed(arena, r.0) && exists i | 0 <= i < |r.0| :: Near(g, r.0[i].pt, neighbor)
  {
    var r := VisitStep(g, cost, endPoint, arena, open, closed, c, current, neighbor);
    if exists k | 0 <= k < |closed| :: Near(g, arena[closed[k]].pt, neighbor) {
      var k :| 0 <= k < |closed| && Near(g, arena[closed[k]].pt, neighbor);
      assert Near(g, r.0[closed[k]].pt, neighbor);
    } else {
      match FindOpen(arena, open, g, neighbor)
      case None =>
        assert Near(g, r.0[|arena|].pt, neighbor);
      case Some(k) =>
        assert Near(g, r.0[open[k]].pt, neighbor);
    }
  }

  lemma RelaxedTrans(a: seq<Node>, b: seq<Node>, c: seq<Node>)
    requires Relaxed(a, b) && Relaxed(b, c)
    ensures Relaxed(a, c)
  {
  }

  /**
    Expanding a node only appends nodes or lowers costs, and afterwards every
    neighbour has a node of the arena within the duplicate radius.
  */
  lemma {:induction false} VisitAllRelaxes(g: int, cost: (Point, Point) -> real, endPoint: Point,
                                           arena: seq<Node>, open: seq<nat>, closed: seq<nat>,
                                           c: nat, current: Node, ns: seq<Point>)
    requires g > 0 && Indexed(arena, open, closed)
    ensures var r := VisitAll(g, cost, endPoint, arena, open, closed, c, current, ns);
      && Relaxed(arena, r.0)
      && forall j | 0 <= j < |ns| :: exists i | 0 <= i < |r.0| :: Near(g, r.0[i].pt, ns[j])
    decreases |ns|
  {
    if |ns| > 0 {
      var s := VisitStep(g, cost, endPoint, arena, open, closed, c, current, ns[0]);
      VisitStepRelaxes(g, cost, endPoint, arena, open, closed, c, current, ns[0]);
      VisitAllRelaxes(g, cost, endPoint, s.0, s.1, closed, c, current, ns[1..]);
      var r := VisitAll(g, cost, endPoint, s.0, s.1, closed, c, current, ns[1..]);
      RelaxedTrans(arena, s.0, r.0);
      forall j | 0 <= j < |ns| ensures exists i | 0 <= i < |r.0| :: Near(g, r.0[i].pt, ns[j]) {
        if j == 0 {
          var i :| 0 <= i < |s.0| && Near(g, s.0[i].pt, ns[0]);
          assert r.0[i].pt == s.0[i].pt;
        } else {
          assert ns[j] == ns[1..][j - 1];
        }
      }
    }
  }

  /**
    Examines one neighbour of the just-closed node `c`: a neighbour near a
    closed node is skipped; one near no open node is appended with cost
    `current.g + cost(current.pt, neighbor)` and the Manhattan estimate; one
    near an open node relinks that node when the new cost is lower.
  */
  method Visit(layout: StoreLayout, cost: (Point, Point) -> real, ghost start: Point, endPoint: Point,
               arena0: seq<Node>, open0: seq<nat>, closed: seq<nat>, ghost order0: seq<int>,
               c: nat, current: Node, neighbor: Point)
    returns (arena: seq<Node>, open: seq<nat>, ghost order: seq<int>)
    requires Explored(layout, start, endPoint, arena0, open0, closed, order0)
    requires c < |arena0| && 0 <= order0[c] && arena0[c].pt == current.pt && current.g >= 0.0
    requires neighbor in Neighbors(layout, current.pt)
    requires forall a, b :: cost(a, b) >= 0.0
    ensures Explored(layout, start, endPoint, arena, open, closed, order)
    ensures c < |arena| && 0 <= order[c] && arena[c].pt == current.pt
    ensures (arena, open) == VisitStep(layout.gridSize, cost, endPoint, arena0, open0, closed, c, current, neighbor)
  {
    arena, open, order := arena0, open0, order0;
    var g := layout.gridSize;
    if k :| 0 <= k < |closed| && Near(g, arena[closed[k]].pt, neighbor) {
      VisitStepClosed(g, cost, endPoint, arena0, open0, closed, c, current, neighbor, k);
      return;
    }
    arena, open, order := VisitUnclosed(layout, cost, start, endPoint, arena0, open0, closed, order0, c, current, neighbor);
  }

  /** The part of `Visit` for a neighbour that lies on no closed node. */
  method VisitUnclosed(layout: StoreLayout, cost: (Point, Point) -> real, ghost start: Point, endPoint: Point,
                       arena0: seq<Node>, open0: seq<nat>, closed: seq<nat>, ghost order0: seq<int>,
                       c: nat, current: Node, neighbor: Point)
    returns (arena: seq<Node>, open: seq<nat>, ghost order: seq<int>)
    requires Explored(layout, start, endPoint, arena0, open0, closed, order0)
    requires c < |arena0| && 0 <= order0[c] && arena0[c].pt == current.pt && current.g >= 0.0
    requires neighbor in Neighbors(layout, current.pt)
    requires forall a, b :: cost(a, b) >= 0.0
    requires forall k | 0 <= k < |closed| :: !Near(layout.gridSize, arena0[closed[k]].pt, neighbor)
    ensures Explored(layout, start, endPoint, arena, open, closed, order)
    ensures c < |arena| && 0 <= order[c] && arena[c].pt == current.pt
    ensures (arena, open) == VisitStep(layout.gridSize, cost, endPoint, arena0, open0, closed, c, current, neighbor)
  {
    arena, open, order := arena0, open0, order0;
    var gScore := current.g + cost(current.pt, neighbor);
    var existing := FindOpen(arena, open, layout.gridSize, neighbor);
    if existing.None? {
      VisitStepFresh(layout.gridSize, cost, endPoint, arena0, open0, closed, c, current, neighbor);
      arena, open, order := AddNeighbor(layout, start, endPoint, arena, open, closed, order, c, neighbor, gScore);
    } else {
      var e := open[existing.value];
      VisitStepOpen(layout.gridSize, cost, endPoint, arena0, open0, closed, c, current, neighbor, existing.value);
      arena := RelinkNeighbor(layout, start, endPoint, arena, open, closed, order, c, e, neighbor, gScore);
    }
  }

  /** Appends the neighbour as an open node with the last closed node as parent. */
  method AddNeighbor(layout: StoreLayout, ghost start: Point, endPoint: Point,
                     arena0: seq<Node>, open0: seq<nat>, closed: seq<nat>, ghost order0: seq<int>,
                     c: nat, neighbor: Point, gScore: real)
    returns (arena: seq<Node>, open: seq<nat>, ghost order: seq<int>)
    requires Explored(layout, start, endPoint, arena0, open0, closed, order0)
    requires c < |arena0| && 0 <= order0[c]
    requires neighbor in Neighbors(layout, arena0[c].pt) && gScore >= 0.0
    ensures Explored(layout, start, endPoint, arena, open, closed, order)
    ensures c < |arena| && order[c] == order0[c] && arena[c] == arena0[c]
    ensures arena == arena0 + [Node(neighbor, gScore, Heuristic(neighbor, endPoint), gScore + Heuristic(neighbor, endPoint), Some(c))]
    ensures open == open0 + [|arena0|]
  {
    AddKeepsExplored(layout, start, endPoint, arena0, open0, closed, order0, c, neighbor, gScore);
    var h := Heuristic(neighbor, endPoint);
    arena := arena0 + [Node(neighbor, gScore, h, gScore + h, Some(c))];
    order := order0 + [-1];
    open := open0 + [|arena0|];
  }

  /** Gives the open node `e` the lower cost `gScore` and the last closed node as parent, when it is lower. */
  method RelinkNeighbor(layout: StoreLayout, ghost start: Point, endPoint: Point,
                        arena0: seq<Node>, open: seq<nat>, closed: seq<nat>, ghost order: seq<int>,
                        c: nat, e: nat, neighbor: Point, gScore: real)
    returns (arena: seq<Node>)
    requires Explored(layout, start, endPoint, arena0, open, closed, order)
    requires c < |arena0| && 0 <= order[c]
    requires e in open && Near(layout.gridSize, arena0[e].pt, neighbor)
    requires neighbor in Neighbors(layout, arena0[c].pt) && gScore >= 0.0
    ensures Explored(layout, start, endPoint, arena, open, closed, order)
    ensures c < |arena| && arena[c].pt == arena0[c].pt
    ensures arena == Relink(arena0, e, gScore, c)
  {
    arena := arena0;
    if gScore < arena[e].g {
      RelinkKeepsExplored(layout, start, endPoint, arena, open, closed, order, c, e, neighbor, gScore);
      arena := arena[e := arena[e].(g := gScore, f := gScore + arena[e].h, parent := Some(c))];
    }
  }

  /** Visits the neighbours of the just-closed node `c` in list order. */
  method Expand(layout: StoreLayout, cost: (Point, Point) -> real, ghost start: Point, endPoint: Point,
                arena0: seq<Node>, open0: seq<nat>, closed: seq<nat>, ghost order0: seq<int>, c: nat)
    returns (arena: seq<Node>, open: seq<nat>, ghost order: seq<int>)
    requires Explored(layout, start, endPoint, arena0, open0, closed, order0)
    requires c < |arena0| && 0 <= order0[c]
    requires forall a, b :: cost(a, b) >= 0.0
    ensures Explored(layout, start, endPoint, arena, open, closed, order)
    ensures (arena, open) == VisitAll(layout.gridSize, cost, endPoint, arena0, open0, closed, c, arena0[c],
                                      Neighbors(layout, arena0[c].pt))
  {
    arena, open, order := arena0, open0, order0;
    var current := arena[c];
    var neighbors := GetNeighbors(layout, current.pt);
    var j := 0;
    while j < |neighbors|
      invariant 0 <= j <= |neighbors|
      invariant Explored(layout, start, endPoint, arena, open, closed, order)
      invariant c < |arena| && 0 <= order[c] && arena[c].pt == current.pt
      invariant VisitAll(layout.gridSize, cost, endPoint, arena, open, closed, c, current, neighbors[j..])
        == VisitAll(layout.gridSize, cost, endPoint, arena0, open0, closed, c, current, neighbors)
    {
      assert neighbors[j..][1..] == neighbors[j + 1..];
      arena, open, order := Visit(layout, cost, start, endPoint, arena, open, closed, order, c, current, neighbors[j]);
      j := j + 1;
    }
  }

  /**
    The grid A* search from `startPoint` towards `endPoint`. `cost` is the
    move cost (Euclidean distance in the store map); `fuel` bounds the number
    of nodes expanded. A reached path starts at `startPoint`, ends strictly
    within one grid step of `endPoint`, and each position is a neighbour of
    the one before it, up to half a grid step.
  */
  method SearchGrid(layout: StoreLayout, cost: (Point, Point) -> real, startPoint: Point, endPoint: Point, fuel: nat)
    returns (result: SearchResult)
    requires layout.gridSize > 0
    requires forall a, b :: cost(a, b) >= 0.0
    ensures result.Reached? ==>
      && |result.path| >= 1
      && result.path[0] == startPoint
      && AtGoal(layout.gridSize, result.path[|result.path| - 1], endPoint)
      && forall k | 0 <= k < |result.path| - 1 :: Step(layout, result.path[k], result.path[k + 1])
  {
    var arena := [Node(startPoint, 0.0, 0.0, 0.0, None)];
    var open: seq<nat> := [0];
    var closed: seq<nat> := [];
    ghost var order: seq<int> := [-1];
    var expanded := 0;
    while |open| > 0
      invariant expanded <= fuel
      invariant Explored(layout, startPoint, endPoint, arena, open, closed, order)
      decreases fuel - expanded
    {
      if expanded == fuel {
        return OutOfFuel;
      }
      expanded := expanded + 1;
      var currentIndex := LowestF(arena, open);
      var c := open[currentIndex];
      if AtGoal(layout.gridSize, arena[c].pt, endPoint) {
        var path := Reconstruct(arena, order, |closed|, c);
        ChainSteps(layout, startPoint, endPoint, arena, open, closed, order, c);
        return Reached(path);
      }
      CloseKeepsExplored(layout, startPoint, endPoint, arena, open, closed, order, currentIndex);
      open := open[..currentIndex] + open[currentIndex + 1..];
      order := order[c := |closed|];
      closed := closed + [c];
      arena, open, order := Expand(layout, cost, startPoint, endPoint, arena, open, closed, order, c);
    }
    return Exhausted;
  }
}
