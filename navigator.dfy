/**
  The map screen's route planning: one route from a point to a point
  (snap both ends to the aisles, search the grid, smooth, draw), the legs
  through the departments a shopping list needs, in the store's fixed
  visiting order, plus the department colouring and the pan clamp.
*/
module Navigator {
  import opened Wrappers
  import opened Geometry
  import opened Layout
  import opened AisleGraph
  import opened AStar
  import opened PathSmoother
  import opened ShoppingList

  // ---------------------------------------------------------------------------
  // One route

  /** A drawn point within one grid cell of an integer point on both axes. */
  predicate EndsNear(g: int, r: RPoint, p: Point) {
    RAbs(r.x - p.x as real) < g as real && RAbs(r.y - p.y as real) < g as real
  }

  lemma AtGoalEndsNear(g: int, q: Point, p: Point)
    requires AtGoal(g, q, p)
    ensures EndsNear(g, ToReal(q), p)
  {
  }

  /** Where `findNearestAislePoint` moves a point. */
  function Snap(layout: StoreLayout, p: Point): Point {
    NearestAislePoint(p, layout.aisles)
  }

  /**
    What a drawn route from `from` to `to` looks like: either nothing, or a
    path of at least two segments that begins at the aisle point nearest
    `from` and ends within one grid cell of the aisle point nearest `to`.
  */
  predicate RouteShape(layout: StoreLayout, route: seq<Segment>, from: Point, to: Point) {
    route == []
      || (&& |route| >= 2
          && route[0] == MoveTo(ToReal(Snap(layout, from)))
          && EndsNear(layout.gridSize, route[|route| - 1].end, Snap(layout, to)))
  }

  /**
    `findPath`: snaps both ends to the aisles, runs the grid search between
    the snapped points, smooths the node path it reconstructs and draws it
    as curves; the empty route when the search finds nothing. `cost` is the
    move cost and `fuel` bounds the number of search rounds.
  */
  method FindPath(layout: StoreLayout, cost: (Point, Point) -> real, fuel: nat, start: Point, end: Point)
    returns (route: seq<Segment>)
    requires layout.gridSize > 0
    requires forall a, b :: cost(a, b) >= 0.0
    ensures RouteShape(layout, route, start, end)
  {
    var startPoint := FindNearestAislePoint(layout.aisles, start);
    var endPoint := FindNearestAislePoint(layout.aisles, end);
    var result := SearchGrid(layout, cost, startPoint, endPoint, fuel);
    if !result.Reached? {
      return [];
    }
    route := DrawRoute(layout, result.path, endPoint);
  }

  /**
    The tail of `findPath` once the search has reached the goal: smooths the
    node path and draws it. The drawing starts where the path starts and
    ends within one grid cell of the goal.
  */
  method DrawRoute(layout: StoreLayout, path: seq<Point>, endPoint: Point) returns (route: seq<Segment>)
    requires layout.gridSize > 0 && |path| >= 1
    requires AtGoal(layout.gridSize, path[|path| - 1], endPoint)
    ensures route == []
      || (&& |route| >= 2
          && route[0] == MoveTo(ToReal(path[0]))
          && EndsNear(layout.gridSize, route[|route| - 1].end, endPoint))
  {
    var smoothedPath := SmoothPath(layout, path);
    SmoothedEnds(layout, path);
    route := CreateSmoothSvgPath(smoothedPath);
    if |smoothedPath| >= 2 {
      AtGoalEndsNear(layout.gridSize, smoothedPath[|smoothedPath| - 1], endPoint);
    }
  }

  // ---------------------------------------------------------------------------
  // Departments to visit

  /** The visiting order, matching the aisle layout. */
  function OptimalOrder(): seq<DeptName> {
    [FruitsAndVegetables, Bakery, Beverages, PantryStaples, SnacksAndSweets,
     HouseholdEssentials, FrozenFoods, DairyAndEggs, MeatAndSeafood]
  }

  /** A department's place in the visiting order. */
  function OrderRank(d: DeptName): (r: nat)
    ensures r < |OptimalOrder()| && OptimalOrder()[r] == d
  {
    match d
    case FruitsAndVegetables => 0
    case Bakery => 1
    case Beverages => 2
    case PantryStaples => 3
    case SnacksAndSweets => 4
    case HouseholdEssentials => 5
    case FrozenFoods => 6
    case DairyAndEggs => 7
    case MeatAndSeafood => 8
  }

  /** The visiting order lists each department exactly once. */
  lemma OptimalOrderIsPermutation()
    ensures |OptimalOrder()| == 9
    ensures forall i, j | 0 <= i < j < |OptimalOrder()| :: OptimalOrder()[i] != OptimalOrder()[j]
    ensures forall d: DeptName :: d in OptimalOrder()
  {
    forall d: DeptName ensures d in OptimalOrder() {
      assert OptimalOrder()[OrderRank(d)] == d;
    }
  }

  /** The items of category `c`, in list order. */
  function ItemsIn(items: seq<Item>, c: string): (r: seq<Item>)
    ensures |r| <= |items|
    ensures forall k | 0 <= k < |r| :: r[k].category == c && r[k] in items
  {
    if |items| == 0 then []
    else ItemsIn(items[..|items| - 1], c) + (if items[|items| - 1].category == c then [items[|items| - 1]] else [])
  }

  lemma {:induction false} ItemsInMembers(items: seq<Item>, c: string, x: Item)
    ensures x in ItemsIn(items, c) <==> x in items && x.category == c
  {
    if |items| > 0 {
      ItemsInMembers(items[..|items| - 1], c, x);
      assert items == items[..|items| - 1] + [items[|items| - 1]];
    }
  }

  /** The list holds an item of department `d`. */
  predicate Wanted(items: seq<Item>, d: DeptName) {
    |ItemsIn(items, CategoryName(d))| > 0
  }

  lemma WantedIff(items: seq<Item>, d: DeptName)
    ensures Wanted(items, d) <==> exists k | 0 <= k < |items| :: items[k].category == CategoryName(d)
  {
    var r := ItemsIn(items, CategoryName(d));
    if Wanted(items, d) {
      assert r[0] in items;
    } else if exists k | 0 <= k < |items| :: items[k].category == CategoryName(d) {
      var k :| 0 <= k < |items| && items[k].category == CategoryName(d);
      ItemsInMembers(items, CategoryName(d), items[k]);
    }
  }

  /**
    The category groups: every category on the list maps to its items in
    list order, and no other category is present.
  */
  method GroupByCategory(items: seq<Item>) returns (groups: map<string, seq<Item>>)
    ensures forall c :: c in groups <==> |ItemsIn(items, c)| > 0
    ensures forall c | c in groups :: groups[c] == ItemsIn(items, c)
  {
    groups := map[];
    var i := 0;
    while i < |items|
      invariant 0 <= i <= |items|
      invariant forall c :: c in groups <==> |ItemsIn(items[..i], c)| > 0
      invariant forall c | c in groups :: groups[c] == ItemsIn(items[..i], c)
    {
      var item := items[i];
      assert items[..i + 1][..i] == items[..i];
      if item.category !in groups {
        groups := groups[item.category := []];
      }
      groups := groups[item.category := groups[item.category] + [item]];
      i := i + 1;
    }
    assert items[..i] == items;
  }

  /** The departments of `order` whose group is non-empty, in that order. */
  function Present(order: seq<DeptName>, groups: map<string, seq<Item>>): seq<DeptName> {
    if |order| == 0 then []
    else
      var here := CategoryName(order[0]) in groups && |groups[CategoryName(order[0])]| > 0;
      (if here then [order[0]] else []) + Present(order[1..], groups)
  }

  /** The departments of `order` the list needs, in that order. */
  function WantedIn(order: seq<DeptName>, items: seq<Item>): (r: seq<DeptName>)
    ensures |r| <= |order|
  {
    if |order| == 0 then []
    else (if Wanted(items, order[0]) then [order[0]] else []) + WantedIn(order[1..], items)
  }

  /** The departments to visit for a shopping list. */
  function DepartmentsToVisit(items: seq<Item>): seq<DeptName> {
    WantedIn(OptimalOrder(), items)
  }

  lemma {:induction false} PresentIsWanted(order: seq<DeptName>, groups: map<string, seq<Item>>, items: seq<Item>)
    requires forall c :: c in groups <==> |ItemsIn(items, c)| > 0
    requires forall c | c in groups :: groups[c] == ItemsIn(items, c)
    ensures Present(order, groups) == WantedIn(order, items)
  {
    if |order| > 0 {
      PresentIsWanted(order[1..], groups, items);
    }
  }

  lemma {:induction false} WantedInMembers(order: seq<DeptName>, items: seq<Item>, d: DeptName)
    ensures d in WantedIn(order, items) <==> d in order && Wanted(items, d)
  {
    if |order| > 0 {
      var head, tail := order[0], order[1..];
      var rest := WantedIn(tail, items);
      WantedInMembers(tail, items, d);
      var front := if Wanted(items, head) then [head] else [];
      assert WantedIn(order, items) == front + rest;
      assert d in front <==> d == head && Wanted(items, d);
      assert d in order <==> d == head || d in tail by {
        assert order == [head] + tail;
      }
    }
  }

  predicate RankIncreasing(s: seq<DeptName>) {
    forall i, j | 0 <= i < j < |s| :: OrderRank(s[i]) < OrderRank(s[j])
  }

  lemma {:induction false} WantedInOrdered(order: seq<DeptName>, items: seq<Item>)
    requires RankIncreasing(order)
    ensures RankIncreasing(WantedIn(order, items))
  {
    if |order| > 0 {
      var head, tail := order[0], order[1..];
      RankIncreasingSplit(order);
      var rest := WantedIn(tail, items);
      WantedInOrdered(tail, items);
      if Wanted(items, head) {
        forall k | 0 <= k < |rest| ensures OrderRank(head) < OrderRank(rest[k]) {
          WantedInMembers(tail, items, rest[k]);
        }
        RankIncreasingCons(head, rest);
        assert WantedIn(order, items) == [head] + rest;
      } else {
        assert WantedIn(order, items) == rest;
      }
    }
  }

  lemma RankIncreasingSplit(s: seq<DeptName>)
    requires |s| > 0 && RankIncreasing(s)
    ensures RankIncreasing(s[1..])
    ensures forall d | d in s[1..] :: OrderRank(s[0]) < OrderRank(d)
  {
    forall i, j | 0 <= i < j < |s| - 1 ensures OrderRank(s[1..][i]) < OrderRank(s[1..][j]) {
      assert s[1..][i] == s[i + 1] && s[1..][j] == s[j + 1];
    }
  }

  lemma RankIncreasingCons(d: DeptName, s: seq<DeptName>)
    requires RankIncreasing(s)
    requires forall k | 0 <= k < |s| :: OrderRank(d) < OrderRank(s[k])
    ensures RankIncreasing([d] + s)
  {
    var r := [d] + s;
    forall i, j | 0 <= i < j < |r| ensures OrderRank(r[i]) < OrderRank(r[j]) {
      assert r[j] == s[j - 1];
      if i > 0 {
        assert r[i] == s[i - 1];
      }
    }
  }

  /**
    The departments to visit are exactly those the list holds an item of,
    each once, in the fixed visiting order.
  */
  lemma DepartmentsToVisitContract(items: seq<Item>)
    ensures forall d: DeptName :: d in DepartmentsToVisit(items) <==> Wanted(items, d)
    ensures forall i, j | 0 <= i < j < |DepartmentsToVisit(items)| ::
      OrderRank(DepartmentsToVisit(items)[i]) < OrderRank(DepartmentsToVisit(items)[j])
  {
    var r := DepartmentsToVisit(items);
    OptimalOrderIsPermutation();
    forall d: DeptName ensures d in r <==> Wanted(items, d) {
      WantedInMembers(OptimalOrder(), items, d);
    }
    WantedInOrdered(OptimalOrder(), items);
  }

  lemma {:induction false} WantedInDependsOnCategories(order: seq<DeptName>, a: seq<Item>, b: seq<Item>)
    requires forall d: DeptName :: Wanted(a, d) <==> Wanted(b, d)
    ensures WantedIn(order, a) == WantedIn(order, b)
  {
    if |order| > 0 {
      WantedInDependsOnCategories(order[1..], a, b);
    }
  }

  /**
    Only which departments the list touches matters: quantities, names,
    the number of items per department and their order change nothing.
  */
  lemma DepartmentsDependOnCategoriesOnly(a: seq<Item>, b: seq<Item>)
    requires forall d: DeptName :: Wanted(a, d) <==> Wanted(b, d)
    ensures DepartmentsToVisit(a) == DepartmentsToVisit(b)
  {
    WantedInDependsOnCategories(OptimalOrder(), a, b);
  }

  // ---------------------------------------------------------------------------
  // Legs

  /** Every department has an entry, and every department's centre is a whole point. */
  predicate Navigable(layout: StoreLayout) {
    && layout.gridSize > 0
    && (forall i | 0 <= i < |layout.departments| ::
          layout.departments[i].box.width % 2 == 0 && layout.departments[i].box.height % 2 == 0)
    && forall d: DeptName :: Listed(layout, d)
  }

  predicate Listed(layout: StoreLayout, d: DeptName) {
    exists i | 0 <= i < |layout.departments| :: layout.departments[i].name == d
  }

  lemma ShippedNavigable()
    ensures Navigable(Shipped())
  {
    var depts := Shipped().departments;
    forall d: DeptName ensures Listed(Shipped(), d) {
      match d
      case FruitsAndVegetables => assert depts[0].name == d;
      case Bakery => assert depts[1].name == d;
      case DairyAndEggs => assert depts[2].name == d;
      case MeatAndSeafood => assert depts[3].name == d;
      case Beverages => assert depts[4].name == d;
      case FrozenFoods => assert depts[5].name == d;
      case PantryStaples => assert depts[6].name == d;
      case SnacksAndSweets => assert depts[7].name == d;
      case HouseholdEssentials => assert depts[8].name == d;
    }
  }

  /** The centre of a department's box. */
  function DeptCenter(layout: StoreLayout, d: DeptName): Point
    requires Navigable(layout)
  {
    assert Listed(layout, d);
    var found := FindDepartment(layout.departments, d);
    assert found.Some? && found.value in layout.departments;
    Center(found.value)
  }

  /** The points the legs run between: the entrance, then each department's centre in turn. */
  function Stops(layout: StoreLayout, visit: seq<DeptName>): (r: seq<Point>)
    requires Navigable(layout)
    ensures |r| == |visit| + 1 && r[0] == layout.entrance
    ensures forall k | 0 <= k < |visit| :: r[k + 1] == DeptCenter(layout, visit[k])
  {
    if |visit| == 0 then [layout.entrance]
    else Stops(layout, visit[..|visit| - 1]) + [DeptCenter(layout, visit[|visit| - 1])]
  }

  /** Route `j` runs from stop `j` to stop `j + 1`, for every `j < n`. */
  predicate LegsFollow(layout: StoreLayout, paths: seq<seq<Segment>>, stops: seq<Point>, n: nat)
    requires n <= |paths| && n < |stops|
  {
    forall j | 0 <= j < n :: RouteShape(layout, paths[j], stops[j], stops[j + 1])
  }

  lemma LegsExtend(layout: StoreLayout, paths: seq<seq<Segment>>, stops: seq<Point>, route: seq<Segment>)
    requires |paths| + 1 < |stops|
    requires LegsFollow(layout, paths, stops, |paths|)
    requires RouteShape(layout, route, stops[|paths|], stops[|paths| + 1])
    ensures LegsFollow(layout, paths + [route], stops, |paths| + 1)
  {
    var next := paths + [route];
    forall j | 0 <= j < |paths| + 1
      ensures RouteShape(layout, next[j], stops[j], stops[j + 1])
    {
      if j < |paths| {
        assert next[j] == paths[j];
      }
    }
  }

  /** The leg loop: one route per department, each starting where the previous one aimed. */
  method RouteLegs(layout: StoreLayout, cost: (Point, Point) -> real, fuel: nat, departmentsToVisit: seq<DeptName>)
    returns (paths: seq<seq<Segment>>)
    requires Navigable(layout)
    requires forall a, b :: cost(a, b) >= 0.0
    ensures |paths| == |departmentsToVisit|
    ensures LegsFollow(layout, paths, Stops(layout, departmentsToVisit), |paths|)
  {
    ghost var stops := Stops(layout, departmentsToVisit);
    paths := [];
    var start := layout.entrance;
    var k := 0;
    while k < |departmentsToVisit|
      invariant 0 <= k <= |departmentsToVisit| && |paths| == k
      invariant start == stops[k]
      invariant LegsFollow(layout, paths, stops, k)
    {
      var nextPoint := DeptCenter(layout, departmentsToVisit[k]);
      var segmentPath := FindPath(layout, cost, fuel, start, nextPoint);
      LegsExtend(layout, paths, stops, segmentPath);
      paths := paths + [segmentPath];
      start := nextPoint;
      k := k + 1;
    }
  }

  /**
    `generateShoppingPaths`: nothing for an empty list; otherwise one route
    per department to visit, in the visiting order, the first from the
    entrance and each next one from the centre of the department before,
    each towards its department's centre.
  */
  method GenerateShoppingPaths(layout: StoreLayout, cost: (Point, Point) -> real, fuel: nat, shoppingList: seq<Item>)
    returns (paths: seq<seq<Segment>>)
    requires Navigable(layout)
    requires forall a, b :: cost(a, b) >= 0.0
    ensures |paths| == |DepartmentsToVisit(shoppingList)|
    ensures LegsFollow(layout, paths, Stops(layout, DepartmentsToVisit(shoppingList)), |paths|)
  {
    if |shoppingList| == 0 {
      return [];
    }
    var departmentGroups := GroupByCategory(shoppingList);
    var departmentsToVisit := Present(OptimalOrder(), departmentGroups);
    PresentIsWanted(OptimalOrder(), departmentGroups, shoppingList);
    paths := RouteLegs(layout, cost, fuel, departmentsToVisit);
  }

  lemma {:induction false} NothingWanted(order: seq<DeptName>, items: seq<Item>)
    requires forall d: DeptName :: !Wanted(items, d)
    ensures |WantedIn(order, items)| == 0
  {
    if |order| > 0 {
      NothingWanted(order[1..], items);
    }
  }

  /** An empty list, or one whose categories name no department, gives no routes. */
  lemma NoDepartmentsNoRoutes(items: seq<Item>)
    requires forall k | 0 <= k < |items| :: forall d: DeptName :: items[k].category != CategoryName(d)
    ensures |DepartmentsToVisit(items)| == 0
  {
    forall d: DeptName ensures !Wanted(items, d) {
      WantedIff(items, d);
    }
    NothingWanted(OptimalOrder(), items);
  }

  // ---------------------------------------------------------------------------
  // Department colouring

  datatype Style = Style(fill: string, stroke: string, strokeWidth: real)

  /**
    The colour of a department: selected beats "has items" beats
    "navigation target"; anything else is drawn at half opacity.
  */
  function DepartmentStyle(dept: Department, shoppingList: seq<Item>, selected: Option<DeptName>, target: Option<DeptName>): Style {
    var hasItems := exists k | 0 <= k < |shoppingList| :: shoppingList[k].category == CategoryName(dept.name);
    if selected == Some(dept.name) then Style(dept.color, "#32a852", 2.0)
    else if hasItems then Style(dept.color, "#32a852", 1.5)
    else if target == Some(dept.name) then Style("rgba(255, 215, 0, 0.5)", "#FF6B6B", 2.0)
    else Style(dept.color + "80", "#ccc", 1.0)
  }

  /**
    A department is outlined green exactly when it is selected or the list
    holds one of its items; the gold target highlight shows only when it is
    neither; the fill keeps the department colour (possibly with an alpha
    suffix) except under that highlight.
  */
  lemma DepartmentStyleContract(dept: Department, shoppingList: seq<Item>, selected: Option<DeptName>, target: Option<DeptName>)
    ensures var s := DepartmentStyle(dept, shoppingList, selected, target);
      && (s.stroke == "#32a852" <==> selected == Some(dept.name) || Wanted(shoppingList, dept.name))
      && (s.stroke == "#FF6B6B" <==> selected != Some(dept.name) && !Wanted(shoppingList, dept.name) && target == Some(dept.name))
      && (s.stroke != "#FF6B6B" ==> s.fill[..|dept.color|] == dept.color)
      && 1.0 <= s.strokeWidth <= 2.0
  {
    WantedIff(shoppingList, dept.name);
  }

  // ---------------------------------------------------------------------------
  // Pan clamp

  /**
    `constrainToBoundary`: clamps a pan offset so that the map, scaled by
    `scale`, keeps covering a window of the given size.
  */
  function ConstrainToBoundary(layout: StoreLayout, windowWidth: real, windowHeight: real, pos: RPoint, scale: real): RPoint {
    var minX := RMin(0.0, windowWidth - layout.width as real * scale);
    var minY := RMin(0.0, windowHeight - layout.height as real * scale);
    RPoint(RMax(minX, RMin(0.0, pos.x)), RMax(minY, RMin(0.0, pos.y)))
  }

  /**
    The clamped offset is never positive, and never further left or up than
    the window minus the scaled map; an offset already in that range is kept,
    and clamping twice is clamping once.
  */
  lemma ConstrainContract(layout: StoreLayout, windowWidth: real, windowHeight: real, pos: RPoint, scale: real)
    ensures var r := ConstrainToBoundary(layout, windowWidth, windowHeight, pos, scale);
      && RMin(0.0, windowWidth - layout.width as real * scale) <= r.x <= 0.0
      && RMin(0.0, windowHeight - layout.height as real * scale) <= r.y <= 0.0
      && ConstrainToBoundary(layout, windowWidth, windowHeight, r, scale) == r
    ensures RMin(0.0, windowWidth - layout.width as real * scale) <= pos.x <= 0.0
      && RMin(0.0, windowHeight - layout.height as real * scale) <= pos.y <= 0.0
      ==> ConstrainToBoundary(layout, windowWidth, windowHeight, pos, scale) == pos
  {
  }
}
