# Magnolia grocery app: a Dafny model of the store navigator, shopping list, route list and search ranking

This project models the parts of the Magnolia grocery app that hold decisions
rather than screens, and proves properties of them:

- **In-store navigation** (`components/StoreMap.tsx`). The model covers:
  - the shipped store layout: corridors, departments with shelf sections, aisles with adjacency lists, the entrance and the grid size;
  - the walkability and department-interior oracles;
  - snapping a point onto the nearest aisle edge, the aisle-crossing finder and the neighbour generator;
  - the grid A\* search, the line-of-sight smoother and the cubic-curve path builder;
  - the multi-department leg planner, the tap hit test, the department colouring and the pan clamp.
- **Shopping list** (`lib/shopping-list-provider.tsx`). The model covers remove-by-id, update-quantity and the pure part of adding a batch of requested names: de-duplication, best-match choice, and increment-or-append.
- **Route list** (`components/Routing.tsx`). The model covers the category/position comparator and the `Entrance … Checkout` route assembly.
- **Goods search** (`lib/appwrite.ts`). The model covers the query-list builder of `getGoods` and the client-side relevance scoring and ranking of `searchGoods`.

Modules and files:

| file | module | what |
|---|---|---|
| wrappers.dfy | Wrappers | `Option` |
| geometry.dfy | Geometry | integer points, rectangles, the inclusive rectangle test |
| layout.dfy | Layout | the layout datatype, the shipped layout, oracles, hit test |
| aisle_graph.dfy | AisleGraph | aisle snapping, aisle crossings |
| grid_graph.dfy | GridGraph | neighbour generation |
| astar.dfy | AStar | grid A\* over a node arena with parent indices |
| path_smoother.dfy | PathSmoother | line of sight, smoothing, curve building |
| navigator.dfy | Navigator | one route, the department legs, colouring, pan clamp |
| text.dfy | Text | ASCII lower-casing, `includes`, `indexOf`, `\b…\b`, trim, split |
| sorting.dfy | Sorting | stable insertion sort as a function and in place on an array |
| catalog.dfy | Catalog | the goods document |
| shopping_list.dfy | ShoppingList | the shopping-list operations |
| routing.dfy | Routing | the route list |
| search.dfy | Search | query builder, scoring, ranking |
| seq_facts.dfy | SeqFacts | splitting and re-joining sequences |

Conventions:

- **Layout.** The layout is a parameter of every operation. `Layout.Shipped()` is the constant the app ships with, and properties of that constant are proved as concrete lemmas.
- **Numbers.** Coordinates are `int`, because every layout constant is an integer and every department has even sides. Scores, line samples and control points are `real`.
- **Loops.** Loops that update variables are methods with loop invariants, and each is proved equal to a specification function. The properties are proved about those functions.
- **Line of sight for a repeated point.** `isLineWalkable(p, p)` divides 0 by 0 to get its sample position. That sample is not a number, and the walkability test fails on it, so the code reports a point as NOT in line of sight of itself. The model follows the code: `PathSmoother.LineWalkable` is false when the endpoints are equal. It does not assume distinct endpoints.

## Model

| member | source | states |
|---|---|---|
| Layout.ShippedValid | components/StoreMap.tsx:99-270 | the shipped layout has grid size 15 and well-formed aisle and corridor rectangles |
| Layout.Center | components/StoreMap.tsx:640-644 | a department's centre is the exact midpoint of its box on both axes (even sides) |
| Layout.FindDepartment | components/StoreMap.tsx:640 | the department found carries the requested name and belongs to the layout; no department is found only when none has that name |
| Layout.SectionHits | components/StoreMap.tsx:939-946 | one report per section of a department containing the tap (edges included); some report exactly when some section contains it |
| Layout.DepartmentsAtIff | components/StoreMap.tsx:938-947 | the tap reports a department exactly when one of that department's sections contains the tapped point |
| Layout.HitTestAgreesWithOracle | components/StoreMap.tsx:542-550 | the tap test reports something exactly when the department-interior oracle holds for the point |
| Layout.OverlappingSectionsReportBoth | components/StoreMap.tsx:171-192 | a tap at (650,350), where FrozenFoods and a SnacksAndSweets section overlap, reports both departments in declaration order |
| Layout.EdgeTapCounts | components/StoreMap.tsx:941-942 | a tap exactly on a section edge counts as inside |
| Layout.CategoryNameInjective | components/StoreMap.tsx:65-74 | distinct departments carry distinct category strings |
| Layout.IsWalkable | components/StoreMap.tsx:534-540 | the walkability oracle: the point lies in some walkable corridor, edges included |
| Layout.IsPointInDepartment | components/StoreMap.tsx:542-550 | the department oracle: the point lies in some section of some department, edges included (its properties are `HitTestAgreesWithOracle`) |
| AisleGraph.FindNearestAislePoint | components/StoreMap.tsx:459-499 | the snapping loop returns `NearestAislePoint`: the first candidate edge point at the strictly smallest distance, or the input itself |
| AisleGraph.SnapToAisle | components/StoreMap.tsx:464-496 | one aisle's four edge checks update the best point and distance exactly as considering its candidates in order |
| AisleGraph.SnapContract | components/StoreMap.tsx:459-499 | with no aisle spanning the point's x or y the point is returned unchanged; otherwise the result keeps the input's y on a left/right edge of an aisle spanning it, or its x on a top/bottom edge |
| AisleGraph.BestOfIsFirstMinimum | components/StoreMap.tsx:469-493 | the kept candidate has the minimum distance and every earlier candidate is strictly farther (strict `<` keeps the first minimum) |
| AisleGraph.CandidateShape | components/StoreMap.tsx:466-494 | every candidate lies on an edge of an aisle whose row or column spans the point |
| AisleGraph.NoCandidatesIff | components/StoreMap.tsx:466-482 | there is no candidate exactly when no aisle spans the point's x or y |
| AisleGraph.ConsiderAllAppend | components/StoreMap.tsx:464 | scanning two candidate lists in a row equals scanning their concatenation |
| AisleGraph.EntranceSnapsToCenterAisle | components/StoreMap.tsx:206-230 | the entrance (450,600) snaps to (450,550), the bottom of the centre aisle A2, not to the bottom cross aisle |
| AisleGraph.GetAisleIntersections | components/StoreMap.tsx:502-527 | the nested loop returns `Intersections`: one point per ordered linked and overlapping pair, in loop order |
| AisleGraph.PushPairPoints | components/StoreMap.tsx:506-523 | the inner loop appends exactly the floor midpoints of `aisle1` with each linked, overlapping aisle, in list order |
| AisleGraph.IntersectionsIff | components/StoreMap.tsx:505-523 | a point is a crossing exactly when it is the floor midpoint of the overlap of an ordered pair of distinct-id, linked, overlapping aisles |
| AisleGraph.PairPointsIff | components/StoreMap.tsx:506-522 | the inner loop emits a point for `aisle1` exactly for the linked, overlapping `aisle2`s |
| AisleGraph.IntersectionsFromIff | components/StoreMap.tsx:505-524 | the outer loop's output is the union of the inner loops' outputs |
| AisleGraph.OverlapMidInsideBoth | components/StoreMap.tsx:515-518 | the floor midpoint of two overlapping well-formed boxes lies in both boxes |
| AisleGraph.IntersectionsInsideAisles | components/StoreMap.tsx:502-527 | every crossing lies inside two of the layout's aisles |
| AisleGraph.ShippedIntersectionCount | components/StoreMap.tsx:212-267 | the shipped aisles give 18 crossings; A1–A2 and A2–A3 are linked but do not overlap and emit nothing |
| AisleGraph.ShippedPairPointsA1 | components/StoreMap.tsx:213-221 | A1 crosses H1, H2, H3 at (150,80), (150,300), (150,520) |
| AisleGraph.ShippedPairPointsA2 | components/StoreMap.tsx:222-230 | A2 crosses H1, H2, H3 at (460,80), (460,300), (460,520), and its links to A1 and A3 emit nothing |
| AisleGraph.ShippedPairPointsA3 | components/StoreMap.tsx:231-239 | A3 crosses H1, H2, H3 at (770,80), (770,300), (770,520) |
| AisleGraph.ShippedPairPointsH1 | components/StoreMap.tsx:240-248 | H1 crosses A1, A2, A3 at (150,80), (460,80), (770,80) |
| AisleGraph.ShippedPairPointsH2 | components/StoreMap.tsx:249-257 | H2 crosses A1, A2, A3 at (150,300), (460,300), (770,300) |
| AisleGraph.ShippedPairPointsH3 | components/StoreMap.tsx:258-266 | H3 crosses A1, A2, A3 at (150,520), (460,520), (770,520) |
| GridGraph.GetNeighbors | components/StoreMap.tsx:552-600 | the two loops return `Neighbors`: the close crossings, then the open-floor grid steps in the fixed direction order |
| GridGraph.CollectCloseIntersections | components/StoreMap.tsx:556-569 | the first loop yields exactly the crossings within two grid steps on both axes, in list order |
| GridGraph.PushGridSteps | components/StoreMap.tsx:571-597 | the second loop appends exactly the open-floor grid steps, in direction order, after what is already listed |
| GridGraph.Directions | components/StoreMap.tsx:571-581 | the eight grid offsets in source order: up, right, down, left, then the four diagonals |
| GridGraph.DirectionsAreGridOffsets | components/StoreMap.tsx:571-581 | a point is one of the eight offsets exactly when each axis moves by -g, 0 or +g and not both by 0 |
| GridGraph.NeighborsIff | components/StoreMap.tsx:552-600 | a point is a neighbour exactly when it is a crossing strictly within 2·g on both axes, or a grid offset that is walkable and outside every section |
| GridGraph.NeighborsLayout | components/StoreMap.tsx:552-600 | at most crossings + 8 neighbours; the close crossings come first, unfiltered, then only open-floor grid offsets |
| GridGraph.CloseIntersectionsIff | components/StoreMap.tsx:556-569 | the crossing filter keeps exactly the crossings strictly within 2·g on both axes |
| GridGraph.GridStepsShape | components/StoreMap.tsx:583-597 | the step filter keeps exactly the offsets that are walkable and outside every department section |
| GridGraph.CrossingIsNeighbor | components/StoreMap.tsx:556-569 | a crossing of two linked, overlapping aisles is a neighbour of any node within 2·g of it, whatever lies there |
| GridGraph.IntersectionInsideBakeryIsNeighbor | components/StoreMap.tsx:557-568 | (150,80) is a neighbour of (150,95) although it lies inside a Bakery section: crossings are not filtered |
| AStar.Heuristic | components/StoreMap.tsx:530-532 | the Manhattan distance is non-negative and zero exactly for equal points |
| AStar.LowestF | components/StoreMap.tsx:670-679 | the chosen open node has the least f, and every earlier open node has a strictly greater f (first minimum wins) |
| AStar.FindOpen | components/StoreMap.tsx:723-726 | the first open node within half a grid cell of the point, or none when no open node is that close |
| AStar.Reverse | components/StoreMap.tsx:695 | the reversed path holds the same points in the opposite order |
| AStar.Chain | components/StoreMap.tsx:686-690 | following parent links from a node yields a non-empty list starting with that node |
| AStar.ChainSteps | components/StoreMap.tsx:686-690 | the parent chain of an explored node ends at the start point, and each node follows from its parent as one neighbour step |
| AStar.Reconstruct | components/StoreMap.tsx:684-695 | the reconstruction loop returns the reversed parent chain |
| AStar.CloseKeepsExplored | components/StoreMap.tsx:699-700 | moving the current node from the open set to the closed set keeps the search invariant |
| AStar.AddKeepsExplored | components/StoreMap.tsx:728-748 | adding a new neighbour with h = heuristic, g = current g + move cost and parent = current keeps the search invariant |
| AStar.AddNeighbor | components/StoreMap.tsx:728-748 | a neighbour with no open node nearby is appended to the arena and the open set with g = gScore, h = heuristic, f = g + h and parent = current; the search invariant holds |
| AStar.RelinkKeepsExplored | components/StoreMap.tsx:733-740 | a cheaper path rewrites an open node's g, f and parent in place and keeps the search invariant |
| AStar.RelinkNeighbor | components/StoreMap.tsx:733-742 | the open node near the neighbour gets g = gScore, f = g + h and parent = current exactly when gScore is smaller, and is left as it was otherwise; the search invariant holds |
| AStar.Relink | components/StoreMap.tsx:733-740 | relinking leaves every other node alone, keeps the node's position and sets its g to the smaller of the old g and the new route's cost |
| AStar.VisitStepClosed | components/StoreMap.tsx:706-711 | a neighbour within half a cell of a closed node leaves the arena and the open set unchanged |
| AStar.VisitStepFresh | components/StoreMap.tsx:728-732 | a neighbour near no closed and no open node is appended to the arena with g = current g + move cost, the heuristic as h, f = g + h and the current node as parent, and its index is opened |
| AStar.VisitStepOpen | components/StoreMap.tsx:733-742 | a neighbour near no closed node but near an open node relinks the first such open node, and leaves the open set as it was |
| AStar.VisitStepRelaxes | components/StoreMap.tsx:704-749 | visiting one neighbour never raises a node's g nor moves a node, and afterwards some arena node lies within half a cell of the neighbour |
| AStar.VisitAllRelaxes | components/StoreMap.tsx:702-750 | visiting the neighbours in order never raises a node's g nor moves a node, and afterwards every neighbour has an arena node within half a cell |
| AStar.Visit | components/StoreMap.tsx:704-749 | one neighbour: the new arena and open set are exactly the skip / append / relink step on the old ones, and the search invariant holds |
| AStar.VisitUnclosed | components/StoreMap.tsx:713-742 | a neighbour on no closed node is appended or relinks an open node, exactly as the step function says, and the search invariant holds |
| AStar.Expand | components/StoreMap.tsx:702-750 | the neighbour loop leaves the arena and open set equal to the left fold of the one-neighbour step over the neighbour list, and keeps the search invariant |
| AStar.SearchGrid | components/StoreMap.tsx:657-755 | a path found starts at the snapped start, ends strictly within one grid cell of the snapped end on both axes, and each node follows from the one before as a neighbour step |
| PathSmoother.StepCount | components/StoreMap.tsx:783-788 | the number of samples is the floor of the longer axis distance divided by half a grid cell |
| PathSmoother.IsLineWalkable | components/StoreMap.tsx:782-798 | the sampling loop returns `LineWalkable`: distinct endpoints and every sample on the segment in a corridor; false for equal endpoints |
| PathSmoother.SampleOnSegment | components/StoreMap.tsx:789-791 | each sample lies on the segment, between its endpoints |
| PathSmoother.LineWalkableStartsWalkable | components/StoreMap.tsx:789-795 | a line in sight starts on a corridor |
| PathSmoother.LineThroughBakeryIsWalkable | components/StoreMap.tsx:792 | (140,80)→(200,80) is in line of sight although (150,80) on it lies inside Bakery: departments are not checked |
| PathSmoother.Furthest | components/StoreMap.tsx:767-773 | the look-ahead result is the last index in line of sight past the next one, or the next index when there is none |
| PathSmoother.LookAhead | components/StoreMap.tsx:765-773 | the look-ahead loop returns `Furthest` |
| PathSmoother.SmoothPath | components/StoreMap.tsx:758-779 | the smoothing loop returns `Smoothed`, the points at the kept indices |
| PathSmoother.SmoothedShape | components/StoreMap.tsx:758-779 | paths of at most two points are kept whole; otherwise the kept indices start at 0, end at the last index, rise strictly, and each is `Furthest` from the one before |
| PathSmoother.KeptAfterShape | components/StoreMap.tsx:764-777 | from any index the kept indices rise strictly to the last index, each the furthest visible from the previous |
| PathSmoother.SmoothedEnds | components/StoreMap.tsx:761-777 | smoothing keeps the first and the last point |
| PathSmoother.SmoothedHops | components/StoreMap.tsx:764-777 | each hop of the smoothed path joins two points in line of sight, or two points adjacent in the input |
| PathSmoother.CreateSmoothSvgPath | components/StoreMap.tsx:801-824 | nothing below two points; a move and a line for two; for n ≥ 3 a move to the first point and n−2 cubics, the cubic for point i ending at point i+1 with control points summing to twice point i and differing by a third of (point i+1 − point i−1) |
| Navigator.FindPath | components/StoreMap.tsx:657-696 | the route is empty, or has at least two segments, begins at the aisle point nearest the start, and ends within one grid cell of the aisle point nearest the end |
| Navigator.DrawRoute | components/StoreMap.tsx:689-694 | the smoothed, drawn path is empty or starts with a move to the path's first node and ends within one grid cell of the goal |
| Navigator.AtGoalEndsNear | components/StoreMap.tsx:682-683 | the goal test on integer points carries over to the drawn end point |
| Navigator.OrderRank | components/StoreMap.tsx:616-626 | a department's position in the fixed visiting order |
| Navigator.OptimalOrderIsPermutation | components/StoreMap.tsx:616-626 | the visiting order lists each of the nine departments exactly once |
| Navigator.GroupByCategory | components/StoreMap.tsx:607-613 | the grouping loop maps exactly the categories on the list, each to its items in list order |
| Navigator.ItemsIn | components/StoreMap.tsx:608-613 | a category's group holds only items of the list with that category |
| Navigator.ItemsInMembers | components/StoreMap.tsx:608-613 | an item is in a category's group exactly when it is on the list with that category |
| Navigator.WantedIff | components/StoreMap.tsx:629-630 | a department is needed exactly when some list item carries its category |
| Navigator.PresentIsWanted | components/StoreMap.tsx:629-630 | filtering the visiting order by non-empty groups gives the needed departments in that order |
| Navigator.WantedInMembers | components/StoreMap.tsx:629-630 | a department is kept by the filter exactly when it is in the order and the list needs it |
| Navigator.WantedInOrdered | components/StoreMap.tsx:629-630 | filtering an order that rises in visiting rank keeps it rising |
| Navigator.DepartmentsToVisitContract | components/StoreMap.tsx:629-630 | the departments to visit are exactly the needed ones, each once, in the fixed visiting order |
| Navigator.DepartmentsDependOnCategoriesOnly | components/StoreMap.tsx:603-630 | lists that touch the same departments get the same visits, whatever their item order, counts or names |
| Navigator.NoDepartmentsNoRoutes | components/StoreMap.tsx:604-632 | a list whose categories name no department, the empty list included, has no departments to visit |
| Navigator.ShippedNavigable | components/StoreMap.tsx:114-205 | every department is in the shipped layout, and every shipped department has even sides |
| Navigator.Stops | components/StoreMap.tsx:636-651 | the leg endpoints: the entrance, then each visited department's centre |
| Navigator.RouteLegs | components/StoreMap.tsx:636-651 | one route per department; route k runs from stop k (the entrance, then the previous department's centre) towards the centre of department k |
| Navigator.GenerateShoppingPaths | components/StoreMap.tsx:603-655 | one route per department to visit, in the visiting order, the first from the entrance and each next from the previous department's centre |
| Navigator.DepartmentStyleContract | components/StoreMap.tsx:848-872 | the outline is green exactly when the department is selected or has items; the gold target highlight shows only when neither; the fill otherwise keeps the department colour |
| Navigator.DepartmentStyle | components/StoreMap.tsx:848-872 | the fill, outline colour and outline width of a department (its properties are `DepartmentStyleContract`) |
| Navigator.ConstrainContract | components/StoreMap.tsx:1211-1230 | the clamped offset lies between min(0, window − scaled map) and 0 on each axis; an offset already in range is kept; clamping is idempotent |
| Navigator.ConstrainToBoundary | components/StoreMap.tsx:1211-1230 | the pan clamp on both axes (its properties are `ConstrainContract`) |
| ShoppingList.Remove | lib/shopping-list-provider.tsx:107-109 | no item with the id remains, and the list does not grow |
| ShoppingList.RemoveMembers | lib/shopping-list-provider.tsx:108 | an item survives exactly when it was on the list with a different id |
| ShoppingList.RemoveAppend | lib/shopping-list-provider.tsx:108 | removing from a concatenation removes from each part, keeping order |
| ShoppingList.RemoveAbsent | lib/shopping-list-provider.tsx:108 | removing an absent id changes nothing |
| ShoppingList.RemoveIdempotent | lib/shopping-list-provider.tsx:108 | removing twice is removing once |
| ShoppingList.UpdateQuantity | lib/shopping-list-provider.tsx:111-117 | same length and order; every item with the id gets the quantity with all other fields kept; other items are unchanged |
| ShoppingList.UpdateOverwrites | lib/shopping-list-provider.tsx:111-117 | a second update overrides the first |
| ShoppingList.UpdateKeepsIds | lib/shopping-list-provider.tsx:113-115 | the ids are unchanged, and removing the id after an update gives the same list as removing it before |
| ShoppingList.RemoveUnchanged | lib/shopping-list-provider.tsx:108 | removing an id from a list and from a copy that differs only in that id's items gives the same list |
| ShoppingList.Dedup | lib/shopping-list-provider.tsx:28 | the batch keeps each name once and holds exactly the requested names |
| ShoppingList.DedupFirstOccurrenceOrder | lib/shopping-list-provider.tsx:28 | de-duplicated names come in order of their first request |
| ShoppingList.FirstIndexPrefix | lib/shopping-list-provider.tsx:28 | a name's first position is unaffected by what follows it |
| ShoppingList.FirstIndexKept | lib/shopping-list-provider.tsx:28 | appending a name leaves the first position of every name already present unchanged |
| ShoppingList.FirstIndexLast | lib/shopping-list-provider.tsx:28 | a name not yet present has its first position at the end once appended |
| ShoppingList.FindFirst | lib/shopping-list-provider.tsx:42-51 | the index of the first result meeting the test (the exact-name test, then the whole-word test), or none exactly when no result meets it |
| ShoppingList.BestMatchContract | lib/shopping-list-provider.tsx:40-54 | no match exactly when there are no results; otherwise the first exact match, failing that the first whole-word match, failing that the first result |
| ShoppingList.ExactNameWins | lib/shopping-list-provider.tsx:42-54 | the first exact name match is always the one chosen |
| ShoppingList.FindById | lib/shopping-list-provider.tsx:65 | the first item with the id, or none when no item has it |
| ShoppingList.OutcomesShape | lib/shopping-list-provider.tsx:64-82 | every increment targets an item already on the list, with its quantity + 1; every append is a fresh item with quantity 1 |
| ShoppingList.ApplyIncrementsEffect | lib/shopping-list-provider.tsx:66-70 | the increments change only quantities: an incremented item gets the quantity its increment names, and every other item is untouched |
| ShoppingList.AddContract | lib/shopping-list-provider.tsx:26-105 | the existing items keep their place and every field but quantity, and an item whose id some request matched gets its first occurrence's old quantity + 1 (once, however many requests matched it); the items after them are exactly the appended outcomes' items in batch order, each with quantity 1 and an id not already on the list |
| ShoppingList.AppendedFresh | lib/shopping-list-provider.tsx:74-94 | the appended items have quantity 1 and ids not already on the list |
| ShoppingList.NothingFoundChangesNothing | lib/shopping-list-provider.tsx:83-104 | when every search fails or finds nothing, the list is unchanged |
| ShoppingList.Outcomes | lib/shopping-list-provider.tsx:31-92 | one outcome per de-duplicated name, each the resolution of that name against the list as it was |
| ShoppingList.ApplyIncrements | lib/shopping-list-provider.tsx:69 | the quantity updates keep the list's length |
| ShoppingList.Appended | lib/shopping-list-provider.tsx:94-101 | an item is new exactly when some outcome of the batch appends it; there are at most as many new items as names |
| ShoppingList.AppendedAppend | lib/shopping-list-provider.tsx:94-101 | collecting the new items of two batches one after the other gives the first batch's items followed by the second's, so the new items keep batch order |
| ShoppingList.AppendedSingle | lib/shopping-list-provider.tsx:94 | one outcome contributes its item exactly when it is an append, and nothing otherwise |
| ShoppingList.ResolveAppendIff | lib/shopping-list-provider.tsx:64-82 | a request appends the quantity-1 copy of good g exactly when g is its best match and no list item has g's id |
| ShoppingList.AddToShoppingList | lib/shopping-list-provider.tsx:26-105 | adding a batch: de-duplicate, resolve each name against the list as it was, apply the increments, append the new items (its properties are `AddContract`) |
| ShoppingList.BestMatch | lib/shopping-list-provider.tsx:40-54 | the choice of the exact match, else the whole-word match, else the first result (its properties are `BestMatchContract`) |
| ShoppingList.Resolve | lib/shopping-list-provider.tsx:37-89 | one requested name: skip on a failed or empty search, increment an item already on the list, else append a new item (its properties are `ResolveAppendIff` and `OutcomesShape`) |
| Routing.IndexIn | components/Routing.tsx:40-41 | the first position of a category in the order, or −1 when it is not there |
| Routing.BeforeIsStrictWeakOrder | components/Routing.tsx:39-50 | the comparator "negative" is a strict weak order, so the sort is well defined |
| Routing.NonNull | components/Routing.tsx:35-36 | no more items remain than were fetched |
| Routing.NonNullMembers | components/Routing.tsx:35-36 | an item is kept exactly when it was fetched (non-null) |
| Routing.NonNullAppend | components/Routing.tsx:35-36 | filtering two runs of fetches one after the other gives the first run's items followed by the second's, so the kept items stay in fetch order |
| Routing.NonNullSingle | components/Routing.tsx:36 | a fetched item is kept and a null is dropped |
| Routing.Before | components/Routing.tsx:39-50 | the comparator is negative: a smaller category index, or the same index and a smaller position (its properties are `BeforeIsStrictWeakOrder`) |
| Routing.GenerateRoute | components/Routing.tsx:17-57 | Entrance, the sorted item labels, Checkout; or Entrance, the error line, Checkout on failure (its properties are `RouteFrame` and `RouteOrderContract`) |
| Routing.NonNullCount | components/Routing.tsx:35-36 | as many items remain as non-null ones were fetched |
| Routing.Labels | components/Routing.tsx:53 | one label per item: its name, or "Unnamed Item" for a missing or empty name |
| Routing.RouteFrame | components/Routing.tsx:52-57 | the route starts with "Entrance" and ends with "Checkout"; on success it has the non-null count + 2 entries; on failure it is exactly Entrance, "Error loading route", Checkout |
| Routing.RouteOrderContract | components/Routing.tsx:17-50 | the same items, each as often; ascending category index; ascending position (missing = 0) within a category; ties keep fetch order |
| Routing.UnknownCategoriesFirst | components/Routing.tsx:40-45 | an item of an unknown or missing category (index −1) comes before every item of a known one |
| Search.BuildGoodsQuery | lib/appwrite.ts:117-133 | the builder returns `GoodsQuery`: order, limit, the optional category clause, the optional search clause |
| Search.GoodsQueryShape | lib/appwrite.ts:117-133 | always order then one limit (the given one if non-zero, else 100, replacing rather than appending); a category clause exactly for a filter other than "" and "All"; a search clause exactly for a non-empty query, last |
| Search.DefaultQuery | lib/appwrite.ts:117 | with no filter, no query and no limit, the list is order by creation and limit 100 |
| Search.QueryWordsShape | lib/appwrite.ts:186-187 | a word is a query word exactly when it is a piece of the whitespace split of the trimmed lower-case query and is longer than two characters; no query word holds whitespace |
| Search.LongWords | lib/appwrite.ts:187 | only words longer than two characters remain, each from the split |
| Search.LongWordsMembers | lib/appwrite.ts:187 | a word is kept exactly when it is in the split and longer than two characters |
| Search.LongWordsAppend | lib/appwrite.ts:187 | filtering two runs of words one after the other gives the first run's kept words followed by the second's, so the kept words stay in split order |
| Search.LongWordsSingle | lib/appwrite.ts:187 | one word is kept exactly when it is longer than two characters |
| Search.GoodsQuery | lib/appwrite.ts:117-133 | order by creation, one limit, the category clause for a real filter, the search clause for a non-empty query (its properties are `GoodsQueryShape`) |
| Search.Ranking | lib/appwrite.ts:274-283 | the documents sorted by score, highest first, stably (its properties are `RankingContract`) |
| Search.LengthRatio | lib/appwrite.ts:267 | the length ratio lies in [0, 1] |
| Search.RawScoreNonNegative | lib/appwrite.ts:192-262 | the raw score is never negative |
| Search.ScoreBounds | lib/appwrite.ts:267-268 | the final score lies between 0.7 and 1 times the raw score |
| Search.ScaleBounds | lib/appwrite.ts:267-268 | scaling by 0.7 + 0.3·ratio with a ratio in [0, 1] keeps a non-negative score between 0.7 and 1 times itself |
| Search.Scale | lib/appwrite.ts:267-268 | the final score is the raw score scaled by the length ratio of query and name |
| Search.ExactNamePhraseScore | lib/appwrite.ts:195-215 | a name equal to the query earns at least 320 (exact + prefix), and 350 when the query starts and ends with a word character |
| Search.SingleWordNoBonus | lib/appwrite.ts:239 | a query with at most one long word earns no multi-word bonus |
| Search.InOrderIff | lib/appwrite.ts:245-256 | the greedy `indexOf` scan succeeds exactly when the words occur in the name at strictly increasing positions |
| Search.OccurInOrderWeaken | lib/appwrite.ts:247-248 | words in order after a position are also in order after any earlier one |
| Search.WordsInOrder | lib/appwrite.ts:245-256 | the in-order loop with its early exit returns the greedy scan's answer |
| Search.ScorePhrase | lib/appwrite.ts:192-215 | the phrase bonuses: exact 200, prefix 80, whole word 70 or else substring 40 |
| Search.ScoreRow | lib/appwrite.ts:223-236 | one query word against every name word: 15×(3,2,1) for an equal word and 5×(2,1.5,1) for a containing one, by position |
| Search.ScoreWords | lib/appwrite.ts:222-236 | the nested word loops add up `WordScore`: each query word scored against every name word by position |
| Search.ScoreMultiWord | lib/appwrite.ts:239-262 | multi-word queries with all words present earn 40, plus 30 when in order |
| Search.ScoreRaw | lib/appwrite.ts:192-262 | the accumulated score before scaling equals the phrase, word and multi-word parts |
| Search.ScoreName | lib/appwrite.ts:190-270 | the scoring of one name equals `Score` |
| Search.ScoreAll | lib/appwrite.ts:190-271 | every document paired with its score, in fetch order |
| Search.ScoreDocuments | lib/appwrite.ts:190-271 | the scoring loop fills a fresh array with every document paired with its score, in fetch order |
| Search.SearchGoods | lib/appwrite.ts:165-287 | nothing when the fetch fails; otherwise the documents ranked by decreasing score, ties in fetch order |
| Search.RankingContract | lib/appwrite.ts:274-283 | the ranking holds the fetched documents, each as often, in non-increasing relevance, with equal scores in fetch order |
| Search.RankingPermutes | lib/appwrite.ts:274-283 | the ranked documents are the fetched ones, each as often |
| Search.RankingOrdered | lib/appwrite.ts:274-283 | the ranked documents come in non-increasing relevance |
| Search.DocsPermutes | lib/appwrite.ts:283 | mapping a permutation to documents keeps it a permutation |
| Search.HigherIsStrictWeakOrder | lib/appwrite.ts:274 | "higher score first" is a strict weak order |
| Sorting.SortInPlace | lib/appwrite.ts:274 | the in-place sort leaves the array equal to the stable insertion sort of its old contents |
| Sorting.InsertInPlace | lib/appwrite.ts:274 | shifting one element into a sorted prefix equals inserting it into that prefix |
| Sorting.InsertAt | lib/appwrite.ts:274 | when every element from position j on comes strictly after the new one and the element before j does not, insertion puts the new one at j and shifts the rest by one |
| Sorting.InsertPermutes | lib/appwrite.ts:274 | inserting adds exactly the new element |
| Sorting.InsertSorted | lib/appwrite.ts:274 | inserting into a sorted sequence keeps it sorted, for a strict weak order |
| Sorting.InsertKeepsTies | lib/appwrite.ts:274 | the elements tied with any given value keep their order, the inserted one last |
| Sorting.SortPermutes | components/Routing.tsx:39 | sorting keeps every element, each as often |
| Sorting.SortSorts | components/Routing.tsx:39 | for a strict weak order, no element is followed by one that comes before it |
| Sorting.SortIsStable | components/Routing.tsx:39 | elements tied with each other keep their relative order |
| Text.ToLower | lib/appwrite.ts:186 | lower-casing maps each character, keeping the length |
| Text.ToLowerIdempotent | lib/appwrite.ts:192 | lower-casing twice is lower-casing once |
| Text.IndexOf | lib/appwrite.ts:247 | `indexOf` gives −1 when there is no match at or after the start, else the first match there |
| Text.Trim | lib/appwrite.ts:186 | the result sits inside the input with only whitespace before and after it, and neither starts nor ends with whitespace: exactly the leading and trailing whitespace is removed |
| Text.SplitFromNoSpace | lib/appwrite.ts:187 | splitting on whitespace runs gives at least one piece, none holding whitespace |
| Text.SplitRejoin | lib/appwrite.ts:187 | the split has one more piece than the input has whitespace runs, and putting the runs back between the pieces gives the input: the pieces are its maximal whitespace-free runs, in order |
| Text.GapsAreSpace | lib/appwrite.ts:187 | each whitespace run dropped by the split is non-empty and all whitespace |
| Text.SplitFromNonEmpty | lib/appwrite.ts:186-187 | a string with no whitespace at either end, the trimmed query, splits into non-empty pieces only |
| Text.WholeWordIsContained | lib/appwrite.ts:207-212 | a whole-word match is a substring match |

## Left out

- **Input, output and concurrency.** Rendering, gestures, animation, timers and the zoom logic that reads the window size are not modelled. The same goes for console logging and the write of the navigation department onto the shared layout. The pan clamp takes the window size as a parameter.
- **Backend calls and `Promise.all`.** Every backend call is left out. The fetched documents become inputs: `search` in `ShoppingList.AddToShoppingList`, `Fetch` in `Routing.GenerateRoute`, `fetched` in `Search.SearchGoods`.
- **Unused argument.** `generateShoppingPaths` ignores its `departments` argument, and the model drops it. The caller keeps only the first route, and that is not part of this model.
- **Move cost.** The Euclidean move cost uses a square root. `AStar.SearchGrid` and `Navigator.FindPath` take a caller-supplied non-negative `cost` instead.
- AStar.SearchGrid: **search termination.** The source loops until the open set is empty. The model adds a `fuel` bound on the number of rounds, and running out of fuel yields the empty route, like an empty open set. The model proves what a found path looks like, not that a path is found or that it is shortest.
- **Path output.** The path string is modelled as a sequence of move, line and cubic segments with exact real coordinates. JS number formatting is left out.
- Navigator.GenerateShoppingPaths: **shipped layout only.** It requires every department to be present in the layout with even sides. The shipped layout satisfies this (`Navigator.ShippedNavigable`). For other layouts, the source's half-integer centres and missing-department lookups are not modelled.
- ShoppingList.BestMatchContract: **shopping-list regular expressions.** It covers only request names free of regular-expression metacharacters, because the source pastes the name unescaped into a pattern.
- Search.ScorePhrase: **search regular expressions.** It uses a literal whole-word test for every query. For a query holding metacharacters, the source would instead match a pattern, or throw and return no results.
- **Lower-casing and whitespace.** Lower-casing and whitespace are ASCII only. Unicode case mapping and Unicode spaces are not modelled.
- Search.LengthRatio: an empty query against an empty name gives 1, while the source computes 0/0 and scores the document NaN. The order of NaN scores in the sort is not modelled.
- Routing.GenerateRoute: a `categoryNumber` that is not a number is not modelled. Only present numbers and missing values (0) are.
- Navigator.GroupByCategory: the source groups into a plain object, so a category that names an inherited object member (`constructor`, `toString`, `__proto__`, ...) finds a non-array there and the push throws, failing the whole route planning. The model groups such items like any other category; the shipped categories are department names, which never clash.
- PathSmoother.IsLineWalkable: the samples along the line are exact reals, while the source computes them in double precision. A sample that lands exactly on a corridor edge in exact arithmetic can fall just outside it in doubles, so the two can disagree on lines that graze an edge.
- Search.SearchGoods: scores are exact reals, while the source computes them in double precision. Scores that are equal as reals can differ in doubles, and the other way round, which can change the order of near-ties.
