/**
  The static store layout (corridors, departments with shelf sections, aisles with
  adjacency lists, the entrance and the grid step), the walkability oracle, the
  department-interior oracle and the tap hit test.
*/
module Layout {
  import opened Geometry
  import opened Wrappers

  /** The nine department categories of the store. */
  datatype DeptName =
    | FruitsAndVegetables
    | Bakery
    | DairyAndEggs
    | MeatAndSeafood
    | Beverages
    | FrozenFoods
    | PantryStaples
    | SnacksAndSweets
    | HouseholdEssentials

  /** The category string a shopping-list item carries for this department. */
  function CategoryName(d: DeptName): string {
    match d
    case FruitsAndVegetables => "FruitsAndVegetables"
    case Bakery => "Bakery"
    case DairyAndEggs => "DairyAndEggs"
    case MeatAndSeafood => "MeatAndSeafood"
    case Beverages => "Beverages"
    case FrozenFoods => "FrozenFoods"
    case PantryStaples => "PantryStaples"
    case SnacksAndSweets => "SnacksAndSweets"
    case HouseholdEssentials => "HouseholdEssentials"
  }

  lemma CategoryNameInjective(a: DeptName, b: DeptName)
    ensures CategoryName(a) == CategoryName(b) ==> a == b
  {
  }

  /** A department: bounding box (for centring and labels), colour and shelf sections. */
  datatype Department = Department(name: DeptName, box: Rect, color: string, sections: seq<Rect>)

  /** A named aisle with its declared adjacency list. */
  datatype Aisle = Aisle(id: string, box: Rect, caption: string, connectedTo: seq<string>)

  /**
    The layout. `departments` and `aisles` list the entries of the source's
    records in their declaration order, which is the order `Object.values`
    and `Object.entries` visit them.
  */
  datatype StoreLayout = StoreLayout(
    width: int,
    height: int,
    walkablePaths: seq<Rect>,
    departments: seq<Department>,
    entrance: Point,
    aisles: seq<Aisle>,
    gridSize: int)
  {
    /** What the algorithms rely on: a positive grid step and well-formed rectangles. */
    predicate Valid() {
      && gridSize > 0
      && (forall i | 0 <= i < |aisles| :: aisles[i].box.WellFormed())
      && (forall i | 0 <= i < |walkablePaths| :: walkablePaths[i].WellFormed())
    }
  }

  /** The layout the store ships with. */
  function Shipped(): StoreLayout {
    StoreLayout(
      900, 700,
      [ Rect(120, 50, 60, 500), Rect(430, 50, 60, 500), Rect(740, 50, 60, 500),
        Rect(120, 50, 680, 60), Rect(120, 270, 680, 60), Rect(120, 490, 680, 60),
        Rect(430, 550, 60, 80) ],
      ShippedDepartments(),
      Point(450, 600),
      ShippedAisles(),
      15)
  }

  /** The shipped departments in declaration order. */
  function ShippedDepartments(): seq<Department> {
    [ ShippedFruitsAndVegetables(), ShippedBakery(), ShippedDairyAndEggs(), ShippedMeatAndSeafood(),
      ShippedBeverages(), ShippedFrozenFoods(), ShippedPantryStaples(), ShippedSnacksAndSweets(),
      ShippedHouseholdEssentials() ]
  }

  function ShippedFruitsAndVegetables(): Department { Department(FruitsAndVegetables, Rect(620, 50, 230, 170), "#e8f5e9", [Rect(620, 50, 110, 170), Rect(740, 50, 110, 170)]) }
  function ShippedBakery(): Department { Department(Bakery, Rect(50, 50, 230, 110), "#fff3e0", [Rect(50, 50, 110, 110), Rect(170, 50, 110, 110)]) }
  function ShippedDairyAndEggs(): Department { Department(DairyAndEggs, Rect(50, 400, 280, 90), "#e3f2fd", [Rect(50, 400, 130, 90), Rect(190, 400, 130, 90)]) }
  function ShippedMeatAndSeafood(): Department { Department(MeatAndSeafood, Rect(620, 400, 230, 90), "#ffebee", [Rect(620, 400, 110, 90), Rect(740, 400, 110, 90)]) }
  function ShippedBeverages(): Department { Department(Beverages, Rect(190, 110, 230, 150), "#e0f2f1", [Rect(190, 110, 110, 150), Rect(310, 110, 110, 150)]) }
  function ShippedFrozenFoods(): Department { Department(FrozenFoods, Rect(620, 230, 230, 160), "#e8eaf6", [Rect(620, 230, 110, 160), Rect(740, 230, 110, 160)]) }
  function ShippedPantryStaples(): Department { Department(PantryStaples, Rect(190, 330, 230, 150), "#fff3e0", [Rect(190, 330, 110, 150), Rect(310, 330, 110, 150)]) }
  function ShippedSnacksAndSweets(): Department { Department(SnacksAndSweets, Rect(500, 330, 230, 150), "#fce4ec", [Rect(500, 330, 110, 150), Rect(620, 330, 110, 150)]) }
  function ShippedHouseholdEssentials(): Department { Department(HouseholdEssentials, Rect(50, 170, 130, 220), "#f5f5f5", [Rect(50, 170, 60, 220), Rect(120, 170, 60, 220)]) }

  /** The shipped aisle graph: three vertical aisles joined by three cross aisles. */
  function ShippedAisles(): seq<Aisle> {
    [AisleA1(), AisleA2(), AisleA3(), AisleH1(), AisleH2(), AisleH3()]
  }

  function AisleA1(): Aisle { Aisle("A1", Rect(120, 50, 60, 500), "Left Aisle", ["A2", "H1", "H2", "H3"]) }
  function AisleA2(): Aisle { Aisle("A2", Rect(430, 50, 60, 500), "Center Aisle", ["A1", "A3", "H1", "H2", "H3"]) }
  function AisleA3(): Aisle { Aisle("A3", Rect(740, 50, 60, 500), "Right Aisle", ["A2", "H1", "H2", "H3"]) }
  function AisleH1(): Aisle { Aisle("H1", Rect(120, 50, 680, 60), "Top Cross Aisle", ["A1", "A2", "A3"]) }
  function AisleH2(): Aisle { Aisle("H2", Rect(120, 270, 680, 60), "Middle Cross Aisle", ["A1", "A2", "A3"]) }
  function AisleH3(): Aisle { Aisle("H3", Rect(120, 490, 680, 60), "Bottom Cross Aisle", ["A1", "A2", "A3"]) }

  lemma ShippedValid()
    ensures Shipped().Valid() && Shipped().gridSize == 15
  {
  }

  /** Walkability oracle: the point lies in at least one corridor rectangle (edges included). */
  predicate IsWalkable(layout: StoreLayout, x: real, y: real) {
    exists i | 0 <= i < |layout.walkablePaths| :: InRect(layout.walkablePaths[i], x, y)
  }

  /** Department-interior oracle: the point lies in some section of some department (edges included). */
  predicate IsPointInDepartment(layout: StoreLayout, x: real, y: real) {
    exists i, j | 0 <= i < |layout.departments| && 0 <= j < |layout.departments[i].sections| ::
      InRect(layout.departments[i].sections[j], x, y)
  }

  predicate Walkable(layout: StoreLayout, p: Point) {
    IsWalkable(layout, p.x as real, p.y as real)
  }

  predicate InDepartment(layout: StoreLayout, p: Point) {
    IsPointInDepartment(layout, p.x as real, p.y as real)
  }

  /** A point the grid search may step onto. */
  predicate OpenFloor(layout: StoreLayout, p: Point) {
    Walkable(layout, p) && !InDepartment(layout, p)
  }

  /**
    Centre of a department's bounding box, `x + width / 2`, `y + height / 2`;
    exact when the box has even sides, as every shipped department has.
  */
  function Center(d: Department): (c: Point)
    requires d.box.width % 2 == 0 && d.box.height % 2 == 0
    ensures 2 * c.x == 2 * d.box.x + d.box.width && 2 * c.y == 2 * d.box.y + d.box.height
  {
    Point(d.box.x + d.box.width / 2, d.box.y + d.box.height / 2)
  }

  /** Looks a department up by name, as `STORE_LAYOUT.departments[dept]` does. */
  function FindDepartment(depts: seq<Department>, name: DeptName): (r: Option<Department>)
    ensures r.Some? ==> r.value in depts && r.value.name == name
    ensures r.None? ==> forall i | 0 <= i < |depts| :: depts[i].name != name
  {
    if |depts| == 0 then None
    else if depts[0].name == name then Some(depts[0])
    else FindDepartment(depts[1..], name)
  }

  // ---------------------------------------------------------------------------
  // Tap hit test

  /** One report of `name` per section in `sections` that contains the tapped point. */
  function SectionHits(name: DeptName, sections: seq<Rect>, x: real, y: real): (r: seq<DeptName>)
    ensures |r| <= |sections|
    ensures forall k | 0 <= k < |r| :: r[k] == name
    ensures r != [] <==> exists j | 0 <= j < |sections| :: InRect(sections[j], x, y)
  {
    if |sections| == 0 then []
    else
      var rest := SectionHits(name, sections[1..], x, y);
      assert forall j | 0 <= j < |sections| - 1 :: sections[1..][j] == sections[j + 1];
      (if InRect(sections[0], x, y) then [name] else []) + rest
  }

  /**
    The tap hit test: departments are visited in declaration order and, inside
    each, sections in order; every section containing the point reports its
    department once.
  */
  function DepartmentsAt(depts: seq<Department>, x: real, y: real): (r: seq<DeptName>)
  {
    if |depts| == 0 then [] else SectionHits(depts[0].name, depts[0].sections, x, y) + DepartmentsAt(depts[1..], x, y)
  }

  /** A department is reported exactly when one of its sections contains the point. */
  lemma {:induction false} DepartmentsAtIff(depts: seq<Department>, x: real, y: real, d: DeptName)
    ensures d in DepartmentsAt(depts, x, y) <==>
      exists i, j | 0 <= i < |depts| && 0 <= j < |depts[i].sections| ::
        depts[i].name == d && InRect(depts[i].sections[j], x, y)
  {
    if |depts| > 0 {
      DepartmentsAtIff(depts[1..], x, y, d);
      var here := SectionHits(depts[0].name, depts[0].sections, x, y);
      if d in here {
        var j :| 0 <= j < |depts[0].sections| && InRect(depts[0].sections[j], x, y);
        assert depts[0].name == d;
      }
      if exists i, j | 0 <= i < |depts| && 0 <= j < |depts[i].sections| ::
          depts[i].name == d && InRect(depts[i].sections[j], x, y) {
        var i, j :| 0 <= i < |depts| && 0 <= j < |depts[i].sections| &&
          depts[i].name == d && InRect(depts[i].sections[j], x, y);
        if i > 0 {
          assert depts[1..][i - 1] == depts[i];
        } else {
          assert here != [] && here[0] == d;
        }
      }
    }
  }

  /** The hit test reports something exactly when the department-interior oracle holds. */
  lemma HitTestAgreesWithOracle(layout: StoreLayout, x: real, y: real)
    ensures DepartmentsAt(layout.departments, x, y) != [] <==> IsPointInDepartment(layout, x, y)
  {
    var r := DepartmentsAt(layout.departments, x, y);
    if r != [] {
      DepartmentsAtIff(layout.departments, x, y, r[0]);
    }
    if IsPointInDepartment(layout, x, y) {
      var i, j :| 0 <= i < |layout.departments| && 0 <= j < |layout.departments[i].sections| &&
        InRect(layout.departments[i].sections[j], x, y);
      DepartmentsAtIff(layout.departments, x, y, layout.departments[i].name);
    }
  }

  /**
    FrozenFoods (620,230,110,160) and the second SnacksAndSweets section
    (620,330,110,150) overlap over x 620..730, y 330..390, so a tap there
    reports both departments.
  */
  lemma OverlappingSectionsReportBoth()
    ensures DepartmentsAt(Shipped().departments, 650.0, 350.0) == [FrozenFoods, SnacksAndSweets]
  {
    var ds := ShippedDepartments();
    assert ds == [ShippedFruitsAndVegetables(), ShippedBakery(), ShippedDairyAndEggs(), ShippedMeatAndSeafood(),
      ShippedBeverages(), ShippedFrozenFoods(), ShippedPantryStaples(), ShippedSnacksAndSweets(),
      ShippedHouseholdEssentials()];
  }

  /** A tap exactly on a section edge counts. */
  lemma EdgeTapCounts()
    ensures DepartmentsAt(Shipped().departments, 160.0, 50.0) == [Bakery]
  {
  }
}
