/**
  The textual route of `generateRoute`: the fetched items sorted by
  category order and then by in-aisle position, framed by "Entrance" and
  "Checkout".
*/
module Routing {
  import opened Wrappers
  import opened Sorting

  /** A fetched item; its name, category and in-aisle position may be missing. */
  datatype Doc = Doc(name: Option<string>, category: Option<string>, categoryNumber: Option<real>)

  /** What the batch of `getGoodsById` calls produced: one entry per id (`None` for null), or a failure. */
  datatype Fetch = Fetched(docs: seq<Option<Doc>>) | FetchFailed

  const CategoryOrder: seq<string> := [
    "FruitsAndVegetables", "MeatAndSeafood", "DairyAndEggs", "Bakery", "Beverages",
    "FrozenFoods", "PantryStaples", "SnacksAndSweets", "HouseholdEssentials"]

  /** `order.indexOf(c)`. */
  function IndexIn(order: seq<string>, c: string): (r: int)
    ensures -1 <= r < |order|
    ensures r >= 0 ==> order[r] == c && forall k | 0 <= k < r :: order[k] != c
    ensures r == -1 <==> c !in order
  {
    if |order| == 0 then -1
    else if order[0] == c then 0
    else
      var r := IndexIn(order[1..], c);
      if r == -1 then -1 else r + 1
  }

  /** `categoryOrder.indexOf(a?.category || '')`: -1 for a missing, empty or unknown category. */
  function CategoryIndex(d: Doc): int {
    IndexIn(CategoryOrder, d.category.GetOr(""))
  }

  /** `a?.categoryNumber || 0`. */
  function Position(d: Doc): real {
    d.categoryNumber.GetOr(0.0)
  }

  /** The comparator is negative: by category index, then by position. */
  predicate Before(a: Doc, b: Doc) {
    CategoryIndex(a) < CategoryIndex(b) || (CategoryIndex(a) == CategoryIndex(b) && Position(a) < Position(b))
  }

  lemma BeforeIsStrictWeakOrder()
    ensures StrictWeakOrder(Before)
  {
  }

  /** The non-null fetched items, in fetch order. */
  function NonNull(docs: seq<Option<Doc>>): (r: seq<Doc>)
    ensures |r| <= |docs|
  {
    if |docs| == 0 then []
    else NonNull(docs[..|docs| - 1]) + (match docs[|docs| - 1] case Some(d) => [d] case None => [])
  }

  /** Exactly the fetched items remain. */
  lemma {:induction false} NonNullMembers(docs: seq<Option<Doc>>, d: Doc)
    ensures d in NonNull(docs) <==> Some(d) in docs
  {
    if |docs| > 0 {
      NonNullMembers(docs[..|docs| - 1], d);
      assert docs == docs[..|docs| - 1] + [docs[|docs| - 1]];
    }
  }

  /** The filter works piecewise, so the kept items stay in fetch order. */
  lemma {:induction false} NonNullAppend(a: seq<Option<Doc>>, b: seq<Option<Doc>>)
    ensures NonNull(a + b) == NonNull(a) + NonNull(b)
    decreases |b|
  {
    if |b| == 0 {
      assert a + b == a;
    } else {
      var b', x := b[..|b| - 1], b[|b| - 1];
      var tail := match x case Some(d) => [d] case None => [];
      NonNullAppend(a, b');
      assert (a + b)[..|a + b| - 1] == a + b';
      assert (a + b)[|a + b| - 1] == x;
      assert NonNull(a + b) == NonNull(a + b') + tail;
      assert NonNull(b) == NonNull(b') + tail;
    }
  }

  /** A fetched item is kept, a missing one is dropped. */
  lemma NonNullSingle(o: Option<Doc>)
    ensures NonNull([o]) == match o case Some(d) => [d] case None => []
  {
    assert [o][..0] == [];
  }

  /** The number of non-null entries. */
  function CountSome(docs: seq<Option<Doc>>): nat {
    if |docs| == 0 then 0 else CountSome(docs[..|docs| - 1]) + (if docs[|docs| - 1].Some? then 1 else 0)
  }

  /** `item?.name || "Unnamed Item"`. */
  function Label(d: Doc): string {
    match d.name
    case Some(n) => if n == "" then "Unnamed Item" else n
    case None => "Unnamed Item"
  }

  function Labels(ds: seq<Doc>): (r: seq<string>)
    ensures |r| == |ds| && forall k | 0 <= k < |ds| :: r[k] == Label(ds[k])
  {
    if |ds| == 0 then [] else Labels(ds[..|ds| - 1]) + [Label(ds[|ds| - 1])]
  }

  /** The fetched items in route order. */
  function RouteOrder(docs: seq<Option<Doc>>): seq<Doc> {
    InsertionSort(NonNull(docs), Before)
  }

  /** `generateRoute`. */
  function GenerateRoute(fetch: Fetch): seq<string> {
    match fetch
    case FetchFailed => ["Entrance", "Error loading route", "Checkout"]
    case Fetched(docs) => ["Entrance"] + Labels(RouteOrder(docs)) + ["Checkout"]
  }

  lemma {:induction false} NonNullCount(docs: seq<Option<Doc>>)
    ensures |NonNull(docs)| == CountSome(docs)
  {
    if |docs| > 0 {
      NonNullCount(docs[..|docs| - 1]);
    }
  }

  /**
    The route starts with "Entrance" and ends with "Checkout"; on success it
    lists one label per non-null item, on failure the single error line.
  */
  lemma RouteFrame(fetch: Fetch)
    ensures var r := GenerateRoute(fetch);
      && |r| >= 2 && r[0] == "Entrance" && r[|r| - 1] == "Checkout"
      && (fetch.Fetched? ==> |r| == CountSome(fetch.docs) + 2)
      && (fetch.FetchFailed? ==> r == ["Entrance", "Error loading route", "Checkout"])
  {
    if fetch.Fetched? {
      NonNullCount(fetch.docs);
      SortPermutes(NonNull(fetch.docs), Before);
      assert |multiset(RouteOrder(fetch.docs))| == |multiset(NonNull(fetch.docs))|;
    }
  }

  /**
    The route order: the same items, each as often; ascending by category
    index, where an unknown category (-1) comes before every known one;
    ascending by position within a category; and items with equal category
    index and position in fetch order.
  */
  lemma RouteOrderContract(docs: seq<Option<Doc>>, y: Doc)
    ensures var s := RouteOrder(docs);
      && multiset(s) == multiset(NonNull(docs))
      && (forall i, j | 0 <= i < j < |s| ::
            CategoryIndex(s[i]) <= CategoryIndex(s[j])
            && (CategoryIndex(s[i]) == CategoryIndex(s[j]) ==> Position(s[i]) <= Position(s[j])))
      && TiedWith(s, y, Before) == TiedWith(NonNull(docs), y, Before)
  {
    BeforeIsStrictWeakOrder();
    SortPermutes(NonNull(docs), Before);
    SortSorts(NonNull(docs), Before);
    SortIsStable(NonNull(docs), y, Before);
  }

  /** Every known category sorts after an unknown one. */
  lemma UnknownCategoriesFirst(docs: seq<Option<Doc>>, i: nat, j: nat)
    requires i < |RouteOrder(docs)| && j < |RouteOrder(docs)|
    requires CategoryIndex(RouteOrder(docs)[i]) == -1 && CategoryIndex(RouteOrder(docs)[j]) >= 0
    ensures i < j
  {
    var s := RouteOrder(docs);
    RouteOrderContract(docs, s[i]);
  }
}
