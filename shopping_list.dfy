/**
  The shopping-list operations: remove by id, set a quantity, and adding a
  batch of requested names (de-duplication, best-match choice among the
  search results, append-or-increment). Each operation maps the previous
  list to the next one, as the functional state updaters do.
*/
module ShoppingList {
  import opened Wrappers
  import opened Text
  import opened Catalog
  import opened SeqFacts

  /** A shopping-list entry. */
  datatype Item = Item(id: string, name: string, category: string, price: real, imageId: string, rating: real, quantity: int)

  // ---------------------------------------------------------------------------
  // Remove and update

  /** `removeFromShoppingList`: `prev.filter(item => item.id !== id)`. */
  function Remove(list: seq<Item>, id: string): (r: seq<Item>)
    ensures |r| <= |list|
    ensures forall k | 0 <= k < |r| :: r[k].id != id
  {
    if |list| == 0 then []
    else Remove(list[..|list| - 1], id) + (if list[|list| - 1].id != id then [list[|list| - 1]] else [])
  }

  /** Exactly the items with another id remain. */
  lemma {:induction false} RemoveMembers(list: seq<Item>, id: string, x: Item)
    ensures x in Remove(list, id) <==> x in list && x.id != id
  {
    if |list| > 0 {
      RemoveMembers(list[..|list| - 1], id, x);
      assert list == list[..|list| - 1] + [list[|list| - 1]];
    }
  }

  /** Removal works piecewise, so the kept items stay in their original order. */
  lemma {:induction false} RemoveAppend(a: seq<Item>, b: seq<Item>, id: string)
    ensures Remove(a + b, id) == Remove(a, id) + Remove(b, id)
    decreases |b|
  {
    if |b| == 0 {
      AppendEmpty(a, b);
    } else {
      RemoveAppend(a, b[..|b| - 1], id);
      DropLastAppend(a, b);
    }
  }

  /** A list without the id is left as it is; removing twice is removing once. */
  lemma {:induction false} RemoveAbsent(list: seq<Item>, id: string)
    requires forall k | 0 <= k < |list| :: list[k].id != id
    ensures Remove(list, id) == list
  {
    if |list| > 0 {
      RemoveAbsent(list[..|list| - 1], id);
    }
  }

  lemma RemoveIdempotent(list: seq<Item>, id: string)
    ensures Remove(Remove(list, id), id) == Remove(list, id)
  {
    RemoveAbsent(Remove(list, id), id);
  }

  /** `updateQuantity`: every item with the id gets the quantity; nothing else changes. */
  function UpdateQuantity(list: seq<Item>, id: string, quantity: int): (r: seq<Item>)
    ensures |r| == |list|
    ensures forall k | 0 <= k < |list| ::
      r[k] == if list[k].id == id then list[k].(quantity := quantity) else list[k]
  {
    if |list| == 0 then []
    else
      var last := list[|list| - 1];
      UpdateQuantity(list[..|list| - 1], id, quantity) + [if last.id == id then last.(quantity := quantity) else last]
  }

  /** The later of two updates of the same id wins. */
  lemma UpdateOverwrites(list: seq<Item>, id: string, q1: int, q2: int)
    ensures UpdateQuantity(UpdateQuantity(list, id, q1), id, q2) == UpdateQuantity(list, id, q2)
  {
  }

  /** Updating never changes which ids are present, or where. */
  lemma UpdateKeepsIds(list: seq<Item>, id: string, q: int)
    ensures forall k | 0 <= k < |list| :: UpdateQuantity(list, id, q)[k].id == list[k].id
    ensures Remove(UpdateQuantity(list, id, q), id) == Remove(list, id)
  {
    var u := UpdateQuantity(list, id, q);
    RemoveUnchanged(list, u, id);
  }

  lemma {:induction false} RemoveUnchanged(a: seq<Item>, b: seq<Item>, id: string)
    requires |a| == |b|
    requires forall k | 0 <= k < |a| :: a[k].id == b[k].id && (a[k].id != id ==> a[k] == b[k])
    ensures Remove(a, id) == Remove(b, id)
  {
    if |a| > 0 {
      RemoveUnchanged(a[..|a| - 1], b[..|b| - 1], id);
    }
  }

  // ---------------------------------------------------------------------------
  // De-duplication

  /** `[...new Set(items)]`: each name once, at its first occurrence. */
  function Dedup<T(==,!new)>(names: seq<T>): (r: seq<T>)
    ensures forall x :: x in r <==> x in names
    ensures forall i, j | 0 <= i < j < |r| :: r[i] != r[j]
  {
    if |names| == 0 then []
    else
      var d := Dedup(names[..|names| - 1]);
      var x := names[|names| - 1];
      assert forall y :: y in names <==> y in names[..|names| - 1] || y == x;
      if x in d then d else d + [x]
  }

  /** The index of the first occurrence of `x`. */
  function FirstIndex<T(==)>(s: seq<T>, x: T): (i: nat)
    requires x in s
    ensures i < |s| && s[i] == x && forall k | 0 <= k < i :: s[k] != x
  {
    if s[0] == x then 0 else 1 + FirstIndex(s[1..], x)
  }

  lemma FirstIndexPrefix<T>(s: seq<T>, t: seq<T>, x: T)
    requires x in s
    ensures x in s + t && FirstIndex(s + t, x) == FirstIndex(s, x)
  {
    var i := FirstIndex(s, x);
    assert (s + t)[i] == x;
    var j := FirstIndex(s + t, x);
    assert j <= i;
  }

  /** Appending an element leaves the first occurrences of earlier elements where they were. */
  lemma FirstIndexKept<T>(init: seq<T>, x: T, d: seq<T>)
    requires forall k | 0 <= k < |d| :: d[k] in init
    ensures forall k | 0 <= k < |d| :: d[k] in init + [x] && FirstIndex(init + [x], d[k]) == FirstIndex(init, d[k])
  {
    forall k | 0 <= k < |d| ensures d[k] in init + [x] && FirstIndex(init + [x], d[k]) == FirstIndex(init, d[k]) {
      FirstIndexPrefix(init, [x], d[k]);
    }
  }

  /** A new element first occurs where it is appended. */
  lemma FirstIndexLast<T>(init: seq<T>, x: T)
    requires x !in init
    ensures x in init + [x] && FirstIndex(init + [x], x) == |init|
  {
    assert (init + [x])[|init|] == x;
  }

  /** The de-duplicated names are in the order of their first occurrences. */
  lemma {:induction false} DedupFirstOccurrenceOrder<T(!new)>(names: seq<T>)
    ensures forall i, j | 0 <= i < j < |Dedup(names)| ::
      FirstIndex(names, Dedup(names)[i]) < FirstIndex(names, Dedup(names)[j])
  {
    if |names| > 0 {
      var init, x := names[..|names| - 1], names[|names| - 1];
      DedupFirstOccurrenceOrder(init);
      assert names == init + [x];
      var d := Dedup(init);
      FirstIndexKept(init, x, d);
      if x !in d {
        FirstIndexLast(init, x);
        var r := d + [x];
        forall i, j | 0 <= i < j < |r| ensures FirstIndex(names, r[i]) < FirstIndex(names, r[j]) {
          if j == |d| {
            assert FirstIndex(init, d[i]) < |init|;
          } else {
            assert FirstIndex(init, d[i]) < FirstIndex(init, d[j]);
          }
        }
      }
    }
  }

  // ---------------------------------------------------------------------------
  // Best match

  /** A case-insensitive exact name match. */
  predicate ExactName(g: Good, name: string) {
    ToLower(g.name) == ToLower(name)
  }

  /** The lower-case name holds the lower-case query as a whole word. */
  predicate WordName(g: Good, name: string) {
    ContainsWholeWord(ToLower(g.name), ToLower(name))
  }

  /** The index of the first result satisfying `p` (`results.find`). */
  function FindFirst(results: seq<Good>, p: Good -> bool): (r: Option<nat>)
    ensures r.Some? ==>
      && r.value < |results|
      && p(results[r.value])
      && forall k | 0 <= k < r.value :: !p(results[k])
    ensures r.None? ==> forall k | 0 <= k < |results| :: !p(results[k])
  {
    if |results| == 0 then None
    else if p(results[0]) then Some(0)
    else match FindFirst(results[1..], p) {
      case None => None
      case Some(k) => Some(k + 1)
    }
  }

  /** `exactMatch || containsFullQuery || results[0]`, or nothing for no results. */
  function BestMatch(name: string, results: seq<Good>): Option<Good>
    requires NoRegexMeta(name)
  {
    if |results| == 0 then None
    else match FindFirst(results, g => ExactName(g, name)) {
      case Some(k) => Some(results[k])
      case None =>
        match FindFirst(results, g => WordName(g, name)) {
          case Some(k) => Some(results[k])
          case None => Some(results[0])
        }
    }
  }

  /**
    The best match: nothing exactly when there are no results; otherwise the
    first exact case-insensitive name match, failing that the first result
    holding the name as a whole word, failing that the first result.
  */
  lemma BestMatchContract(name: string, results: seq<Good>)
    requires NoRegexMeta(name)
    ensures BestMatch(name, results).None? <==> |results| == 0
    ensures BestMatch(name, results).Some? ==> exists k | 0 <= k < |results| ::
      && BestMatch(name, results).value == results[k]
      && (if exists e | 0 <= e < |results| :: ExactName(results[e], name) then
            ExactName(results[k], name) && forall e | 0 <= e < k :: !ExactName(results[e], name)
          else if exists w | 0 <= w < |results| :: WordName(results[w], name) then
            WordName(results[k], name) && forall w | 0 <= w < k :: !WordName(results[w], name)
          else k == 0)
  {
    if |results| > 0 {
      match FindFirst(results, g => ExactName(g, name)) {
        case Some(k) =>
        case None =>
          match FindFirst(results, g => WordName(g, name)) {
            case Some(k) =>
            case None =>
          }
      }
    }
  }

  /** A result named exactly like the request, whatever its case, is always chosen over the others. */
  lemma ExactNameWins(name: string, results: seq<Good>, k: nat)
    requires NoRegexMeta(name) && k < |results| && ExactName(results[k], name)
    requires forall e | 0 <= e < k :: !ExactName(results[e], name)
    ensures BestMatch(name, results) == Some(results[k])
  {
    assert FindFirst(results, g => ExactName(g, name)).Some?;
  }

  // ---------------------------------------------------------------------------
  // Append or increment

  /** The first item with the id (`shoppingList.find`). */
  function FindById(list: seq<Item>, id: string): (r: Option<Item>)
    ensures r.Some? ==> r.value in list && r.value.id == id
    ensures r.None? ==> forall k | 0 <= k < |list| :: list[k].id != id
  {
    if |list| == 0 then None
    else if list[0].id == id then Some(list[0])
    else FindById(list[1..], id)
  }

  /** What one requested name does to the list. */
  datatype Outcome = Increment(id: string, quantity: int) | Append(item: Item) | Skip

  function NewItem(g: Good): Item {
    Item(g.id, g.name, g.category, g.price, g.imageId, g.rating, 1)
  }

  /**
    One requested name: a failed search or no results change nothing; a best
    match already on the list (read from the list as it was when the batch
    started) sets that item's quantity to its old quantity + 1; any other
    best match is a new item with quantity 1.
  */
  function Resolve(list: seq<Item>, name: string, found: Option<seq<Good>>): Outcome
    requires NoRegexMeta(name)
  {
    match found
    case None => Skip
    case Some(results) =>
      match BestMatch(name, results)
      case None => Skip
      case Some(g) =>
        match FindById(list, g.id)
        case Some(existing) => Increment(existing.id, existing.quantity + 1)
        case None => Append(NewItem(g))
  }

  function Outcomes(list: seq<Item>, names: seq<string>, search: string -> Option<seq<Good>>): (r: seq<Outcome>)
    requires forall n | n in names :: NoRegexMeta(n)
    ensures |r| == |names|
    ensures forall k | 0 <= k < |names| :: r[k] == Resolve(list, names[k], search(names[k]))
  {
    if |names| == 0 then []
    else Outcomes(list, names[..|names| - 1], search) + [Resolve(list, names[|names| - 1], search(names[|names| - 1]))]
  }

  /** The quantity updates, applied in order. */
  function ApplyIncrements(list: seq<Item>, os: seq<Outcome>): (r: seq<Item>)
    ensures |r| == |list|
  {
    if |os| == 0 then list
    else
      var l := ApplyIncrements(list, os[..|os| - 1]);
      match os[|os| - 1]
      case Increment(id, q) => UpdateQuantity(l, id, q)
      case _ => l
  }

  /** The new items, in order (`newItems.filter(item => item !== null)`). */
  function Appended(os: seq<Outcome>): (r: seq<Item>)
    ensures |r| <= |os|
    ensures forall x :: x in r <==> exists k | 0 <= k < |os| :: os[k].Append? && os[k].item == x
  {
    if |os| == 0 then []
    else
      var init, last := os[..|os| - 1], os[|os| - 1];
      assert forall k | 0 <= k < |init| :: init[k] == os[k];
      Appended(init) + (if last.Append? then [last.item] else [])
  }

  /** Collecting the new items works piecewise, so they keep the batch order. */
  lemma {:induction false} AppendedAppend(a: seq<Outcome>, b: seq<Outcome>)
    ensures Appended(a + b) == Appended(a) + Appended(b)
    decreases |b|
  {
    if |b| == 0 {
      assert a + b == a;
    } else {
      var b', x := b[..|b| - 1], b[|b| - 1];
      var tail := if x.Append? then [x.item] else [];
      AppendedAppend(a, b');
      assert (a + b)[..|a + b| - 1] == a + b';
      assert (a + b)[|a + b| - 1] == x;
      assert Appended(a + b) == Appended(a + b') + tail;
      assert Appended(b) == Appended(b') + tail;
    }
  }

  /** A single outcome contributes its item exactly when it is an append. */
  lemma AppendedSingle(o: Outcome)
    ensures Appended([o]) == if o.Append? then [o.item] else []
  {
    assert [o][..0] == [];
  }

  /**
    A request appends a new item exactly when its search succeeded, its best
    match is `g` and no item on the list has `g`'s id; the new item is `g`
    with quantity 1.
  */
  lemma ResolveAppendIff(list: seq<Item>, name: string, results: seq<Good>, g: Good)
    requires NoRegexMeta(name)
    ensures Resolve(list, name, Some(results)) == Append(NewItem(g))
      <==> BestMatch(name, results) == Some(g) && FindById(list, g.id).None?
  {
    if Resolve(list, name, Some(results)) == Append(NewItem(g)) {
      var b := BestMatch(name, results).value;
      assert NewItem(b) == NewItem(g);
      assert b == g;
    }
  }

  /**
    `addToShoppingList`: the de-duplicated names are resolved against the
    list as it was, the quantity updates are applied, and the new items are
    appended after the existing ones. `search` stands for `searchGoods`
    (`None` when it fails).
  */
  function AddToShoppingList(list: seq<Item>, names: seq<string>, search: string -> Option<seq<Good>>): seq<Item>
    requires forall n | n in names :: NoRegexMeta(n)
  {
    var unique := Dedup(names);
    var os := Outcomes(list, unique, search);
    ApplyIncrements(list, os) + Appended(os)
  }

  /** Every increment in a batch names an item of the list and sets its first occurrence's quantity + 1. */
  predicate IncrementsFrom(list: seq<Item>, os: seq<Outcome>) {
    forall k | 0 <= k < |os| && os[k].Increment? ::
      FindById(list, os[k].id).Some? && os[k].quantity == FindById(list, os[k].id).value.quantity + 1
  }

  /** Every appended item is a fresh copy with quantity 1 of a good not on the list. */
  predicate AppendsFresh(list: seq<Item>, os: seq<Outcome>) {
    forall k | 0 <= k < |os| && os[k].Append? ::
      os[k].item.quantity == 1 && forall e | 0 <= e < |list| :: list[e].id != os[k].item.id
  }

  lemma OutcomesShape(list: seq<Item>, names: seq<string>, search: string -> Option<seq<Good>>)
    requires forall n | n in names :: NoRegexMeta(n)
    ensures IncrementsFrom(list, Outcomes(list, names, search))
    ensures AppendsFresh(list, Outcomes(list, names, search))
  {
  }

  /** Whether some increment in `os` targets `id`. */
  predicate Incremented(os: seq<Outcome>, id: string) {
    exists k | 0 <= k < |os| :: os[k].Increment? && os[k].id == id
  }

  /**
    After the increments each item is unchanged but for its quantity, which
    is its first occurrence's quantity + 1 when some increment names its id.
  */
  lemma {:induction false} ApplyIncrementsEffect(list: seq<Item>, base: seq<Item>, os: seq<Outcome>)
    requires |base| == |list| && forall k | 0 <= k < |list| :: base[k].id == list[k].id
    requires IncrementsFrom(list, os)
    ensures var r := ApplyIncrements(base, os);
      forall k | 0 <= k < |base| ::
        r[k] == if Incremented(os, base[k].id)
                then base[k].(quantity := FindById(list, base[k].id).value.quantity + 1)
                else base[k]
  {
    if |os| > 0 {
      var init := os[..|os| - 1];
      assert IncrementsFrom(list, init) by {
        forall k | 0 <= k < |init| && init[k].Increment?
          ensures FindById(list, init[k].id).Some? && init[k].quantity == FindById(list, init[k].id).value.quantity + 1
        {
          assert init[k] == os[k];
        }
      }
      ApplyIncrementsEffect(list, base, init);
      var r := ApplyIncrements(base, os);
      forall k | 0 <= k < |base|
        ensures r[k] == if Incremented(os, base[k].id)
                        then base[k].(quantity := FindById(list, base[k].id).value.quantity + 1)
                        else base[k]
      {
        if Incremented(init, base[k].id) {
          var w :| 0 <= w < |init| && init[w].Increment? && init[w].id == base[k].id;
          assert os[w] == init[w];
        }
        if Incremented(os, base[k].id) && !Incremented(init, base[k].id) {
          assert os[|os| - 1].Increment? && os[|os| - 1].id == base[k].id;
        }
      }
    }
  }

  /**
    The add contract: the existing items keep their place and every field
    but the quantity; an item whose id some request matched gets its first
    occurrence's old quantity + 1 (once, however many requests matched it);
    after them come the new items, each with quantity 1 and an id not
    already on the list.
  */
  lemma AddContract(list: seq<Item>, names: seq<string>, search: string -> Option<seq<Good>>)
    requires forall n | n in names :: NoRegexMeta(n)
    ensures var r := AddToShoppingList(list, names, search);
      var os := Outcomes(list, Dedup(names), search);
      && |r| >= |list|
      && (forall k | 0 <= k < |list| ::
            r[k] == if Incremented(os, list[k].id)
                    then list[k].(quantity := FindById(list, list[k].id).value.quantity + 1)
                    else list[k])
      && (forall k | |list| <= k < |r| ::
            r[k].quantity == 1 && forall e | 0 <= e < |list| :: list[e].id != r[k].id)
      && r[|list|..] == Appended(os)
  {
    var unique := Dedup(names);
    var os := Outcomes(list, unique, search);
    OutcomesShape(list, unique, search);
    ApplyIncrementsEffect(list, list, os);
    AppendedFresh(list, os);
    var r := AddToShoppingList(list, names, search);
    assert r == ApplyIncrements(list, os) + Appended(os);
    assert r[|list|..] == Appended(os);
  }

  lemma {:induction false} AppendedFresh(list: seq<Item>, os: seq<Outcome>)
    requires AppendsFresh(list, os)
    ensures forall k | 0 <= k < |Appended(os)| ::
      Appended(os)[k].quantity == 1 && forall e | 0 <= e < |list| :: list[e].id != Appended(os)[k].id
  {
    if |os| > 0 {
      var init := os[..|os| - 1];
      assert AppendsFresh(list, init) by {
        forall k | 0 <= k < |init| && init[k].Append? ensures init[k] == os[k] { }
      }
      AppendedFresh(list, init);
    }
  }

  /** When every search fails or finds nothing, the list is unchanged. */
  lemma NothingFoundChangesNothing(list: seq<Item>, names: seq<string>, search: string -> Option<seq<Good>>)
    requires forall n | n in names :: NoRegexMeta(n)
    requires forall k | 0 <= k < |names| :: search(names[k]).None? || search(names[k]) == Some([])
    ensures AddToShoppingList(list, names, search) == list
  {
    var unique := Dedup(names);
    assert forall k | 0 <= k < |unique| :: unique[k] in names;
    var os := Outcomes(list, unique, search);
    assert forall k | 0 <= k < |os| :: os[k] == Skip;
    AllSkip(list, os);
  }

  lemma {:induction false} AllSkip(list: seq<Item>, os: seq<Outcome>)
    requires forall k | 0 <= k < |os| :: os[k] == Skip
    ensures ApplyIncrements(list, os) == list && Appended(os) == []
  {
    if |os| > 0 {
      AllSkip(list, os[..|os| - 1]);
    }
  }
}
