/**
  The stable sort of `Array.prototype.sort` with a comparator, as insertion
  sort: `lt(a, b)` holds when the comparator puts `a` strictly before `b`
  (it returns a negative number). Each element is inserted after every
  element it does not strictly precede, so equal elements keep their order.
*/
module Sorting {

  /** Asymmetric and negatively transitive: a strict weak order. */
  ghost predicate StrictWeakOrder<T(!new)>(lt: (T, T) -> bool) {
    && (forall a, b :: lt(a, b) ==> !lt(b, a))
    && (forall a, b, c :: !lt(a, b) && !lt(b, c) ==> !lt(a, c))
  }

  /** Neither strictly precedes the other. */
  predicate Tied<T>(lt: (T, T) -> bool, a: T, b: T) {
    !lt(a, b) && !lt(b, a)
  }

  /** No element strictly precedes an earlier one. */
  predicate Sorted<T>(s: seq<T>, lt: (T, T) -> bool) {
    forall i, j | 0 <= i < j < |s| :: !lt(s[j], s[i])
  }

  /** Places `x` after the last element it does not strictly precede. */
  function Insert<T>(s: seq<T>, x: T, lt: (T, T) -> bool): seq<T> {
    if |s| == 0 then [x]
    else if lt(x, s[|s| - 1]) then Insert(s[..|s| - 1], x, lt) + [s[|s| - 1]]
    else s + [x]
  }

  function InsertionSort<T>(s: seq<T>, lt: (T, T) -> bool): seq<T> {
    if |s| == 0 then [] else Insert(InsertionSort(s[..|s| - 1], lt), s[|s| - 1], lt)
  }

  lemma {:induction false} InsertPermutes<T>(s: seq<T>, x: T, lt: (T, T) -> bool)
    ensures multiset(Insert(s, x, lt)) == multiset(s) + multiset{x}
  {
    if |s| > 0 && lt(x, s[|s| - 1]) {
      InsertPermutes(s[..|s| - 1], x, lt);
      assert s == s[..|s| - 1] + [s[|s| - 1]];
    }
  }

  /** The sorted sequence holds the same elements, each as often. */
  lemma {:induction false} SortPermutes<T>(s: seq<T>, lt: (T, T) -> bool)
    ensures multiset(InsertionSort(s, lt)) == multiset(s)
  {
    if |s| > 0 {
      SortPermutes(s[..|s| - 1], lt);
      InsertPermutes(InsertionSort(s[..|s| - 1], lt), s[|s| - 1], lt);
      assert s == s[..|s| - 1] + [s[|s| - 1]];
    }
  }

  lemma {:induction false} InsertSorted<T(!new)>(s: seq<T>, x: T, lt: (T, T) -> bool)
    requires StrictWeakOrder(lt) && Sorted(s, lt)
    ensures Sorted(Insert(s, x, lt), lt)
  {
    if |s| > 0 {
      var init, last := s[..|s| - 1], s[|s| - 1];
      if lt(x, last) {
        InsertSorted(init, x, lt);
        var r := Insert(init, x, lt);
        InsertPermutes(init, x, lt);
        forall i | 0 <= i < |r| ensures !lt(last, r[i]) {
          assert r[i] in multiset(init) + multiset{x};
          if r[i] != x {
            assert r[i] in init;
          }
        }
      } else {
        forall i | 0 <= i < |s| ensures !lt(x, s[i]) {
          assert !lt(x, last) && !lt(last, s[i]);
        }
      }
    }
  }

  /** Under a strict weak order the result is sorted. */
  lemma {:induction false} SortSorts<T(!new)>(s: seq<T>, lt: (T, T) -> bool)
    requires StrictWeakOrder(lt)
    ensures Sorted(InsertionSort(s, lt), lt)
  {
    if |s| > 0 {
      SortSorts(s[..|s| - 1], lt);
      InsertSorted(InsertionSort(s[..|s| - 1], lt), s[|s| - 1], lt);
    }
  }

  /** The elements tied with `y`, in order. */
  function TiedWith<T>(s: seq<T>, y: T, lt: (T, T) -> bool): (r: seq<T>)
    ensures |r| <= |s|
  {
    if |s| == 0 then []
    else TiedWith(s[..|s| - 1], y, lt) + (if Tied(lt, s[|s| - 1], y) then [s[|s| - 1]] else [])
  }

  lemma {:induction false} TiedWithAppend<T>(a: seq<T>, b: seq<T>, y: T, lt: (T, T) -> bool)
    ensures TiedWith(a + b, y, lt) == TiedWith(a, y, lt) + TiedWith(b, y, lt)
    decreases |b|
  {
    if |b| > 0 {
      TiedWithAppend(a, b[..|b| - 1], y, lt);
      assert (a + b)[..|a + b| - 1] == a + b[..|b| - 1];
    } else {
      assert a + b == a;
    }
  }

  lemma TiedWithSingle<T>(x: T, y: T, lt: (T, T) -> bool)
    ensures TiedWith([x], y, lt) == if Tied(lt, x, y) then [x] else []
  {
    assert [x][..0] == [];
  }

  /** Two elements, one strictly before the other, are never both tied with the same `y`. */
  lemma TiedSwap<T(!new)>(x: T, last: T, y: T, lt: (T, T) -> bool)
    requires StrictWeakOrder(lt) && lt(x, last)
    ensures TiedWith([x], y, lt) + TiedWith([last], y, lt) == TiedWith([last], y, lt) + TiedWith([x], y, lt)
  {
    TiedWithSingle(x, y, lt);
    TiedWithSingle(last, y, lt);
    if Tied(lt, x, y) && Tied(lt, last, y) {
      assert false;
    }
  }

  lemma {:induction false} InsertKeepsTies<T(!new)>(s: seq<T>, x: T, y: T, lt: (T, T) -> bool)
    requires StrictWeakOrder(lt)
    ensures TiedWith(Insert(s, x, lt), y, lt) == TiedWith(s, y, lt) + TiedWith([x], y, lt)
  {
    if |s| > 0 && lt(x, s[|s| - 1]) {
      var init, last := s[..|s| - 1], s[|s| - 1];
      InsertKeepsTies(init, x, y, lt);
      TiedWithAppend(Insert(init, x, lt), [last], y, lt);
      TiedWithAppend(init, [last], y, lt);
      assert s == init + [last];
      TiedSwap(x, last, y, lt);
    } else if |s| > 0 {
      TiedWithAppend(s, [x], y, lt);
    } else {
      TiedWithSingle(x, y, lt);
    }
  }

  /**
    Stability: the elements tied with any `y` appear in the result in the
    order they had in the input.
  */
  lemma {:induction false} SortIsStable<T(!new)>(s: seq<T>, y: T, lt: (T, T) -> bool)
    requires StrictWeakOrder(lt)
    ensures TiedWith(InsertionSort(s, lt), y, lt) == TiedWith(s, y, lt)
  {
    if |s| > 0 {
      var init, last := s[..|s| - 1], s[|s| - 1];
      SortIsStable(init, y, lt);
      InsertKeepsTies(InsertionSort(init, lt), last, y, lt);
      TiedWithAppend(init, [last], y, lt);
      assert s == init + [last];
      assert [last][..0] == [];
    }
  }

  /**
    Inserting `x` puts it at `j` when it does not strictly precede the
    element before `j` and strictly precedes every element from `j` on.
  */
  lemma {:induction false} InsertAt<T>(s: seq<T>, j: nat, x: T, lt: (T, T) -> bool)
    requires j <= |s|
    requires j == 0 || !lt(x, s[j - 1])
    requires forall k | j <= k < |s| :: lt(x, s[k])
    ensures Insert(s, x, lt) == s[..j] + [x] + s[j..]
    decreases |s|
  {
    if |s| == j {
      assert s[..j] == s && s[j..] == [];
    } else {
      var init := s[..|s| - 1];
      InsertAt(init, j, x, lt);
      assert init[..j] == s[..j];
      assert s[j..] == init[j..] + [s[|s| - 1]];
    }
  }

  /** Moves `a[i]` left past the elements of `a[..i]` it strictly precedes. */
  method InsertInPlace<T>(a: array<T>, i: nat, lt: (T, T) -> bool)
    requires i < a.Length
    modifies a
    ensures a[..i + 1] == Insert(old(a[..i]), old(a[i]), lt)
    ensures a[i + 1..] == old(a[i + 1..])
  {
    ghost var sorted := a[..i];
    ghost var rest := a[i + 1..];
    var x := a[i];
    var j := i;
    while j > 0 && lt(x, a[j - 1])
      invariant 0 <= j <= i
      invariant forall k | 0 <= k < j :: a[k] == sorted[k]
      invariant forall k | j < k <= i :: a[k] == sorted[k - 1]
      invariant forall k | i < k < a.Length :: a[k] == rest[k - i - 1]
      invariant forall k | j <= k < i :: lt(x, sorted[k])
    {
      a[j] := a[j - 1];
      j := j - 1;
    }
    a[j] := x;
    InsertAt(sorted, j, x, lt);
    Assembled(a[..i + 1], sorted, j, x);
    assert a[i + 1..] == rest;
  }

  /** A sequence that agrees with `sorted` before `j`, holds `x` at `j` and `sorted` shifted by one after it. */
  lemma Assembled<T>(t: seq<T>, sorted: seq<T>, j: nat, x: T)
    requires |t| == |sorted| + 1 && j <= |sorted|
    requires forall k | 0 <= k < j :: t[k] == sorted[k]
    requires t[j] == x
    requires forall k | j < k < |t| :: t[k] == sorted[k - 1]
    ensures t == sorted[..j] + [x] + sorted[j..]
  {
  }

  /** Sorts `a` in place by inserting each element into the sorted prefix before it. */
  method SortInPlace<T>(a: array<T>, lt: (T, T) -> bool)
    modifies a
    ensures a[..] == InsertionSort(old(a[..]), lt)
  {
    ghost var s := a[..];
    var i := 0;
    while i < a.Length
      invariant 0 <= i <= a.Length
      invariant a[..i] == InsertionSort(s[..i], lt)
      invariant a[i..] == s[i..]
    {
      assert a[i] == s[i];
      InsertInPlace(a, i, lt);
      assert s[..i + 1][..i] == s[..i];
      assert InsertionSort(s[..i + 1], lt) == Insert(InsertionSort(s[..i], lt), s[i], lt);
      assert a[i + 1..] == s[i + 1..];
      i := i + 1;
    }
    assert a[..] == a[..a.Length] && s == s[..a.Length];
  }
}
