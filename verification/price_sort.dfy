/**
 * The page's price sort (`frontend/src/Pages/Products.jsx` line 55): the comparator subtracts
 * prices, ascending for the order `asc` and descending for any other order.
 * ECMAScript requires `Array.prototype.sort` to be stable, so the result is fixed by two
 * facts: it is ordered by price, and products of equal price keep their order. The model
 * is an insertion sort; `SortedStableUnique` shows that any sort with those two facts,
 * the engine's own included, produces the same list.
 */
module PriceSort {
  import opened Catalog
  import Seqs

  /** The comparator is negative: `x` must be placed before `y`. */
  predicate Precedes(x: Product, y: Product, ascending: bool) {
    if ascending then x.price < y.price else x.price > y.price
  }

  /** The comparator is not positive: `x` may stay before `y`. */
  predicate InOrder(x: Product, y: Product, ascending: bool) {
    !Precedes(y, x, ascending)
  }

  predicate Sorted(s: seq<Product>, ascending: bool) {
    forall i, j :: 0 <= i < j < |s| ==> InOrder(s[i], s[j], ascending)
  }

  function AtPrice(k: real): Product -> bool {
    (p: Product) => p.price == k
  }

  /** The products of price `k`, in their order in `s`. */
  function PriceClass(s: seq<Product>, k: real): seq<Product> {
    Seqs.Filter(s, AtPrice(k))
  }

  lemma ClassAppend(a: seq<Product>, b: seq<Product>, k: real)
    ensures PriceClass(a + b, k) == PriceClass(a, k) + PriceClass(b, k)
  {
    Seqs.FilterAppend(a, b, AtPrice(k));
  }

  lemma ClassOfCons(t: seq<Product>, k: real)
    requires t != []
    ensures PriceClass(t, k) == (if t[0].price == k then [t[0]] else []) + PriceClass(t[1..], k)
  {
  }

  /** `t` holds, price by price, the same products as `s` in the same order. */
  ghost predicate SameClasses(t: seq<Product>, s: seq<Product>) {
    forall k: real :: PriceClass(t, k) == PriceClass(s, k)
  }

  /** Place `x` after every element of `s` that does not strictly follow it. */
  function Insert(s: seq<Product>, x: Product, ascending: bool): seq<Product> {
    if s == [] || !Precedes(x, s[|s| - 1], ascending) then s + [x]
    else Insert(s[..|s| - 1], x, ascending) + [s[|s| - 1]]
  }

  /** Stable insertion sort by price, taking the elements left to right. */
  function SortByPrice(s: seq<Product>, ascending: bool): seq<Product> {
    if s == [] then []
    else Insert(SortByPrice(s[..|s| - 1], ascending), s[|s| - 1], ascending)
  }

  // ---------------------------------------------------------------------
  // Insertion keeps the elements, the order and the price classes

  lemma {:induction false} InsertPermutes(s: seq<Product>, x: Product, ascending: bool)
    ensures multiset(Insert(s, x, ascending)) == multiset(s) + multiset{x}
  {
    if s != [] && Precedes(x, s[|s| - 1], ascending) {
      var init := s[..|s| - 1];
      InsertPermutes(init, x, ascending);
      assert s == init + [s[|s| - 1]];
    }
  }

  lemma {:induction false} InsertSorted(s: seq<Product>, x: Product, ascending: bool)
    requires Sorted(s, ascending)
    ensures Sorted(Insert(s, x, ascending), ascending)
  {
    if s != [] && Precedes(x, s[|s| - 1], ascending) {
      var init, last := s[..|s| - 1], s[|s| - 1];
      InsertSorted(init, x, ascending);
      InsertPermutes(init, x, ascending);
      var r := Insert(init, x, ascending);
      forall i | 0 <= i < |r| ensures InOrder(r[i], last, ascending) {
        assert r[i] in multiset(r);
        assert r[i] in init || r[i] == x;
      }
    }
  }

  lemma {:induction false} InsertClasses(s: seq<Product>, x: Product, ascending: bool, k: real)
    ensures PriceClass(Insert(s, x, ascending), k) == PriceClass(s, k) + PriceClass([x], k)
  {
    if s == [] || !Precedes(x, s[|s| - 1], ascending) {
      ClassAppend(s, [x], k);
    } else {
      var init, last := s[..|s| - 1], s[|s| - 1];
      InsertClasses(init, x, ascending, k);
      ClassAppend(Insert(init, x, ascending), [last], k);
      ClassAppend(init, [last], k);
      assert s == init + [last];
    }
  }

  // ---------------------------------------------------------------------
  // The sort

  /** The result is ordered by price in the requested direction. */
  lemma {:induction false} SortByPriceSorted(s: seq<Product>, ascending: bool)
    ensures Sorted(SortByPrice(s, ascending), ascending)
  {
    if s != [] {
      SortByPriceSorted(s[..|s| - 1], ascending);
      InsertSorted(SortByPrice(s[..|s| - 1], ascending), s[|s| - 1], ascending);
    }
  }

  /** The result is a permutation of the input. */
  lemma {:induction false} SortByPricePermutes(s: seq<Product>, ascending: bool)
    ensures multiset(SortByPrice(s, ascending)) == multiset(s)
  {
    if s != [] {
      var init := s[..|s| - 1];
      SortByPricePermutes(init, ascending);
      InsertPermutes(SortByPrice(init, ascending), s[|s| - 1], ascending);
      assert s == init + [s[|s| - 1]];
    }
  }

  /** Products of equal price keep their relative order (stability). */
  lemma {:induction false} SortByPriceStable(s: seq<Product>, ascending: bool)
    ensures SameClasses(SortByPrice(s, ascending), s)
  {
    forall k: real ensures PriceClass(SortByPrice(s, ascending), k) == PriceClass(s, k) {
      SortByPriceStableAt(s, ascending, k);
    }
  }

  lemma {:induction false} SortByPriceStableAt(s: seq<Product>, ascending: bool, k: real)
    ensures PriceClass(SortByPrice(s, ascending), k) == PriceClass(s, k)
  {
    if s != [] {
      var init, last := s[..|s| - 1], s[|s| - 1];
      SortByPriceStableAt(init, ascending, k);
      InsertClasses(SortByPrice(init, ascending), last, ascending, k);
      ClassAppend(init, [last], k);
      assert s == init + [last];
    }
  }

  /** Lists with the same price classes are both empty or both not. */
  lemma SameClassesBothEmpty(t: seq<Product>, u: seq<Product>)
    requires SameClasses(t, u)
    ensures t == [] <==> u == []
  {
    if t != [] {
      ClassOfCons(t, t[0].price);
      assert PriceClass(u, t[0].price) != [];
    }
    if u != [] {
      ClassOfCons(u, u[0].price);
      assert PriceClass(t, u[0].price) != [];
    }
  }

  /** Two non-empty sorted lists with the same price classes start with the same product. */
  lemma SameHead(t: seq<Product>, u: seq<Product>, ascending: bool)
    requires t != [] && u != []
    requires Sorted(t, ascending) && Sorted(u, ascending)
    requires SameClasses(t, u)
    ensures t[0] == u[0]
  {
    var m, n := t[0].price, u[0].price;
    // u[0] occurs in t and t[0] occurs in u, so neither precedes the other
    ClassOfCons(u, n);
    assert PriceClass(t, n) == PriceClass(u, n);
    assert u[0] in PriceClass(t, n);
    var j :| 0 <= j < |t| && t[j] == u[0];
    assert InOrder(t[0], t[j], ascending) || j == 0;
    ClassOfCons(t, m);
    assert PriceClass(t, m) == PriceClass(u, m);
    assert t[0] in PriceClass(u, m);
    var i :| 0 <= i < |u| && u[i] == t[0];
    assert InOrder(u[0], u[i], ascending) || i == 0;
    assert m == n;
    assert PriceClass(t, m)[0] == t[0] && PriceClass(u, m)[0] == u[0];
  }

  lemma SameClassesTail(t: seq<Product>, u: seq<Product>)
    requires t != [] && u != [] && t[0] == u[0]
    requires SameClasses(t, u)
    ensures SameClasses(t[1..], u[1..])
  {
    forall k: real ensures PriceClass(t[1..], k) == PriceClass(u[1..], k) {
      assert PriceClass(t, k) == PriceClass(u, k);
      ClassOfCons(t, k);
      ClassOfCons(u, k);
      var skip := if t[0].price == k then 1 else 0;
      assert PriceClass(t[1..], k) == PriceClass(t, k)[skip..];
      assert PriceClass(u[1..], k) == PriceClass(u, k)[skip..];
    }
  }

  /**
   * Ordered by price and stable determine the list: two sorted lists with the same
   * price classes are equal.
   */
  lemma {:induction false} SortedStableUnique(t: seq<Product>, u: seq<Product>, ascending: bool)
    requires Sorted(t, ascending) && Sorted(u, ascending)
    requires SameClasses(t, u)
    ensures t == u
  {
    SameClassesBothEmpty(t, u);
    if t != [] {
      SameHead(t, u, ascending);
      SameClassesTail(t, u);
      SortedStableUnique(t[1..], u[1..], ascending);
      assert t == [t[0]] + t[1..];
      assert u == [u[0]] + u[1..];
    }
  }

  /** Any stable sort by price of `s` is `SortByPrice(s)`. */
  lemma StableSortIsSortByPrice(s: seq<Product>, t: seq<Product>, ascending: bool)
    requires Sorted(t, ascending) && SameClasses(t, s)
    ensures t == SortByPrice(s, ascending)
  {
    SortByPriceSorted(s, ascending);
    SortByPriceStable(s, ascending);
    SortedStableUnique(t, SortByPrice(s, ascending), ascending);
  }

  // ---------------------------------------------------------------------
  // The in-place sort

  /** One step of the inner loop: `x` moves left past `S[j - 1]`. */
  lemma InsertShift(S: seq<Product>, j: nat, x: Product, ascending: bool)
    requires 0 < j <= |S| && Precedes(x, S[j - 1], ascending)
    ensures Insert(S[..j], x, ascending) + S[j..] == Insert(S[..j - 1], x, ascending) + S[j - 1..]
  {
    assert S[..j][..j - 1] == S[..j - 1];
    assert S[j - 1..] == [S[j - 1]] + S[j..];
  }

  /** The inner loop stops: `x` goes right here. */
  lemma InsertStop(S: seq<Product>, j: nat, x: Product, ascending: bool)
    requires j <= |S| && (j == 0 || !Precedes(x, S[j - 1], ascending))
    ensures Insert(S[..j], x, ascending) == S[..j] + [x]
  {
  }

  /** Insert `a[i]` into the sorted prefix `a[..i]`, shifting larger elements right. */
  method InsertAt(a: array<Product>, i: nat, ascending: bool)
    requires i < a.Length
    modifies a
    ensures a[..i + 1] == Insert(old(a[..i]), old(a[i]), ascending)
    ensures a[i + 1..] == old(a[i + 1..])
  {
    var x := a[i];
    ghost var S := a[..i];
    var j := i;
    while j > 0 && Precedes(x, a[j - 1], ascending)
      invariant 0 <= j <= i
      invariant a[..j] == S[..j]
      invariant a[j + 1..i + 1] == S[j..]
      invariant a[i + 1..] == old(a[i + 1..])
      invariant Insert(S, x, ascending) == Insert(S[..j], x, ascending) + S[j..]
    {
      InsertShift(S, j, x, ascending);
      a[j] := a[j - 1];
      assert a[j..i + 1] == [S[j - 1]] + S[j..];
      j := j - 1;
    }
    a[j] := x;
    InsertStop(S, j, x, ascending);
    assert a[..i + 1] == S[..j] + [x] + S[j..];
  }

  /** The in-place sort of the page: afterwards the array holds `SortByPrice` of its old contents. */
  method SortInPlace(a: array<Product>, ascending: bool)
    modifies a
    ensures a[..] == SortByPrice(old(a[..]), ascending)
  {
    ghost var A := a[..];
    var i := 0;
    while i < a.Length
      invariant 0 <= i <= a.Length
      invariant a[..i] == SortByPrice(A[..i], ascending)
      invariant a[i..] == A[i..]
    {
      assert A[..i + 1][..i] == A[..i];
      assert a[i + 1..] == a[i..][1..] && A[i + 1..] == A[i..][1..];
      InsertAt(a, i, ascending);
      i := i + 1;
    }
    assert A[..a.Length] == A;
  }
}
