/** The sorting stage of the catalog query (src/App.tsx, lines 363-368): the
    comparator chosen by the sort order, and a stable sort under it.
    ECMA-262 requires `Array.prototype.sort` to be stable, so the result is
    fixed by the comparator alone; `SortBy` is that result, computed by
    insertion, and `StableSortUnique` shows no other stable sort could
    differ from it. */
module StableSort {
  import opened Catalog

  /** The three comparators of the switch. */
  datatype Order = PriceAscending | PriceDescending | RatingDescending

  /** The switch on the sort setting: `price-asc` and `price-desc` pick the
      price comparators; `rating-desc` and the default branch (`popular` and
      every value the switch does not name) both sort by rating. */
  function OrderOf(sort: string): (o: Order)
    ensures o == PriceAscending <==> sort == "price-asc"
    ensures o == PriceDescending <==> sort == "price-desc"
    ensures o == RatingDescending <==> sort != "price-asc" && sort != "price-desc"
  {
    if sort == "price-asc" then PriceAscending
    else if sort == "price-desc" then PriceDescending
    else if sort == "rating-desc" then RatingDescending
    else RatingDescending
  }

  /** The comparator `res.sort` receives: negative puts `a` first, positive
      puts `b` first. */
  function Compare(order: Order, a: Product, b: Product): int
  {
    match order
    case PriceAscending => a.price - b.price
    case PriceDescending => b.price - a.price
    case RatingDescending => b.rating - a.rating
  }

  /** The number each comparator orders by, ascending. */
  function Key(order: Order, p: Product): int
  {
    match order
    case PriceAscending => p.price
    case PriceDescending => -(p.price as int)
    case RatingDescending => -(p.rating as int)
  }

  /** Every comparator of the switch is a difference of keys, so it is a
      consistent comparator in the sense of ECMA-262 (a total preorder). */
  lemma CompareIsKeyDifference(order: Order, a: Product, b: Product)
    ensures Compare(order, a, b) == Key(order, a) - Key(order, b)
  {
  }

  /** No pair is out of order under the comparator. */
  predicate Sorted(order: Order, s: seq<Product>)
  {
    forall i, j :: 0 <= i < j < |s| ==> Compare(order, s[i], s[j]) <= 0
  }

  /** The items of `s` that the comparator cannot tell apart from `x`, in the
      order they appear in `s`. */
  function TiedWith(order: Order, s: seq<Product>, x: Product): seq<Product>
  {
    if s == [] then []
    else TiedWith(order, s[..|s| - 1], x)
         + (if Compare(order, s[|s| - 1], x) == 0 then [s[|s| - 1]] else [])
  }

  /** Places `x` after every item of `s` that does not compare greater than
      it: the step of a stable insertion sort. */
  function Insert(order: Order, s: seq<Product>, x: Product): seq<Product>
  {
    if s == [] || Compare(order, s[|s| - 1], x) <= 0 then s + [x]
    else Insert(order, s[..|s| - 1], x) + [s[|s| - 1]]
  }

  /** The stable sort of `s` under the comparator of `order`. */
  function SortBy(order: Order, s: seq<Product>): seq<Product>
  {
    if s == [] then [] else Insert(order, SortBy(order, s[..|s| - 1]), s[|s| - 1])
  }

  lemma {:induction false} InsertPermutes(order: Order, s: seq<Product>, x: Product)
    ensures multiset(Insert(order, s, x)) == multiset(s) + multiset{x}
  {
    if s == [] || Compare(order, s[|s| - 1], x) <= 0 {
    } else {
      InsertPermutes(order, s[..|s| - 1], x);
      assert s == s[..|s| - 1] + [s[|s| - 1]];
    }
  }

  /** The comparator is transitive on the order it induces. */
  lemma CompareTransitive(order: Order, a: Product, b: Product, c: Product)
    requires Compare(order, a, b) <= 0 && Compare(order, b, c) <= 0
    ensures Compare(order, a, c) <= 0
  {
  }

  /** Appending an item no earlier item compares greater than keeps a list
      sorted. */
  lemma SortedAppend(order: Order, r: seq<Product>, a: Product)
    requires Sorted(order, r)
    requires forall i :: 0 <= i < |r| ==> Compare(order, r[i], a) <= 0
    ensures Sorted(order, r + [a])
  {
    var t := r + [a];
    forall i, j | 0 <= i < j < |t| ensures Compare(order, t[i], t[j]) <= 0 {
      assert t[i] == r[i];
      if j < |r| { assert t[j] == r[j]; }
    }
  }

  lemma {:induction false} InsertSorted(order: Order, s: seq<Product>, x: Product)
    requires Sorted(order, s)
    ensures Sorted(order, Insert(order, s, x))
  {
    if s == [] || Compare(order, s[|s| - 1], x) <= 0 {
      forall i | 0 <= i < |s| ensures Compare(order, s[i], x) <= 0 {
        if i < |s| - 1 { CompareTransitive(order, s[i], s[|s| - 1], x); }
      }
      SortedAppend(order, s, x);
    } else {
      var init, last := s[..|s| - 1], s[|s| - 1];
      InsertSorted(order, init, x);
      InsertPermutes(order, init, x);
      var r := Insert(order, init, x);
      forall i | 0 <= i < |r| ensures Compare(order, r[i], last) <= 0 {
        assert r[i] in multiset(r);
        if r[i] != x {
          assert r[i] in multiset(init);
          var k :| 0 <= k < |init| && init[k] == r[i];
          assert s[k] == init[k];
        }
      }
      SortedAppend(order, r, last);
    }
  }

  /** Appending one item adds it to its own tie class and to no other. */
  lemma TiedWithSnoc(order: Order, r: seq<Product>, a: Product, x: Product)
    ensures TiedWith(order, r + [a], x)
         == TiedWith(order, r, x) + (if Compare(order, a, x) == 0 then [a] else [])
  {
    assert (r + [a])[..|r|] == r;
  }

  /** Two items the comparator tells apart do not both tie with `x`. */
  lemma NotBothTied(order: Order, a: Product, b: Product, x: Product)
    requires Compare(order, a, b) != 0
    ensures !(Compare(order, a, x) == 0 && Compare(order, b, x) == 0)
  {
  }

  lemma SwapEmpty(t: seq<Product>, u: seq<Product>, v: seq<Product>)
    requires u == [] || v == []
    ensures (t + u) + v == (t + v) + u
  {
  }

  lemma {:induction false} InsertTies(order: Order, s: seq<Product>, y: Product, x: Product)
    ensures TiedWith(order, Insert(order, s, y), x)
         == TiedWith(order, s, x) + (if Compare(order, y, x) == 0 then [y] else [])
  {
    if s == [] || Compare(order, s[|s| - 1], y) <= 0 {
      TiedWithSnoc(order, s, y, x);
    } else {
      var init, last := s[..|s| - 1], s[|s| - 1];
      var r := Insert(order, init, y);
      assert Insert(order, s, y) == r + [last];
      InsertTies(order, init, y, x);
      TiedWithSnoc(order, r, last, x);
      assert s == init + [last];
      TiedWithSnoc(order, init, last, x);
      NotBothTied(order, last, y, x);
      SwapEmpty(TiedWith(order, init, x),
                if Compare(order, y, x) == 0 then [y] else [],
                if Compare(order, last, x) == 0 then [last] else []);
    }
  }

  /** The stable sort is a permutation of its input. */
  lemma {:induction false} SortByPermutes(order: Order, s: seq<Product>)
    ensures multiset(SortBy(order, s)) == multiset(s)
  {
    if s != [] {
      SortByPermutes(order, s[..|s| - 1]);
      InsertPermutes(order, SortBy(order, s[..|s| - 1]), s[|s| - 1]);
      assert s == s[..|s| - 1] + [s[|s| - 1]];
    }
  }

  /** The stable sort leaves no pair out of order. */
  lemma {:induction false} SortBySorted(order: Order, s: seq<Product>)
    ensures Sorted(order, SortBy(order, s))
  {
    if s != [] {
      SortBySorted(order, s[..|s| - 1]);
      InsertSorted(order, SortBy(order, s[..|s| - 1]), s[|s| - 1]);
    }
  }

  /** Stability: items that compare equal keep their input order. */
  lemma {:induction false} SortByStable(order: Order, s: seq<Product>, x: Product)
    ensures TiedWith(order, SortBy(order, s), x) == TiedWith(order, s, x)
  {
    if s != [] {
      SortByStable(order, s[..|s| - 1], x);
      InsertTies(order, SortBy(order, s[..|s| - 1]), s[|s| - 1], x);
    }
  }

  /** The orders the source promises for each order: `price-asc` cheapest
      first, `price-desc` dearest first, and every other value (`popular`,
      `rating-desc` or one the switch does not name) highest rating first. */
  lemma SortByOrder(sort: string, s: seq<Product>)
    ensures var r := SortBy(OrderOf(sort), s);
      && (sort == "price-asc" ==> forall i, j :: 0 <= i < j < |r| ==> r[i].price <= r[j].price)
      && (sort == "price-desc" ==> forall i, j :: 0 <= i < j < |r| ==> r[i].price >= r[j].price)
      && (sort != "price-asc" && sort != "price-desc" ==>
            forall i, j :: 0 <= i < j < |r| ==> r[i].rating >= r[j].rating)
  {
    SortBySorted(OrderOf(sort), s);
  }

  lemma {:induction false} TiedWithMembers(order: Order, s: seq<Product>, x: Product, y: Product)
    ensures y in TiedWith(order, s, x) <==> y in s && Compare(order, y, x) == 0
  {
    if s != [] {
      TiedWithMembers(order, s[..|s| - 1], x, y);
      assert s == s[..|s| - 1] + [s[|s| - 1]];
    }
  }

  /** In a sorted sequence, an item tied with some member compares no
      greater than the last item. */
  lemma TiedBelowLast(order: Order, u: seq<Product>, a: Product)
    requires Sorted(order, u) && u != []
    requires TiedWith(order, u, a) != []
    ensures Compare(order, a, u[|u| - 1]) <= 0
  {
    var y := TiedWith(order, u, a)[0];
    TiedWithMembers(order, u, a, y);
    var k :| 0 <= k < |u| && u[k] == y;
    if k < |u| - 1 { assert Compare(order, u[k], u[|u| - 1]) <= 0; }
  }

  lemma SortedInit(order: Order, t: seq<Product>)
    requires Sorted(order, t) && t != []
    ensures Sorted(order, t[..|t| - 1])
  {
    var ti := t[..|t| - 1];
    forall i, j | 0 <= i < j < |ti| ensures Compare(order, ti[i], ti[j]) <= 0 {
      assert ti[i] == t[i] && ti[j] == t[j];
    }
  }

  /** Sorted sequences that agree on the tie classes of both their last items
      end in the same item. */
  lemma SameLast(order: Order, t: seq<Product>, u: seq<Product>)
    requires Sorted(order, t) && Sorted(order, u) && t != [] && u != []
    requires TiedWith(order, t, t[|t| - 1]) == TiedWith(order, u, t[|t| - 1])
    requires TiedWith(order, t, u[|u| - 1]) == TiedWith(order, u, u[|u| - 1])
    ensures t[|t| - 1] == u[|u| - 1]
  {
    var a, b := t[|t| - 1], u[|u| - 1];
    assert TiedWith(order, t, a) == TiedWith(order, t[..|t| - 1], a) + [a];
    assert TiedWith(order, u, b) == TiedWith(order, u[..|u| - 1], b) + [b];
    TiedBelowLast(order, u, a);
    TiedBelowLast(order, t, b);
    CompareIsKeyDifference(order, a, b);
    CompareIsKeyDifference(order, b, a);
    assert Compare(order, b, a) == 0;
    var ta := TiedWith(order, u[..|u| - 1], a);
    assert TiedWith(order, u, a) == ta + [b];
    assert TiedWith(order, u, a)[|ta|] == b;
  }

  /** Dropping an item's last-place copy from both sides keeps tie classes
      equal. */
  lemma InitTies(order: Order, t: seq<Product>, u: seq<Product>, x: Product)
    requires t != [] && u != [] && t[|t| - 1] == u[|u| - 1]
    requires TiedWith(order, t, x) == TiedWith(order, u, x)
    ensures TiedWith(order, t[..|t| - 1], x) == TiedWith(order, u[..|u| - 1], x)
  {
    var A, B := TiedWith(order, t[..|t| - 1], x), TiedWith(order, u[..|u| - 1], x);
    var C := if Compare(order, t[|t| - 1], x) == 0 then [t[|t| - 1]] else [];
    assert A + C == B + C;
    assert A == (A + C)[..|A|] && B == (B + C)[..|B|];
  }

  /** The last item of a non-empty sequence ties with itself. */
  lemma TiedWithLast(order: Order, s: seq<Product>)
    ensures s != [] ==> TiedWith(order, s, s[|s| - 1]) != []
  {
    if s != [] {
      var x := s[|s| - 1];
      assert TiedWith(order, s, x) == TiedWith(order, s[..|s| - 1], x) + [x];
    }
  }

  /** Sorted sequences that hold the same items of every tie class, in the
      same order, are equal. */
  lemma {:induction false} SortedTiesDetermine(order: Order, t: seq<Product>, u: seq<Product>)
    requires Sorted(order, t) && Sorted(order, u)
    requires forall x :: TiedWith(order, t, x) == TiedWith(order, u, x)
    ensures t == u
  {
    if t == [] && u == [] {
    } else if t == [] {
      TiedWithLast(order, u);
    } else if u == [] {
      TiedWithLast(order, t);
    } else {
      SameLast(order, t, u);
      var ti, ui := t[..|t| - 1], u[..|u| - 1];
      forall x ensures TiedWith(order, ti, x) == TiedWith(order, ui, x) {
        InitTies(order, t, u, x);
      }
      SortedInit(order, t);
      SortedInit(order, u);
      SortedTiesDetermine(order, ti, ui);
      assert t == ti + [t[|t| - 1]] && u == ui + [u[|u| - 1]];
    }
  }

  /** Any sort that is stable under the comparator returns exactly `SortBy`,
      so the order does not depend on the algorithm the engine uses. */
  lemma StableSortUnique(order: Order, s: seq<Product>, r: seq<Product>)
    requires Sorted(order, r)
    requires forall x :: TiedWith(order, r, x) == TiedWith(order, s, x)
    ensures r == SortBy(order, s)
  {
    SortBySorted(order, s);
    forall x ensures TiedWith(order, r, x) == TiedWith(order, SortBy(order, s), x) {
      SortByStable(order, s, x);
    }
    SortedTiesDetermine(order, r, SortBy(order, s));
  }

  /** Inserting `x` passes over a suffix whose items all compare greater
      than `x`. */
  lemma {:induction false} InsertPastGreater(order: Order, s: seq<Product>, x: Product, j: nat)
    requires j <= |s|
    requires forall k :: j <= k < |s| ==> Compare(order, s[k], x) > 0
    ensures Insert(order, s, x) == Insert(order, s[..j], x) + s[j..]
  {
    if j < |s| {
      var init := s[..|s| - 1];
      assert init[..j] == s[..j];
      InsertPastGreater(order, init, x, j);
      assert s[j..] == init[j..] + [s[|s| - 1]];
    } else {
      assert s[..j] == s;
    }
  }

  /** Where the shifting loop stops, `x` goes right after the prefix, so the
      array, read as a sequence `r`, holds the insertion. */
  lemma InsertStop(order: Order, s: seq<Product>, x: Product, j: nat, r: seq<Product>)
    requires j <= |s| && (j == 0 || Compare(order, s[j - 1], x) <= 0)
    requires forall k :: j <= k < |s| ==> Compare(order, s[k], x) > 0
    requires |r| == |s| + 1 && r[j] == x
    requires forall k :: 0 <= k < j ==> r[k] == s[k]
    requires forall k :: j < k < |r| ==> r[k] == s[k - 1]
    ensures r == Insert(order, s, x)
  {
    InsertPastGreater(order, s, x, j);
    if j > 0 { assert s[..j][j - 1] == s[j - 1]; }
    assert Insert(order, s[..j], x) == s[..j] + [x];
    forall k | 0 <= k < |r| ensures r[k] == (s[..j] + [x] + s[j..])[k] {
      if k > j { assert (s[..j] + [x] + s[j..])[k] == s[k - 1]; }
    }
  }

  /** Moves `a[i]` left past the items of the sorted prefix `a[..i]` that
      compare greater than it. */
  method InsertAt(a: array<Product>, i: nat, order: Order)
    requires i < a.Length
    modifies a
    ensures a[..i + 1] == Insert(order, old(a[..i]), old(a[i]))
    ensures forall k :: i < k < a.Length ==> a[k] == old(a[k])
  {
    var x := a[i];
    ghost var sorted := a[..i];
    var j := i;
    while j > 0 && Compare(order, a[j - 1], x) > 0
      invariant 0 <= j <= i
      invariant forall k :: 0 <= k < j ==> a[k] == sorted[k]
      invariant forall k :: j < k <= i ==> a[k] == sorted[k - 1]
      invariant forall k :: i < k < a.Length ==> a[k] == old(a[k])
      invariant forall k :: j <= k < i ==> Compare(order, sorted[k], x) > 0
    {
      a[j] := a[j - 1];
      j := j - 1;
    }
    a[j] := x;
    InsertStop(order, sorted, x, j, a[..i + 1]);
  }

  /** Sorting one more item of the input inserts it into the sorted prefix. */
  lemma SortByStep(order: Order, s: seq<Product>, i: nat)
    requires i < |s|
    ensures SortBy(order, s[..i + 1]) == Insert(order, SortBy(order, s[..i]), s[i])
  {
    assert s[..i + 1][..i] == s[..i];
  }

  /** `res.sort(comparator)` on the engine's array: a stable insertion sort in
      place. */
  method SortInPlace(a: array<Product>, order: Order)
    modifies a
    ensures a[..] == SortBy(order, old(a[..]))
  {
    ghost var input := a[..];
    var i := 0;
    while i < a.Length
      invariant 0 <= i <= a.Length
      invariant a[..i] == SortBy(order, input[..i])
      invariant forall k :: i <= k < a.Length ==> a[k] == input[k]
    {
      InsertAt(a, i, order);
      SortByStep(order, input, i);
      i := i + 1;
    }
    assert input[..a.Length] == input;
  }
}
