/** The `products` pipeline of the storefront (src/App.tsx, lines 341-370):
    copy the catalogue, narrow it with each filter whose setting is given,
    then sort it with the comparator the sort mode selects. */
module QueryEngine {
  import opened Text
  import opened Catalog
  import opened Filters
  import opened StableSort

  /** The predicates the pipeline passes to `res.filter`, one per facet. */
  datatype Constraint =
    | TitleIncludes(q: string)
    | CategoryIn(categories: seq<string>)
    | SharesTag(tags: seq<string>)
    | PriceAtLeast(min: int)
    | PriceAtMost(max: int)
    | StockMatches(mode: string)

  predicate Holds(c: Constraint, p: Product)
  {
    match c
    case TitleIncludes(q) => Includes(p.title, q)
    case CategoryIn(cs) => p.category in cs
    case SharesTag(ts) => exists t :: t in p.tags && t in ts
    case PriceAtLeast(m) => p.price >= m
    case PriceAtMost(m) => p.price <= m
    case StockMatches(mode) => if mode == "in" then p.inStock else !p.inStock
  }

  /** `t` is `s` with some items left out, the rest in their order. */
  predicate Subsequence(t: seq<Product>, s: seq<Product>)
  {
    if t == [] then true
    else if s == [] then false
    else if t[0] == s[0] then Subsequence(t[1..], s[1..])
    else Subsequence(t, s[1..])
  }

  /** `res.filter(p => ...)` with the predicate `c`. */
  function Keep(s: seq<Product>, c: Constraint): seq<Product>
  {
    if s == [] then []
    else if Holds(c, s[0]) then [s[0]] + Keep(s[1..], c)
    else Keep(s[1..], c)
  }

  /** `filter` keeps exactly the items its predicate accepts, in order. */
  lemma {:induction false} KeepMeaning(s: seq<Product>, c: Constraint)
    ensures forall p :: p in Keep(s, c) <==> p in s && Holds(c, p)
    ensures Subsequence(Keep(s, c), s)
  {
    if s != [] { KeepMeaning(s[1..], c); }
  }

  /** Filtering a concatenation filters each part. */
  lemma {:induction false} KeepAppend(a: seq<Product>, b: seq<Product>, c: Constraint)
    ensures Keep(a + b, c) == Keep(a, c) + Keep(b, c)
  {
    if a == [] {
      assert a + b == b;
    } else {
      assert (a + b)[1..] == a[1..] + b;
      KeepAppend(a[1..], b, c);
    }
  }

  /** The filter stage `k` (0 to 5, in the pipeline's order) applies for
      state `f`, or `None` when its setting is not given. A query counts as
      given when it is not the empty string, even if it trims to nothing; a
      price bound whenever it is a number, zero included. */
  function Stage(f: FilterState, k: nat): Option<Constraint>
  {
    if k == 0 then (if f.query != "" then Some(TitleIncludes(Trim(f.query))) else None)
    else if k == 1 then (if |f.categories| > 0 then Some(CategoryIn(f.categories)) else None)
    else if k == 2 then (if |f.tags| > 0 then Some(SharesTag(f.tags)) else None)
    else if k == 3 then (if f.minPrice.Some? then Some(PriceAtLeast(f.minPrice.value)) else None)
    else if k == 4 then (if f.maxPrice.Some? then Some(PriceAtMost(f.maxPrice.value)) else None)
    else if k == 5 then (if f.stock != "all" then Some(StockMatches(f.stock)) else None)
    else None
  }

  /** `p` survives the first `n` filter stages. */
  predicate PassesStages(f: FilterState, p: Product, n: nat)
  {
    n == 0 || (PassesStages(f, p, n - 1) && StageOk(f, n - 1, p))
  }

  /** What is left of `s` after the first `n` filter stages. */
  function AfterStages(s: seq<Product>, f: FilterState, n: nat): seq<Product>
  {
    if s == [] then []
    else if PassesStages(f, s[0], n) then [s[0]] + AfterStages(s[1..], f, n)
    else AfterStages(s[1..], f, n)
  }

  /** A product satisfies every constraint the state sets; an empty or unset
      setting constrains nothing. */
  ghost predicate Matches(f: FilterState, p: Product)
  {
    && QueryOk(f, p) && CategoryOk(f, p) && TagsOk(f, p)
    && MinPriceOk(f, p) && MaxPriceOk(f, p) && StockOk(f, p)
  }

  /** The title contains the trimmed query, unless the query is empty. */
  ghost predicate QueryOk(f: FilterState, p: Product)
  {
    f.query == "" || exists i :: OccursAt(p.title, Trim(f.query), i)
  }

  /** The category is one of those selected, unless none is. */
  predicate CategoryOk(f: FilterState, p: Product)
  {
    f.categories == [] || p.category in f.categories
  }

  /** The product has a selected tag, unless none is selected. */
  predicate TagsOk(f: FilterState, p: Product)
  {
    f.tags == [] || exists t :: t in p.tags && t in f.tags
  }

  /** The price is at least the lower bound, if there is one. */
  predicate MinPriceOk(f: FilterState, p: Product)
  {
    f.minPrice == None || f.minPrice.value <= p.price
  }

  /** The price is at most the upper bound, if there is one. */
  predicate MaxPriceOk(f: FilterState, p: Product)
  {
    f.maxPrice == None || p.price <= f.maxPrice.value
  }

  /** `all` admits every product, `in` those in stock, and any other mode
      those out of stock. */
  predicate StockOk(f: FilterState, p: Product)
  {
    f.stock == "all" || (f.stock == "in" && p.inStock) || (f.stock != "in" && !p.inStock)
  }

  /** The products of `s` that match `f`, in catalogue order: the filter
      stage as the storefront describes it. */
  ghost function Selected(s: seq<Product>, f: FilterState): (r: seq<Product>)
    ensures forall p :: p in r <==> p in s && Matches(f, p)
    ensures Subsequence(r, s)
  {
    if s == [] then []
    else if Matches(f, s[0]) then [s[0]] + Selected(s[1..], f)
    else Selected(s[1..], f)
  }

  /** The list the page shows for state `f`. */
  ghost function QueryResult(s: seq<Product>, f: FilterState): seq<Product>
  {
    SortBy(OrderOf(f.sort), Selected(s, f))
  }

  // ---------------------------------------------------------------------
  // The filter stage

  lemma {:induction false} AfterNoStages(s: seq<Product>, f: FilterState)
    ensures AfterStages(s, f, 0) == s
  {
    if s != [] { AfterNoStages(s[1..], f); }
  }

  /** Running stage `k` on what the earlier stages left gives what the first
      `k + 1` stages leave; a stage whose setting is not given changes
      nothing. */
  lemma {:induction false} StageStep(s: seq<Product>, f: FilterState, k: nat)
    ensures AfterStages(s, f, k + 1)
         == match Stage(f, k)
            case None => AfterStages(s, f, k)
            case Some(c) => Keep(AfterStages(s, f, k), c)
  {
    if s != [] { StageStep(s[1..], f, k); }
  }

  /** `p` survives stage `k`. */
  predicate StageOk(f: FilterState, k: nat, p: Product)
  {
    Stage(f, k).None? || Holds(Stage(f, k).value, p)
  }

  /** The query stage keeps exactly the titles in which the trimmed query
      occurs. */
  lemma QueryStage(f: FilterState, p: Product)
    ensures StageOk(f, 0, p) <==> QueryOk(f, p)
  {
    IncludesIff(p.title, Trim(f.query));
  }

  lemma PassesStage1(f: FilterState, p: Product)
    ensures PassesStages(f, p, 1) <==> QueryOk(f, p)
  {
    QueryStage(f, p);
  }

  lemma PassesStage2(f: FilterState, p: Product)
    ensures PassesStages(f, p, 2) <==> QueryOk(f, p) && CategoryOk(f, p)
  {
    PassesStage1(f, p);
  }

  lemma PassesStage3(f: FilterState, p: Product)
    ensures PassesStages(f, p, 3) <==> QueryOk(f, p) && CategoryOk(f, p) && TagsOk(f, p)
  {
    PassesStage2(f, p);
  }

  lemma PassesStage4(f: FilterState, p: Product)
    ensures PassesStages(f, p, 4)
        <==> QueryOk(f, p) && CategoryOk(f, p) && TagsOk(f, p) && MinPriceOk(f, p)
  {
    PassesStage3(f, p);
  }

  lemma PassesStage5(f: FilterState, p: Product)
    ensures PassesStages(f, p, 5)
        <==> QueryOk(f, p) && CategoryOk(f, p) && TagsOk(f, p) && MinPriceOk(f, p) && MaxPriceOk(f, p)
  {
    PassesStage4(f, p);
  }

  /** Surviving the six stages is matching the state. */
  lemma PassesAllStages(f: FilterState, p: Product)
    ensures PassesStages(f, p, 6) <==> Matches(f, p)
  {
    PassesStage5(f, p);
  }

  /** The six filters run in a row keep exactly the catalogue items that
      satisfy every active constraint, in catalogue order. */
  lemma {:induction false} FilterStage(s: seq<Product>, f: FilterState)
    ensures AfterStages(s, f, 6) == Selected(s, f)
  {
    if s != [] {
      PassesAllStages(f, s[0]);
      FilterStage(s[1..], f);
    }
  }

  // ---------------------------------------------------------------------
  // The pipeline

  /** Lines 342-361: the copy of the catalogue narrowed by each filter whose
      setting is given. */
  method FilterProducts(catalog: seq<Product>, f: FilterState) returns (res: seq<Product>)
    ensures res == Selected(catalog, f)
  {
    AfterNoStages(catalog, f);
    res := catalog;
    if f.query != "" {
      var q := Trim(f.query);
      res := Keep(res, TitleIncludes(q));
    }
    StageStep(catalog, f, 0);
    if |f.categories| > 0 {
      res := Keep(res, CategoryIn(f.categories));
    }
    StageStep(catalog, f, 1);
    if |f.tags| > 0 {
      res := Keep(res, SharesTag(f.tags));
    }
    StageStep(catalog, f, 2);
    if f.minPrice.Some? {
      res := Keep(res, PriceAtLeast(f.minPrice.value));
    }
    StageStep(catalog, f, 3);
    if f.maxPrice.Some? {
      res := Keep(res, PriceAtMost(f.maxPrice.value));
    }
    StageStep(catalog, f, 4);
    if f.stock != "all" {
      res := Keep(res, StockMatches(f.stock));
    }
    StageStep(catalog, f, 5);
    FilterStage(catalog, f);
  }

  /** The `products` computation: the filter stage, then `res.sort` in
      place on the array copy. */
  method Products(catalog: seq<Product>, f: FilterState) returns (res: seq<Product>)
    ensures res == QueryResult(catalog, f)
    ensures forall p :: p in res <==> p in catalog && Matches(f, p)
    ensures multiset(res) == multiset(Selected(catalog, f))
    ensures Sorted(OrderOf(f.sort), res)
    ensures forall x :: TiedWith(OrderOf(f.sort), res, x) == TiedWith(OrderOf(f.sort), Selected(catalog, f), x)
  {
    var selected := FilterProducts(catalog, f);
    var order := OrderOf(f.sort);
    var a := new Product[|selected|](i requires 0 <= i < |selected| => selected[i]);
    assert a[..] == selected;
    SortInPlace(a, order);
    res := a[..];
    SortByPermutes(order, selected);
    SortBySorted(order, selected);
    forall x ensures TiedWith(order, res, x) == TiedWith(order, selected, x) {
      SortByStable(order, selected, x);
    }
    assert forall p :: p in res <==> p in multiset(res);
  }

  // ---------------------------------------------------------------------
  // Properties of the query

  /** A list every item of which matches is left as it is by the filters. */
  lemma {:induction false} SelectedAll(s: seq<Product>, f: FilterState)
    requires forall p :: p in s ==> Matches(f, p)
    ensures Selected(s, f) == s
  {
    if s != [] { SelectedAll(s[1..], f); }
  }

  /** States that accept the same products select the same list. */
  lemma {:induction false} SelectedSame(s: seq<Product>, f: FilterState, g: FilterState)
    requires forall p :: Matches(f, p) <==> Matches(g, p)
    ensures Selected(s, f) == Selected(s, g)
  {
    if s != [] { SelectedSame(s[1..], f, g); }
  }

  /** If `g` accepts what `f` accepts and satisfies `c` as well, then `g`'s
      selection is `f`'s narrowed by `c`. */
  lemma {:induction false} SelectedNarrowed(s: seq<Product>, f: FilterState, g: FilterState, c: Constraint)
    requires forall p :: Matches(g, p) <==> Matches(f, p) && Holds(c, p)
    ensures Selected(s, g) == Keep(Selected(s, f), c)
  {
    if s != [] { SelectedNarrowed(s[1..], f, g, c); }
  }

  /** The page's first list: every product, by descending rating, ties in
      catalogue order. */
  lemma InitialQuery(s: seq<Product>)
    ensures QueryResult(s, Initial) == SortBy(RatingDescending, s)
    ensures multiset(QueryResult(s, Initial)) == multiset(s)
    ensures forall i, j :: 0 <= i < j < |QueryResult(s, Initial)| ==>
              QueryResult(s, Initial)[i].rating >= QueryResult(s, Initial)[j].rating
  {
    SelectedAll(s, Initial);
    SortByPermutes(RatingDescending, s);
    SortByOrder("popular", s);
  }

  /** A query that trims to nothing (empty, or only whitespace) narrows
      nothing: it selects what the empty query does. */
  lemma BlankQuery(s: seq<Product>, f: FilterState)
    requires AllWhitespace(f.query)
    ensures Selected(s, f) == Selected(s, f.(query := ""))
  {
    TrimEmptyIff(f.query);
    forall p ensures Matches(f, p) <==> Matches(f.(query := ""), p) {
      assert OccursAt(p.title, Trim(f.query), 0);
    }
    SelectedSame(s, f, f.(query := ""));
  }

  /** A non-blank query keeps exactly the titles containing it trimmed. */
  lemma QueryNarrows(s: seq<Product>, f: FilterState, q: string)
    requires q != ""
    ensures Selected(s, f.(query := q)) == Keep(Selected(s, f.(query := "")), TitleIncludes(Trim(q)))
  {
    forall p ensures Matches(f.(query := q), p)
                <==> Matches(f.(query := ""), p) && Holds(TitleIncludes(Trim(q)), p) {
      IncludesIff(p.title, Trim(q));
    }
    SelectedNarrowed(s, f.(query := ""), f.(query := q), TitleIncludes(Trim(q)));
  }

  /** Stock mode `in` narrows the `all` list to the products in stock; `out`,
      and any other mode, to those out of stock. */
  lemma StockModes(s: seq<Product>, f: FilterState, mode: string)
    requires mode != "all"
    ensures Selected(s, f.(stock := mode)) == Keep(Selected(s, f.(stock := "all")), StockMatches(mode))
    ensures mode == "in" ==> forall p :: p in Selected(s, f.(stock := mode)) ==> p.inStock
    ensures mode != "in" ==> forall p :: p in Selected(s, f.(stock := mode)) ==> !p.inStock
  {
    SelectedNarrowed(s, f.(stock := "all"), f.(stock := mode), StockMatches(mode));
  }

  /** A lower bound, zero and negative amounts included, narrows the
      unbounded list to the prices at or above it. */
  lemma MinPriceBound(s: seq<Product>, f: FilterState, m: int)
    ensures Selected(s, f.(minPrice := Some(m))) == Keep(Selected(s, f.(minPrice := None)), PriceAtLeast(m))
    ensures m <= 0 ==> Selected(s, f.(minPrice := Some(m))) == Selected(s, f.(minPrice := None))
  {
    SelectedNarrowed(s, f.(minPrice := None), f.(minPrice := Some(m)), PriceAtLeast(m));
    if m <= 0 { SelectedSame(s, f.(minPrice := None), f.(minPrice := Some(m))); }
  }

  /** An upper bound narrows the unbounded list to the prices at or below
      it. */
  lemma MaxPriceBound(s: seq<Product>, f: FilterState, m: int)
    ensures Selected(s, f.(maxPrice := Some(m))) == Keep(Selected(s, f.(maxPrice := None)), PriceAtMost(m))
  {
    SelectedNarrowed(s, f.(maxPrice := None), f.(maxPrice := Some(m)), PriceAtMost(m));
  }

  /** Running the query on its own result changes nothing. */
  lemma QueryIdempotent(s: seq<Product>, f: FilterState)
    ensures QueryResult(QueryResult(s, f), f) == QueryResult(s, f)
  {
    var order := OrderOf(f.sort);
    var r := QueryResult(s, f);
    SortByPermutes(order, Selected(s, f));
    assert forall p :: p in r <==> p in multiset(r);
    SelectedAll(r, f);
    SortBySorted(order, Selected(s, f));
    StableSortUnique(order, r, r);
  }

  /** Changing only the sort mode selects the same products, so the new list
      is a reordering of the old one. */
  lemma ResortPermutes(s: seq<Product>, f: FilterState, mode: string)
    ensures Selected(s, SetSort(f, mode)) == Selected(s, f)
    ensures multiset(QueryResult(s, SetSort(f, mode))) == multiset(QueryResult(s, f))
  {
    SelectedSame(s, SetSort(f, mode), f);
    SortByPermutes(OrderOf(mode), Selected(s, f));
    SortByPermutes(OrderOf(f.sort), Selected(s, f));
  }

  /** After "clear filters" the page shows its first list again. */
  lemma ResetQuery(s: seq<Product>, f: FilterState)
    ensures QueryResult(s, Reset(f)) == SortBy(RatingDescending, s)
  {
    InitialQuery(s);
  }
}
