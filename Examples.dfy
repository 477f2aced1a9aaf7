/** The storefront's query on its own catalogue (`MOCK_PRODUCTS`), for a few
    filter settings, computed through the lemmas of the query model. */
module Examples {
  import opened Text
  import opened Catalog
  import opened Filters
  import opened StableSort
  import opened QueryEngine

  /** What filtering keeps of the single product `p`. */
  function Kept(c: Constraint, p: Product): seq<Product>
  {
    if Holds(c, p) then [p] else []
  }

  /** Filtering one product. */
  lemma KeepOne(c: Constraint, p: Product)
    ensures Keep([p], c) == Kept(c, p)
  {
    assert [p][1..] == [];
  }

  /** Filtering two products, one at a time. */
  lemma KeepTwo(c: Constraint, p1: Product, p2: Product)
    ensures Keep([p1, p2], c) == Kept(c, p1) + Kept(c, p2)
  {
    assert [p2][1..] == [];
    assert Keep([p2], c) == Kept(c, p2);
    assert [p1, p2][1..] == [p2];
  }

  /** Filtering the catalogue, two products at a time. */
  lemma KeepCatalogue(c: Constraint)
    ensures Keep(MockProducts, c)
         == Keep([Chandelier, HandwovenRug], c) + Keep([StoneWallpaper, WoodenLoveseat], c)
          + Keep([LaminateFloor, VelvetCushions], c) + Keep([GildedMirror, DeskLamp], c)
  {
    var a, b, d, e := [Chandelier, HandwovenRug], [StoneWallpaper, WoodenLoveseat],
                      [LaminateFloor, VelvetCushions], [GildedMirror, DeskLamp];
    assert MockProducts == a + (b + (d + e));
    KeepAppend(d, e, c);
    KeepAppend(b, d + e, c);
    KeepAppend(a, b + (d + e), c);
  }

  /** The stable sort of two products. */
  lemma SortPair(order: Order, a: Product, b: Product)
    ensures SortBy(order, [a, b]) == if Compare(order, a, b) <= 0 then [a, b] else [b, a]
  {
    assert [a, b][..1] == [a];
    assert SortBy(order, [a]) == [a] by { assert [a][..0] == []; }
    assert Insert(order, [a], b) == (if Compare(order, a, b) <= 0 then [a, b] else [b, a]) by {
      assert [a][..0] == [];
    }
  }

  /** A state that accepts exactly what `c` accepts selects `Keep(s, c)`. */
  lemma SelectedAsKeep(s: seq<Product>, g: FilterState, c: Constraint)
    requires forall p :: Matches(g, p) <==> Holds(c, p)
    ensures Selected(s, g) == Keep(s, c)
  {
    SelectedAll(s, Initial);
    SelectedNarrowed(s, Initial, g, c);
  }

  /** The two lighting products are the chandelier and the desk lamp. */
  lemma LightingSelected()
    ensures Selected(MockProducts, Initial.(categories := ["lighting"], sort := "price-asc"))
         == [Chandelier, DeskLamp]
  {
    var c := CategoryIn(["lighting"]);
    SelectedAsKeep(MockProducts, Initial.(categories := ["lighting"], sort := "price-asc"), c);
    LightingKept();
  }

  lemma LightingKept()
    ensures Keep(MockProducts, CategoryIn(["lighting"])) == [Chandelier, DeskLamp]
  {
    var c := CategoryIn(["lighting"]);
    KeepCatalogue(c);
    KeepTwo(c, Chandelier, HandwovenRug);
    KeepTwo(c, StoneWallpaper, WoodenLoveseat);
    KeepTwo(c, LaminateFloor, VelvetCushions);
    KeepTwo(c, GildedMirror, DeskLamp);
  }

  /** The lighting category by ascending price: the desk lamp (8) before the
      chandelier (1). */
  lemma LightingByPrice()
    ensures Ids(QueryResult(MockProducts, Initial.(categories := ["lighting"], sort := "price-asc"))) == [8, 1]
  {
    LightingSelected();
    SortPair(PriceAscending, Chandelier, DeskLamp);
    assert Ids([DeskLamp, Chandelier]) == [8, 1];
  }

  lemma EcoKept()
    ensures Keep(MockProducts, SharesTag(["eco"])) == [WoodenLoveseat, LaminateFloor, DeskLamp]
  {
    var c := SharesTag(["eco"]);
    assert "eco" in WoodenLoveseat.tags && "eco" in LaminateFloor.tags && "eco" in DeskLamp.tags;
    KeepCatalogue(c);
    KeepTwo(c, Chandelier, HandwovenRug);
    KeepTwo(c, StoneWallpaper, WoodenLoveseat);
    KeepTwo(c, LaminateFloor, VelvetCushions);
    KeepTwo(c, GildedMirror, DeskLamp);
  }

  lemma EcoInStockKept()
    ensures Keep([WoodenLoveseat, LaminateFloor, DeskLamp], StockMatches("in")) == [LaminateFloor, DeskLamp]
  {
    var c := StockMatches("in");
    assert [WoodenLoveseat, LaminateFloor, DeskLamp] == [WoodenLoveseat] + ([LaminateFloor] + [DeskLamp]);
    KeepAppend([LaminateFloor], [DeskLamp], c);
    KeepAppend([WoodenLoveseat], [LaminateFloor] + [DeskLamp], c);
    KeepOne(c, WoodenLoveseat);
    KeepOne(c, LaminateFloor);
    KeepOne(c, DeskLamp);
  }

  /** Eco-friendly products in stock: the laminate floor (5) and the desk
      lamp (8), in catalogue order; the out-of-stock loveseat (4) is
      dropped. */
  lemma EcoInStockSelected()
    ensures Selected(MockProducts, Initial.(tags := ["eco"], stock := "in")) == [LaminateFloor, DeskLamp]
    ensures Ids(Selected(MockProducts, Initial.(tags := ["eco"], stock := "in"))) == [5, 8]
  {
    var g := Initial.(tags := ["eco"]);
    SelectedAsKeep(MockProducts, g, SharesTag(["eco"]));
    SelectedNarrowed(MockProducts, g, g.(stock := "in"), StockMatches("in"));
    assert g.(stock := "in") == Initial.(tags := ["eco"], stock := "in");
    EcoKept();
    EcoInStockKept();
  }

  /** Under the default sort the desk lamp (rated 4.3) comes before the
      laminate floor (rated 4.1). */
  lemma EcoInStock()
    ensures Ids(QueryResult(MockProducts, Initial.(tags := ["eco"], stock := "in"))) == [8, 5]
  {
    EcoInStockSelected();
    SortPair(RatingDescending, LaminateFloor, DeskLamp);
    assert Ids([DeskLamp, LaminateFloor]) == [8, 5];
  }

  /** The rug's title begins with "فرش". */
  lemma RugTitle()
    ensures Includes(HandwovenRug.title, "فرش")
  {
    assert OccursAt(HandwovenRug.title, "فرش", 0);
    IncludesIff(HandwovenRug.title, "فرش");
  }

  // Every other title lacks one of the letters of "فرش": the loveseat's has
  // no ش, the laminate floor's no ر, the rest no ف.

  lemma ChandelierTitleMisses()
    ensures !Includes(Chandelier.title, "فرش")
  {
    IncludesNeedsChar(Chandelier.title, "فرش", 0);
  }

  lemma StoneWallpaperTitleMisses()
    ensures !Includes(StoneWallpaper.title, "فرش")
  {
    IncludesNeedsChar(StoneWallpaper.title, "فرش", 0);
  }

  lemma WoodenLoveseatTitleMisses()
    ensures !Includes(WoodenLoveseat.title, "فرش")
  {
    IncludesNeedsChar(WoodenLoveseat.title, "فرش", 2);
  }

  lemma LaminateFloorTitleMisses()
    ensures !Includes(LaminateFloor.title, "فرش")
  {
    IncludesNeedsChar(LaminateFloor.title, "فرش", 1);
  }

  lemma VelvetCushionsTitleMisses()
    ensures !Includes(VelvetCushions.title, "فرش")
  {
    IncludesNeedsChar(VelvetCushions.title, "فرش", 0);
  }

  lemma GildedMirrorTitleMisses()
    ensures !Includes(GildedMirror.title, "فرش")
  {
    IncludesNeedsChar(GildedMirror.title, "فرش", 0);
  }

  lemma DeskLampTitleMisses()
    ensures !Includes(DeskLamp.title, "فرش")
  {
    IncludesNeedsChar(DeskLamp.title, "فرش", 0);
  }

  lemma RugKeptFirstPair()
    ensures Keep([Chandelier, HandwovenRug], TitleIncludes("فرش")) == [HandwovenRug]
  {
    RugTitle();
    ChandelierTitleMisses();
    KeepTwo(TitleIncludes("فرش"), Chandelier, HandwovenRug);
  }

  lemma RugKeptSecondPair()
    ensures Keep([StoneWallpaper, WoodenLoveseat], TitleIncludes("فرش")) == []
  {
    StoneWallpaperTitleMisses();
    WoodenLoveseatTitleMisses();
    KeepTwo(TitleIncludes("فرش"), StoneWallpaper, WoodenLoveseat);
  }

  lemma RugKeptThirdPair()
    ensures Keep([LaminateFloor, VelvetCushions], TitleIncludes("فرش")) == []
  {
    LaminateFloorTitleMisses();
    VelvetCushionsTitleMisses();
    KeepTwo(TitleIncludes("فرش"), LaminateFloor, VelvetCushions);
  }

  lemma RugKeptFourthPair()
    ensures Keep([GildedMirror, DeskLamp], TitleIncludes("فرش")) == []
  {
    GildedMirrorTitleMisses();
    DeskLampTitleMisses();
    KeepTwo(TitleIncludes("فرش"), GildedMirror, DeskLamp);
  }

  lemma RugKept()
    ensures Keep(MockProducts, TitleIncludes("فرش")) == [HandwovenRug]
  {
    KeepCatalogue(TitleIncludes("فرش"));
    RugKeptFirstPair();
    RugKeptSecondPair();
    RugKeptThirdPair();
    RugKeptFourthPair();
  }

  /** From the initial state, a query with no whitespace at either end
      keeps the titles containing it. */
  lemma QueryFromInitial(s: seq<Product>, q: string)
    requires q != [] && !IsWhitespace(q[0]) && !IsWhitespace(q[|q| - 1])
    ensures Selected(s, Initial.(query := q)) == Keep(s, TitleIncludes(q))
  {
    TrimUnpadded(q);
    QueryNarrows(s, Initial, q);
    assert Initial.(query := "") == Initial;
    SelectedAll(s, Initial);
  }

  lemma RugSelected()
    ensures Selected(MockProducts, Initial.(query := "فرش")) == [HandwovenRug]
  {
    QueryFromInitial(MockProducts, "فرش");
    RugKept();
  }

  /** Searching for "فرش" (rug) finds only the hand-woven rug (2). */
  lemma RugSearch()
    ensures Ids(QueryResult(MockProducts, Initial.(query := "فرش"))) == [2]
  {
    RugSelected();
    assert SortBy(RatingDescending, [HandwovenRug]) == [HandwovenRug] by {
      assert [HandwovenRug][..0] == [];
    }
  }
}
