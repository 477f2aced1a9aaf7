/** The filter state the storefront keeps with `useState` and the rules that
    replace it on each user action (src/App.tsx). Every handler except
    "clear filters" builds a new record from the previous one,
    `({...f, field: v})`; "clear filters" passes a literal record. Either
    way each rule is a function from the old state to the new one. */
module Filters {

  datatype Option<T> = None | Some(value: T)

  /** The state record. A price bound is `None` when the input box is empty
      (`undefined` in the source), otherwise the number typed into it.
      `stock` and `sort` are kept as the strings the source stores. */
  datatype FilterState = FilterState(
    query: string,
    categories: seq<string>,
    tags: seq<string>,
    minPrice: Option<int>,
    maxPrice: Option<int>,
    stock: string,
    sort: string)

  /** The fields of the record, to say which one an update may change. */
  datatype Field = Query | Categories | Tags | MinPrice | MaxPrice | Stock | Sort

  /** `f` and `g` agree on every field other than `x`. */
  predicate AgreeExcept(f: FilterState, g: FilterState, x: Field)
  {
    && (x == Query || f.query == g.query)
    && (x == Categories || f.categories == g.categories)
    && (x == Tags || f.tags == g.tags)
    && (x == MinPrice || f.minPrice == g.minPrice)
    && (x == MaxPrice || f.maxPrice == g.maxPrice)
    && (x == Stock || f.stock == g.stock)
    && (x == Sort || f.sort == g.sort)
  }

  /** The state the page starts in (lines 330-338). */
  const Initial: FilterState :=
    FilterState("", [], [], None, None, "all", "popular")

  /** The "clear filters" button (line 315): it sets a literal record,
      whatever the state was, and that record is the initial state. */
  function Reset(f: FilterState): (r: FilterState)
    ensures r == Initial
  {
    FilterState("", [], [], None, None, "all", "popular")
  }

  /** `xs.filter(x => x !== id)`: every copy of `id` removed, the rest kept
      in order. */
  function Remove(xs: seq<string>, id: string): (r: seq<string>)
    ensures id !in r
    ensures forall x :: x != id ==> (x in r <==> x in xs)
    ensures multiset(r) == multiset(xs)[id := 0]
  {
    if xs == [] then []
    else
      assert xs == [xs[0]] + xs[1..];
      if xs[0] == id then Remove(xs[1..], id)
      else [xs[0]] + Remove(xs[1..], id)
  }

  /** Removing an id that is not in the list changes nothing. */
  lemma {:induction false} RemoveAbsent(xs: seq<string>, id: string)
    requires id !in xs
    ensures Remove(xs, id) == xs
  {
    if xs != [] {
      RemoveAbsent(xs[1..], id);
    }
  }

  /** Removing what was just appended to a list without it restores the
      list. */
  lemma {:induction false} RemoveAppended(xs: seq<string>, id: string)
    requires id !in xs
    ensures Remove(xs + [id], id) == xs
  {
    if xs == [] {
    } else {
      assert (xs + [id])[1..] == xs[1..] + [id];
      RemoveAppended(xs[1..], id);
    }
  }

  /** The change handler of a category checkbox (lines 217-223): checking
      appends the id, unchecking removes every copy of it. */
  function SetCategoryChecked(f: FilterState, id: string, checked: bool): (r: FilterState)
    ensures AgreeExcept(f, r, Categories)
    ensures checked ==> r.categories == f.categories + [id]
    ensures !checked ==> id !in r.categories
    ensures !checked ==> forall c :: c != id ==> (c in r.categories <==> c in f.categories)
  {
    f.(categories := if checked then f.categories + [id] else Remove(f.categories, id))
  }

  /** The change handler of a tag checkbox (lines 272-279), the same rule on
      the tag list. */
  function SetTagChecked(f: FilterState, id: string, checked: bool): (r: FilterState)
    ensures AgreeExcept(f, r, Tags)
    ensures checked ==> r.tags == f.tags + [id]
    ensures !checked ==> id !in r.tags
    ensures !checked ==> forall t :: t != id ==> (t in r.tags <==> t in f.tags)
  {
    f.(tags := if checked then f.tags + [id] else Remove(f.tags, id))
  }

  /** The category chip's click handler (lines 476-481). It decides between
      removing and appending from `rendered`, the category list of the state
      the page was last drawn from, and applies the change to `f`, the state
      the updater receives. */
  function ToggleCategory(rendered: seq<string>, f: FilterState, id: string): (r: FilterState)
    ensures AgreeExcept(f, r, Categories)
    ensures id in rendered ==> id !in r.categories
    ensures id in rendered ==> forall c :: c != id ==> (c in r.categories <==> c in f.categories)
    ensures id !in rendered ==> r.categories == f.categories + [id]
  {
    f.(categories := if id in rendered then Remove(f.categories, id) else f.categories + [id])
  }

  /** When the page has been drawn from the state the updater receives (each
      click handled after the previous one re-rendered), a toggle removes
      every copy of a present id and appends an absent one; this is also
      what the checkbox does, since a click flips its `checked` value. */
  lemma ToggleIsCheckbox(f: FilterState, id: string)
    ensures ToggleCategory(f.categories, f, id) == SetCategoryChecked(f, id, id !in f.categories)
  {
  }

  /** Toggling a category on and then off, each click seeing the state the
      previous one produced, restores the state. */
  lemma ToggleTwice(f: FilterState, id: string)
    requires id !in f.categories
    ensures var g := ToggleCategory(f.categories, f, id);
            ToggleCategory(g.categories, g, id) == f
  {
    RemoveAppended(f.categories, id);
  }

  /** Toggling a category twice from the state where it is selected removes
      it, and the second toggle adds it back once, at the end. */
  lemma ToggleTwiceFromSelected(f: FilterState, id: string)
    requires id in f.categories
    ensures var g := ToggleCategory(f.categories, f, id);
            var h := ToggleCategory(g.categories, g, id);
            h.categories == Remove(f.categories, id) + [id] && AgreeExcept(f, h, Categories)
  {
  }

  /** If two clicks are handled before the page re-renders, both decide from
      the same stale list, so an absent id is appended twice; the model
      elsewhere takes each click to see the state the previous one made. */
  lemma ToggleStaleRender(f: FilterState, id: string)
    requires id !in f.categories
    ensures ToggleCategory(f.categories, ToggleCategory(f.categories, f, id), id).categories
            == f.categories + [id, id]
  {
  }

  /** The search box (line 400): only the query changes. */
  function SetQuery(f: FilterState, q: string): (r: FilterState)
    ensures r.query == q && AgreeExcept(f, r, Query)
  {
    f.(query := q)
  }

  /** The box's text as a bound: unset when the text is empty, otherwise
      `amount`, the number the text denotes (`Number(text)`). */
  function BoundOf(text: string, amount: int): (b: Option<int>)
    ensures b == None <==> text == ""
    ensures b != None ==> b.value == amount
  {
    if text != "" then Some(amount) else None
  }

  /** The minimum-price box (line 246): clearing the box unsets the lower
      bound, any other text sets it to its number; only the lower bound
      changes. */
  function SetMinPrice(f: FilterState, text: string, amount: int): (r: FilterState)
    ensures text == "" ==> r.minPrice == None
    ensures text != "" ==> r.minPrice == Some(amount)
    ensures AgreeExcept(f, r, MinPrice)
  {
    f.(minPrice := BoundOf(text, amount))
  }

  /** The maximum-price box (line 253): the same rule for the upper bound. */
  function SetMaxPrice(f: FilterState, text: string, amount: int): (r: FilterState)
    ensures text == "" ==> r.maxPrice == None
    ensures text != "" ==> r.maxPrice == Some(amount)
    ensures AgreeExcept(f, r, MaxPrice)
  {
    f.(maxPrice := BoundOf(text, amount))
  }

  /** The stock radio buttons (line 305): only the stock mode changes. */
  function SetStock(f: FilterState, mode: string): (r: FilterState)
    ensures r.stock == mode && AgreeExcept(f, r, Stock)
  {
    f.(stock := mode)
  }

  /** The sort selector (line 492): only the sort mode changes. */
  function SetSort(f: FilterState, mode: string): (r: FilterState)
    ensures r.sort == mode && AgreeExcept(f, r, Sort)
  {
    f.(sort := mode)
  }

  /** Agreement on every other field and on the field itself is equality, so
      the setters' contracts fix their results completely. */
  lemma AgreeExceptOnly(f: FilterState, g: FilterState, x: Field)
    requires AgreeExcept(f, g, x)
    requires match x
      case Query => f.query == g.query
      case Categories => f.categories == g.categories
      case Tags => f.tags == g.tags
      case MinPrice => f.minPrice == g.minPrice
      case MaxPrice => f.maxPrice == g.maxPrice
      case Stock => f.stock == g.stock
      case Sort => f.sort == g.sort
    ensures f == g
  {
  }
}
