# Storefront catalogue query, in Dafny

This project models the product query of a single-page storefront
(`src/App.tsx`). The page keeps a filter record in its state; on every change
it recomputes the visible product list from the fixed catalogue:

1. copy the catalogue;
2. for each filter whose setting is given, keep the products that satisfy it:
   - title contains the trimmed query;
   - category among those selected;
   - a tag shared with those selected;
   - price at least the lower bound;
   - price at most the upper bound;
   - stock status as selected;
3. sort the list in place with the comparator the sort mode selects.

The model also covers the rules that replace the filter record:

- the initial state;
- the field setters;
- the category and tag checkboxes;
- the category chips;
- the "clear filters" button.

Modules, one per concern of the source:

- `Text`: ECMAScript `String.prototype.trim` and `String.prototype.includes`.
  The whitespace set is the WhiteSpace and LineTerminator code points of
  ECMA-262, sections 12.2 and 12.3.
- `Catalog`: the product record and the fixed data. This covers
  `CATEGORIES`, `TAGS` and `MOCK_PRODUCTS`, with ratings in tenths (4.6 is
  46).
- `Filters`: the filter record and every rule that builds a new one from the
  old. These are pure functions. Every handler except "clear filters" builds a
  new record by spreading the old one. "Clear filters" passes a literal
  record, which is the initial state.
- `StableSort`: the three comparators of the sort `switch`. It also defines
  `SortBy`, a stable insertion sort as a function, which specifies what
  ECMA-262 requires of `Array.prototype.sort` (section 23.1.3.30, stable
  since ES2019). `SortInPlace` is the in-place array sort, proved equal to
  `SortBy`.
- `QueryEngine`: the pipeline itself.
  - `FilterProducts` reassigns `res` filter by filter, as lines 342-361 do.
  - `Products` copies the result into an array, sorts it in place and
    returns it.
  - `Selected` and `QueryResult` are the declarative descriptions the
    methods are proved against.
- `Examples`: the query on the real catalogue for three filter settings.

Behaviour of the code worth noting:

- The sort `switch` (src/App.tsx:363-368) falls to its `default` branch for
  every value other than `price-asc`, `price-desc` and `rating-desc`, and that
  branch also sorts by descending rating. So any sort value other than
  `price-asc` and `price-desc` sorts by descending rating.
- Any stock value other than `all` and `in` keeps the products out of stock
  (src/App.tsx:359-360).
- A query made only of whitespace passes the `if (filters.query)` guard
  (src/App.tsx:343), so the title filter runs. But the query trims to the
  empty string, which every title contains, so the filter keeps everything
  (`BlankQuery`).
- A price bound is applied whenever it is a number (src/App.tsx:353 and 356),
  zero and negative amounts included.
- For `tags=["eco"]` with `stock="in"`, the filtered list is [5, 8]. The
  default sort then shows [8, 5], because product 8 is rated 4.3 and product
  5 is rated 4.1 (src/App.tsx:25-106).

## Model

| member | source | states |
|---|---|---|
| Text.TrimStart | src/App.tsx:344 | the result is a suffix of the input, everything dropped is whitespace, and it does not start with whitespace |
| Text.TrimEnd | src/App.tsx:344 | the result is a prefix of the input, everything dropped is whitespace, and it does not end with whitespace |
| Text.Trim | src/App.tsx:344 | `query.trim()` is a slice of the query with only whitespace on either side, and does not start or end with whitespace |
| Text.TrimEmptyIff | src/App.tsx:343-344 | the query trims to the empty string exactly when it is all whitespace |
| Text.TrimIdempotent | src/App.tsx:344 | trimming twice is trimming once |
| Text.TrimUnpadded | src/App.tsx:344 | a query with no whitespace at either end is its own trim |
| Text.IncludesIff | src/App.tsx:345 | `title.includes(q)` holds exactly when `q` occurs in the title at some index |
| Text.IncludesNeedsChar | src/App.tsx:345 | a title lacking one character of `q` does not include `q` |
| Text.IncludesEmpty | src/App.tsx:345 | every title includes the empty string |
| Filters.Reset | src/App.tsx:315 | "clear filters" yields exactly the initial state of lines 330-338, whatever the current state |
| Filters.Remove | src/App.tsx:222 | `filter(x => x !== id)` leaves no copy of `id`, keeps every other item, and keeps each other item's multiplicity |
| Filters.RemoveAbsent | src/App.tsx:222 | removing an id that is not present changes nothing |
| Filters.RemoveAppended | src/App.tsx:221-222 | removing an id just appended to a list without it restores the list |
| Filters.SetCategoryChecked | src/App.tsx:217-223 | checking a category appends its id; unchecking removes every copy and keeps the others; nothing but the category list changes |
| Filters.SetTagChecked | src/App.tsx:272-279 | the same rule on the tag list |
| Filters.ToggleCategory | src/App.tsx:476-481 | a chip click on a category shown as selected removes every copy; on one shown as unselected it appends it; nothing but the category list changes |
| Filters.ToggleIsCheckbox | src/App.tsx:476-481 | when the page shows the current state, a chip click does what a click on that category's checkbox does |
| Filters.ToggleTwice | src/App.tsx:476-481 | toggling an absent category twice, each click seeing the previous result, restores the state |
| Filters.ToggleTwiceFromSelected | src/App.tsx:476-481 | toggling a selected category twice removes it everywhere and appends one copy |
| Filters.ToggleStaleRender | src/App.tsx:478 | two clicks decided from the same stale rendered list append an absent category twice |
| Filters.SetQuery | src/App.tsx:400 | the search box sets the query and nothing else (the second search box, line 423, is the same rule) |
| Filters.BoundOf | src/App.tsx:246 | an empty box means no bound; any other text means its number |
| Filters.SetMinPrice | src/App.tsx:246 | the minimum box unsets the lower bound when emptied, otherwise sets it to the typed number; nothing else changes |
| Filters.SetMaxPrice | src/App.tsx:253 | the same rule for the upper bound |
| Filters.SetStock | src/App.tsx:305 | the stock radio sets the stock mode and nothing else |
| Filters.SetSort | src/App.tsx:492 | the sort selector sets the sort mode and nothing else |
| Filters.AgreeExceptOnly | src/App.tsx:246 | agreeing on all other fields and on the field itself is equality, so each setter's contract fixes its whole result |
| StableSort.OrderOf | src/App.tsx:363-368 | `price-asc` and `price-desc` select their comparators; every other value, `popular` and `rating-desc` included, selects descending rating |
| StableSort.CompareIsKeyDifference | src/App.tsx:364-367 | each comparator is a difference of numeric keys, so it is a consistent comparator |
| StableSort.InsertPermutes | src/App.tsx:364-367 | one insertion step adds exactly the inserted item |
| StableSort.InsertSorted | src/App.tsx:364-367 | inserting into a sorted list keeps it sorted |
| StableSort.InsertTies | src/App.tsx:364-367 | an insertion step puts the item after every item tied with it |
| StableSort.SortByPermutes | src/App.tsx:364-367 | the sorted list is a permutation of the filtered list |
| StableSort.SortBySorted | src/App.tsx:364-367 | no pair of the sorted list is out of order under the comparator |
| StableSort.SortByStable | src/App.tsx:364-367 | the items of each tie class appear in the sorted list in their filtered order |
| StableSort.SortByOrder | src/App.tsx:363-368 | `price-asc` output has non-decreasing prices, `price-desc` non-increasing prices, every other mode non-increasing ratings |
| StableSort.TiedWithMembers | src/App.tsx:364-367 | a tie class holds exactly the items comparing equal to its representative |
| StableSort.SortedTiesDetermine | src/App.tsx:364-367 | two sorted lists with the same tie classes in the same orders are equal |
| StableSort.StableSortUnique | src/App.tsx:364-367 | any sorted list that keeps every tie class in input order is `SortBy`'s result, so the outcome does not depend on the engine's algorithm |
| StableSort.InsertAt | src/App.tsx:364-367 | shifting the greater items of the sorted prefix right and dropping the item in is one `Insert` step, and leaves the rest of the array alone |
| StableSort.SortInPlace | src/App.tsx:364-367 | `res.sort(cmp)` in place leaves the array holding `SortBy` of its old contents |
| QueryEngine.KeepMeaning | src/App.tsx:345-360 | `res.filter(pred)` keeps exactly the items accepting `pred`, in order |
| QueryEngine.KeepAppend | src/App.tsx:345-360 | filtering a concatenation filters each part |
| QueryEngine.Selected | src/App.tsx:342-361 | the declarative filter stage: exactly the catalogue items matching every given setting, in catalogue order |
| QueryEngine.AfterNoStages | src/App.tsx:342 | before any filter runs, `res` is the whole catalogue |
| QueryEngine.StageStep | src/App.tsx:343-361 | each `if` block either narrows `res` by its predicate or, when its setting is not given, leaves it unchanged |
| QueryEngine.QueryStage | src/App.tsx:343-346 | the query stage keeps a product exactly when the trimmed query occurs in its title |
| QueryEngine.PassesAllStages | src/App.tsx:343-361 | a product survives the six stages exactly when it matches every given setting |
| QueryEngine.FilterStage | src/App.tsx:342-361 | the six filters in a row leave exactly `Selected` |
| QueryEngine.FilterProducts | src/App.tsx:342-361 | the filter chain, `res` reassigned stage by stage, returns exactly `Selected` |
| QueryEngine.Products | src/App.tsx:341-370 | the pipeline returns `QueryResult`: a permutation of the matching products, sorted by the mode's comparator, each tie class in catalogue order |
| QueryEngine.SelectedAll | src/App.tsx:342-361 | a list whose every item matches is left as it is |
| QueryEngine.SelectedSame | src/App.tsx:342-361 | states accepting the same products select the same list |
| QueryEngine.SelectedNarrowed | src/App.tsx:342-361 | adding one constraint to a state narrows its selection by that constraint |
| QueryEngine.InitialQuery | src/App.tsx:330-370 | the initial state shows every product by descending rating, a permutation of the catalogue |
| QueryEngine.BlankQuery | src/App.tsx:343-346 | a query of only whitespace selects what the empty query selects |
| QueryEngine.QueryNarrows | src/App.tsx:343-346 | a non-empty query narrows the query-less selection to the titles containing it trimmed |
| QueryEngine.StockModes | src/App.tsx:359-361 | `in` narrows the `all` list to products in stock; `out`, and any other mode, to those out of stock |
| QueryEngine.MinPriceBound | src/App.tsx:353-355 | a lower bound, zero included, keeps exactly the prices at or above it; a bound at or below zero keeps everything |
| QueryEngine.MaxPriceBound | src/App.tsx:356-358 | an upper bound keeps exactly the prices at or below it |
| QueryEngine.QueryIdempotent | src/App.tsx:341-370 | running the query on its own result returns the same list |
| QueryEngine.ResortPermutes | src/App.tsx:363-368 | changing only the sort mode selects the same products and reorders them |
| QueryEngine.ResetQuery | src/App.tsx:315 | after "clear filters" the page shows the whole catalogue by descending rating |
| Examples.LightingByPrice | src/App.tsx:25-106 | category `lighting` sorted by `price-asc` shows products 8 then 1 |
| Examples.EcoInStockSelected | src/App.tsx:25-106 | tag `eco` with stock `in` selects products 5 and 8 (4 is out of stock) |
| Examples.EcoInStock | src/App.tsx:25-106 | under the default sort that selection shows 8 then 5 |
| Examples.RugSearch | src/App.tsx:25-106 | the query "فرش" shows product 2 alone |

## Definitions

The definitions that encode the source's data, guards, predicates and
comparators. They have no contract of their own; the members of the table
above state what they mean.

| definition | source | encodes |
|---|---|---|
| Catalog.CategoryIds | src/App.tsx:9-16 | the ids of `CATEGORIES`, in order |
| Catalog.TagIds | src/App.tsx:18-23 | the ids of `TAGS`, in order |
| Catalog.MockProducts | src/App.tsx:25-106 | the eight entries of `MOCK_PRODUCTS`, in order, with id, title, price, rating in tenths, category, tags and stock flag; the image URL is left out |
| Filters.Initial | src/App.tsx:330-338 | the initial filter record: empty query, no categories, no tags, both bounds unset, stock `all`, sort `popular` |
| Text.Includes | src/App.tsx:345 | `title.includes(q)`, as a left-to-right search |
| QueryEngine.Holds | src/App.tsx:345-360 | the six `filter` predicates: the title contains the query; the category is among those selected; some tag is among those selected; price `>=` the lower bound; price `<=` the upper bound; `stock === 'in' ? inStock : !inStock` |
| QueryEngine.Stage | src/App.tsx:343-359 | the six `if` guards, in order: query not `""`; categories non-empty; tags non-empty; `typeof minPrice === 'number'`; `typeof maxPrice === 'number'`; stock not `all`. Stage 0 uses the trimmed query (line 344) |
| QueryEngine.Keep | src/App.tsx:345-360 | `res.filter(...)` with one predicate: the items it accepts, in order |
| QueryEngine.QueryResult | src/App.tsx:341-370 | the whole pipeline: the catalogue narrowed to `Selected`, then sorted stably by the mode's comparator |
| StableSort.Compare | src/App.tsx:364-367 | the three comparators: `a.price - b.price`, `b.price - a.price` and `b.rating - a.rating` |
| StableSort.Insert | src/App.tsx:363-368 | one step of the stable insertion sort: the item goes just after the last item, scanning from the end, that does not compare greater than it |
| StableSort.SortBy | src/App.tsx:363-368 | `res.sort(cmp)`, as a stable insertion sort |

Helper with no source counterpart: `Catalog.Ids`, the ids of a product list
in order, lets the example lemmas state their results as id lists.

## Left out

- Rendering: the JSX, styles, icons, hero, newsletter and footer are presentation only.
- The effect that sets the document's direction and title (lines 373-378) is a DOM side effect.
- `toIRR` (line 109) calls the host's `toLocaleString`; it only formats prices for display.
- `Number(text)` parsing of the price boxes is outside the model: the parsed amount is a parameter of `SetMinPrice` and `SetMaxPrice`.
  - Fractional amounts are not modelled; bounds are integers.
  - `NaN` is not modelled. A number input reports unparsable text as empty, which the model treats as an unset bound.
- The star display of `Rating` (lines 120-141) uses floating point and only draws stars.
- The drawer, menu and section-expansion flags are UI toggles with nothing to state.
- React's scheduling is outside the model: the query is a function of the current state.
  - `Filters.ToggleCategory`: the chip decides from the list the page was drawn from. The toggle lemmas take each click to see the state the previous one produced; `ToggleStaleRender` shows what happens otherwise.
- Strings are sequences of Unicode code points, not UTF-16 code units as in JavaScript. Trimming and containment agree on the catalogue's titles, which contain no surrogate pairs.
- The product image URLs are display-only and are not part of `Product`.
