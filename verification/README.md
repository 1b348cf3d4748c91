# Mini storefront: cart and catalog queries

A Dafny model of the state logic of a small React storefront (`App` in
`src/main/webapp/js/app.jsx`). It covers:

- the fixed product catalog;
- the two catalog queries: the category drop-down list and the filtered product
  list (category plus a case-insensitive, whitespace-trimmed name search);
- the cart, a map from product id to quantity, and its three transitions:
  add, decrease and remove;
- the views derived from the cart: line items, item count, total amount, and
  the checkout decision.

The React state hooks become explicit values. The cart is an immutable
`map<int, nat>` and every transition is a pure function from the old cart to
the new one. The search text and the selected category are parameters of the
filter. Checkout returns an outcome value instead of showing an alert.

Modules, one per file:

- `Seqs` (`seqs.dfy`): first occurrences, the insertion-ordered
  de-duplication a JavaScript `Set` performs, and subsequences.
- `Text` (`text.dfy`): `toLowerCase`, `trim` and `includes`.
- `Catalog` (`catalog.dfy`): `Product`, the catalog `Products`, `find` by id,
  the category list and the product filter.
- `CartStore` (`cart.dfy`): the cart, its transitions, its invariant, and
  sessions of user actions.
- `CartView` (`cart_view.dfy`): line items, totals and checkout.
- `Scenarios` (`scenarios.dfy`): example queries and a cart session on the
  fixed catalog.

The cart invariant is: every stored quantity is at least 1, and every key is
the id of a catalog product. It holds for every cart reachable from the empty
cart by any sequence of add, decrease, remove and checkout actions, provided
the added products come from the catalog. On the storefront that proviso
always holds, because the add buttons sit on catalog products.

Totals are related to an order-independent sum over the cart's keys. So
`totalItems` and `totalAmount` do not depend on the order of the line items.

Checkout never changes the cart. In a session a checkout action leaves the
cart as it was, and `Checkout` only reads the cart. The source does not clear
the cart after an order either.

`addToCart` has no error path for an unknown id, because it is handed a
product object. The model follows the code. `Add` accepts any product, and
catalog membership is a precondition of the invariant lemmas.

## Model

| member | source | states |
|---|---|---|
| Catalog.ProductsWellFormed | src/main/webapp/js/app.jsx:1-8 | the fixed catalog has distinct positive ids, non-empty names and prices that are not negative |
| Catalog.Find | src/main/webapp/js/app.jsx:52 | finds a product exactly when some catalog product has the id; the product found is in the catalog and carries that id |
| Catalog.FindById | src/main/webapp/js/app.jsx:52 | with unique ids, looking up the id of the k-th product yields that very product |
| Seqs.Distinct | src/main/webapp/js/app.jsx:15 | `Array.from(new Set(xs))` has no duplicates, holds exactly the elements of xs, and lists them in strictly increasing order of first occurrence |
| Seqs.DistinctUnique | src/main/webapp/js/app.jsx:15 | any duplicate-free listing of the elements of xs in first-occurrence order equals the de-duplication, so the three properties above pin the result down |
| Catalog.CategoryColumn | src/main/webapp/js/app.jsx:15 | `PRODUCTS.map(p => p.category)` has one entry per product, the product's category |
| Catalog.Categories | src/main/webapp/js/app.jsx:15 | the list starts with "All"; after it every catalog category appears exactly once, nothing else appears, and the order is that of first occurrence in the catalog |
| Catalog.CategoriesUnique | src/main/webapp/js/app.jsx:15 | any list that starts with "All" and then lists each category once in first-occurrence order is the category list |
| Text.LowerChar | src/main/webapp/js/app.jsx:20 | the result is never an upper-case ASCII letter; other characters are unchanged; A–Z map to the letter 32 code points up |
| Text.Lower | src/main/webapp/js/app.jsx:20 | lower-casing keeps the length, maps each character on its own, and leaves no upper-case ASCII letter |
| Text.LowerIdempotent | src/main/webapp/js/app.jsx:20 | lower-casing twice equals lower-casing once |
| Text.LowerConcat | src/main/webapp/js/app.jsx:20 | lower-casing distributes over concatenation |
| Text.LowerKeepsSpace | src/main/webapp/js/app.jsx:20 | lower-casing maps whitespace to whitespace and non-whitespace to non-whitespace |
| Text.LeadingSpaces | src/main/webapp/js/app.jsx:20 | the count covers only whitespace, and the next character, if any, is not whitespace |
| Text.TrailingSpaces | src/main/webapp/js/app.jsx:20 | the count covers only trailing whitespace, and the character before it, if any, is not whitespace |
| Text.Trim | src/main/webapp/js/app.jsx:20 | the result neither starts nor ends with whitespace, and the input is the result with only whitespace added on both sides |
| Text.TrimUnique | src/main/webapp/js/app.jsx:20 | a trimmed string padded with whitespace trims back to itself, so trimming is fully determined by the two properties above |
| Text.TrimPadding | src/main/webapp/js/app.jsx:20 | adding whitespace around a string does not change what it trims to |
| Text.Contains | src/main/webapp/js/app.jsx:20 | `includes` holds exactly when the needle occurs at some position of the haystack; the empty needle occurs everywhere |
| Catalog.SearchKey | src/main/webapp/js/app.jsx:20 | `search.toLowerCase().trim()` holds no upper-case letter, has no whitespace at either end, and is the lower-cased search text with only whitespace taken off its two ends |
| Catalog.MatchesAt | src/main/webapp/js/app.jsx:18-21 | the filter callback `Matches` accepts a product exactly when the category is "All" or the product's, and the search key occurs at some position of the lower-cased name; a key longer than the name never matches; a blank key matches every product of the selected category |
| Catalog.Filter | src/main/webapp/js/app.jsx:17-22 | the listing is an order-preserving subsequence of the catalog; every listed product matches (category is "All" or equal, and the lower-cased name contains the lower-cased, trimmed search); every matching product is listed |
| Catalog.FilterCounts | src/main/webapp/js/app.jsx:17-22 | each matching product is listed as many times as the catalog holds it, and each other product not at all |
| Catalog.FilterShowsAll | src/main/webapp/js/app.jsx:17-22 | the empty search with "All" lists the whole catalog in order |
| Catalog.FilterBySearchKey | src/main/webapp/js/app.jsx:19-20 | two searches that lower-case and trim to the same key list the same products |
| Catalog.FilterIgnoresCase | src/main/webapp/js/app.jsx:20 | lower-casing the search text does not change the listing |
| Catalog.FilterIgnoresPadding | src/main/webapp/js/app.jsx:20 | whitespace around the search text does not change the listing |
| Catalog.FilterNone | src/main/webapp/js/app.jsx:17-22 | when no product matches, the listing is empty |
| Catalog.FilterCons | src/main/webapp/js/app.jsx:17-22 | a matching first product heads the listing of the rest |
| CartStore.Qty | src/main/webapp/js/app.jsx:26 | `prev[id] \|\| 0` (here and at line 33) reads an absent id as 0 and a stored quantity as itself; a positive reading means the id is in the cart |
| CartStore.Add | src/main/webapp/js/app.jsx:24-29 | the product's quantity becomes its old quantity plus 1, an absent id counting as 0; every other key keeps its entry or its absence |
| CartStore.Decrease | src/main/webapp/js/app.jsx:31-41 | at quantity 1 or below, or when absent, the key is absent afterwards; otherwise its quantity drops by exactly 1; every other key is unchanged |
| CartStore.Remove | src/main/webapp/js/app.jsx:43-49 | the key is absent afterwards and every other key is unchanged |
| CartStore.AddThenDecrease | src/main/webapp/js/app.jsx:24-41 | decreasing straight after adding gives back the original cart, whether or not the id was present, unless a 0 was stored for it |
| CartStore.DecreaseThenAdd | src/main/webapp/js/app.jsx:24-41 | for an id in the cart, adding straight after decreasing gives back the original cart |
| CartStore.DecreaseAbsent | src/main/webapp/js/app.jsx:31-41 | decreasing an absent id leaves the cart unchanged |
| CartStore.DecreaseLastIsRemove | src/main/webapp/js/app.jsx:31-49 | at quantity 1 or below, decreasing is the same as removing |
| CartStore.RemoveAbsent | src/main/webapp/js/app.jsx:43-49 | removing an absent id leaves the cart unchanged |
| CartStore.RemoveIdempotent | src/main/webapp/js/app.jsx:43-49 | removing twice equals removing once |
| CartStore.AddKeepsValid | src/main/webapp/js/app.jsx:24-29 | adding a catalog product keeps every quantity at least 1 and every key a catalog id |
| CartStore.DecreaseKeepsValid | src/main/webapp/js/app.jsx:31-41 | decreasing any id keeps the invariant; in particular no quantity reaches 0 |
| CartStore.RemoveKeepsValid | src/main/webapp/js/app.jsx:43-49 | removing any id keeps the invariant |
| CartStore.RunKeepsValid | src/main/webapp/js/app.jsx:24-70 | any sequence of add, decrease, remove and checkout actions keeps the invariant when the added products come from the catalog |
| CartStore.ReachableCartsValid | src/main/webapp/js/app.jsx:11-49 | every cart reachable from the empty cart has quantities at least 1 and only catalog ids as keys |
| CartView.SortedIds | src/main/webapp/js/app.jsx:51 | the cart's keys are listed once each, nothing else, in ascending order, the order in which the integer-like keys of a JavaScript object are enumerated |
| CartView.ItemsFor | src/main/webapp/js/app.jsx:51-54 | each id is resolved to the catalog product with that id, paired with its quantity |
| CartView.LineItems | src/main/webapp/js/app.jsx:51-54 | one line item per cart key, no other items, each holding the catalog product with that id and the key's quantity, in ascending id order |
| CartView.TotalItems | src/main/webapp/js/app.jsx:56 | `totalItems` is never negative, and line items whose quantities are all at least 1 total at least one item each; its value in terms of the cart is stated by `CartView.TotalsAreSums` |
| CartView.TotalAmount | src/main/webapp/js/app.jsx:57-60 | `totalAmount` is not negative when no line item has a negative price; its value in terms of the cart is stated by `CartView.TotalsAreSums` |
| CartView.TotalsAreSums | src/main/webapp/js/app.jsx:56-60 | `totalItems` is the sum of the cart's quantities and `totalAmount` the sum of price times quantity, both taken over the keys in no particular order |
| CartView.TotalItemsOfValidCart | src/main/webapp/js/app.jsx:51-56 | under the invariant, `totalItems` is at least the number of line items, and it is 0 exactly when the cart is empty |
| CartView.TotalAmountOfWellFormed | src/main/webapp/js/app.jsx:57-60 | with the well-formed catalog the total amount is not negative |
| CartView.EmptyCartTotals | src/main/webapp/js/app.jsx:51-60 | the empty cart has no line items, and both totals are 0 |
| CartView.Checkout | src/main/webapp/js/app.jsx:62-70 | the empty-cart outcome occurs exactly when the cart is empty, which is when it has no line items; otherwise the report carries the sum of quantities and the sum of price times quantity; under the invariant the item count is at least the number of lines and at least 1; with the well-formed catalog the amount is not negative |
| Scenarios.CategoriesScenario | src/main/webapp/js/app.jsx:1-15 | the drop-down of the fixed catalog is All, Electronics, Fashion, Home, Stationery |
| Scenarios.ElectronicsScenario | src/main/webapp/js/app.jsx:1-22 | the empty search in "Electronics" lists exactly the products with ids 1 and 2, in catalog order |
| Scenarios.ShoesScenario | src/main/webapp/js/app.jsx:1-22 | the search " SHOES " in "All" lists "Running Shoes" |
| Scenarios.CartScenario | src/main/webapp/js/app.jsx:11-49 | from the empty cart, adding product 1 twice gives {1: 2}, decreasing gives {1: 1}, removing gives the empty cart |

## Left out

- Rendering: the JSX tree, styling, the currency sign and the `ReactDOM`
  root (src/main/webapp/js/app.jsx:72-201) are presentation only.
- The `alert` calls (src/main/webapp/js/app.jsx:64, 67-69): `Checkout`
  returns the outcome that the alert would display.
- React `useState`/`setCart` (src/main/webapp/js/app.jsx:11-13, 25, 32, 44):
  the cart is an explicit value, and the search text and category are
  parameters.
- Text.Lower: maps only the ASCII letters A–Z. JavaScript's `toLowerCase`
  also lower-cases other Unicode letters. The catalog's names are ASCII, but
  the search text is free user input (src/main/webapp/js/app.jsx:86) and is
  not limited to ASCII. For example, JavaScript lower-cases the Kelvin sign
  U+212A to "k", so the source lists Backpack and Notebook for that search,
  while the model lists no product.
  `Text.IsSpace` does list every character JavaScript's `trim` strips.
- CartView.SortedIds: ascending order is JavaScript's enumeration order only
  for non-negative integer keys. Other keys would be enumerated in insertion
  order. The catalog's ids are 1 to 6. The totals do not depend on the order.
- CartView.LineItems: requires every key to be a catalog id. For a foreign
  key the source yields a line item without a product, and the total amount
  then fails on `product.price`. The invariant rules such keys out.
- CartView.TotalItems and CartView.TotalAmount: summed on unbounded
  integers. JavaScript numbers are doubles and lose precision beyond 2^53;
  the catalog's totals stay far below that.
- Catalog.Categories: models the code as written. A product whose category
  is the literal "All" would make "All" appear twice. No catalog product has
  that category.
