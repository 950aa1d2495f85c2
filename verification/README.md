# Storefront core: cart ledger and catalog queries

A Dafny model of the logic inside a CCTV-products storefront written in React.
The storefront has no backend, and almost all of its code is rendering. The
logic modelled here is:

- **Cart ledger.** An ordered list of `(product, quantity)` lines. Four
  operations change it: `addToCart` (merge into an existing line or append a
  new one), `removeFromCart`, `updateQuantity` (a quantity of 0 or less means
  remove) and `clearCart`. Five totals are derived from it on every read:
  item count, subtotal, GST, shipping and total.
- **The pages that drive the ledger.** The cart page's ±1 buttons, the detail
  page's quantity stepper and the product card's one-unit add button.
- **Catalog queries.** The shop page's four equality filters followed by a
  stable sort on one of four keys, `clearFilters` and `hasFilters`. Also the
  detail page's slug lookup and related products, the home page's featured
  strip, and the discount percentage.
- **Contact form.** Validation on submit and the reset after a success.

Every operation is a pure function over immutable datatypes and sequences. The
catalog is an arbitrary input sequence.

Modules, one per source file or component:

| file | module | models |
|---|---|---|
| `wrappers.dfy` | `Wrappers` | `Option` |
| `seqs.dfy` | `Seqs` | `Array.prototype.filter`, `slice(0, n)`, subsequences |
| `rounding.dfy` | `Rounding` | `Math.round` of an exact quotient |
| `products.dfy` | `Products` | the product record |
| `cart.dfy` | `CartLedger` | `src/contexts/CartContext.tsx` |
| `cart_page.dfy` | `CartPage` | `src/pages/Cart.tsx` |
| `shop.dfy` | `Shop` | `src/pages/Shop.tsx` |
| `product_card.dfy` | `ProductCard` | `src/components/ProductCard.tsx` |
| `product_detail.dfy` | `ProductDetail` | `src/pages/ProductDetail.tsx` |
| `home.dfy` | `Home` | `src/pages/Index.tsx` |
| `contact.dfy` | `Contact` | `src/pages/Contact.tsx` |

How the source is encoded:

- **Product record.** `Product` has only the fields the logic reads.
  `Product.kind` is the source's `type` field, because `type` is a Dafny
  keyword.
- **GST.** The source computes `Math.round(subtotal * 0.18)`. The model
  computes `RoundHalfUp(18 * subtotal, 100)`, which is the nearest integer
  with halves rounded up. This equals `(18 * s + 50) / 100` with floor
  division.
- **Discount.** For `originalPrice = o`, the discount is `RoundHalfUp(100 *
  (o - price), o)`. This holds only when `o` is truthy. An absent
  `originalPrice` and `o = 0` are both falsy, so both give 0. A negative `o`
  is truthy, and `RoundHalfUp` rounds correctly for it as well.
- **Sorting.** Each of the four comparators in `src/pages/Shop.tsx:34-37` is
  `rank(a) - rank(b)` for some integer rank:
  - `price-asc`: rank is `price`;
  - `price-desc`: rank is `-price`;
  - `best-selling`: rank is -1 or 0;
  - every other key: rank is `-createdAt`.

  ECMAScript requires `Array.prototype.sort` to be stable. The model uses a
  stable insertion sort. `Shop.StableSortUnique` proves that two lists sorted
  by rank, with equal rank groups, are equal. So every stable sort returns
  what the model returns.
- **Totals.** The source sums the lines with left-to-right `reduce` passes.
  `CartLedger.ComputeTotals` is that loop. It is proved equal to
  `CartLedger.TotalsOf`, which is built on the recursive reference sum
  `CartLedger.Sum`.

Behaviour of the code worth knowing, which the model keeps as written:

- **Discount below zero.** The code returns a negative percentage when
  `0 < originalPrice < price`. The card hides it, because the badge needs
  `discount > 0`. The detail page prints it (`ProductDetail.DetailShowsNegativeDiscount`).
- **Quantity passed to `addToCart`.** The code does not check it, so
  `AddToCart` accepts any integer. One line per product holds for every
  quantity (`CartLedger.AddKeepsUnique`). Keeping every line at 1 unit or more
  needs a quantity of at least 1, which is what every caller passes.
- **What a line stores.** A line holds the whole product record, not just its
  id. A merge keeps the stored record, so the subtotal charges the stored
  record's price. `CartLedger.AddTotals` states this through `ChargedPrice`.
- **Rounding ties.** `Math.round` rounds halves up, towards positive
  infinity, so a GST of exactly half a unit rounds up.

## Model

| member | source | states |
|---|---|---|
| CartLedger.LineIndex | src/contexts/CartContext.tsx:29 | Returns the position of the first line for the id. Returns none exactly when no line has that id. |
| CartLedger.AddToCart | src/contexts/CartContext.tsx:27-38 | Adds the product's id to the cart's id set. The line count grows by one exactly when the product had no line. Existing lines keep their products and positions. A new line `(product, quantity)` goes at the end. |
| CartLedger.AddMerges | src/contexts/CartContext.tsx:29-36 | With one line per id, adding a product that already has line `k` changes only line `k`. Its quantity grows by exactly the quantity added. |
| CartLedger.AddAppends | src/contexts/CartContext.tsx:37 | Adding a product with no line appends `(product, quantity)` and leaves the existing lines as they were. |
| CartLedger.AddKeepsWellFormed | src/contexts/CartContext.tsx:27-38 | With a quantity of at least 1, adding keeps the whole cart invariant: one line per id, and every line at 1 unit or more. |
| CartLedger.AddKeepsUnique | src/contexts/CartContext.tsx:27-38 | Adding keeps one line per id for every quantity, because an existing line is merged into. |
| CartLedger.AddTotals | src/contexts/CartContext.tsx:27-60 | Adding `q` units raises the item total by exactly `q`. It raises the subtotal by `q` times the charged unit price: the merged line's price, or the new product's price. |
| CartLedger.AddTwiceMerges | src/contexts/CartContext.tsx:29-37 | Adding 2 and then 3 units of the same product to an empty cart gives one line of 5. |
| CartLedger.RemoveFromCart | src/contexts/CartContext.tsx:41-43 | The result is a subsequence of the cart, so order is kept. Its id set is the old set without the id. |
| CartLedger.RemoveCutsLine | src/contexts/CartContext.tsx:41-43 | With one line per id, removing a product that has line `k` gives exactly the lines before `k` followed by the lines after it. |
| CartLedger.RemoveAbsent | src/contexts/CartContext.tsx:41-43 | Removing an id that has no line changes nothing. |
| CartLedger.RemoveKeepsWellFormed | src/contexts/CartContext.tsx:41-43 | Removing keeps the cart invariant. |
| CartLedger.RemoveTotals | src/contexts/CartContext.tsx:41-60 | Removing line `k` lowers the item total by its quantity and the subtotal by its amount. |
| CartLedger.UpdateQuantity | src/contexts/CartContext.tsx:45-55 | Never adds an id. A quantity of 0 or less takes the id out. A positive quantity keeps the same ids. The cart never gets longer. |
| CartLedger.UpdateSets | src/contexts/CartContext.tsx:50-54 | A positive quantity replaces line `k`'s quantity; it does not add to it. Every other line is unchanged. |
| CartLedger.UpdateAbsent | src/contexts/CartContext.tsx:45-55 | Updating an id with no line changes nothing, for every quantity. No line is created. |
| CartLedger.UpdateKeepsWellFormed | src/contexts/CartContext.tsx:45-55 | Updating keeps the cart invariant for every quantity, because a value below 1 removes the line. |
| CartLedger.UpdateToZeroEmpties | src/contexts/CartContext.tsx:46-48 | Setting the only line's quantity to 0 empties the cart. |
| CartLedger.ClearCart | src/contexts/CartContext.tsx:57 | The cleared cart has no ids. |
| CartLedger.ClearEmpties | src/contexts/CartContext.tsx:57 | Clearing gives the empty, well-formed cart with zero units and a zero subtotal. |
| Rounding.RoundHalfUp | src/contexts/CartContext.tsx:61 | `Math.round(n / d)` is the integer `r` with `r <= n/d + 1/2 < r + 1`. The fraction is cleared for both signs of `d`. |
| Rounding.RoundHalfUpUnique | src/contexts/CartContext.tsx:61 | For either sign of `d`, no other integer satisfies those inequalities. |
| CartLedger.Gst | src/contexts/CartContext.tsx:61 | GST is within half a unit of 18% of the subtotal: `18s - 50 < 100 * gst <= 18s + 50`. |
| CartLedger.Shipping | src/contexts/CartContext.tsx:62 | Shipping is 0 or 199. It is 0 exactly when the subtotal is strictly above 5000. |
| CartLedger.ComputeTotals | src/contexts/CartContext.tsx:59-63 | The two `reduce` loops followed by the tax, shipping and total lines compute exactly `TotalsOf`. |
| CartLedger.TotalsOf | src/contexts/CartContext.tsx:59-63 | The unit count is the sum of the quantities, and the subtotal the sum of price × quantity. GST is within half a unit of 18% of the subtotal. Shipping is 0 exactly above 5000 and 199 otherwise. The total is the sum of subtotal, GST and shipping. |
| CartLedger.PricingExample | src/contexts/CartContext.tsx:59-63 | One line at price 4000, quantity 1, gives subtotal 4000, GST 720, shipping 199 and total 4919. |
| CartLedger.ShippingBoundary | src/contexts/CartContext.tsx:62 | A subtotal of 5000 still pays 199. A subtotal of 5001 ships free. |
| CartLedger.EmptyCartTotals | src/contexts/CartContext.tsx:59-63 | The empty cart reads 0 units, 0 subtotal, 0 GST, 199 shipping and 199 total. |
| CartPage.Decrement | src/pages/Cart.tsx:53 | Minus drops the product from the cart exactly when its line held 1 unit or fewer. It never lengthens the cart. |
| CartPage.Increment | src/pages/Cart.tsx:55 | Plus keeps every product in the cart, for a line holding no negative count. It never lengthens the cart. |
| CartPage.DecrementRemovesLastUnit | src/pages/Cart.tsx:53 | Minus on a line holding 1 unit removes exactly that line, the same as `removeFromCart`. |
| CartPage.DecrementTakesOne | src/pages/Cart.tsx:53 | Minus on a line holding more than 1 unit lowers only that line, by exactly 1. |
| CartPage.IncrementAddsOne | src/pages/Cart.tsx:55 | Plus raises only that line, by exactly 1, so the unit total grows by 1. |
| CartPage.DecrementUndoesIncrement | src/pages/Cart.tsx:53-55 | Minus after plus on the same line restores the cart. |
| CartPage.SteppersKeepWellFormed | src/pages/Cart.tsx:53-55 | Neither button breaks the cart invariant. |
| CartPage.LinesAtMostUnits | src/pages/Cart.tsx:28 | The heading counts lines. That count is at most the unit count, and equal to it exactly when every line holds 1 unit. |
| CartPage.EmptyViewIffNoUnits | src/pages/Cart.tsx:9 | The empty-cart view shows exactly when the cart holds no units. |
| CartPage.ShowLine | src/pages/Cart.tsx:58-59 | The unit price shows exactly when the line holds more than 1 unit. The shown unit price times the quantity is the shown amount. When the unit price is hidden on a line of at least 1 unit, the amount is the unit price. |
| CartPage.ShowShipping | src/pages/Cart.tsx:79-81 | "Free" shows exactly for a zero fee. For any fee that is not negative, exactly one of "Free" and the hint shows. |
| CartPage.ShippingViewMatchesThreshold | src/pages/Cart.tsx:79-81 | "Free" shows exactly when the subtotal is above 5000. The free-shipping hint shows exactly when "Free" does not. |
| Shop.InitialFilters | src/pages/Shop.tsx:20-24 | The page opens sorted newest first. A criterion is set exactly when the URL carries a non-empty category. A product matches exactly when that category is missing or empty or equals the product's category. |
| Shop.Narrow | src/pages/Shop.tsx:27-31 | The four successive conditional filters equal one filter by "every non-empty criterion matches", in catalog order. |
| Shop.ParseSort | src/pages/Shop.tsx:33-38 | Each of `price-asc`, `price-desc` and `best-selling` selects its own order. Every other key, including `newest` and the empty string, takes the default branch: newest first. |
| Shop.SortBy | src/pages/Shop.tsx:33-38 | The sort returns a permutation of its input, ascending by rank. |
| Shop.Query | src/pages/Shop.tsx:26-40 | The listed products are a permutation of the matching products, ascending by the rank the sort key selects. |
| Shop.QueryMembers | src/pages/Shop.tsx:26-40 | A product is listed exactly when it is in the catalog and matches. The list is a permutation of the matching products. |
| Shop.TighterNeverGrows | src/pages/Shop.tsx:28-31 | Setting more criteria, while keeping every criterion already set, narrows to a subsequence of the previous list. So the list never gets longer. |
| Shop.Compare | src/pages/Shop.tsx:34-37 | Every comparator is the difference of two ranks, so it is a consistent ordering. |
| Shop.SortByFacts | src/pages/Shop.tsx:33-38 | The sort's result is a permutation of its input and ascends by rank. Each group of equal rank keeps its input order. |
| Shop.StableSortUnique | src/pages/Shop.tsx:33-38 | Sortedness plus stable rank groups determine the result. So any stable sort with these comparators returns the same list. |
| Shop.PriceAscending | src/pages/Shop.tsx:34 | For `price-asc`, prices never decrease, and products with the same price keep catalog order. |
| Shop.PriceDescending | src/pages/Shop.tsx:35 | For `price-desc`, prices never increase, and products with the same price keep catalog order. |
| Shop.BestSellersFirst | src/pages/Shop.tsx:36 | For `best-selling`, the result is the best sellers in catalog order followed by the others in catalog order. |
| Shop.NewestFirst | src/pages/Shop.tsx:37 | For every other sort key, creation times never increase, and ties keep catalog order. |
| Shop.HasFilters | src/pages/Shop.tsx:50 | `hasFilters` holds exactly when some product fails to match. |
| Shop.ClearFilters | src/pages/Shop.tsx:42-46 | After clearing, no criterion is set, every product matches and the sort key is unchanged. |
| Shop.ClearFiltersShowsAll | src/pages/Shop.tsx:42-48 | After `clearFilters` the filtering keeps the whole catalog, and the list is a permutation of it. |
| ProductCard.Discount | src/components/ProductCard.tsx:10-12 | With no original price, or an original price of 0, the discount is 0. Otherwise it is `100(o - p)/o` rounded to the nearest integer, halves up, for either sign of `o`. |
| ProductCard.DiscountIsPercentage | src/components/ProductCard.tsx:10-12 | If `o > 0` and `0 <= price <= o`, the discount lies in 0..100. It is 0 when the two prices are equal. |
| ProductCard.DiscountSign | src/components/ProductCard.tsx:10-12 | For `o > 0`, the discount is positive exactly when `price` is at least 0.5% below `o`, and negative exactly when it is more than 0.5% above `o`. A price at or above `o` never gives a positive discount. |
| ProductCard.ShowsBadge | src/components/ProductCard.tsx:37 | With no original price, or an original price of 0, no badge shows. For `o > 0`, the badge shows exactly when `price` is at least 0.5% below `o`. |
| ProductCard.DiscountExamples | src/pages/ProductDetail.tsx:29 | Price 800 with original price 1000 gives 20. No original price gives 0. Price 1250 with original price 1000 gives -25, and the card shows no badge for it. |
| ProductCard.AddOne | src/components/ProductCard.tsx:16 | After the card's add the product is in the cart. It is on a new last line holding 1 unit exactly when it had no line. Otherwise the line count is unchanged. |
| ProductCard.AddOneAddsOneUnit | src/components/ProductCard.tsx:14-18 | The card's button adds exactly one unit and keeps the cart invariant. |
| ProductDetail.SlugIndex | src/pages/ProductDetail.tsx:14 | Returns the position of the first product with the slug. Returns none exactly when no product has it. |
| ProductDetail.FindBySlug | src/pages/ProductDetail.tsx:14 | Finds nothing exactly when no product has the slug. Otherwise it finds the first product with that slug, which is in the catalog. |
| ProductDetail.ShowDetail | src/pages/ProductDetail.tsx:14-29 | Shows "not found" exactly when no product has the slug. Otherwise it shows the first product with that slug, which is not among its related products, and that product's discount. |
| ProductDetail.DetailShowsNegativeDiscount | src/pages/ProductDetail.tsx:29 | A product priced 1250 against an original price of 1000 shows a discount of -25 on its page. |
| ProductDetail.Related | src/pages/ProductDetail.tsx:28 | At most 4 related products, all in the same category and none with the product's id. |
| ProductDetail.RelatedFacts | src/pages/ProductDetail.tsx:28 | The related list is a subsequence of the catalog and never holds the product. It has 4 entries whenever 4 qualify. It includes every qualifying product that fewer than 4 qualifying products precede. |
| ProductDetail.Stepper | src/pages/ProductDetail.tsx:82-84 | From the start value 1 (line 16), any sequence of presses leaves the quantity between 1 and 1 + the number of presses. |
| ProductDetail.StepperBounds | src/pages/ProductDetail.tsx:82-84 | The quantity after any sequence of presses is at least 1 + pluses − minuses, and within the bounds `Stepper` states. |
| ProductDetail.HandleAdd | src/pages/ProductDetail.tsx:31-34 | After the add the product is in the cart. It is on a new last line holding the shown quantity exactly when it had no line. Otherwise the line count is unchanged. |
| ProductDetail.HandleAddAddsShownQuantity | src/pages/ProductDetail.tsx:31-34 | Adding from the detail page adds exactly the shown quantity, which is at least 1 unit, and keeps the cart invariant. |
| Home.Featured | src/pages/Index.tsx:15 | At most 8 products, all flagged featured. |
| Home.FeaturedFacts | src/pages/Index.tsx:15 | The strip is a subsequence of the catalog. With 8 or more featured products it holds the first 8 of them. With fewer it holds all of them. |
| Contact.TrimStart | src/pages/Contact.tsx:11 | The result is a suffix of the input that starts with a kept character. Everything cut off is whitespace. |
| Contact.TrimEnd | src/pages/Contact.tsx:11 | The result is a prefix of the input that ends with a kept character. Everything cut off is whitespace. |
| Contact.Trim | src/pages/Contact.tsx:11 | `trim` gives the empty string exactly for strings made only of whitespace. A non-empty result starts and ends with a kept character. |
| Contact.HandleSubmit | src/pages/Contact.tsx:9-17 | Accepts exactly when name, phone and message are all non-blank. A rejection leaves the form unchanged. An acceptance resets all four fields to empty. |
| Contact.EmailNeverDecides | src/pages/Contact.tsx:11 | Changing the email never changes whether a submission is accepted. |
| Contact.ResubmitRejected | src/pages/Contact.tsx:11-16 | Submitting the form the handler leaves behind is always rejected. After a success the name is empty. After a rejection the form is unchanged and fails again. |

## Left out

- Rendering: JSX, `framer-motion` animations, CSS classes and `toLocaleString` formatting. The only display decisions modelled are the visibility conditions in the table above.
- Routing: `useParams`, `useSearchParams`, `setSearchParams` and `Link`. The slug and the initial category are plain inputs. The URL reset inside `clearFilters` is not modelled.
- React machinery: state hooks, `useMemo` and `useCallback`. Each cart operation is a pure transition from one list of lines to the next.
- The exception `useCart` throws outside its provider. It is a wiring error with no cart semantics.
- Side effects: `toast` notifications, scroll-to-top and the no-op checkout button.
- Floating point. The source computes GST and the discount in IEEE doubles, and `0.18` is not exactly representable. The model rounds the exact rational value. The two can differ only where the exact value is a half-integer.
- Floating point in the discount formula. The source divides first and multiplies by 100 afterwards. The model uses exact arithmetic.
- Size limits on sums. Quantities, prices and sums are unbounded integers. JavaScript numbers are exact only up to 2^53, and non-integer quantities are not modelled; every caller passes integers.
- Dates. `createdAt` is an integer timestamp. Parsing through `new Date(...)`, including invalid dates that compare as `NaN`, is not modelled.
- The catalog data module (`@/data/products`) is not part of this model. The catalog is an arbitrary sequence. Product fields the logic never reads (name, rating, images, specifications) are not modelled.
- Contact form limits. The `maxLength` limits (100, 15, 255 and 1000 characters) are enforced by the browser. They appear as the precondition `Contact.WithinLimits` of `Contact.HandleSubmit`.
- Header, About, Services and Footer. They contain no logic beyond presentation.
