# Cart state of the Senorito shop front, in Dafny

This project models the cart module of a small browser shop front
(`js/cart.js`). The page keeps the cart in local storage under one fixed key.
Every user action loads the cart, changes it and stores it back. With the
storage and the DOM taken away, each action is a pure function from the old
cart to the new one, and that is what this project models:

- **add to cart**: if a row with the same product id exists, its quantity
  grows by the incoming quantity. A missing or zero incoming quantity counts
  as 1. Otherwise the product is appended as a new row.
- **change quantity**: the delta is added to the row's quantity and the result
  is floored at 0. A row that reaches 0 is spliced out; otherwise it is updated
  in place. An unknown id changes nothing.
- **remove**: every row with the given id is filtered out.
- **badge count**: the sum of all quantities.
- **cart total**: the sum of unit price times quantity, with a price that
  is not a number counted as 0.

A cart is a `seq<LineItem>` kept in insertion order. `WellFormed` is the
invariant: at most one row per id, and every quantity at least 1. Prices are
integer cents. A stored price that is not a number is kept as its own case,
`NotANumber`: a NaN from parsing becomes `null` once stored as JSON, and the
guard `Number(p) || 0` counts either as 0.

Files:

- `line_items.dfy` (module `LineItems`): the data model, `WellFormed`, and the
  search for a row by id.
- `cart_totals.dfy` (module `CartTotals`): the badge count and the cart total.
  Each has a reference definition and a left-to-right fold like the page's,
  proved to agree. It also holds `QuantityOf`, the units held under one id.
- `cart_store.dfy` (module `CartStore`): add, change quantity and remove, with
  their invariants, frame properties and effects on the aggregates. It also
  covers a session of repeated adds and one worked session.

"Other rows untouched, in their order" is stated as
`RemoveItem(after, id) == RemoveItem(before, id)`: once the changed id is
filtered out, the carts before and after are the same sequence.

Facts about `js/cart.js` that shape the model:

- There is no entry point that sets a quantity outright. A stored quantity
  changes only when an add merges into it (`js/cart.js:30`) or through the
  quantity change (`js/cart.js:105-113`).
- The cart total guards a price that is not a number by counting it as 0 (`js/cart.js:125`).
  The model does the same through `UnitValue`.
- When merging, and when changing a quantity, the code treats a stored
  quantity of 0 or a missing one as 1 (`js/cart.js:30`, `js/cart.js:109`). The
  model keeps that default (`OrOne`), although it never matters on a
  well-formed cart.

## Model

| member | source | states |
|---|---|---|
| LineItems.IndexOf | js/cart.js:28 | The search returns -1 exactly when no row has the id. Otherwise it returns a position holding the id, and no earlier row holds it. |
| CartStore.AddToCart | js/cart.js:26-36 | After an add, the cart always holds the id. A present id keeps the length: only its row changes, to the merged row whose quantity is the old one plus the incoming one. An absent id keeps all old rows as a prefix and appends one new row carrying the item's fields and the defaulted quantity. |
| CartStore.AddToCartPreservesWellFormed | js/cart.js:26-36 | Adding to a well-formed cart keeps ids unique and every quantity at least 1. |
| CartStore.AddToCartFrame | js/cart.js:28-33 | Adding leaves every row of another id unchanged and in the same order. |
| CartStore.AddToCartQuantities | js/cart.js:29-33 | On a well-formed cart, the added id gains exactly the incoming quantity (1 when absent or 0). Every other id keeps its units. |
| CartStore.AddToCartCount | js/cart.js:18-36 | On a well-formed cart, the badge after an add is the old badge plus the incoming quantity. |
| CartStore.AddToCartTotal | js/cart.js:26-36 | On a well-formed cart, the total grows by the incoming quantity times the price it is charged at. That is the existing row's price when merging and the item's own price when appending. |
| CartStore.AddAllQuantities | js/cart.js:133-142 | A sequence of add clicks keeps a well-formed cart well-formed. Each id gains exactly the units requested for it. |
| CartStore.AddAllFromEmpty | js/cart.js:133-142 | Plain adds into an empty cart give a well-formed cart. It holds a row for an id exactly when some add named it, and that row's units equal the number of adds of that id. |
| CartStore.ChangeQty | js/cart.js:105-110 | An id not in the cart leaves the cart unchanged. Otherwise the cart shrinks by at most one row. |
| CartStore.ChangeAtSplice | js/cart.js:109-110 | At a given position, the row is replaced by what the change leaves there: nothing when max(0, quantity + delta) is 0, otherwise the same row with that quantity. All rows before and after it stay, in order. |
| CartStore.ChangeQtyAtRow | js/cart.js:107-110 | On a present id the first matching row changes, with new quantity max(0, quantity + delta). If that is positive, the row is updated in place and every other position is untouched. If it is 0, the row is spliced out: earlier rows stay where they are and later rows move up by one. |
| CartStore.ChangeQtyPreservesWellFormed | js/cart.js:105-113 | Changing a quantity keeps a well-formed cart well-formed. |
| CartStore.ChangeQtyFrame | js/cart.js:109-110 | Changing a quantity leaves every row of another id unchanged and in the same order. |
| CartStore.ChangeQtyQuantities | js/cart.js:109-110 | On a well-formed cart, the changed id ends with max(0, units + delta) units, or 0 if it was absent. Every other id keeps its units. |
| CartStore.ChangeQtyToZeroRemoves | js/cart.js:109-110 | A delta of minus the full quantity or less removes the row. The result equals removing the id, is one row shorter, and no longer holds the id. |
| CartStore.ChangeQtyCount | js/cart.js:105-113 | On a well-formed cart holding the id, the badge moves by exactly the change in that row's units. |
| CartStore.RemoveItem | js/cart.js:116 | No row with the id remains, and the cart never grows. On an absent id the cart is returned unchanged. |
| CartStore.RemoveItemMembers | js/cart.js:116 | The rows kept are exactly the rows of the cart whose id differs. |
| CartStore.RemoveItemConcat | js/cart.js:116 | Removal distributes over concatenation, so the surviving rows keep their relative order. |
| CartStore.RemoveItemIdempotent | js/cart.js:116 | Removing the same id twice is the same as removing it once. |
| CartStore.RemoveItemPreservesWellFormed | js/cart.js:115-119 | Removing an id from a well-formed cart keeps it well-formed. |
| CartStore.RemoveItemSplice | js/cart.js:116 | On a well-formed cart holding the id, removal splices out exactly the one row at the id's position, so the length drops by one. |
| CartStore.RemoveItemCount | js/cart.js:115-119 | On any cart, removing an id lowers the badge by exactly the units held under that id. |
| CartStore.TomatoSession | js/cart.js:26-36 | Worked session. Adding a 2.50 product to an empty cart gives one row of quantity 1, with badge 1 and total 250 cents. Adding it again gives quantity 2 and a total of 500 cents. A change of -2, through the quantity-change path at lines 105-113, then empties the cart. |
| CartTotals.BadgeCount | js/cart.js:22 | The page's left-to-right fold over quantities returns the reference badge count. |
| CartTotals.CartTotal | js/cart.js:124-127 | The page's left-to-right fold of guarded price times quantity returns the reference total. |
| CartTotals.CountConcat | js/cart.js:22 | The badge count is additive over concatenation of carts. |
| CartTotals.TotalConcat | js/cart.js:124-127 | The cart total is additive over concatenation of carts. |
| CartTotals.AggregatesOfAppend | js/cart.js:124-127 | Both aggregates are 0 for the empty cart. Appending a row adds exactly that row's quantity to the badge and its price times quantity to the total. |
| CartTotals.CountBoundsRows | js/cart.js:22 | When every quantity is at least 1, the badge is at least the number of rows. It is 0 only for the empty cart. |
| CartTotals.QuantityOfRow | js/cart.js:28-30 | In a well-formed cart, the units under an id are the quantity of the row the search finds, or 0 when there is none. They are positive exactly when the id is present. |

## Left out

- Loading and saving the cart (`js/cart.js:5-16`): local storage plus JSON parsing and printing, both foreign calls. The operations take and return the cart directly. So the fail-soft load of an empty cart and the save/reload round trip are not modelled.
- Price formatting (`js/cart.js:38-45`): locale-dependent floating-point formatting done by the browser.
- Rendering the cart page, DOM writes and event wiring (`js/cart.js:47-103`, the DOM parts of `121-130`, and `133-151`): presentation only. This includes the line total shown per row, which, unlike the cart total, does not guard against a NaN price.
- The temporary "added" button label and its timer (`js/cart.js:144-145`): presentation only.
- Parsing the price attribute as a float (`js/cart.js:139`), and floating-point price arithmetic generally: prices are integer cents.
- The `window.SenoritoCart` handle (`js/cart.js:154`): it exposes `getCart`, left out above, and the three modelled operations.
- Malformed stored rows: a stored quantity is a `nat`, so non-numeric, negative or fractional quantities in storage are not modelled. The `|| 1` and `|| 0` defaults are modelled for a zero quantity only.
- Incoming quantities on an add are `Option<nat>`. A negative quantity passed through the exposed handle is not modelled, because it would break the positive-quantity invariant.
- Numbers are unbounded integers. JavaScript numbers stop being exact integers above 2^53, which no cart reaches.
- AddToCartCount: assumes a well-formed cart. On a cart holding a stored row with quantity 0, the code counts that row as 1 when merging, so the badge would grow by one more than the incoming quantity. The same restriction applies to AddToCartQuantities, AddToCartTotal, ChangeQtyQuantities and ChangeQtyCount.
