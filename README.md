# Cart and stock bookkeeping of the fast-food ordering page

This project models, in Dafny, the client-side bookkeeping of the ordering page in
`src/App.tsx`: a menu of items with stock counts and a shopping cart aggregated by
menu item id. Two handlers change them. `orderFood` validates a requested quantity,
lowers the item's stock and upserts a cart line. `handleRemoveFromCart` puts a whole
cart line back into stock and deletes the line. `cartTotal` folds the cart into a
price.

Layout:

- `entities.dfy` (module `Entities`): the `MenuItem` and `CartItem` records, `Option`.
- `menu.dfy` (module `Menu`): the two `map` updates of the menu's stock
  (`DecrementStock`, `RestoreStock`), the stock held under an id (`StockOf`) and
  how the updates change it.
- `cart.dfy` (module `Cart`): `find` (`FindLine`), the upsert (`AddToLine`,
  `UpsertLine`), `filter` (`RemoveLine`), the cart quantity of an id (`CartQtyOf`),
  and the `reduce` behind the total (`TotalFrom`, `CartTotal`) with an independent
  sum (`LineSum`) it is proved equal to.
- `ordering.dfy` (module `Ordering`): the page state (`State`: the `menuItems` and
  `cartItems` cells), the two handlers as state transitions (`OrderFood`,
  `RemoveFromCart`), the invariant they keep (`Consistent`: unique menu ids, no
  negative stock, one positive cart line per id), the record an order may be
  placed from (`FromMenu`: a menu entry, possibly with a stale stock count),
  non-negative prices and every cart line on the menu, conservation of stock plus cart
  quantity (`Held`), the order-then-remove round trip, and the effect on the total.
- `app.dfy` (module `App`): the seed menu, a `FoodApp` class whose two `seq`
  fields are the two state cells and whose methods replace them as the handlers do
  (early returns included), and concrete scenarios on the seed menu.

The stock check of `orderFood` compares the quantity with `food.quantity`, the
stock shown by the record the caller passes in, and not with the current menu
entry. The page passes the record it selected earlier and does not refresh it
after an order. The model follows the code. Non-negative stock holds whatever the
record says, because the decrement is clamped at 0. Conservation of stock plus cart
quantity is proved only when the record shows the current stock
(`Ordering.SnapshotCurrent`); `App.StaleSnapshotOverdraws` shows that with a stale
record a second order of 40 units is accepted when only 35 remain, leaving 45 units
held of an item the page had 40 of.

## Model

| member | source | states |
|---|---|---|
| Menu.DecrementStock | src/App.tsx:101-105 | the menu keeps its length and order; each entry with the ordered id has stock max(0, old - quantity), every other entry is unchanged |
| Menu.RestoreStock | src/App.tsx:133-135 | the menu keeps its length and order; each entry with the removed id has its stock raised by the line's quantity, every other entry is unchanged |
| Menu.StockOfEntry | src/App.tsx:22-55 | with unique menu ids, the stock held under an entry's id is that entry's count |
| Menu.DecrementStockOf | src/App.tsx:101-105 | with unique ids and a quantity within the stock of the id, the stock of that id falls by exactly the quantity and every other id's stock is unchanged |
| Menu.RestoreStockOf | src/App.tsx:133-135 | with unique ids, the stock of the removed id rises by the amount when the id is on the menu, and no other id's stock changes |
| Cart.FindLine | src/App.tsx:109 | finds nothing exactly when no line carries the id; otherwise returns the first line that carries it |
| Cart.FindLineDistinct | src/App.tsx:127 | with one line per id, the lookup returns the line carrying the id |
| Cart.AddToLine | src/App.tsx:111 | every line with the id gains the quantity, all other lines are unchanged, length and order kept |
| Cart.UpsertLine | src/App.tsx:108-114 | with a line for the id, only that line's quantity grows and the cart keeps its length and order; without one, the new line {id, name, price, quantity} is appended at the end |
| Cart.RemoveLine | src/App.tsx:137 | the result is no longer than the cart and no line of it carries the removed id |
| Cart.RemoveLineMembers | src/App.tsx:137 | the result holds exactly the lines whose id differs from the removed one |
| Cart.RemoveLineAt | src/App.tsx:137 | with one line per id, removal deletes exactly that line and keeps the others in order |
| Cart.RemoveAbsent | src/App.tsx:137 | filtering an id no line carries leaves the cart as it was |
| Cart.RemoveLineWellFormed | src/App.tsx:137 | removal keeps cart ids pairwise distinct and every quantity positive |
| Cart.UpsertLineWellFormed | src/App.tsx:108-114 | an upsert of a positive quantity keeps cart ids pairwise distinct and every quantity positive |
| Cart.UpsertLineQty | src/App.tsx:108-114 | with one line per id, the cart quantity of the ordered id grows by the quantity and no other id's quantity changes |
| Cart.AddToLineQty | src/App.tsx:111 | with one line per id, adding to the line for an id present in the cart raises that id's cart quantity by the amount and no other |
| Cart.RemoveLineQty | src/App.tsx:137 | after removal the cart quantity of the removed id is 0 and every other id's is unchanged |
| Cart.CartQtyOfLine | src/App.tsx:127 | with one line per id, the cart quantity of an id is its line's quantity |
| Cart.TotalFrom | src/App.tsx:140 | the fold from any starting sum adds the sum of price times quantity over the lines to it |
| Cart.CartTotal | src/App.tsx:140 | the total is the sum of price times quantity over the lines, and 0 for an empty cart |
| Cart.LineSumAppend | src/App.tsx:140 | the sum over two cart segments is the sum of their sums |
| Cart.LineSumNonNegative | src/App.tsx:140 | with non-negative prices and quantities the total is non-negative |
| Cart.UpsertLineSum | src/App.tsx:108-114 | with one line per id, an upsert raises the total by the receiving line's price (the food's price for a new line) times the quantity |
| Cart.AddToLineSum | src/App.tsx:111 | with one line per id, growing the line for an id raises the total by that line's price times the amount |
| Cart.RemoveLineSum | src/App.tsx:137 | with one line per id, removing a line lowers the total by that line's price times its quantity |
| Ordering.OrderFood | src/App.tsx:87-117 | a quantity <= 0 or above the record's stock leaves menu and cart unchanged; otherwise only the ordered item's stock changes, to max(0, old - quantity), the menu keeps length and order, and the cart line for the id grows by the quantity or a new line is appended; stock never turns negative |
| Ordering.RemoveFromCart | src/App.tsx:125-138 | without a line for the id nothing changes; otherwise the found line's whole quantity is added to that item's stock, other menu entries are unchanged, and the cart keeps exactly the lines of other ids; stock never turns negative |
| Ordering.RemoveFromCartAt | src/App.tsx:133-137 | with one line per id, removal restores exactly the line's quantity and deletes exactly that line, keeping the other lines in order |
| Ordering.OrderFoodConsistent | src/App.tsx:100-114 | an order keeps menu ids unique, stock non-negative, cart ids distinct and cart quantities positive |
| Ordering.RemoveFromCartConsistent | src/App.tsx:133-137 | a removal keeps menu ids unique, stock non-negative, cart ids distinct and cart quantities positive |
| Ordering.OrderFoodConserves | src/App.tsx:95-114 | when the record shows the current stock, for every id stock plus cart quantity is the same after the order |
| Ordering.RemoveFromCartConserves | src/App.tsx:125-137 | when the removed item is on the menu, for every id stock plus cart quantity is the same after the removal |
| Ordering.OrderFoodCartOnMenu | src/App.tsx:108-114 | an order for an item on the menu, from a current or a stale record, only adds cart lines for items on the menu |
| Ordering.RemoveFromCartCartOnMenu | src/App.tsx:137 | a removal keeps every cart line referring to an item on the menu |
| Ordering.OrderThenRemoveRestores | src/App.tsx:87-138 | ordering an item not yet in the cart from a current record, then removing its line, gives back the exact state before the order |
| Ordering.OrderFoodTotal | src/App.tsx:140 | after an order the total rises by the receiving line's price times the quantity when accepted, and is unchanged when rejected |
| Ordering.FromMenuInMenu | src/App.tsx:178-181 | a record selected from the menu, whatever its stock count, carries an id on the menu |
| Ordering.OrderFoodPrices | src/App.tsx:108-114 | an order placed from a record taken from the menu keeps every menu and cart price non-negative |
| Ordering.RemoveFromCartPrices | src/App.tsx:133-137 | a removal keeps every menu and cart price non-negative |
| Ordering.CartTotalNonNegative | src/App.tsx:140 | in a consistent state with non-negative prices the cart total is not negative |
| Ordering.RemoveFromCartTotal | src/App.tsx:140 | after a removal the total falls by the removed line's price times its quantity, and is unchanged when there was no line |
| App.SeedMenu | src/App.tsx:22-55 | the seed menu has four items with distinct ids and no negative stock or price |
| App.FoodApp.constructor | src/App.tsx:22-60 | the page starts with the seed menu and an empty cart, and the invariant holds |
| App.FoodApp.OrderFood | src/App.tsx:87-117 | for a record selected from the menu, possibly with a stale count, the two state cells become exactly the order transition of the old ones, the invariant (including every cart line on the menu and no negative price) is kept, the total stays non-negative, and stock plus cart quantity is conserved when the record is current |
| App.FoodApp.HandleRemoveFromCart | src/App.tsx:125-138 | the two state cells become exactly the removal transition of the old ones, the invariant is kept, the total stays non-negative, and stock plus cart quantity is conserved for every id |
| App.SeedConsistent | src/App.tsx:22-55 | the seed menu with an empty cart satisfies the invariant, every cart line is on the menu and no price is negative |
| App.SeedScenario | src/App.tsx:22-55 | ordering 5 of item 1 leaves 35 in stock and one line of 5 worth 120; ordering 50 more is rejected; removing line 1 restores the seed state |
| App.StaleSnapshotOverdraws | src/App.tsx:95-98 | with the record selected before the first order, an order of 40 is accepted with 35 left: stock clamps to 0 and 45 units are held of an item the page had 40 of |
| App.StaleRecordStaysOnMenu | src/App.tsx:178-181 | in that stale flow the record is still a menu entry up to its stock count, and after the second order every cart line refers to an item on the menu |

## Left out

- The orders feed: the subscription in the mount effect (src/App.tsx:66-84) and the status patch and delete calls (src/App.tsx:234, 243) go to an external backend SDK, asynchronously and fire-and-forget; that SDK is not part of this model.
- `src/components/ErrorBoundary.tsx`: a rendering guard with no data logic.
- Rendering, the page toggle, item selection and return to the menu (`selectedFood`, `handleReturnToMenu`), lazy loading and `Suspense`: user interface only. The selected record appears in the model only as the `food` argument of an order.
- Logging: side-channel output with no effect on state; the two rejection branches of an order are kept as two early returns.
- JavaScript numbers: prices, stock and quantities are unbounded integers. NaN, infinities and fractional quantities (which the source accepts when positive and finite) are not modelled; `Number.isFinite` is always true of an integer, so the validity check becomes `quantity <= 0`.
- React scheduling: each handler runs to completion on the current state. The source's remove handler reads the cart from the last render rather than through a functional update; the difference only shows when two events arrive before a re-render, which is not modelled.
- Ordering.OrderFoodConserves: conservation is proved only when the order's record shows the current stock, because with a stale record the source itself does not conserve stock (see App.StaleSnapshotOverdraws).
- The `Foods` list and `FoodOrder` form components, which pass the selected record back to `orderFood`, are not part of this model. `App.FoodApp.OrderFood` requires what the page's wiring gives (src/App.tsx:178-181): the record is a menu entry whose stock count may be out of date, since the handlers change nothing of an entry but its stock.
- Ordering.RemoveFromCartConserves: conservation is proved only when the removed item is on the menu; otherwise the source drops the line without restoring any stock.
