/** The two cart handlers of the storefront page as transitions of its state:
    placing an order for a menu item and removing a cart line. */
module Ordering {
  import opened Entities
  import opened Menu
  import opened Cart

  /** The two state cells the handlers replace: the menu and the cart. */
  datatype State = State(menuItems: seq<MenuItem>, cartItems: seq<CartItem>)

  /** The invariant both handlers keep: unique menu ids, no negative stock,
      one non-empty cart line per id. */
  predicate Consistent(s: State)
  {
    UniqueIds(s.menuItems) && StockNonNegative(s.menuItems) && WellFormed(s.cartItems)
  }

  /** Every cart line refers to an item on the menu. */
  predicate CartOnMenu(s: State)
  {
    forall k :: 0 <= k < |s.cartItems| ==> InMenu(s.menuItems, s.cartItems[k].id)
  }

  /** Units of item `x` held by the page: in stock plus in the cart. */
  function Held(s: State, x: int): int
  {
    StockOf(s.menuItems, x) + CartQtyOf(s.cartItems, x)
  }

  /** The record the order was placed from still shows the current stock. */
  predicate SnapshotCurrent(s: State, food: MenuItem)
  {
    food.quantity == StockOf(s.menuItems, food.id)
  }

  /** The record an order is placed from is a menu entry, possibly with an
      out-of-date stock count: the page selects it from the menu and the
      handlers change nothing of an entry but its stock. */
  predicate FromMenu(menu: seq<MenuItem>, food: MenuItem)
  {
    exists i :: 0 <= i < |menu| && menu[i] == food.(quantity := menu[i].quantity)
  }

  /** No price on the menu or in the cart is negative. */
  predicate PricesNonNegative(s: State)
  {
    && (forall i :: 0 <= i < |s.menuItems| ==> s.menuItems[i].price >= 0)
    && (forall k :: 0 <= k < |s.cartItems| ==> s.cartItems[k].price >= 0)
  }

  /** `orderFood(food, quantity)`. A quantity that is not positive, or that
      exceeds the stock shown by the `food` record the caller passes in,
      leaves both cells untouched. Otherwise the stock of `food.id` drops by
      `quantity`, clamped at 0, and the cart line for `food.id` grows by
      `quantity`, or a new line is appended when there is none. */
  function OrderFood(s: State, food: MenuItem, quantity: int): (r: State)
    ensures quantity <= 0 || quantity > food.quantity ==> r == s
    ensures 0 < quantity <= food.quantity ==>
              && |r.menuItems| == |s.menuItems|
              && forall i :: 0 <= i < |s.menuItems| ==>
                   r.menuItems[i] == if s.menuItems[i].id == food.id
                                     then s.menuItems[i].(quantity := Max(0, s.menuItems[i].quantity - quantity))
                                     else s.menuItems[i]
    ensures 0 < quantity <= food.quantity && HasLine(s.cartItems, food.id) ==>
              && |r.cartItems| == |s.cartItems|
              && forall k :: 0 <= k < |s.cartItems| ==>
                   r.cartItems[k] == if s.cartItems[k].id == food.id
                                     then s.cartItems[k].(quantity := s.cartItems[k].quantity + quantity)
                                     else s.cartItems[k]
    ensures 0 < quantity <= food.quantity && !HasLine(s.cartItems, food.id) ==>
              r.cartItems == s.cartItems + [CartItem(food.id, food.name, food.price, quantity)]
    ensures StockNonNegative(s.menuItems) ==> StockNonNegative(r.menuItems)
  {
    if quantity <= 0 then s
    else if quantity > food.quantity then s
    else State(DecrementStock(s.menuItems, food.id, quantity), UpsertLine(s.cartItems, food, quantity))
  }

  /** `handleRemoveFromCart(id)`. Without a cart line for `id` nothing
      changes. Otherwise the whole quantity of the first such line goes back
      to the stock of `id` and every line for `id` leaves the cart. */
  function RemoveFromCart(s: State, id: int): (r: State)
    ensures !HasLine(s.cartItems, id) ==> r == s
    ensures HasLine(s.cartItems, id) ==>
              var removed := FindLine(s.cartItems, id).value;
              && removed in s.cartItems && removed.id == id
              && |r.menuItems| == |s.menuItems|
              && (forall i :: 0 <= i < |s.menuItems| ==>
                   r.menuItems[i] == if s.menuItems[i].id == id
                                     then s.menuItems[i].(quantity := s.menuItems[i].quantity + removed.quantity)
                                     else s.menuItems[i])
              && forall c :: c in r.cartItems <==> c in s.cartItems && c.id != id
    ensures StockNonNegative(s.menuItems) && PositiveQuantities(s.cartItems) ==>
              StockNonNegative(r.menuItems)
  {
    match FindLine(s.cartItems, id)
    case None => s
    case Some(removed) =>
      RemoveLineMembers(s.cartItems, id);
      State(RestoreStock(s.menuItems, id, removed.quantity), RemoveLine(s.cartItems, id))
  }

  /** With one line per id, removing the line at `k` gives back exactly its
      quantity and deletes exactly that line, keeping the others in order. */
  lemma RemoveFromCartAt(s: State, k: int)
    requires DistinctIds(s.cartItems) && 0 <= k < |s.cartItems|
    ensures var line := s.cartItems[k];
            RemoveFromCart(s, line.id)
            == State(RestoreStock(s.menuItems, line.id, line.quantity),
                     s.cartItems[..k] + s.cartItems[k + 1..])
  {
    FindLineDistinct(s.cartItems, k);
    RemoveLineAt(s.cartItems, k);
  }

  lemma OrderFoodConsistent(s: State, food: MenuItem, quantity: int)
    requires Consistent(s)
    ensures Consistent(OrderFood(s, food, quantity))
  {
    if 0 < quantity <= food.quantity {
      UpsertLineWellFormed(s.cartItems, food, quantity);
    }
  }

  lemma RemoveFromCartConsistent(s: State, id: int)
    requires Consistent(s)
    ensures Consistent(RemoveFromCart(s, id))
  {
    RemoveLineWellFormed(s.cartItems, id);
  }

  /** When the record the order was placed from shows the current stock, an
      accepted order moves units from stock into the cart: for every id the
      stock plus the cart quantity stays the same. */
  lemma OrderFoodConserves(s: State, food: MenuItem, quantity: int)
    requires UniqueIds(s.menuItems) && DistinctIds(s.cartItems) && SnapshotCurrent(s, food)
    ensures forall x :: Held(OrderFood(s, food, quantity), x) == Held(s, x)
  {
    if 0 < quantity <= food.quantity {
      forall x ensures Held(OrderFood(s, food, quantity), x) == Held(s, x) {
        DecrementStockOf(s.menuItems, food.id, quantity, x);
        UpsertLineQty(s.cartItems, food, quantity, x);
      }
    }
  }

  /** Removing a line whose item is on the menu moves its units from the
      cart back into stock: for every id the stock plus the cart quantity
      stays the same. */
  lemma RemoveFromCartConserves(s: State, id: int)
    requires UniqueIds(s.menuItems) && DistinctIds(s.cartItems)
    requires HasLine(s.cartItems, id) ==> InMenu(s.menuItems, id)
    ensures forall x :: Held(RemoveFromCart(s, id), x) == Held(s, x)
  {
    if HasLine(s.cartItems, id) {
      var k :| 0 <= k < |s.cartItems| && s.cartItems[k].id == id;
      FindLineDistinct(s.cartItems, k);
      CartQtyOfLine(s.cartItems, k);
      forall x ensures Held(RemoveFromCart(s, id), x) == Held(s, x) {
        RestoreStockOf(s.menuItems, id, s.cartItems[k].quantity, x);
        RemoveLineQty(s.cartItems, id, x);
      }
    }
  }

  /** An order for an item on the menu, placed from a current or a stale
      record, only puts items on the menu into the cart, so that a later
      removal finds its item on the menu. */
  lemma OrderFoodCartOnMenu(s: State, food: MenuItem, quantity: int)
    requires CartOnMenu(s) && InMenu(s.menuItems, food.id)
    ensures CartOnMenu(OrderFood(s, food, quantity))
  {
    if 0 < quantity <= food.quantity {
      var r := OrderFood(s, food, quantity);
      forall k | 0 <= k < |r.cartItems| ensures InMenu(r.menuItems, r.cartItems[k].id) {
        var i: int;
        if k < |s.cartItems| {
          i :| 0 <= i < |s.menuItems| && s.menuItems[i].id == s.cartItems[k].id;
        } else {
          i :| 0 <= i < |s.menuItems| && s.menuItems[i].id == food.id;
        }
        assert r.menuItems[i].id == s.menuItems[i].id;
      }
    }
  }

  lemma RemoveFromCartCartOnMenu(s: State, id: int)
    requires CartOnMenu(s)
    ensures CartOnMenu(RemoveFromCart(s, id))
  {
    var r := RemoveFromCart(s, id);
    if HasLine(s.cartItems, id) {
      forall k | 0 <= k < |r.cartItems| ensures InMenu(r.menuItems, r.cartItems[k].id) {
        assert r.cartItems[k] in s.cartItems;
        var j :| 0 <= j < |s.cartItems| && s.cartItems[j] == r.cartItems[k];
        var i :| 0 <= i < |s.menuItems| && s.menuItems[i].id == s.cartItems[j].id;
        assert r.menuItems[i].id == s.menuItems[i].id;
      }
    }
  }

  /** Ordering an item that is not yet in the cart, from a current record,
      and then removing its line gives back the state before the order. */
  lemma OrderThenRemoveRestores(s: State, food: MenuItem, quantity: int)
    requires Consistent(s) && SnapshotCurrent(s, food) && !HasLine(s.cartItems, food.id)
    ensures RemoveFromCart(OrderFood(s, food, quantity), food.id) == s
  {
    if 0 < quantity <= food.quantity {
      var line := CartItem(food.id, food.name, food.price, quantity);
      var t := OrderFood(s, food, quantity);
      assert t.cartItems == s.cartItems + [line];
      UpsertLineWellFormed(s.cartItems, food, quantity);
      var k := |s.cartItems|;
      assert t.cartItems[k] == line;
      RemoveFromCartAt(t, k);
      assert t.cartItems[..k] + t.cartItems[k + 1..] == s.cartItems;
      var menu := RestoreStock(t.menuItems, food.id, quantity);
      forall i | 0 <= i < |s.menuItems| ensures menu[i] == s.menuItems[i] {
        if s.menuItems[i].id == food.id {
          StockOfEntry(s.menuItems, i);
        }
      }
    } else {
      assert !HasLine(OrderFood(s, food, quantity).cartItems, food.id);
    }
  }

  /** With one line per id, an accepted order raises the cart total by the
      price of the line that receives the units times the quantity ordered. */
  lemma OrderFoodTotal(s: State, food: MenuItem, quantity: int)
    requires DistinctIds(s.cartItems)
    ensures CartTotal(OrderFood(s, food, quantity).cartItems)
            == CartTotal(s.cartItems)
               + (if 0 < quantity <= food.quantity
                  then (match FindLine(s.cartItems, food.id)
                        case Some(line) => line.price
                        case None => food.price) * quantity
                  else 0)
  {
    if 0 < quantity <= food.quantity {
      UpsertLineSum(s.cartItems, food, quantity);
    }
  }

  /** With one line per id, removing a line lowers the cart total by that
      line's price times its quantity. */
  lemma RemoveFromCartTotal(s: State, id: int)
    requires DistinctIds(s.cartItems)
    ensures CartTotal(RemoveFromCart(s, id).cartItems)
            == CartTotal(s.cartItems)
               - (match FindLine(s.cartItems, id)
                  case Some(line) => LineTotal(line)
                  case None => 0)
  {
    if HasLine(s.cartItems, id) {
      var k :| 0 <= k < |s.cartItems| && s.cartItems[k].id == id;
      FindLineDistinct(s.cartItems, k);
      RemoveLineSum(s.cartItems, k);
    }
  }

  /** A record taken from the menu carries an id on the menu. */
  lemma FromMenuInMenu(menu: seq<MenuItem>, food: MenuItem)
    requires FromMenu(menu, food)
    ensures InMenu(menu, food.id)
  {
    var i :| 0 <= i < |menu| && menu[i] == food.(quantity := menu[i].quantity);
    assert menu[i].id == food.id;
  }

  /** An order placed from a record taken from the menu keeps every price
      non-negative: a new line copies a menu price. */
  lemma OrderFoodPrices(s: State, food: MenuItem, quantity: int)
    requires PricesNonNegative(s) && FromMenu(s.menuItems, food)
    ensures PricesNonNegative(OrderFood(s, food, quantity))
  {
    var i :| 0 <= i < |s.menuItems| && s.menuItems[i] == food.(quantity := s.menuItems[i].quantity);
    assert food.price == s.menuItems[i].price;
  }

  /** A removal keeps every price non-negative. */
  lemma RemoveFromCartPrices(s: State, id: int)
    requires PricesNonNegative(s)
    ensures PricesNonNegative(RemoveFromCart(s, id))
  {
    var r := RemoveFromCart(s, id);
    forall k | 0 <= k < |r.cartItems| ensures r.cartItems[k].price >= 0 {
      assert r.cartItems[k] in s.cartItems;
    }
  }

  /** In a consistent state with non-negative prices the cart total is never
      negative. */
  lemma CartTotalNonNegative(s: State)
    requires Consistent(s) && PricesNonNegative(s)
    ensures CartTotal(s.cartItems) >= 0
  {
    LineSumNonNegative(s.cartItems);
  }
}
