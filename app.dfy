/** The `App` component's cart bookkeeping: the menu and cart state cells as
    fields of an object, the two handlers as methods that replace them, and
    the seed menu the page starts from. */
module App {
  import opened Entities
  import opened Menu
  import opened Cart
  import opened Ordering

  /** The menu the page starts with: four items with distinct ids, stock
      and prices none of them negative. */
  function SeedMenu(): (r: seq<MenuItem>)
    ensures |r| == 4 && UniqueIds(r) && StockNonNegative(r)
    ensures forall i :: 0 <= i < |r| ==> r[i].price >= 0
  {
    [ MenuItem(1, "Hamburguesa de Pollo", 40, "Hamburguesa de pollo frito - ... y mayones", 24, "cb.jpg"),
      MenuItem(2, "Hamburguesa de Carne", 20, "Hamburguesa de carne con queso y tomate", 30, "vb.jpg"),
      MenuItem(3, "Helado", 30, "Cono de helado", 28, "ic.jpg"),
      MenuItem(4, "Patatas fritas", 100, "Patatas fritas con salsa verde", 123, "chips.jpg") ]
  }

  class FoodApp {
    var menuItems: seq<MenuItem>
    var cartItems: seq<CartItem>

    ghost function Current(): State
      reads this
    {
      State(menuItems, cartItems)
    }

    ghost predicate Valid()
      reads this
    {
      Consistent(Current()) && CartOnMenu(Current()) && PricesNonNegative(Current())
    }

    constructor ()
      ensures Valid()
      ensures menuItems == SeedMenu() && cartItems == []
    {
      menuItems := SeedMenu();
      cartItems := [];
    }

    /** `orderFood`: two early returns for a rejected quantity, then the two
        state updates. The record comes from the menu, as the page selects
        it there, but its stock count may be out of date. When it shows the
        current stock, every id keeps its stock plus cart quantity. */
    method OrderFood(food: MenuItem, quantity: int)
      requires Valid() && FromMenu(menuItems, food)
      modifies this
      ensures Valid()
      ensures Current() == Ordering.OrderFood(old(Current()), food, quantity)
      ensures SnapshotCurrent(old(Current()), food) ==>
                forall x :: Held(Current(), x) == Held(old(Current()), x)
      ensures CartTotal(cartItems) >= 0
    {
      OrderFoodConsistent(Current(), food, quantity);
      FromMenuInMenu(menuItems, food);
      OrderFoodCartOnMenu(Current(), food, quantity);
      OrderFoodPrices(Current(), food, quantity);
      CartTotalNonNegative(Ordering.OrderFood(Current(), food, quantity));
      if SnapshotCurrent(Current(), food) {
        OrderFoodConserves(Current(), food, quantity);
      }
      if quantity <= 0 {
        return;
      }
      if quantity > food.quantity {
        return;
      }
      menuItems := DecrementStock(menuItems, food.id, quantity);
      cartItems := UpsertLine(cartItems, food, quantity);
    }

    /** `handleRemoveFromCart`: an early return when the cart has no line for
        `id`, then the stock restore and the line removal. Every id keeps its
        stock plus cart quantity. */
    method HandleRemoveFromCart(id: int)
      requires Valid()
      modifies this
      ensures Valid()
      ensures Current() == RemoveFromCart(old(Current()), id)
      ensures forall x :: Held(Current(), x) == Held(old(Current()), x)
      ensures CartTotal(cartItems) >= 0
    {
      RemoveFromCartConsistent(Current(), id);
      RemoveFromCartCartOnMenu(Current(), id);
      RemoveFromCartPrices(Current(), id);
      CartTotalNonNegative(RemoveFromCart(Current(), id));
      RemoveFromCartConserves(Current(), id);
      var removed := FindLine(cartItems, id);
      if removed.None? {
        return;
      }
      menuItems := RestoreStock(menuItems, id, removed.value.quantity);
      cartItems := RemoveLine(cartItems, id);
    }
  }

  /** The seed menu satisfies the invariant the handlers keep. */
  lemma SeedConsistent()
    ensures Consistent(State(SeedMenu(), []))
    ensures CartOnMenu(State(SeedMenu(), []))
    ensures PricesNonNegative(State(SeedMenu(), []))
  {
  }

  /** Ordering 5 of item 1 from the seed leaves 35 in stock and one cart line
      of 5 worth 120; ordering 50 more is rejected; removing the line brings
      the page back to the seed. */
  lemma SeedScenario()
    ensures var s0 := State(SeedMenu(), []);
            var s1 := Ordering.OrderFood(s0, SeedMenu()[0], 5);
            && s1.menuItems[0].quantity == 35
            && s1.cartItems == [CartItem(1, "Hamburguesa de Pollo", 24, 5)]
            && CartTotal(s1.cartItems) == 120
            && Ordering.OrderFood(s1, s1.menuItems[0], 50) == s1
            && RemoveFromCart(s1, 1) == s0
  {
  }

  /** The stock check reads the record the order is placed from, and the
      page keeps passing the record selected before the first order. With
      that stale record a second order of 40 passes the check although only
      35 are left: the clamp keeps the stock at 0, but the page now holds 45
      units of an item it had 40 of. */
  lemma StaleSnapshotOverdraws()
    ensures var s0 := State(SeedMenu(), []);
            var food := SeedMenu()[0];
            var s1 := Ordering.OrderFood(s0, food, 5);
            var s2 := Ordering.OrderFood(s1, food, 40);
            && !SnapshotCurrent(s1, food)
            && s2.menuItems[0].quantity == 0
            && s2.cartItems == [CartItem(1, "Hamburguesa de Pollo", 24, 45)]
            && Held(s0, 1) == 40
            && Held(s2, 1) == 45
  {
  }

  /** The stale record of the flow above is still a menu entry up to its
      stock count, and the cart it leaves refers only to items on the menu. */
  lemma StaleRecordStaysOnMenu()
    ensures var s0 := State(SeedMenu(), []);
            var food := SeedMenu()[0];
            var s1 := Ordering.OrderFood(s0, food, 5);
            && FromMenu(s1.menuItems, food)
            && CartOnMenu(Ordering.OrderFood(s1, food, 40))
  {
    var s0 := State(SeedMenu(), []);
    var food := SeedMenu()[0];
    var s1 := Ordering.OrderFood(s0, food, 5);
    SeedConsistent();
    assert FromMenu(SeedMenu(), food) by {
      assert SeedMenu()[0] == food.(quantity := SeedMenu()[0].quantity);
    }
    FromMenuInMenu(SeedMenu(), food);
    OrderFoodCartOnMenu(s0, food, 5);
    assert FromMenu(s1.menuItems, food) by {
      assert s1.menuItems[0] == food.(quantity := s1.menuItems[0].quantity);
    }
    FromMenuInMenu(s1.menuItems, food);
    OrderFoodCartOnMenu(s1, food, 40);
  }
}
