/** The menu list and the two `map` updates that change its stock counts. */
module Menu {
  import opened Entities

  predicate InMenu(menu: seq<MenuItem>, id: int)
  {
    exists i :: 0 <= i < |menu| && menu[i].id == id
  }

  /** Menu ids identify entries: no two entries share one. */
  predicate UniqueIds(menu: seq<MenuItem>)
  {
    forall i, j :: 0 <= i < j < |menu| ==> menu[i].id != menu[j].id
  }

  predicate StockNonNegative(menu: seq<MenuItem>)
  {
    forall i :: 0 <= i < |menu| ==> menu[i].quantity >= 0
  }

  /** The stock held under `id`: the sum over every entry that carries it. */
  function StockOf(menu: seq<MenuItem>, id: int): int
  {
    if menu == [] then 0
    else (if menu[0].id == id then menu[0].quantity else 0) + StockOf(menu[1..], id)
  }

  /** Taking `qty` units of item `id`: every entry with that id has its stock
      lowered by `qty`, clamped at 0; the list keeps its length and order. */
  function DecrementStock(menu: seq<MenuItem>, id: int, qty: int): (r: seq<MenuItem>)
    ensures |r| == |menu|
    ensures forall i :: 0 <= i < |menu| && menu[i].id != id ==> r[i] == menu[i]
    ensures forall i :: 0 <= i < |menu| && menu[i].id == id ==>
              r[i] == menu[i].(quantity := Max(0, menu[i].quantity - qty))
  {
    if menu == [] then []
    else
      var item := menu[0];
      [if item.id == id then item.(quantity := Max(0, item.quantity - qty)) else item]
        + DecrementStock(menu[1..], id, qty)
  }

  /** Putting `amount` units of item `id` back: every entry with that id has
      its stock raised by `amount`; the list keeps its length and order. */
  function RestoreStock(menu: seq<MenuItem>, id: int, amount: int): (r: seq<MenuItem>)
    ensures |r| == |menu|
    ensures forall i :: 0 <= i < |menu| && menu[i].id != id ==> r[i] == menu[i]
    ensures forall i :: 0 <= i < |menu| && menu[i].id == id ==>
              r[i] == menu[i].(quantity := menu[i].quantity + amount)
  {
    if menu == [] then []
    else
      var item := menu[0];
      [if item.id == id then item.(quantity := item.quantity + amount) else item]
        + RestoreStock(menu[1..], id, amount)
  }

  lemma InMenuCons(menu: seq<MenuItem>, id: int)
    requires menu != []
    ensures InMenu(menu, id) <==> menu[0].id == id || InMenu(menu[1..], id)
  {
    if InMenu(menu, id) && menu[0].id != id {
      var i :| 0 <= i < |menu| && menu[i].id == id;
      assert menu[1..][i - 1] == menu[i];
    }
    if InMenu(menu[1..], id) {
      var i :| 0 <= i < |menu[1..]| && menu[1..][i].id == id;
      assert menu[i + 1] == menu[1..][i];
    }
  }

  lemma TailUnique(menu: seq<MenuItem>)
    requires UniqueIds(menu) && menu != []
    ensures UniqueIds(menu[1..])
  {
    var tail := menu[1..];
    forall i, j | 0 <= i < j < |tail| ensures tail[i].id != tail[j].id {
      assert tail[i] == menu[i + 1] && tail[j] == menu[j + 1];
    }
  }

  lemma HeadNotInTail(menu: seq<MenuItem>)
    requires UniqueIds(menu) && menu != []
    ensures !InMenu(menu[1..], menu[0].id)
  {
    var tail := menu[1..];
    forall i | 0 <= i < |tail| ensures tail[i].id != menu[0].id {
      assert tail[i] == menu[i + 1];
    }
  }

  lemma {:induction false} StockOfAbsent(menu: seq<MenuItem>, id: int)
    requires !InMenu(menu, id)
    ensures StockOf(menu, id) == 0
  {
    if menu != [] {
      InMenuCons(menu, id);
      StockOfAbsent(menu[1..], id);
    }
  }

  /** With unique ids the stock of an id on the menu is that entry's count. */
  lemma {:induction false} StockOfEntry(menu: seq<MenuItem>, k: int)
    requires UniqueIds(menu) && 0 <= k < |menu|
    ensures StockOf(menu, menu[k].id) == menu[k].quantity
  {
    if k == 0 {
      HeadNotInTail(menu);
      StockOfAbsent(menu[1..], menu[0].id);
    } else {
      assert menu[1..][k - 1] == menu[k];
      TailUnique(menu);
      StockOfEntry(menu[1..], k - 1);
    }
  }

  lemma DecrementAbsent(menu: seq<MenuItem>, id: int, qty: int)
    requires !InMenu(menu, id)
    ensures DecrementStock(menu, id, qty) == menu
  {
  }

  lemma RestoreAbsent(menu: seq<MenuItem>, id: int, amount: int)
    requires !InMenu(menu, id)
    ensures RestoreStock(menu, id, amount) == menu
  {
  }

  /** Taking `qty` units, when no more than the stock of `id` (so the clamp
      never bites), lowers the stock of `id` by exactly `qty` and leaves the
      stock of every other id alone. */
  lemma {:induction false} DecrementStockOf(menu: seq<MenuItem>, id: int, qty: int, x: int)
    requires UniqueIds(menu) && 0 <= qty <= StockOf(menu, id)
    ensures StockOf(DecrementStock(menu, id, qty), x)
            == StockOf(menu, x) - (if x == id then qty else 0)
  {
    if menu != [] {
      var tail := menu[1..];
      assert DecrementStock(menu, id, qty)[1..] == DecrementStock(tail, id, qty);
      if menu[0].id == id {
        HeadNotInTail(menu);
        StockOfAbsent(tail, id);
        DecrementAbsent(tail, id, qty);
      } else {
        TailUnique(menu);
        DecrementStockOf(tail, id, qty, x);
      }
    }
  }

  /** Putting `amount` units back raises the stock of `id` by `amount` when
      `id` is on the menu (once, with unique ids) and changes nothing else. */
  lemma {:induction false} RestoreStockOf(menu: seq<MenuItem>, id: int, amount: int, x: int)
    requires UniqueIds(menu)
    ensures StockOf(RestoreStock(menu, id, amount), x)
            == StockOf(menu, x) + (if x == id && InMenu(menu, id) then amount else 0)
  {
    if menu != [] {
      var tail := menu[1..];
      assert RestoreStock(menu, id, amount)[1..] == RestoreStock(tail, id, amount);
      InMenuCons(menu, id);
      if menu[0].id == id {
        HeadNotInTail(menu);
        RestoreAbsent(tail, id, amount);
      } else {
        TailUnique(menu);
        RestoreStockOf(tail, id, amount, x);
      }
    }
  }
}
