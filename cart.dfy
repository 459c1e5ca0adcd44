/** The cart list: the `find`, `map`, append and `filter` updates the cart
    handlers apply to it, and the `reduce` that prices it.
    `HasLine`, `DistinctIds` and `CartQtyOf` and their helper lemmas have the
    same shape as `InMenu`, `UniqueIds` and `StockOf` in module `Menu`, on
    purpose: the source keeps the two lists as separate record types updated
    by separate code, and each module follows one of them. */
module Cart {
  import opened Entities

  predicate HasLine(cart: seq<CartItem>, id: int)
  {
    exists k :: 0 <= k < |cart| && cart[k].id == id
  }

  /** The cart holds at most one line per menu item id. */
  predicate DistinctIds(cart: seq<CartItem>)
  {
    forall i, j :: 0 <= i < j < |cart| ==> cart[i].id != cart[j].id
  }

  predicate PositiveQuantities(cart: seq<CartItem>)
  {
    forall k :: 0 <= k < |cart| ==> cart[k].quantity > 0
  }

  /** The invariant the cart handlers keep: one line per id, none empty. */
  predicate WellFormed(cart: seq<CartItem>)
  {
    DistinctIds(cart) && PositiveQuantities(cart)
  }

  lemma HasLineCons(cart: seq<CartItem>, id: int)
    requires cart != []
    ensures HasLine(cart, id) <==> cart[0].id == id || HasLine(cart[1..], id)
  {
    if HasLine(cart, id) && cart[0].id != id {
      var k :| 0 <= k < |cart| && cart[k].id == id;
      assert cart[1..][k - 1] == cart[k];
    }
    if HasLine(cart[1..], id) {
      var k :| 0 <= k < |cart[1..]| && cart[1..][k].id == id;
      assert cart[k + 1] == cart[1..][k];
    }
  }

  lemma TailDistinct(cart: seq<CartItem>)
    requires DistinctIds(cart) && cart != []
    ensures DistinctIds(cart[1..])
  {
    var tail := cart[1..];
    forall i, j | 0 <= i < j < |tail| ensures tail[i].id != tail[j].id {
      assert tail[i] == cart[i + 1] && tail[j] == cart[j + 1];
    }
  }

  lemma HeadNotInTail(cart: seq<CartItem>)
    requires DistinctIds(cart) && cart != []
    ensures !HasLine(cart[1..], cart[0].id)
  {
    var tail := cart[1..];
    forall j | 0 <= j < |tail| ensures tail[j].id != cart[0].id {
      assert tail[j] == cart[j + 1];
    }
  }

  /** `find`: the first line carrying `id`, if any. */
  function FindLine(cart: seq<CartItem>, id: int): (r: Option<CartItem>)
    ensures r.None? <==> !HasLine(cart, id)
    ensures r.Some? ==> exists k :: 0 <= k < |cart| && cart[k] == r.value && cart[k].id == id
                                    && forall j :: 0 <= j < k ==> cart[j].id != id
  {
    if cart == [] then None
    else if cart[0].id == id then Some(cart[0])
    else
      var r := FindLine(cart[1..], id);
      HasLineCons(cart, id);
      assert r.Some? ==> exists k :: 0 <= k < |cart| && cart[k] == r.value && cart[k].id == id
                                    && forall j :: 0 <= j < k ==> cart[j].id != id by {
        if r.Some? {
          var k :| 0 <= k < |cart[1..]| && cart[1..][k] == r.value && cart[1..][k].id == id
                   && forall j :: 0 <= j < k ==> cart[1..][j].id != id;
          assert cart[k + 1] == r.value;
          forall j | 0 <= j < k + 1 ensures cart[j].id != id {
            if j > 0 { assert cart[j] == cart[1..][j - 1]; }
          }
        }
      }
      r
  }

  /** With one line per id, `find` returns the line that carries the id. */
  lemma FindLineDistinct(cart: seq<CartItem>, k: int)
    requires DistinctIds(cart) && 0 <= k < |cart|
    ensures FindLine(cart, cart[k].id) == Some(cart[k])
  {
    var r := FindLine(cart, cart[k].id);
    var k' :| 0 <= k' < |cart| && cart[k'] == r.value && cart[k'].id == cart[k].id
              && forall j :: 0 <= j < k' ==> cart[j].id != cart[k].id;
  }

  /** `map` over the cart adding `qty` to every line carrying `id`. */
  function AddToLine(cart: seq<CartItem>, id: int, qty: int): (r: seq<CartItem>)
    ensures |r| == |cart|
    ensures forall k :: 0 <= k < |cart| && cart[k].id != id ==> r[k] == cart[k]
    ensures forall k :: 0 <= k < |cart| && cart[k].id == id ==>
              r[k] == cart[k].(quantity := cart[k].quantity + qty)
  {
    if cart == [] then []
    else
      var line := cart[0];
      [if line.id == id then line.(quantity := line.quantity + qty) else line]
        + AddToLine(cart[1..], id, qty)
  }

  /** The cart upsert of an accepted order: the line for `food.id` grows by
      `qty`, or a new line is appended at the end when there is none. */
  function UpsertLine(cart: seq<CartItem>, food: MenuItem, qty: int): (r: seq<CartItem>)
    ensures HasLine(cart, food.id) ==> |r| == |cart|
    ensures HasLine(cart, food.id) ==>
              forall k :: 0 <= k < |cart| ==>
                r[k] == if cart[k].id == food.id then cart[k].(quantity := cart[k].quantity + qty)
                        else cart[k]
    ensures !HasLine(cart, food.id) ==> r == cart + [CartItem(food.id, food.name, food.price, qty)]
  {
    if FindLine(cart, food.id).Some? then AddToLine(cart, food.id, qty)
    else cart + [CartItem(food.id, food.name, food.price, qty)]
  }

  /** `filter`: every line not carrying `id`, in their original order. */
  function RemoveLine(cart: seq<CartItem>, id: int): (r: seq<CartItem>)
    ensures |r| <= |cart|
    ensures forall k :: 0 <= k < |r| ==> r[k].id != id
  {
    if cart == [] then []
    else if cart[0].id == id then RemoveLine(cart[1..], id)
    else [cart[0]] + RemoveLine(cart[1..], id)
  }

  /** The filter keeps exactly the lines whose id differs from `id`. */
  lemma {:induction false} RemoveLineMembers(cart: seq<CartItem>, id: int)
    ensures forall c :: c in RemoveLine(cart, id) <==> c in cart && c.id != id
  {
    if cart != [] {
      RemoveLineMembers(cart[1..], id);
      assert forall c :: c in cart <==> c == cart[0] || c in cart[1..];
    }
  }

  /** With one line per id, removing the line at `k` deletes exactly that
      line and keeps the others in order. */
  lemma {:induction false} RemoveLineAt(cart: seq<CartItem>, k: int)
    requires DistinctIds(cart) && 0 <= k < |cart|
    ensures RemoveLine(cart, cart[k].id) == cart[..k] + cart[k + 1..]
  {
    var id := cart[k].id;
    var tail := cart[1..];
    if k == 0 {
      HeadNotInTail(cart);
      RemoveAbsent(tail, id);
      assert cart[..0] + cart[1..] == tail;
    } else {
      assert tail[k - 1] == cart[k];
      TailDistinct(cart);
      RemoveLineAt(tail, k - 1);
      assert cart[0].id != id;
      var rest := tail[..k - 1] + tail[k..];
      assert RemoveLine(cart, id) == [cart[0]] + rest;
      assert tail[..k - 1] == cart[1..k] && tail[k..] == cart[k + 1..];
      assert cart[..k] == [cart[0]] + cart[1..k];
    }
  }

  lemma {:induction false} RemoveAbsent(cart: seq<CartItem>, id: int)
    requires !HasLine(cart, id)
    ensures RemoveLine(cart, id) == cart
  {
    if cart != [] {
      HasLineCons(cart, id);
      RemoveAbsent(cart[1..], id);
    }
  }

  lemma AddToLineAbsent(cart: seq<CartItem>, id: int, qty: int)
    requires !HasLine(cart, id)
    ensures AddToLine(cart, id, qty) == cart
  {
  }

  /** Removing a line keeps one line per id and no empty line. */
  lemma RemoveLineWellFormed(cart: seq<CartItem>, id: int)
    requires WellFormed(cart)
    ensures WellFormed(RemoveLine(cart, id))
  {
    RemoveLineDistinct(cart, id);
    var r := RemoveLine(cart, id);
    RemoveLineMembers(cart, id);
    forall k | 0 <= k < |r| ensures r[k].quantity > 0 {
      assert r[k] in cart;
    }
  }

  lemma {:induction false} RemoveLineDistinct(cart: seq<CartItem>, id: int)
    requires DistinctIds(cart)
    ensures DistinctIds(RemoveLine(cart, id))
  {
    if cart != [] {
      var tail := cart[1..];
      TailDistinct(cart);
      RemoveLineDistinct(tail, id);
      if cart[0].id != id {
        HeadNotInTail(cart);
        RemoveLineMembers(tail, id);
        KeepHeadDistinct(cart[0], tail, RemoveLine(tail, id));
      }
    }
  }

  /** Putting back a head line whose id the kept lines do not carry. */
  lemma KeepHeadDistinct(head: CartItem, tail: seq<CartItem>, rest: seq<CartItem>)
    requires forall c :: c in rest ==> c in tail
    requires !HasLine(tail, head.id)
    requires DistinctIds(rest)
    ensures DistinctIds([head] + rest)
  {
    var r := [head] + rest;
    forall i, j | 0 <= i < j < |r| ensures r[i].id != r[j].id {
      assert r[j] == rest[j - 1];
      if i > 0 {
        assert r[i] == rest[i - 1];
      } else {
        assert r[j] in tail;
        var m :| 0 <= m < |tail| && tail[m] == r[j];
      }
    }
  }

  /** An upsert with a positive quantity keeps one line per id and no empty line. */
  lemma UpsertLineWellFormed(cart: seq<CartItem>, food: MenuItem, qty: int)
    requires WellFormed(cart) && qty > 0
    ensures WellFormed(UpsertLine(cart, food, qty))
  {
    var r := UpsertLine(cart, food, qty);
    if !HasLine(cart, food.id) {
      forall i, j | 0 <= i < j < |r| ensures r[i].id != r[j].id {
        if j == |cart| {
          assert r[i] == cart[i];
        }
      }
    }
  }

  /** The quantity of `id` in the cart: the sum over the lines carrying it. */
  function CartQtyOf(cart: seq<CartItem>, id: int): int
  {
    if cart == [] then 0
    else (if cart[0].id == id then cart[0].quantity else 0) + CartQtyOf(cart[1..], id)
  }

  lemma {:induction false} CartQtyOfAppend(cart: seq<CartItem>, line: CartItem, x: int)
    ensures CartQtyOf(cart + [line], x)
            == CartQtyOf(cart, x) + (if line.id == x then line.quantity else 0)
  {
    if cart != [] {
      assert (cart + [line])[1..] == cart[1..] + [line];
      CartQtyOfAppend(cart[1..], line, x);
    }
  }

  lemma {:induction false} CartQtyOfAbsent(cart: seq<CartItem>, id: int)
    requires !HasLine(cart, id)
    ensures CartQtyOf(cart, id) == 0
  {
    if cart != [] {
      HasLineCons(cart, id);
      CartQtyOfAbsent(cart[1..], id);
    }
  }

  /** With one line per id, the quantity of an id is that line's quantity. */
  lemma {:induction false} CartQtyOfLine(cart: seq<CartItem>, k: int)
    requires DistinctIds(cart) && 0 <= k < |cart|
    ensures CartQtyOf(cart, cart[k].id) == cart[k].quantity
  {
    if k == 0 {
      HeadNotInTail(cart);
      CartQtyOfAbsent(cart[1..], cart[0].id);
    } else {
      assert cart[1..][k - 1] == cart[k];
      TailDistinct(cart);
      CartQtyOfLine(cart[1..], k - 1);
    }
  }

  /** With one line per id, the upsert adds `qty` to the quantity of
      `food.id` and leaves every other id alone. */
  lemma {:induction false} UpsertLineQty(cart: seq<CartItem>, food: MenuItem, qty: int, x: int)
    requires DistinctIds(cart)
    ensures CartQtyOf(UpsertLine(cart, food, qty), x)
            == CartQtyOf(cart, x) + (if x == food.id then qty else 0)
  {
    if HasLine(cart, food.id) {
      AddToLineQty(cart, food.id, qty, x);
    } else {
      CartQtyOfAppend(cart, CartItem(food.id, food.name, food.price, qty), x);
    }
  }

  lemma {:induction false} AddToLineQty(cart: seq<CartItem>, id: int, qty: int, x: int)
    requires DistinctIds(cart)
    ensures CartQtyOf(AddToLine(cart, id, qty), x)
            == CartQtyOf(cart, x) + (if x == id && HasLine(cart, id) then qty else 0)
  {
    if cart != [] {
      var tail := cart[1..];
      assert AddToLine(cart, id, qty)[1..] == AddToLine(tail, id, qty);
      HasLineCons(cart, id);
      if cart[0].id == id {
        HeadNotInTail(cart);
        AddToLineAbsent(tail, id, qty);
      } else {
        TailDistinct(cart);
        AddToLineQty(tail, id, qty, x);
      }
    }
  }

  /** Removing lines by `id` empties the quantity of `id` and leaves every
      other id alone. */
  lemma {:induction false} RemoveLineQty(cart: seq<CartItem>, id: int, x: int)
    ensures CartQtyOf(RemoveLine(cart, id), x) == if x == id then 0 else CartQtyOf(cart, x)
  {
    if cart != [] {
      RemoveLineQty(cart[1..], id, x);
      if cart[0].id != id {
        assert ([cart[0]] + RemoveLine(cart[1..], id))[1..] == RemoveLine(cart[1..], id);
      }
    }
  }

  /** The amount a line adds to the total. */
  function LineTotal(c: CartItem): int
  {
    c.price * c.quantity
  }

  /** Reference definition: the sum of price times quantity over the lines. */
  function LineSum(cart: seq<CartItem>): int
  {
    if cart == [] then 0 else LineTotal(cart[0]) + LineSum(cart[1..])
  }

  /** `reduce((sum, c) => sum + c.price * c.quantity, acc)`: a left fold,
      which adds the sum of price times quantity over the lines to `acc`. */
  function TotalFrom(cart: seq<CartItem>, acc: int): (r: int)
    ensures r == acc + LineSum(cart)
  {
    if cart == [] then acc else TotalFrom(cart[1..], acc + LineTotal(cart[0]))
  }

  /** The cart total shown on the page: the fold started at 0, which is the
      sum of price times quantity over the lines, and 0 for an empty cart. */
  function CartTotal(cart: seq<CartItem>): (r: int)
    ensures r == LineSum(cart)
    ensures cart == [] ==> r == 0
  {
    TotalFrom(cart, 0)
  }

  lemma {:induction false} LineSumAppend(a: seq<CartItem>, b: seq<CartItem>)
    ensures LineSum(a + b) == LineSum(a) + LineSum(b)
  {
    if a == [] {
      assert a + b == b;
    } else {
      assert (a + b)[0] == a[0] && (a + b)[1..] == a[1..] + b;
      LineSumAppend(a[1..], b);
    }
  }

  /** With non-negative prices and quantities the total is non-negative. */
  lemma {:induction false} LineSumNonNegative(cart: seq<CartItem>)
    requires forall k :: 0 <= k < |cart| ==> cart[k].price >= 0 && cart[k].quantity >= 0
    ensures LineSum(cart) >= 0
  {
    if cart != [] {
      LineSumNonNegative(cart[1..]);
    }
  }

  /** With one line per id, an upsert raises the sum by the price of the
      line that receives `qty` (the existing line's price, or the food's for
      a new line) times `qty`. */
  lemma {:induction false} UpsertLineSum(cart: seq<CartItem>, food: MenuItem, qty: int)
    requires DistinctIds(cart)
    ensures LineSum(UpsertLine(cart, food, qty))
            == LineSum(cart) + (match FindLine(cart, food.id)
                                case Some(line) => line.price * qty
                                case None => food.price * qty)
  {
    if HasLine(cart, food.id) {
      AddToLineSum(cart, food.id, qty);
    } else {
      LineSumAppend(cart, [CartItem(food.id, food.name, food.price, qty)]);
    }
  }

  lemma {:induction false} AddToLineSum(cart: seq<CartItem>, id: int, qty: int)
    requires DistinctIds(cart) && HasLine(cart, id)
    ensures LineSum(AddToLine(cart, id, qty)) == LineSum(cart) + FindLine(cart, id).value.price * qty
  {
    var tail := cart[1..];
    var line := cart[0];
    assert AddToLine(cart, id, qty)[1..] == AddToLine(tail, id, qty);
    HasLineCons(cart, id);
    if line.id == id {
      HeadNotInTail(cart);
      AddToLineAbsent(tail, id, qty);
      assert LineTotal(line.(quantity := line.quantity + qty)) == LineTotal(line) + line.price * qty;
    } else {
      TailDistinct(cart);
      AddToLineSum(tail, id, qty);
    }
  }

  /** With one line per id, removing the line for `id` lowers the sum by
      that line's price times its quantity. */
  lemma {:induction false} RemoveLineSum(cart: seq<CartItem>, k: int)
    requires DistinctIds(cart) && 0 <= k < |cart|
    ensures LineSum(RemoveLine(cart, cart[k].id)) == LineSum(cart) - LineTotal(cart[k])
  {
    RemoveLineAt(cart, k);
    assert cart == cart[..k] + ([cart[k]] + cart[k + 1..]);
    LineSumAppend(cart[..k], [cart[k]] + cart[k + 1..]);
    LineSumAppend(cart[..k], cart[k + 1..]);
  }
}
