/** The records the storefront keeps in its two state cells. */
module Entities {

  datatype Option<T> = None | Some(value: T)

  /** A menu entry. `quantity` is the number of units still in stock;
      JavaScript numbers are modelled as unbounded integers. */
  datatype MenuItem = MenuItem(
    id: int,
    name: string,
    quantity: int,
    desc: string,
    price: int,
    image: string)

  /** One line of the shopping cart, aggregated by menu item id. */
  datatype CartItem = CartItem(id: int, name: string, price: int, quantity: int)

  function Max(a: int, b: int): int
  {
    if a >= b then a else b
  }
}
