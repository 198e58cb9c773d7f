/** Pricing of order lines from the menu, shared by the order handlers: each line
    is charged the menu's current price (0 for an unknown menu item) and the
    order total is the sum of price times quantity. */
module Pricing {
  import opened Http
  import opened Schema

  /** A requested line: a menu item id and a quantity. */
  datatype Line = Line(menuId: int, quantity: int)

  /** `priceMap[menuId] || 0`: the menu's price, or 0 when the item is unknown. */
  function PriceOf(menus: map<int, Menu>, menuId: int): (p: int)
    ensures menuId in menus ==> p == menus[menuId].price
    ensures menuId !in menus ==> p == 0
  {
    if menuId in menus then menus[menuId].price else 0
  }

  /** The total of a list of order lines. */
  function Total(items: seq<OrderItem>): int
    decreases |items|
  {
    if items == [] then 0 else Total(items[..|items| - 1]) + items[|items| - 1].price * items[|items| - 1].quantity
  }

  /** The order lines for `lines`, each priced from `menus`. */
  function Priced(menus: map<int, Menu>, lines: seq<Line>): (items: seq<OrderItem>)
    ensures |items| == |lines|
    ensures forall i :: 0 <= i < |lines| ==>
      items[i] == OrderItem(Some(lines[i].menuId), None, lines[i].quantity, PriceOf(menus, lines[i].menuId))
  {
    seq(|lines|, i requires 0 <= i < |lines| =>
      OrderItem(Some(lines[i].menuId), None, lines[i].quantity, PriceOf(menus, lines[i].menuId)))
  }

  /** Prices `lines` one by one and accumulates the total, as the handlers'
      `items.map(...)` with `totalPrice += price * quantity` does. */
  method PriceLines(menus: map<int, Menu>, lines: seq<Line>) returns (items: seq<OrderItem>, total: int)
    ensures items == Priced(menus, lines)
    ensures total == Total(items)
  {
    items, total := [], 0;
    var i := 0;
    while i < |lines|
      invariant 0 <= i <= |lines|
      invariant items == Priced(menus, lines[..i])
      invariant total == Total(items)
    {
      var price := PriceOf(menus, lines[i].menuId);
      total := total + price * lines[i].quantity;
      items := items + [OrderItem(Some(lines[i].menuId), None, lines[i].quantity, price)];
      assert lines[..i + 1][..i] == lines[..i];
      i := i + 1;
    }
    assert lines[..i] == lines;
  }

  /** The total of a concatenation is the sum of the totals. */
  lemma {:induction false} TotalAppend(a: seq<OrderItem>, b: seq<OrderItem>)
    ensures Total(a + b) == Total(a) + Total(b)
    decreases |b|
  {
    if b != [] {
      var n := |b| - 1;
      assert (a + b)[..|a + b| - 1] == a + b[..n];
      TotalAppend(a, b[..n]);
    } else {
      assert a + b == a;
    }
  }

  /** Lines of positive quantity at non-negative prices add up to a non-negative total. */
  lemma {:induction false} TotalNonNegative(items: seq<OrderItem>)
    requires forall i :: 0 <= i < |items| ==> items[i].quantity >= 1 && items[i].price >= 0
    ensures Total(items) >= 0
    decreases |items|
  {
    if items != [] {
      TotalNonNegative(items[..|items| - 1]);
    }
  }

  /** Every line of `Priced` carries the price the menu had at that moment, and
      the total charges exactly that. */
  lemma {:induction false} PricedTotal(menus: map<int, Menu>, lines: seq<Line>)
    ensures Total(Priced(menus, lines)) == LinesCost(menus, lines)
    decreases |lines|
  {
    if lines != [] {
      var n := |lines| - 1;
      assert Priced(menus, lines)[..n] == Priced(menus, lines[..n]);
      PricedTotal(menus, lines[..n]);
    }
  }

  /** Sum of menu price times quantity over `lines`. */
  function LinesCost(menus: map<int, Menu>, lines: seq<Line>): int
    decreases |lines|
  {
    if lines == [] then 0
    else LinesCost(menus, lines[..|lines| - 1]) + PriceOf(menus, lines[|lines| - 1].menuId) * lines[|lines| - 1].quantity
  }
}
