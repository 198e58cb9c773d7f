/** The signed-in customer's handlers: the cart, checkout, order cancellation
    and table booking (controllers/user.js). `userId` is the id from the
    verified token. */
module UserController {
  import opened Http
  import opened Schema
  import opened Store
  import opened Pricing
  import opened Booking

  // ---------------------------------------------------------------- cart

  /** The cart row a user already has for this menu item and table, if any. */
  function CartRowFor(d: Db, userId: int, menuId: int, tableId: int): (r: Option<int>)
    ensures r.Some? ==> r.value in d.carts && SameCartKey(d.carts[r.value], CartRow(userId, menuId, tableId, 0, 0, 0))
    ensures r.None? && IdsBelow(d.carts, d.nextId) ==>
      forall k :: k in d.carts ==> !SameCartKey(d.carts[k], CartRow(userId, menuId, tableId, 0, 0, 0))
  {
    FindFirst(d.carts, (c: CartRow) => c.userId == userId && c.menuId == menuId && c.tableId == tableId, d.nextId)
  }

  /** The validation and lookups of `addToCart` (controllers/user.js:149-171):
      ids must be non-zero numbers and the quantity not below 1, then the menu
      item and the table must exist. A quantity that is not a number passes the
      `< 1` test and is refused only when written. On success the plan says
      which existing row to merge into, if any. */
  function AddToCartCheck(d: Db, userId: int, menuId: Input<int>, tableId: Input<int>, qty: Input<int>): (r: Result<Option<int>>)
    ensures r.Err? && r.error.BadRequest? <==> !Truthy(menuId) || !Truthy(tableId) || (qty.Value? && qty.v < 1)
    ensures r.Err? && r.error.NotFound? <==>
              Truthy(menuId) && Truthy(tableId) && !(qty.Value? && qty.v < 1)
              && (menuId.v !in d.menus || tableId.v !in d.tables)
    ensures r.Err? && r.error.ServerError? <==>
              Truthy(menuId) && Truthy(tableId) && menuId.v in d.menus && tableId.v in d.tables && !qty.Value?
    ensures r.Err? ==> r.error.BadRequest? || r.error.NotFound? || r.error.ServerError?
    ensures r.Ok? <==>
              Truthy(menuId) && Truthy(tableId) && menuId.v in d.menus && tableId.v in d.tables
              && qty.Value? && qty.v >= 1
    ensures r.Ok? ==> r.value == CartRowFor(d, userId, menuId.v, tableId.v)
  {
    if !Truthy(menuId) || !Truthy(tableId) || (qty.Value? && qty.v < 1) then Err(BadRequest("invalid cart input"))
    else if menuId.v !in d.menus then Err(NotFound("menu item"))
    else if tableId.v !in d.tables then Err(NotFound("table"))
    else if !qty.Value? then Err(ServerError("quantity is not a number"))
    else Ok(CartRowFor(d, userId, menuId.v, tableId.v))
  }

  /** The carts after adding `qty` of a menu item: the existing row's quantity
      grows and its total is recomputed at today's price; otherwise a new row. */
  function AfterAddToCart(d: Db, userId: int, menuId: int, tableId: int, qty: int, existing: Option<int>): Db
    requires menuId in d.menus
    requires existing.Some? ==> existing.value in d.carts
  {
    var price := d.menus[menuId].price;
    match existing
    case Some(k) =>
      var q := d.carts[k].quantity + qty;
      d.(carts := d.carts[k := d.carts[k].(quantity := q, total := q * price)])
    case None =>
      d.(carts := d.carts[d.nextId := CartRow(userId, menuId, tableId, qty, price, qty * price)],
         nextId := d.nextId + 1)
  }

  method AddToCart(db: Database, userId: int, menuId: Input<int>, tableId: Input<int>, qty: Input<int>)
    returns (r: Result<Option<int>>)
    requires db.Valid()
    modifies db
    ensures db.Valid()
    ensures r == AddToCartCheck(old(db.Snapshot()), userId, menuId, tableId, qty)
    ensures r.Ok? ==> db.Snapshot() == AfterAddToCart(old(db.Snapshot()), userId, menuId.v, tableId.v, qty.v, r.value)
    ensures r.Err? ==> db.Snapshot() == old(db.Snapshot())
  {
    r := AddToCartCheck(db.Snapshot(), userId, menuId, tableId, qty);
    if r.Err? {
      return;
    }
    ghost var e := AfterAddToCart(db.Snapshot(), userId, menuId.v, tableId.v, qty.v, r.value);
    AddToCartValid(db.Snapshot(), userId, menuId.v, tableId.v, qty.v, r.value);
    var price := db.menus[menuId.v].price;
    if r.value.Some? {
      var k := r.value.value;
      var q := db.carts[k].quantity + qty.v;
      db.carts := db.carts[k := db.carts[k].(quantity := q, total := q * price)];
    } else {
      var id := db.FreshId();
      db.carts := db.carts[id := CartRow(userId, menuId.v, tableId.v, qty.v, price, qty.v * price)];
    }
    assert db.Snapshot() == e;
  }

  lemma AddToCartValid(d: Db, userId: int, menuId: int, tableId: int, qty: int, existing: Option<int>)
    requires d.Valid() && menuId in d.menus
    requires existing == CartRowFor(d, userId, menuId, tableId)
    ensures AfterAddToCart(d, userId, menuId, tableId, qty, existing).Valid()
  {
  }

  /** Adding to the cart never creates a second row for the same user, menu
      item and table: afterwards exactly one row has that key, its quantity is
      the previous quantity (0 if none) plus `qty`, and its total is that
      quantity at the current menu price. */
  lemma AddToCartMerges(d: Db, userId: int, menuId: int, tableId: int, qty: int)
    requires CartKeysUnique(d.carts) && IdsBelow(d.carts, d.nextId) && menuId in d.menus
    ensures var existing := CartRowFor(d, userId, menuId, tableId);
            var e := AfterAddToCart(d, userId, menuId, tableId, qty, existing);
            var key := CartRow(userId, menuId, tableId, 0, 0, 0);
            var before := if existing.Some? then d.carts[existing.value].quantity else 0;
            exists k :: k in e.carts && SameCartKey(e.carts[k], key)
              && e.carts[k].quantity == before + qty
              && e.carts[k].total == e.carts[k].quantity * d.menus[menuId].price
              && forall j :: j in e.carts && SameCartKey(e.carts[j], key) ==> j == k
  {
    var existing := CartRowFor(d, userId, menuId, tableId);
    if existing.Some? {
      MergedRow(d, userId, menuId, tableId, qty, existing.value);
    } else {
      NewCartRow(d, userId, menuId, tableId, qty);
    }
  }

  /** Merging into row `k`, the row of that key, leaves it the only row of the key. */
  lemma MergedRow(d: Db, userId: int, menuId: int, tableId: int, qty: int, k: int)
    requires CartKeysUnique(d.carts) && menuId in d.menus
    requires k in d.carts && SameCartKey(d.carts[k], CartRow(userId, menuId, tableId, 0, 0, 0))
    ensures var e := AfterAddToCart(d, userId, menuId, tableId, qty, Some(k));
            && k in e.carts && SameCartKey(e.carts[k], CartRow(userId, menuId, tableId, 0, 0, 0))
            && e.carts[k].quantity == d.carts[k].quantity + qty
            && e.carts[k].total == e.carts[k].quantity * d.menus[menuId].price
            && forall j :: j in e.carts && SameCartKey(e.carts[j], CartRow(userId, menuId, tableId, 0, 0, 0)) ==> j == k
  {
  }

  /** With no row of that key, the new row under the next id is the only one. */
  lemma NewCartRow(d: Db, userId: int, menuId: int, tableId: int, qty: int)
    requires IdsBelow(d.carts, d.nextId) && menuId in d.menus
    requires forall k :: k in d.carts ==> !SameCartKey(d.carts[k], CartRow(userId, menuId, tableId, 0, 0, 0))
    ensures var e := AfterAddToCart(d, userId, menuId, tableId, qty, None);
            && d.nextId in e.carts && SameCartKey(e.carts[d.nextId], CartRow(userId, menuId, tableId, 0, 0, 0))
            && e.carts[d.nextId].quantity == qty
            && e.carts[d.nextId].total == e.carts[d.nextId].quantity * d.menus[menuId].price
            && forall j :: j in e.carts && SameCartKey(e.carts[j], CartRow(userId, menuId, tableId, 0, 0, 0)) ==> j == d.nextId
  {
  }

  /** `updateCart` (controllers/user.js:238-272): the row must exist; any body
      value that JavaScript finds below 1 (null, "", false and "0" included)
      becomes 1; any other value is written as sent, which the store accepts
      only for an integer; the total is recomputed at the menu's current price.
      A row id that `parseInt` makes NaN is refused by the store. */
  function UpdateCartCheck(d: Db, cartId: Input<int>, qty: RawNumber): (r: Result<int>)
    ensures r.Ok? <==> cartId.Value? && cartId.v in d.carts && (qty.Whole? || qty.BelowOne())
    ensures r.Ok? ==> r.value >= 1
    ensures r.Ok? && qty.BelowOne() ==> r.value == 1
    ensures r.Ok? && !qty.BelowOne() ==> qty.Whole? && r.value == qty.n
    ensures r.Err? && r.error.NotFound? <==> cartId.Value? && cartId.v !in d.carts
    ensures r.Err? && r.error.ServerError? <==>
              !cartId.Value? || (cartId.v in d.carts && qty.NotWhole? && !qty.lessThanOne)
    ensures r.Err? ==> r.error.NotFound? || r.error.ServerError?
  {
    if !cartId.Value? then Err(ServerError("cart id is not a number"))
    else if cartId.v !in d.carts then Err(NotFound("cart row"))
    else if qty.BelowOne() then Ok(1)
    else if qty.NotWhole? then Err(ServerError("quantity is not an integer"))
    else Ok(qty.n)
  }

  method UpdateCart(db: Database, cartId: Input<int>, qty: RawNumber) returns (r: Result<int>)
    requires db.Valid()
    modifies db
    ensures db.Valid()
    ensures r == UpdateCartCheck(old(db.Snapshot()), cartId, qty)
    ensures r.Ok? ==> db.Snapshot() == AfterUpdateCart(old(db.Snapshot()), cartId.v, r.value)
    ensures r.Err? ==> db.Snapshot() == old(db.Snapshot())
  {
    r := UpdateCartCheck(db.Snapshot(), cartId, qty);
    if r.Ok? {
      assert db.carts[cartId.v].menuId in db.menus by { CartMenuExists(db.Snapshot(), cartId.v); }
      var row := db.carts[cartId.v];
      var price := db.menus[row.menuId].price;
      db.carts := db.carts[cartId.v := row.(quantity := r.value, total := price * r.value)];
    }
  }

  lemma CartMenuExists(d: Db, k: int)
    requires d.Valid() && k in d.carts
    ensures d.carts[k].menuId in d.menus
  {
  }

  /** The cart row with its new quantity and the total at the menu's current price. */
  function AfterUpdateCart(d: Db, cartId: int, qty: int): (e: Db)
    requires d.Valid() && cartId in d.carts
    ensures e.Valid()
    ensures cartId in e.carts && e.carts[cartId].quantity == qty && e.carts[cartId].total == qty * d.menus[d.carts[cartId].menuId].price
  {
    var row := d.carts[cartId];
    d.(carts := d.carts[cartId := row.(quantity := qty, total := d.menus[row.menuId].price * qty)])
  }

  /** `removeFromCart` (controllers/user.js:276-297): the first row of that user
      for that menu item, on any table; both ids must be numbers. */
  function RemoveFromCartCheck(d: Db, menuId: Input<int>, userId: Input<int>): (r: Result<int>)
    ensures r.Ok? ==> menuId.Value? && userId.Value? && r.value in d.carts
                      && d.carts[r.value].menuId == menuId.v && d.carts[r.value].userId == userId.v
    ensures r.Ok? ==> forall k :: k in d.carts && 1 <= k < r.value ==>
                        !(d.carts[k].menuId == menuId.v && d.carts[k].userId == userId.v)
    ensures r.Err? && r.error.NotFound? <==>
              && menuId.Value? && userId.Value?
              && forall k :: k in d.carts && 1 <= k < d.nextId ==>
                               !(d.carts[k].menuId == menuId.v && d.carts[k].userId == userId.v)
    ensures r.Err? && r.error.ServerError? <==> !menuId.Value? || !userId.Value?
    ensures r.Err? ==> r.error.NotFound? || r.error.ServerError?
  {
    if !menuId.Value? || !userId.Value? then Err(ServerError("id is not a number"))
    else
      match FindFirst(d.carts, (c: CartRow) => c.menuId == menuId.v && c.userId == userId.v, d.nextId)
      case None => Err(NotFound("cart row"))
      case Some(k) => Ok(k)
  }

  method RemoveFromCart(db: Database, menuId: Input<int>, userId: Input<int>) returns (r: Result<int>)
    requires db.Valid()
    modifies db
    ensures db.Valid()
    ensures r == RemoveFromCartCheck(old(db.Snapshot()), menuId, userId)
    ensures r.Ok? ==> db.Snapshot() == old(db.Snapshot()).(carts := old(db.carts) - {r.value})
    ensures r.Err? ==> db.Snapshot() == old(db.Snapshot())
  {
    r := RemoveFromCartCheck(db.Snapshot(), menuId, userId);
    if r.Ok? {
      db.carts := db.carts - {r.value};
    }
  }

  // ---------------------------------------------------------------- checkout

  /** The ids of a user's cart rows, in id order. */
  function CartOf(d: Db, userId: int): (ks: seq<int>)
    ensures forall k :: k in ks <==> k in d.carts && 1 <= k < d.nextId && d.carts[k].userId == userId
    ensures Increasing(ks)
  {
    Where(d.carts, (c: CartRow) => c.userId == userId, 1, d.nextId)
  }

  /** A user's cart as requested lines. */
  function CartLines(d: Db, userId: int): (lines: seq<Line>)
    ensures |lines| == |CartOf(d, userId)|
  {
    var ks := CartOf(d, userId);
    seq(|ks|, i requires 0 <= i < |ks| => Line(d.carts[ks[i]].menuId, d.carts[ks[i]].quantity))
  }

  /** `createOrder`'s checks (controllers/user.js:312-352): a table, when one is
      named, must exist; the cart must not be empty; its total at current menu
      prices must be positive. On success: the table id to attach, if any.
      `tableId` is the JSON body value as is, never parsed: `Absent` or
      `Value(0)` is a falsy value ("", null, false, 0 or none), which names no
      table; `Value(n)` is a JSON integer; `Invalid` is any other truthy value
      ("5", 2.5, true, [], {}), which the table query refuses (500). */
  function CreateOrderCheck(d: Db, userId: int, tableId: Input<int>): (r: Result<Option<int>>)
    ensures r.Ok? ==> CartOf(d, userId) != [] && Total(Priced(d.menus, CartLines(d, userId))) > 0
    ensures r.Ok? ==> (r.value.Some? <==> Truthy(tableId)) && (r.value.Some? ==> r.value.value in d.tables)
    ensures r.Err? && r.error.BadRequest? && Truthy(tableId) && tableId.v in d.tables ==>
      CartOf(d, userId) == [] || Total(Priced(d.menus, CartLines(d, userId))) <= 0
    ensures r.Ok? <==>
              && !tableId.Invalid? && (Truthy(tableId) ==> tableId.v in d.tables)
              && CartOf(d, userId) != [] && Total(Priced(d.menus, CartLines(d, userId))) > 0
    ensures r.Err? && r.error.ServerError? <==> tableId.Invalid?
    ensures r.Err? ==> r.error.BadRequest? || (r.error.ServerError? && tableId.Invalid?)
  {
    if tableId.Invalid? then Err(ServerError("table id is not a number"))
    else if Truthy(tableId) && tableId.v !in d.tables then Err(BadRequest("unknown table"))
    else if CartOf(d, userId) == [] then Err(BadRequest("empty cart"))
    else if Total(Priced(d.menus, CartLines(d, userId))) <= 0 then Err(BadRequest("invalid total"))
    else Ok(if Truthy(tableId) then Some(tableId.v) else None)
  }

  /** The order `createOrder` stores: payment state "PENDING", method "QR_CODE",
      one line per cart row at the current menu price. */
  function CheckoutOrder(d: Db, userId: int, table: Option<int>, now: int): Order {
    var items := Priced(d.menus, CartLines(d, userId));
    Order(Some(userId), table, OrderStatus.Pending, "PENDING", Some(QrCode), None, Total(items), now, items)
  }

  /** The database after checkout: the new order, and none of the user's cart rows. */
  function AfterCheckout(d: Db, userId: int, table: Option<int>, now: int): Db {
    d.(orders := d.orders[d.nextId := CheckoutOrder(d, userId, table, now)],
       carts := map k | k in d.carts && d.carts[k].userId != userId :: d.carts[k],
       nextId := d.nextId + 1)
  }

  method CreateOrder(db: Database, userId: int, tableId: Input<int>, now: int) returns (r: Result<int>)
    requires db.Valid()
    modifies db
    ensures db.Valid()
    ensures r.Err? <==> CreateOrderCheck(old(db.Snapshot()), userId, tableId).Err?
    ensures r.Err? ==> r.error == CreateOrderCheck(old(db.Snapshot()), userId, tableId).error
    ensures r.Ok? ==> r.value == old(db.nextId)
    ensures r.Ok? ==> db.Snapshot() ==
                      AfterCheckout(old(db.Snapshot()), userId, CreateOrderCheck(old(db.Snapshot()), userId, tableId).value, now)
    ensures r.Err? ==> db.Snapshot() == old(db.Snapshot())
  {
    var c := CreateOrderCheck(db.Snapshot(), userId, tableId);
    if c.Err? {
      return Err(c.error);
    }
    ghost var e := AfterCheckout(db.Snapshot(), userId, c.value, now);
    CheckoutValid(db.Snapshot(), userId, c.value, now);
    var order := CheckoutOrder(db.Snapshot(), userId, c.value, now);
    var id := db.FreshId();
    db.orders := db.orders[id := order];
    db.carts := map k | k in db.carts && db.carts[k].userId != userId :: db.carts[k];
    r := Ok(id);
    assert db.Snapshot() == e;
  }

  lemma CheckoutValid(d: Db, userId: int, table: Option<int>, now: int)
    requires d.Valid()
    ensures AfterCheckout(d, userId, table, now).Valid()
  {
  }

  /** Checkout charges exactly the cart at today's menu prices, empties that
      user's cart and leaves every other user's cart as it was. */
  lemma CheckoutCharges(d: Db, userId: int, table: Option<int>, now: int)
    requires d.Valid()
    ensures var e := AfterCheckout(d, userId, table, now);
            && e.orders[d.nextId].totalPrice == LinesCost(d.menus, CartLines(d, userId))
            && CartOf(e, userId) == []
            && forall k :: k in d.carts && d.carts[k].userId != userId ==> k in e.carts && e.carts[k] == d.carts[k]
  {
    PricedTotal(d.menus, CartLines(d, userId));
  }

  // ---------------------------------------------------------------- cancel order

  /** The local calendar day of the request, as its first and last millisecond. */
  datatype Day = Day(first: int, last: int)

  /** Orders of the user created today whose payment state is "CANCELLED". */
  function CancelledToday(d: Db, userId: int, today: Day): nat {
    Count(d.orders, (o: Order) => o.userId == Some(userId) && o.paymentStatus == "CANCELLED"
                                  && today.first <= o.createdAt <= today.last, d.nextId)
  }

  /** `cancelOrder` (controllers/user.js:458-516): the order must exist and be
      the caller's, still "ยังไม่ชำระเงิน", at most five minutes old, and the caller
      must have fewer than three cancelled orders created today. */
  function CancelOrderCheck(d: Db, orderId: Input<int>, userId: int, now: int, today: Day): (r: Outcome)
    ensures r.Pass? <==> (orderId.Value? && orderId.v in d.orders
                          && d.orders[orderId.v].userId == Some(userId)
                          && d.orders[orderId.v].paymentStatus == Unpaid
                          && now - d.orders[orderId.v].createdAt <= 5 * MINUTE
                          && CancelledToday(d, userId, today) < 3)
    ensures r.Fail? && r.error.NotFound? <==> orderId.Value? && orderId.v !in d.orders
    ensures r.Fail? && r.error.Forbidden? <==> orderId.Value? && orderId.v in d.orders && d.orders[orderId.v].userId != Some(userId)
    ensures r.Fail? && r.error.BadRequest? <==>
              && orderId.Value? && orderId.v in d.orders && d.orders[orderId.v].userId == Some(userId)
              && !(&& d.orders[orderId.v].paymentStatus == Unpaid
                   && now - d.orders[orderId.v].createdAt <= 5 * MINUTE
                   && CancelledToday(d, userId, today) < 3)
    ensures r.Fail? && r.error.ServerError? <==> !orderId.Value?
    ensures r.Fail? ==> r.error.NotFound? || r.error.Forbidden? || r.error.BadRequest? || r.error.ServerError?
  {
    if !orderId.Value? then Fail(ServerError("order id is not a number"))
    else if orderId.v !in d.orders then Fail(NotFound("order"))
    else
      var o := d.orders[orderId.v];
      if o.userId != Some(userId) then Fail(Forbidden("not your order"))
      else if o.paymentStatus != Unpaid then Fail(BadRequest("order is paid or in preparation"))
      else if now - o.createdAt > 5 * MINUTE then Fail(BadRequest("more than five minutes old"))
      else if CancelledToday(d, userId, today) >= 3 then Fail(BadRequest("three cancellations today"))
      else Pass
  }

  method CancelOrder(db: Database, orderId: Input<int>, userId: int, now: int, today: Day) returns (r: Outcome)
    requires db.Valid()
    modifies db
    ensures db.Valid()
    ensures r == CancelOrderCheck(old(db.Snapshot()), orderId, userId, now, today)
    ensures r.Pass? ==> db.Snapshot() == old(db.Snapshot()).(orders := old(db.orders)[orderId.v :=
      old(db.orders)[orderId.v].(paymentStatus := "CANCELLED")])
    ensures r.Fail? ==> db.Snapshot() == old(db.Snapshot())
  {
    r := CancelOrderCheck(db.Snapshot(), orderId, userId, now, today);
    if r.Pass? {
      db.orders := db.orders[orderId.v := db.orders[orderId.v].(paymentStatus := "CANCELLED")];
    }
  }

  /** An order placed through checkout is stored as "PENDING", which is not the
      unpaid state the cancel handler accepts: the customer cannot cancel it. */
  lemma CheckoutOrderNotCancellable(d: Db, userId: int, table: Option<int>, created: int, now: int, today: Day)
    requires d.Valid()
    ensures CancelOrderCheck(AfterCheckout(d, userId, table, created), Value(d.nextId), userId, now, today)
         == Fail(BadRequest("order is paid or in preparation"))
  {
    assert "PENDING" != Unpaid by { assert "PENDING"[0] != Unpaid[0]; }
  }

  /** A cancelled order cannot be cancelled again. */
  lemma CancelOrderOnce(d: Db, orderId: int, userId: int, now: int, today: Day, later: int)
    requires CancelOrderCheck(d, Value(orderId), userId, now, today).Pass?
    ensures var e := d.(orders := d.orders[orderId := d.orders[orderId].(paymentStatus := "CANCELLED")]);
            CancelOrderCheck(e, Value(orderId), userId, later, today).Fail?
  {
    assert "CANCELLED" != Unpaid by { assert "CANCELLED"[0] != Unpaid[0]; }
  }

  // ---------------------------------------------------------------- booking

  /** The table ids of the body after `toInt`, without the ones that are not numbers. */
  function NumericIds(raw: seq<Input<int>>): (ids: seq<int>)
    ensures forall t :: t in ids <==> Value(t) in raw
    ensures |ids| <= |raw|
    ensures |raw| == 1 ==> ids == (if raw[0].Value? then [raw[0].v] else [])
  {
    if raw == [] then []
    else (if raw[0].Value? then [raw[0].v] else []) + NumericIds(raw[1..])
  }

  /** The filter works entry by entry: it keeps the order of the ids and their
      repeats, so the ids of two lists joined are the ids of each, joined. */
  lemma {:induction false} NumericIdsAppend(a: seq<Input<int>>, b: seq<Input<int>>)
    ensures NumericIds(a + b) == NumericIds(a) + NumericIds(b)
    decreases |a|
  {
    if a == [] {
      assert a + b == b;
    } else {
      assert (a + b)[1..] == a[1..] + b;
      NumericIdsAppend(a[1..], b);
    }
  }

  /** When every entry is a number, nothing is dropped: the ids are the
      entries, position by position, repeats included. */
  lemma {:induction false} NumericIdsAllNumeric(raw: seq<Input<int>>)
    requires forall i :: 0 <= i < |raw| ==> raw[i].Value?
    ensures |NumericIds(raw)| == |raw|
    ensures forall i :: 0 <= i < |raw| ==> NumericIds(raw)[i] == raw[i].v
    decreases |raw|
  {
    if raw != [] {
      NumericIdsAllNumeric(raw[1..]);
    }
  }

  /** `createReservation`'s checks (controllers/user.js:545-587), in order: a
      start time and a non-zero party size, at least one numeric table id, a
      valid time, every id an existing table named once, and no PENDING
      reservation of those tables within the window. */
  function BookCheck(d: Db, start: Input<int>, people: Input<int>, rawIds: seq<Input<int>>): (r: Result<seq<int>>)
    ensures r.Ok? ==> r.value == NumericIds(rawIds) && r.value != [] && start.Value? && Truthy(people)
    ensures r.Ok? ==> forall i :: 0 <= i < |r.value| ==> r.value[i] in d.tables
    ensures r.Ok? ==> Distinct(r.value) == |r.value|
    ensures r.Ok? ==> Conflicts(d, r.value, start.v) == []
    ensures r.Err? && r.error.BusyTables? ==> start.Value? && Conflicts(d, NumericIds(rawIds), start.v) != []
    ensures r.Err? && r.error.BusyTables? ==> r.error.tableIds == BusyTableIds(d, NumericIds(rawIds), start.v)
    ensures (&& start.Value? && Truthy(people) && NumericIds(rawIds) != []
             && (forall i :: 0 <= i < |NumericIds(rawIds)| ==> NumericIds(rawIds)[i] in d.tables)
             && Distinct(NumericIds(rawIds)) == |NumericIds(rawIds)|
             && Conflicts(d, NumericIds(rawIds), start.v) != [])
            ==> r.Err? && r.error.BusyTables?
    ensures r.Err? ==> r.error.BadRequest? || r.error.BusyTables?
    ensures (&& start.Value? && Truthy(people) && NumericIds(rawIds) != []
             && (forall i :: 0 <= i < |NumericIds(rawIds)| ==> NumericIds(rawIds)[i] in d.tables)
             && Distinct(NumericIds(rawIds)) == |NumericIds(rawIds)|
             && Conflicts(d, NumericIds(rawIds), start.v) == [])
            ==> r.Ok?
  {
    var ids := NumericIds(rawIds);
    if start.Absent? || !Truthy(people) then Err(BadRequest("time and party size required"))
    else if ids == [] then Err(BadRequest("no table chosen"))
    else if start.Invalid? then Err(BadRequest("invalid time"))
    else AdmitTables(d, ids, start.v)
  }

  method CreateReservation(db: Database, userId: int, start: Input<int>, people: Input<int>, rawIds: seq<Input<int>>)
    returns (r: Result<seq<int>>)
    requires db.Valid()
    modifies db
    ensures db.Valid()
    ensures r == BookCheck(old(db.Snapshot()), start, people, rawIds)
    ensures r.Ok? ==> db.Snapshot() == Book(old(db.Snapshot()), Member(userId), r.value, start.v, people.v)
    ensures r.Err? ==> db.Snapshot() == old(db.Snapshot())
  {
    r := BookCheck(db.Snapshot(), start, people, rawIds);
    if r.Ok? {
      BookValid(db.Snapshot(), Member(userId), r.value, start.v, people.v);
      PlaceBooking(db, Member(userId), r.value, start.v, people.v);
    }
  }

  /** A table id named twice is refused, even when the table is free. */
  lemma DuplicateTableRefused(d: Db, start: int, people: int, t: int)
    requires t in d.tables
    ensures BookCheck(d, Value(start), Value(people), [Value(t), Value(t)]).Err?
  {
    assert NumericIds([Value(t), Value(t)]) == [t, t];
    assert [t, t][0] == [t, t][1];
  }

  /** Tables 3 and 4 booked at 19:00 make table 3 unavailable at 20:30, while
      table 5 can still be booked then (the scenario of the booking design). */
  lemma {:induction false} BookingScenario(d: Db, userId: int, evening: int)
    requires d.Valid()
    requires 3 in d.tables && 4 in d.tables && 5 in d.tables
    requires forall k :: k in d.reservations ==> d.reservations[k].status != ReservationStatus.Pending
    ensures BookCheck(d, Value(evening), Value(2), [Value(3), Value(4)]) == Ok([3, 4])
    ensures var e := Book(d, Member(userId), [3, 4], evening, 2);
            && BookCheck(e, Value(evening + 90 * MINUTE), Value(2), [Value(3)]).Err?
            && BookCheck(e, Value(evening + 90 * MINUTE), Value(2), [Value(5)]) == Ok([5])
  {
    FirstBookingAccepted(d, evening);
    BookedTableBlocked(d, userId, evening);
    OtherTableFree(d, userId, evening);
  }

  lemma BookedTableBlocked(d: Db, userId: int, evening: int)
    requires d.Valid()
    ensures BookCheck(Book(d, Member(userId), [3, 4], evening, 2), Value(evening + 90 * MINUTE), Value(2), [Value(3)]).Err?
  {
    assert 3 in [3, 4] && 3 in [3];
    NoDoubleBooking(d, Member(userId), [3, 4], evening, 2, [3], evening + 90 * MINUTE);
    assert NumericIds([Value(3)]) == [3];
  }

  lemma OtherTableFree(d: Db, userId: int, evening: int)
    requires d.Valid() && 3 in d.tables && 4 in d.tables && 5 in d.tables
    requires forall k :: k in d.reservations ==> d.reservations[k].status != ReservationStatus.Pending
    ensures BookCheck(Book(d, Member(userId), [3, 4], evening, 2), Value(evening + 90 * MINUTE), Value(2), [Value(5)]) == Ok([5])
  {
    var e := Book(d, Member(userId), [3, 4], evening, 2);
    BookingIsLocal(d, Member(userId), [3, 4], evening, 2, [5], evening + 90 * MINUTE);
    assert Conflicts(d, [5], evening + 90 * MINUTE) == [];
    assert 5 in e.tables;
    SingleTableAccepted(e, 5, evening + 90 * MINUTE);
  }

  lemma FirstBookingAccepted(d: Db, evening: int)
    requires 3 in d.tables && 4 in d.tables
    requires forall k :: k in d.reservations ==> d.reservations[k].status != ReservationStatus.Pending
    ensures BookCheck(d, Value(evening), Value(2), [Value(3), Value(4)]) == Ok([3, 4])
  {
    assert NumericIds([Value(3), Value(4)]) == [3, 4];
    assert Conflicts(d, [3, 4], evening) == [];
    assert Found(d.tables, [3, 4]) == 2;
  }

  lemma SingleTableAccepted(d: Db, t: int, s: int)
    requires t in d.tables && Conflicts(d, [t], s) == []
    ensures BookCheck(d, Value(s), Value(2), [Value(t)]) == Ok([t])
  {
    assert NumericIds([Value(t)]) == [t];
    assert Found(d.tables, [t]) == 1;
  }

  // ---------------------------------------------------------------- cancel booking

  /** `cancelReservation` (controllers/user.js:667-685): a numeric id of an
      existing reservation that the caller made. */
  function CancelBookingCheck(d: Db, reservationId: Input<int>, userId: int): (r: Outcome)
    ensures r.Pass? <==> (reservationId.Value? && reservationId.v in d.reservations
                          && d.reservations[reservationId.v].userId == Some(userId))
    ensures r.Fail? && r.error.BadRequest? <==> !reservationId.Value?
    ensures r.Fail? && r.error.Forbidden? <==> (reservationId.Value? && reservationId.v in d.reservations
                                                && d.reservations[reservationId.v].userId != Some(userId))
    ensures r.Fail? && r.error.NotFound? <==> reservationId.Value? && reservationId.v !in d.reservations
    ensures r.Fail? ==> r.error.BadRequest? || r.error.NotFound? || r.error.Forbidden?
  {
    if !reservationId.Value? then Fail(BadRequest("invalid reservation id"))
    else if reservationId.v !in d.reservations then Fail(NotFound("reservation"))
    else if d.reservations[reservationId.v].userId != Some(userId) then Fail(Forbidden("not your reservation"))
    else Pass
  }

  /** The database after a reservation is withdrawn: its table AVAILABLE, the row gone. */
  function AfterWithdraw(d: Db, id: int): Db
    requires id in d.reservations
  {
    var t := d.reservations[id].tableId;
    d.(tables := MarkTables(d.tables, {t}, TableStatus.Available), reservations := d.reservations - {id})
  }

  method CancelReservation(db: Database, reservationId: Input<int>, userId: int) returns (r: Outcome)
    requires db.Valid()
    modifies db
    ensures db.Valid()
    ensures r == CancelBookingCheck(old(db.Snapshot()), reservationId, userId)
    ensures r.Pass? ==> db.Snapshot() == AfterWithdraw(old(db.Snapshot()), reservationId.v)
    ensures r.Fail? ==> db.Snapshot() == old(db.Snapshot())
  {
    r := CancelBookingCheck(db.Snapshot(), reservationId, userId);
    if r.Pass? {
      var t := db.reservations[reservationId.v].tableId;
      MarkTablesKeepsNumbers(db.tables, {t}, TableStatus.Available);
      db.tables := MarkTables(db.tables, {t}, TableStatus.Available);
      db.reservations := db.reservations - {reservationId.v};
    }
  }

  /** Withdrawing a reservation removes exactly that row from every conflict
      list: all other conflicts stay. */
  lemma WithdrawFreesOnlyItself(d: Db, id: int, request: seq<int>, s: int)
    requires id in d.reservations
    ensures forall k :: k in Conflicts(AfterWithdraw(d, id), request, s) <==> k in Conflicts(d, request, s) && k != id
  {
  }
}
