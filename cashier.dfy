/** The cashier's handlers (controllers/cashier.js): table status, cancelling a
    table's reservation, menu edits, orders taken at the counter, and order
    and payment status. */
module CashierController {
  import opened Http
  import opened Text
  import opened Schema
  import opened Store
  import opened Pricing
  import opened Ordering

  // ---------------------------------------------------------------- tables

  /** `CashierUpdateReservation` (controllers/cashier.js:29-56): the table number
      must be an integer of at least 1 and the status, upper-cased, one of
      AVAILABLE, RESERVED, OCCUPIED; then the table must exist. On success the
      plan names the table and the new status. */
  function TableStatusCheck(d: Db, tableNumber: Input<int>, status: string): (r: Result<(int, TableStatus)>)
    ensures r.Err? && r.error.BadRequest? <==> !IntAtLeast(tableNumber, 1) || ParseTableStatus(Upper(status)).None?
    ensures r.Err? && r.error.NotFound? <==>
              IntAtLeast(tableNumber, 1) && ParseTableStatus(Upper(status)).Some?
              && TableByNumber(d, tableNumber.v).None?
    ensures r.Err? ==> r.error.BadRequest? || r.error.NotFound?
    ensures r.Ok? <==>
              IntAtLeast(tableNumber, 1) && ParseTableStatus(Upper(status)).Some?
              && TableByNumber(d, tableNumber.v).Some?
    ensures r.Ok? ==> r.value.1.Name() == Upper(status)
    ensures r.Ok? ==> Some(r.value.0) == TableByNumber(d, tableNumber.v)
  {
    if !IntAtLeast(tableNumber, 1) then Err(BadRequest("invalid table number"))
    else if ParseTableStatus(Upper(status)).None? then Err(BadRequest("invalid status"))
    else
      match TableByNumber(d, tableNumber.v)
      case None => Err(NotFound("table"))
      case Some(k) => Ok((k, ParseTableStatus(Upper(status)).value))
  }

  /** The status is accepted in any letter case. */
  lemma TableStatusAnyCase(d: Db, tableNumber: Input<int>, status: string)
    ensures TableStatusCheck(d, tableNumber, status) == TableStatusCheck(d, tableNumber, Upper(status))
  {
    UpperIdempotent(status);
  }

  method UpdateTableStatus(db: Database, tableNumber: Input<int>, status: string) returns (r: Result<(int, TableStatus)>)
    requires db.Valid()
    modifies db
    ensures db.Valid()
    ensures r == TableStatusCheck(old(db.Snapshot()), tableNumber, status)
    ensures r.Ok? ==> db.Snapshot() == old(db.Snapshot()).(tables := MarkTables(old(db.tables), {r.value.0}, r.value.1))
    ensures r.Err? ==> db.Snapshot() == old(db.Snapshot())
  {
    r := TableStatusCheck(db.Snapshot(), tableNumber, status);
    if r.Ok? {
      MarkTablesKeepsNumbers(db.tables, {r.value.0}, r.value.1);
      db.tables := MarkTables(db.tables, {r.value.0}, r.value.1);
    }
  }

  /** The reservation found for a table number: the first one whose table has it. */
  function ReservationAtTable(d: Db, tableNumber: int): (r: Option<int>)
    ensures r.Some? ==> r.value in d.reservations && d.reservations[r.value].tableId in d.tables
                        && d.tables[d.reservations[r.value].tableId].tableNumber == tableNumber
    ensures r.None? ==> forall k :: k in d.reservations && 1 <= k < d.nextId && d.reservations[k].tableId in d.tables
                                    ==> d.tables[d.reservations[k].tableId].tableNumber != tableNumber
  {
    FindFirst(d.reservations, (res: Reservation) => res.tableId in d.tables && d.tables[res.tableId].tableNumber == tableNumber,
              d.nextId)
  }

  /** `CashierCancelReservation` (controllers/cashier.js:78-100): a table number
      of at least 1 that has a reservation. The linked order, if any, must still
      exist, or its delete fails before anything is written. */
  function CashierCancelCheck(d: Db, tableNumber: Input<int>): (r: Result<int>)
    ensures r.Err? && r.error.BadRequest? <==> !IntAtLeast(tableNumber, 1)
    ensures r.Err? && r.error.NotFound? <==> IntAtLeast(tableNumber, 1) && ReservationAtTable(d, tableNumber.v).None?
    ensures r.Ok? <==> IntAtLeast(tableNumber, 1) && ReservationAtTable(d, tableNumber.v).Some?
                       && (d.reservations[ReservationAtTable(d, tableNumber.v).value].orderId.Some? ==>
                             d.reservations[ReservationAtTable(d, tableNumber.v).value].orderId.value in d.orders)
    ensures r.Err? && r.error.ServerError? <==>
              IntAtLeast(tableNumber, 1) && ReservationAtTable(d, tableNumber.v).Some?
              && d.reservations[ReservationAtTable(d, tableNumber.v).value].orderId.Some?
              && d.reservations[ReservationAtTable(d, tableNumber.v).value].orderId.value !in d.orders
    ensures r.Err? ==> r.error.BadRequest? || r.error.NotFound? || r.error.ServerError?
    ensures r.Ok? ==> Some(r.value) == ReservationAtTable(d, tableNumber.v)
  {
    if !IntAtLeast(tableNumber, 1) then Err(BadRequest("invalid table number"))
    else
      match ReservationAtTable(d, tableNumber.v)
      case None => Err(NotFound("no reservation for this table"))
      case Some(k) =>
        if d.reservations[k].orderId.Some? && d.reservations[k].orderId.value !in d.orders
        then Err(ServerError("order to delete does not exist"))
        else Ok(k)
  }

  /** The order linked to reservation `k` deleted, then the reservation, then its table AVAILABLE. */
  function AfterCashierCancel(d: Db, k: int): Db
    requires k in d.reservations
  {
    var res := d.reservations[k];
    var orders := if res.orderId.Some? then d.orders - {res.orderId.value} else d.orders;
    d.(orders := orders, reservations := d.reservations - {k},
       tables := MarkTables(d.tables, {res.tableId}, TableStatus.Available))
  }

  method CashierCancelReservation(db: Database, tableNumber: Input<int>) returns (r: Result<int>)
    requires db.Valid()
    modifies db
    ensures db.Valid()
    ensures r == CashierCancelCheck(old(db.Snapshot()), tableNumber)
    ensures r.Ok? ==> db.Snapshot() == AfterCashierCancel(old(db.Snapshot()), r.value)
    ensures r.Err? ==> db.Snapshot() == old(db.Snapshot())
  {
    r := CashierCancelCheck(db.Snapshot(), tableNumber);
    if r.Err? {
      return;
    }
    ghost var e := AfterCashierCancel(db.Snapshot(), r.value);
    CashierCancelValid(db.Snapshot(), r.value);
    var res := db.reservations[r.value];
    if res.orderId.Some? {
      db.orders := db.orders - {res.orderId.value};
    }
    db.reservations := db.reservations - {r.value};
    db.tables := MarkTables(db.tables, {res.tableId}, TableStatus.Available);
    assert db.Snapshot() == e;
  }

  lemma CashierCancelValid(d: Db, k: int)
    requires d.Valid() && k in d.reservations
    ensures AfterCashierCancel(d, k).Valid()
  {
    MarkTablesKeepsNumbers(d.tables, {d.reservations[k].tableId}, TableStatus.Available);
  }

  /** After the cashier cancels, the table with that number is AVAILABLE, the
      reservation and its order are gone, and every other reservation is kept. */
  lemma CashierCancelFreesTable(d: Db, tableNumber: Input<int>)
    requires CashierCancelCheck(d, tableNumber).Ok?
    ensures var k := CashierCancelCheck(d, tableNumber).value;
            var e := AfterCashierCancel(d, k);
            && d.reservations[k].tableId in e.tables
            && e.tables[d.reservations[k].tableId].tableNumber == tableNumber.v
            && e.tables[d.reservations[k].tableId].status == TableStatus.Available
            && k !in e.reservations
            && (d.reservations[k].orderId.Some? ==> d.reservations[k].orderId.value !in e.orders)
            && forall j :: j in d.reservations && j != k ==> j in e.reservations && e.reservations[j] == d.reservations[j]
  {
  }

  // ---------------------------------------------------------------- menu

  /** The fields of `CashierupdateMenu` after parsing: `name` is `None` when
      the field is falsy; `price` is `Absent` when the field is falsy. */
  function CashierMenuCheck(d: Db, id: Input<int>, name: Option<string>, price: Input<int>): (r: Outcome)
    ensures r.Pass? <==> Truthy(id) && !(NoName(name) && !price.Value?) && !price.Invalid?
                         && !(price.Value? && price.v < 0) && id.v in d.menus
    ensures r.Fail? && r.error.NotFound? <==> Truthy(id) && !(NoName(name) && !price.Value?) && !price.Invalid?
                                              && !(price.Value? && price.v < 0) && id.v !in d.menus
    ensures r.Fail? ==> r.error.BadRequest? || r.error.NotFound?
  {
    if !Truthy(id) then Fail(BadRequest("invalid menu id"))
    else if NoName(name) && !price.Value? then Fail(BadRequest("name or price required"))
    else if price.Invalid? || (price.Value? && price.v < 0) then Fail(BadRequest("price must be at least 0"))
    else if id.v !in d.menus then Fail(NotFound("menu"))
    else Pass
  }

  /** No usable name: absent, or empty once trimmed. */
  predicate NoName(name: Option<string>) {
    name.None? || Trim(name.value) == ""
  }

  /** The menu with a supplied non-empty name and a supplied price written over the old ones. */
  function EditedMenu(m: Menu, name: Option<string>, price: Input<int>): (e: Menu)
    ensures e.name == (if NoName(name) then m.name else Trim(name.value))
    ensures e.price == (if price.Value? then price.v else m.price)
    ensures e.(name := m.name, price := m.price) == m
  {
    m.(name := if NoName(name) then m.name else Trim(name.value),
       price := if price.Value? then price.v else m.price)
  }

  method CashierUpdateMenu(db: Database, id: Input<int>, name: Option<string>, price: Input<int>) returns (r: Outcome)
    requires db.Valid()
    modifies db
    ensures db.Valid()
    ensures r == CashierMenuCheck(old(db.Snapshot()), id, name, price)
    ensures r.Pass? ==> db.Snapshot() == old(db.Snapshot()).(menus := old(db.menus)[id.v := EditedMenu(old(db.menus)[id.v], name, price)])
    ensures r.Fail? ==> db.Snapshot() == old(db.Snapshot())
  {
    r := CashierMenuCheck(db.Snapshot(), id, name, price);
    if r.Pass? {
      ghost var d0 := db.Snapshot();
      var m := EditedMenu(db.menus[id.v], name, price);
      MenuRewriteValid(d0, id.v, m);
      db.menus := db.menus[id.v := m];
      assert db.Snapshot() == d0.(menus := d0.menus[id.v := m]);
    }
  }

  // ---------------------------------------------------------------- orders at the counter

  /** One entry of the request's `items` after `parseInt`. */
  datatype RawLine = RawLine(menuId: Input<int>, quantity: Input<int>)

  /** An entry `addItemOrderCashier` accepts: a non-zero menu id and a quantity of at least 1. */
  predicate CounterLineOk(l: RawLine) {
    Truthy(l.menuId) && Truthy(l.quantity) && l.quantity.v >= 1
  }

  /** The message for the first entry that is refused, if any. */
  function FirstBadLine(items: seq<RawLine>): (m: Option<string>)
    ensures m.None? <==> forall i :: 0 <= i < |items| ==> CounterLineOk(items[i])
  {
    if items == [] then None
    else if !Truthy(items[0].menuId) then Some("invalid menuItemId")
    else if !Truthy(items[0].quantity) || items[0].quantity.v < 1 then Some("quantity must be at least 1")
    else
      var m := FirstBadLine(items[1..]);
      assert forall i :: 1 <= i < |items| ==> items[i] == items[1..][i - 1];
      m
  }

  /** The lines of entries that all passed. */
  function LinesOf(items: seq<RawLine>): (lines: seq<Line>)
    requires forall i :: 0 <= i < |items| ==> items[i].menuId.Value? && items[i].quantity.Value?
    ensures |lines| == |items|
    ensures forall i :: 0 <= i < |items| ==> lines[i] == Line(items[i].menuId.v, items[i].quantity.v)
  {
    seq(|items|, i requires 0 <= i < |items| => Line(items[i].menuId.v, items[i].quantity.v))
  }

  /** The menu ids of `lines`. */
  function MenuIds(lines: seq<Line>): (ids: seq<int>)
    ensures |ids| == |lines| && forall i :: 0 <= i < |lines| ==> ids[i] == lines[i].menuId
  {
    seq(|lines|, i requires 0 <= i < |lines| => lines[i].menuId)
  }

  /** `addItemOrderCashier`'s checks (controllers/cashier.js:210-250), in order:
      a non-zero table number; at least one entry (a non-array `items` counts
      as none); every entry well formed; the table exists; as many distinct
      existing menu items as entries. On success: the table id and the lines. */
  function CounterOrderCheck(d: Db, tableNumber: Input<int>, items: seq<RawLine>): (r: Result<(int, seq<Line>)>)
    ensures r.Ok? ==>
              && Truthy(tableNumber) && items != [] && (forall i :: 0 <= i < |items| ==> CounterLineOk(items[i]))
              && Some(r.value.0) == TableByNumber(d, tableNumber.v) && r.value.1 == LinesOf(items)
              && (forall i :: 0 <= i < |items| ==> items[i].menuId.v in d.menus)
              && Distinct(MenuIds(r.value.1)) == |items|
    ensures r.Err? && r.error.NotFound? <==>
              Truthy(tableNumber) && items != [] && (forall i :: 0 <= i < |items| ==> CounterLineOk(items[i]))
              && TableByNumber(d, tableNumber.v).None?
    ensures r.Err? ==> r.error.BadRequest? || r.error.NotFound?
    ensures r.Ok? <==>
              && Truthy(tableNumber) && items != [] && (forall i :: 0 <= i < |items| ==> CounterLineOk(items[i]))
              && TableByNumber(d, tableNumber.v).Some?
              && (forall i :: 0 <= i < |items| ==> items[i].menuId.v in d.menus)
              && Distinct(MenuIds(LinesOf(items))) == |items|
  {
    if !Truthy(tableNumber) then Err(BadRequest("invalid table number"))
    else if items == [] then Err(BadRequest("no items"))
    else if FirstBadLine(items).Some? then Err(BadRequest(FirstBadLine(items).value))
    else
      match TableByNumber(d, tableNumber.v)
      case None => Err(NotFound("table"))
      case Some(t) =>
        var lines := LinesOf(items);
        if Found(d.menus, MenuIds(lines)) != |lines| then Err(BadRequest("unknown menu item"))
        else Ok((t, lines))
  }

  /** The order the counter creates: no customer, PENDING and unpaid by the
      schema's defaults, no payment method yet. */
  function CounterOrder(tableId: int, items: seq<OrderItem>, total: int, now: int): Order {
    Order(None, Some(tableId), OrderStatus.Pending, Unpaid, None, None, total, now, items)
  }

  method AddCounterOrder(db: Database, tableNumber: Input<int>, items: seq<RawLine>, now: int, tableWriteOk: bool)
    returns (r: Result<int>)
    requires db.Valid()
    modifies db
    ensures db.Valid()
    ensures var c := CounterOrderCheck(old(db.Snapshot()), tableNumber, items);
            && (r.Err? <==> c.Err?)
            && (r.Err? ==> r.error == c.error && db.Snapshot() == old(db.Snapshot()))
            && (r.Ok? ==> (r.value == old(db.nextId)
                            && db.Snapshot() == Placed(old(db.Snapshot()), CounterOrderOf(old(db.Snapshot()), c.value, now),
                                                       c.value.0, now, tableWriteOk)))
  {
    var c := CounterOrderCheck(db.Snapshot(), tableNumber, items);
    if c.Err? {
      return Err(c.error);
    }
    var orderItems, total := PriceLines(db.menus, c.value.1);
    PlacedValid(db.Snapshot(), CounterOrder(c.value.0, orderItems, total, now), c.value.0, now, tableWriteOk);
    var id := PlaceOrder(db, CounterOrder(c.value.0, orderItems, total, now), c.value.0, now, tableWriteOk);
    r := Ok(id);
  }

  /** The order created for a checked request. */
  function CounterOrderOf(d: Db, plan: (int, seq<Line>), now: int): Order {
    var items := Priced(d.menus, plan.1);
    CounterOrder(plan.0, items, Total(items), now)
  }

  /** The counter's order carries, line by line, the entries with the menu's
      current price; its total is the sum of price times quantity; it is
      PENDING and unpaid, on the requested table, and exactly one RESERVED
      reservation points at it. */
  lemma CounterOrderCharges(d: Db, tableNumber: Input<int>, items: seq<RawLine>, now: int, tableWriteOk: bool)
    requires OrderRefsBelow(d.reservations, d.nextId)
    requires CounterOrderCheck(d, tableNumber, items).Ok?
    ensures var c := CounterOrderCheck(d, tableNumber, items);
            var e := Placed(d, CounterOrderOf(d, c.value, now), c.value.0, now, tableWriteOk);
            && d.nextId in e.orders && d.nextId + 1 in e.reservations
            && var o := e.orders[d.nextId];
               && |o.items| == |items|
               && (forall i :: 0 <= i < |items| ==>
                     o.items[i] == OrderItem(Some(items[i].menuId.v), None, items[i].quantity.v, d.menus[items[i].menuId.v].price))
               && o.totalPrice == LinesCost(d.menus, c.value.1)
               && o.status == OrderStatus.Pending && o.paymentStatus == Unpaid && o.tableId == Some(c.value.0)
               && d.tables[c.value.0].tableNumber == tableNumber.v
               && (forall k :: k in e.reservations && e.reservations[k].orderId == Some(d.nextId) ==> k == d.nextId + 1)
               && e.reservations[d.nextId + 1].status == ReservationStatus.Reserved
               && e.reservations[d.nextId + 1].tableId == c.value.0
  {
    var c := CounterOrderCheck(d, tableNumber, items);
    var o := CounterOrderOf(d, c.value, now);
    var e := Placed(d, o, c.value.0, now, tableWriteOk);
    PlacedReservation(d, o, c.value.0, now, tableWriteOk);
    assert e.orders[d.nextId] == o;
    PricedTotal(d.menus, c.value.1);
    assert o.totalPrice == LinesCost(d.menus, c.value.1);
    CounterItems(d, c.value, items, now);
    assert d.tables[c.value.0].tableNumber == tableNumber.v;
  }

  lemma CounterItems(d: Db, plan: (int, seq<Line>), items: seq<RawLine>, now: int)
    requires forall i :: 0 <= i < |items| ==> items[i].menuId.Value? && items[i].quantity.Value? && items[i].menuId.v in d.menus
    requires plan.1 == LinesOf(items)
    ensures var o := CounterOrderOf(d, plan, now);
            && |o.items| == |items|
            && forall i :: 0 <= i < |items| ==>
                 o.items[i] == OrderItem(Some(items[i].menuId.v), None, items[i].quantity.v, d.menus[items[i].menuId.v].price)
  {
    var o := CounterOrderOf(d, plan, now);
    forall i | 0 <= i < |items|
      ensures o.items[i] == OrderItem(Some(items[i].menuId.v), None, items[i].quantity.v, d.menus[items[i].menuId.v].price)
    {
      assert plan.1[i] == Line(items[i].menuId.v, items[i].quantity.v);
    }
  }

  // ---------------------------------------------------------------- order status

  /** The status `updateOrderStatusCashier` accepts: present, non-blank once
      trimmed, and PENDING, COMPLETED or CANCELLED once upper-cased. */
  predicate StatusGiven(status: Option<string>) {
    status.Some? && Trim(status.value) != "" && ParseOrderStatus(Upper(Trim(status.value))).Some?
  }

  /** `updateOrderStatusCashier` (controllers/cashier.js:355-394): an id that
      `isNaN` accepts; a trimmed status that, upper-cased, is PENDING,
      COMPLETED or CANCELLED; then `parseInt` of the id, which Prisma refuses
      with 500 when it is NaN; the order must exist. The status is stored
      upper-cased. */
  function OrderStatusCheck(d: Db, id: Checked<int>, status: Option<string>): (r: Result<OrderStatus>)
    ensures r.Err? && r.error.BadRequest? <==> !id.Accepted? || !StatusGiven(status)
    ensures r.Err? && r.error.ServerError? <==> id.Accepted? && StatusGiven(status) && id.parsed.None?
    ensures r.Err? && r.error.NotFound? <==> id.Parsed() && StatusGiven(status) && id.parsed.value !in d.orders
    ensures r.Ok? <==> id.Parsed() && StatusGiven(status) && id.parsed.value in d.orders
    ensures r.Ok? ==> r.value.Name() == Upper(Trim(status.value))
    ensures r.Err? ==> r.error.BadRequest? || r.error.ServerError? || r.error.NotFound?
  {
    if !id.Accepted? then Err(BadRequest("invalid order id"))
    else if !StatusGiven(status) then Err(BadRequest("invalid status"))
    else if id.parsed.None? then Err(ServerError("order id is NaN"))
    else if id.parsed.value !in d.orders then Err(NotFound("order"))
    else Ok(ParseOrderStatus(Upper(Trim(status.value))).value)
  }

  method UpdateOrderStatus(db: Database, id: Checked<int>, status: Option<string>) returns (r: Result<OrderStatus>)
    requires db.Valid()
    modifies db
    ensures db.Valid()
    ensures r == OrderStatusCheck(old(db.Snapshot()), id, status)
    ensures r.Ok? ==> db.Snapshot() == old(db.Snapshot()).(orders := old(db.orders)[id.parsed.value :=
                        old(db.orders)[id.parsed.value].(status := r.value)])
    ensures r.Err? ==> db.Snapshot() == old(db.Snapshot())
  {
    r := OrderStatusCheck(db.Snapshot(), id, status);
    if r.Ok? {
      var k := id.parsed.value;
      OrderEditValid(db.Snapshot(), k, db.orders[k].(status := r.value));
      db.orders := db.orders[k := db.orders[k].(status := r.value)];
    }
  }

  /** Rewriting an existing order keeps the database well formed. */
  lemma OrderEditValid(d: Db, id: int, o: Order)
    requires d.Valid() && id in d.orders
    ensures d.(orders := d.orders[id := o]).Valid()
  {
  }

  /** `cancelOrderCashier` (controllers/cashier.js:396-428): an id of at least 1
      of an existing order, which is then deleted. */
  function CancelOrderCheck(d: Db, id: Input<int>): (r: Outcome)
    ensures r.Pass? <==> IntAtLeast(id, 1) && id.v in d.orders
    ensures r.Fail? && r.error.NotFound? <==> IntAtLeast(id, 1) && id.v !in d.orders
    ensures r.Fail? ==> r.error.BadRequest? || r.error.NotFound?
  {
    if !IntAtLeast(id, 1) then Fail(BadRequest("invalid order id"))
    else if id.v !in d.orders then Fail(NotFound("order"))
    else Pass
  }

  method CancelOrder(db: Database, id: Input<int>) returns (r: Outcome)
    requires db.Valid()
    modifies db
    ensures db.Valid()
    ensures r == CancelOrderCheck(old(db.Snapshot()), id)
    ensures r.Pass? ==> db.Snapshot() == old(db.Snapshot()).(orders := old(db.orders) - {id.v})
    ensures r.Fail? ==> db.Snapshot() == old(db.Snapshot())
  {
    r := CancelOrderCheck(db.Snapshot(), id);
    if r.Pass? {
      db.orders := db.orders - {id.v};
    }
  }

  /** What `getOrderStatusCashier` answers. */
  datatype OrderView = OrderView(orderId: int, userId: int, username: string, email: string, totalPrice: int,
                                 paymentStatus: string, paymentMethod: Option<string>, createdAt: int,
                                 items: seq<OrderItem>)

  /** `getOrderStatusCashier` (controllers/cashier.js:430-484): an id of at least
      1, then the lookup `ViewOf`. */
  function OrderStatusView(d: Db, id: Input<int>, viewer: int, role: string): (r: Result<OrderView>)
    ensures r.Err? && r.error.BadRequest? <==> !IntAtLeast(id, 1)
    ensures IntAtLeast(id, 1) ==> r == ViewOf(d, id.v, viewer, role)
  {
    if !IntAtLeast(id, 1) then Err(BadRequest("invalid order id")) else ViewOf(d, id.v, viewer, role)
  }

  /** The order view shared by the cashier's and the admin's order-status
      handlers: the order must exist; anyone but an ADMIN must own it. The
      answer dereferences the order's user and each line's menu item, so an
      order without a customer or with a free-text line fails with 500 even
      for an ADMIN. */
  function ViewOf(d: Db, id: int, viewer: int, role: string): (r: Result<OrderView>)
    ensures r.Err? ==> r.error.NotFound? || r.error.Forbidden? || r.error.ServerError?
    ensures r.Err? && r.error.NotFound? <==> id !in d.orders
    ensures r.Err? && r.error.Forbidden? <==>
              id in d.orders && role != "ADMIN" && d.orders[id].userId != Some(viewer)
    ensures r.Ok? <==> id in d.orders && (role == "ADMIN" || d.orders[id].userId == Some(viewer))
                       && d.orders[id].userId.Some? && d.orders[id].userId.value in d.users
                       && forall i :: 0 <= i < |d.orders[id].items| ==> d.orders[id].items[i].menuId.Some?
    ensures r.Ok? ==> id in d.orders && r.value.orderId == id && Some(r.value.userId) == d.orders[id].userId
                      && r.value.totalPrice == d.orders[id].totalPrice && r.value.items == d.orders[id].items
                      && r.value.paymentStatus == d.orders[id].paymentStatus
  {
    if id !in d.orders then Err(NotFound("order"))
    else
      var o := d.orders[id];
      if role != "ADMIN" && o.userId != Some(viewer) then Err(Forbidden("not your order"))
      else if o.userId.None? || o.userId.value !in d.users then Err(ServerError("order has no user"))
      else if exists i :: 0 <= i < |o.items| && o.items[i].menuId.None? then Err(ServerError("line without menu item"))
      else
        var u := d.users[o.userId.value];
        Ok(OrderView(id, o.userId.value, u.username, u.email, o.totalPrice, o.paymentStatus, o.paymentMethod,
                     o.createdAt, o.items))
  }

  // ---------------------------------------------------------------- payment status

  /** The payment states the cashier may set. */
  predicate CashierPaymentToken(s: string) {
    s == Paid || s == Unpaid || s == OrderCancelledThai
  }

  /** `updatePaymentStatusCashier` (controllers/cashier.js:487-519): an id of at
      least 1, a trimmed status among the three Thai payment states, an
      existing order. On success the trimmed status is stored. */
  function PaymentStatusCheck(d: Db, id: Input<int>, status: string): (r: Outcome)
    ensures r.Pass? <==> IntAtLeast(id, 1) && CashierPaymentToken(Trim(status)) && id.v in d.orders
    ensures r.Fail? && r.error.NotFound? <==> IntAtLeast(id, 1) && CashierPaymentToken(Trim(status)) && id.v !in d.orders
    ensures r.Fail? ==> r.error.BadRequest? || r.error.NotFound?
  {
    if !IntAtLeast(id, 1) then Fail(BadRequest("invalid order id"))
    else if !CashierPaymentToken(Trim(status)) then Fail(BadRequest("invalid status"))
    else if id.v !in d.orders then Fail(NotFound("order"))
    else Pass
  }

  method UpdatePaymentStatus(db: Database, id: Input<int>, status: string) returns (r: Outcome)
    requires db.Valid()
    modifies db
    ensures db.Valid()
    ensures r == PaymentStatusCheck(old(db.Snapshot()), id, status)
    ensures r.Pass? ==> db.Snapshot() == old(db.Snapshot()).(
              orders := old(db.orders)[id.v := old(db.orders)[id.v].(paymentStatus := Trim(status))])
    ensures r.Fail? ==> db.Snapshot() == old(db.Snapshot())
  {
    r := PaymentStatusCheck(db.Snapshot(), id, status);
    if r.Pass? {
      db.orders := db.orders[id.v := db.orders[id.v].(paymentStatus := Trim(status))];
    }
  }

  // ---------------------------------------------------------------- replacing an order's lines

  /** An entry `updateOrderByCashier` accepts: menu id and quantity both integers of at least 1. */
  predicate ReplacementLineOk(l: RawLine) {
    IntAtLeast(l.menuId, 1) && IntAtLeast(l.quantity, 1)
  }

  /** The request passes the checks made before the order is looked up: an
      id of at least 1 and a non-empty `items` array of well-formed entries. */
  predicate ReplacementShapeOk(id: Input<int>, items: Option<seq<RawLine>>) {
    && IntAtLeast(id, 1) && items.Some? && items.value != []
    && forall i :: 0 <= i < |items.value| ==> ReplacementLineOk(items.value[i])
  }

  /** Every line names an existing menu item. */
  predicate LineMenusKnown(d: Db, lines: seq<Line>) {
    forall i :: 0 <= i < |lines| ==> lines[i].menuId in d.menus
  }

  /** `updateOrderByCashier`'s checks (controllers/cashier.js:557-643): an id of
      at least 1; `items` an array (`None` otherwise) with at least one entry;
      every entry well formed, or the handler throws and answers 500; the
      order must exist. After the old lines are deleted, a line naming no
      menu item breaks the line-to-menu relation when the new lines are
      created, and the handler answers 500. */
  function ReplaceItemsCheck(d: Db, id: Input<int>, items: Option<seq<RawLine>>): (r: Result<seq<Line>>)
    ensures r.Ok? <==> ReplacementShapeOk(id, items) && id.v in d.orders && LineMenusKnown(d, LinesOf(items.value))
    ensures r.Ok? ==> r.value == LinesOf(items.value)
    ensures r.Err? && r.error.BadRequest? <==> !IntAtLeast(id, 1) || items.None? || items.value == []
    ensures r.Err? && r.error.NotFound? <==> ReplacementShapeOk(id, items) && id.v !in d.orders
    ensures r.Err? && r.error.ServerError? <==>
              && IntAtLeast(id, 1) && items.Some? && items.value != []
              && (|| (exists i :: 0 <= i < |items.value| && !ReplacementLineOk(items.value[i]))
                  || (ReplacementShapeOk(id, items) && id.v in d.orders && !LineMenusKnown(d, LinesOf(items.value))))
    ensures r.Err? ==> r.error.BadRequest? || r.error.NotFound? || r.error.ServerError?
  {
    if !IntAtLeast(id, 1) then Err(BadRequest("invalid order id"))
    else if items.None? || items.value == [] then Err(BadRequest("invalid items"))
    else if exists i :: 0 <= i < |items.value| && !ReplacementLineOk(items.value[i]) then Err(ServerError("invalid item"))
    else if id.v !in d.orders then Err(NotFound("order"))
    else if !LineMenusKnown(d, LinesOf(items.value)) then Err(ServerError("unknown menu item"))
    else Ok(LinesOf(items.value))
  }

  /** The order with its lines replaced by `lines` at the menu's current prices
      and its total recomputed. */
  function Replaced(d: Db, id: int, lines: seq<Line>): Db
    requires id in d.orders
  {
    var items := Priced(d.menus, lines);
    d.(orders := d.orders[id := d.orders[id].(items := items, totalPrice := Total(items))])
  }

  /** The order with its lines deleted and its total left as it was: what the
      non-transactional delete leaves when creating the new lines fails. */
  function Cleared(d: Db, id: int): Db
    requires id in d.orders
  {
    d.(orders := d.orders[id := d.orders[id].(items := [])])
  }

  /** Deletes the old lines, prices the new ones, then writes them and the
      total. The delete commits on its own, so a failure after it leaves the
      order without lines. */
  method ReplaceOrderItems(db: Database, id: Input<int>, items: Option<seq<RawLine>>) returns (r: Result<seq<Line>>)
    requires db.Valid()
    modifies db
    ensures db.Valid()
    ensures r == ReplaceItemsCheck(old(db.Snapshot()), id, items)
    ensures r.Ok? ==> db.Snapshot() == Replaced(old(db.Snapshot()), id.v, r.value)
    ensures r.Err? && !(ReplacementShapeOk(id, items) && id.v in old(db.orders)) ==> db.Snapshot() == old(db.Snapshot())
    ensures r.Err? && ReplacementShapeOk(id, items) && id.v in old(db.orders) ==>
              db.Snapshot() == Cleared(old(db.Snapshot()), id.v)
  {
    r := ReplaceItemsCheck(db.Snapshot(), id, items);
    if !(ReplacementShapeOk(id, items) && id.v in db.orders) {
      return;
    }
    db.orders := db.orders[id.v := db.orders[id.v].(items := [])];
    if r.Err? {
      return;
    }
    var newItems, total := PriceLines(db.menus, r.value);
    db.orders := db.orders[id.v := db.orders[id.v].(items := newItems, totalPrice := total)];
  }

  /** After the replacement the order holds exactly the new lines, none of the
      old ones, each at the menu's price, and its total is their sum; every
      other order is untouched. (`Replaced` prices an unknown item at 0, as
      `priceMap[...] || 0` does, but the handler never commits such a line.) */
  lemma ReplacedCharges(d: Db, id: int, lines: seq<Line>)
    requires id in d.orders
    ensures var o := Replaced(d, id, lines).orders[id];
            && |o.items| == |lines|
            && (forall i :: 0 <= i < |lines| ==>
                  && o.items[i].menuId == Some(lines[i].menuId)
                  && o.items[i].quantity == lines[i].quantity
                  && (lines[i].menuId in d.menus ==> o.items[i].price == d.menus[lines[i].menuId].price)
                  && (lines[i].menuId !in d.menus ==> o.items[i].price == 0))
            && o.totalPrice == LinesCost(d.menus, lines)
            && o.userId == d.orders[id].userId && o.paymentStatus == d.orders[id].paymentStatus
    ensures forall j :: j in d.orders && j != id ==> Replaced(d, id, lines).orders[j] == d.orders[j]
  {
    PricedTotal(d.menus, lines);
  }
}
