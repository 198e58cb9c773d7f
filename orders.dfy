/** The staff order handlers (controllers/orders.js): orders taken for a table,
    status and payment updates, rewriting an order's lines, deleting an order,
    and the tables with unpaid orders. */
module OrdersController {
  import opened Http
  import opened Text
  import opened Schema
  import opened Store
  import opened Pricing
  import opened Ordering
  import opened Enums

  /** `mapThaiStatusToEnum` (controllers/orders.js:7-14): the Thai order-status
      words become the English names; anything else passes through. */
  function MapThaiStatus(s: string): (r: string)
    ensures s == "รอดำเนินการ" ==> r == "PENDING"
    ensures s == "สำเร็จ" ==> r == "COMPLETED"
    ensures s == "ยกเลิก" ==> r == "CANCELLED"
    ensures s != "รอดำเนินการ" && s != "สำเร็จ" && s != "ยกเลิก" ==> r == s
  {
    if s == "รอดำเนินการ" then "PENDING"
    else if s == "สำเร็จ" then "COMPLETED"
    else if s == "ยกเลิก" then "CANCELLED"
    else s
  }

  /** Mapping twice is mapping once, and every result of a Thai word is a valid order status. */
  lemma MapThaiStatusIdempotent(s: string)
    ensures MapThaiStatus(MapThaiStatus(s)) == MapThaiStatus(s)
    ensures s == "รอดำเนินการ" || s == "สำเร็จ" || s == "ยกเลิก" ==> IsOrderStatus(MapThaiStatus(s))
  {
    var r := MapThaiStatus(s);
    if r != s {
      assert r[0] != "รอดำเนินการ"[0] && r[0] != "สำเร็จ"[0] && r[0] != "ยกเลิก"[0];
    }
  }

  // ---------------------------------------------------------------- addItemOrder

  /** One entry of the request's `items` after `validator.toInt`. */
  datatype ItemRef = ItemRef(id: Input<int>, qty: Input<int>)

  function RefLines(items: seq<ItemRef>): (lines: seq<Line>)
    requires forall i :: 0 <= i < |items| ==> items[i].id.Value? && items[i].qty.Value?
    ensures |lines| == |items|
    ensures forall i :: 0 <= i < |items| ==> lines[i] == Line(items[i].id.v, items[i].qty.v)
  {
    seq(|items|, i requires 0 <= i < |items| => Line(items[i].id.v, items[i].qty.v))
  }

  function RefIds(items: seq<ItemRef>): (ids: seq<int>)
    requires forall i :: 0 <= i < |items| ==> items[i].id.Value?
    ensures |ids| == |items| && forall i :: 0 <= i < |items| ==> ids[i] == items[i].id.v
  {
    seq(|items|, i requires 0 <= i < |items| => items[i].id.v)
  }

  /** `addItemOrder`'s checks (controllers/orders.js:16-45), in order: a
      non-zero table number, at least one entry, a method and a status; the
      table exists; the store refuses a non-numeric menu id; as many distinct
      existing menu items as entries; the store refuses a non-numeric quantity
      and an unknown signed-in user. No quantity is checked for being positive. */
  function AddOrderCheck(d: Db, userId: int, tableNumber: Input<int>, items: seq<ItemRef>, payMethod: string,
                         payStatus: string): (r: Result<(int, seq<Line>)>)
    ensures r.Err? && r.error.BadRequest? <==>
              || !OrderFieldsGiven(tableNumber, items, payMethod, payStatus)
              || (TableByNumber(d, tableNumber.v).Some? && IdsNumeric(items) && Found(d.menus, RefIds(items)) != |items|)
    ensures r.Err? && r.error.NotFound? <==>
              OrderFieldsGiven(tableNumber, items, payMethod, payStatus) && TableByNumber(d, tableNumber.v).None?
    ensures r.Err? && r.error.ServerError? <==>
              && OrderFieldsGiven(tableNumber, items, payMethod, payStatus) && TableByNumber(d, tableNumber.v).Some?
              && (|| !IdsNumeric(items)
                  || (Found(d.menus, RefIds(items)) == |items| && (!QuantitiesNumeric(items) || userId !in d.users)))
    ensures r.Err? ==> r.error.BadRequest? || r.error.NotFound? || r.error.ServerError?
    ensures r.Ok? <==>
              && OrderFieldsGiven(tableNumber, items, payMethod, payStatus) && TableByNumber(d, tableNumber.v).Some?
              && IdsNumeric(items) && Found(d.menus, RefIds(items)) == |items| && QuantitiesNumeric(items)
              && userId in d.users
    ensures r.Ok? ==>
              && (forall i :: 0 <= i < |items| ==> items[i].id.v in d.menus)
              && Some(r.value.0) == TableByNumber(d, tableNumber.v) && r.value.1 == RefLines(items)
              && Distinct(RefIds(items)) == |items|
  {
    if !OrderFieldsGiven(tableNumber, items, payMethod, payStatus) then Err(BadRequest("missing fields"))
    else
      match TableByNumber(d, tableNumber.v)
      case None => Err(NotFound("table"))
      case Some(t) =>
        if !IdsNumeric(items) then Err(ServerError("menu id is not a number"))
        else if Found(d.menus, RefIds(items)) != |items| then Err(BadRequest("unknown menu item"))
        else if !QuantitiesNumeric(items) then Err(ServerError("quantity is not a number"))
        else if userId !in d.users then Err(ServerError("unknown user"))
        else Ok((t, RefLines(items)))
  }

  /** The fields `addItemOrder` requires: a non-zero table number, at least
      one entry, a payment method and a payment status. */
  predicate OrderFieldsGiven(tableNumber: Input<int>, items: seq<ItemRef>, payMethod: string, payStatus: string) {
    Truthy(tableNumber) && items != [] && payMethod != "" && payStatus != ""
  }

  predicate IdsNumeric(items: seq<ItemRef>) {
    forall i :: 0 <= i < |items| ==> items[i].id.Value?
  }

  predicate QuantitiesNumeric(items: seq<ItemRef>) {
    forall i :: 0 <= i < |items| ==> items[i].qty.Value?
  }

  /** The order `addItemOrder` creates: the signed-in user's, PENDING, with the
      given method and payment status strings stored as they are. */
  function StaffOrderOf(d: Db, userId: int, plan: (int, seq<Line>), payMethod: string, payStatus: string,
                        slipUrl: Option<string>, now: int): Order {
    var items := Priced(d.menus, plan.1);
    Order(Some(userId), Some(plan.0), OrderStatus.Pending, payStatus, Some(payMethod), slipUrl, Total(items), now, items)
  }

  method AddItemOrder(db: Database, userId: int, tableNumber: Input<int>, items: seq<ItemRef>, payMethod: string,
                      payStatus: string, slipUrl: Option<string>, now: int, tableWriteOk: bool) returns (r: Result<int>)
    requires db.Valid()
    modifies db
    ensures db.Valid()
    ensures var c := AddOrderCheck(old(db.Snapshot()), userId, tableNumber, items, payMethod, payStatus);
            && (r.Err? <==> c.Err?)
            && (r.Err? ==> r.error == c.error && db.Snapshot() == old(db.Snapshot()))
            && (r.Ok? ==> (r.value == old(db.nextId)
                            && db.Snapshot() == Placed(old(db.Snapshot()),
                                                       StaffOrderOf(old(db.Snapshot()), userId, c.value, payMethod, payStatus, slipUrl, now),
                                                       c.value.0, now, tableWriteOk)))
  {
    var c := AddOrderCheck(db.Snapshot(), userId, tableNumber, items, payMethod, payStatus);
    if c.Err? {
      return Err(c.error);
    }
    var orderItems, total := PriceLines(db.menus, c.value.1);
    var order := Order(Some(userId), Some(c.value.0), OrderStatus.Pending, payStatus, Some(payMethod), slipUrl, total, now,
                       orderItems);
    PlacedValid(db.Snapshot(), order, c.value.0, now, tableWriteOk);
    var id := PlaceOrder(db, order, c.value.0, now, tableWriteOk);
    r := Ok(id);
  }

  /** The staff order's total is the sum of menu price times quantity over the
      entries, and exactly one RESERVED reservation on its table points at it. */
  lemma StaffOrderCharges(d: Db, userId: int, tableNumber: Input<int>, items: seq<ItemRef>, payMethod: string,
                          payStatus: string, slipUrl: Option<string>, now: int, tableWriteOk: bool)
    requires OrderRefsBelow(d.reservations, d.nextId)
    requires AddOrderCheck(d, userId, tableNumber, items, payMethod, payStatus).Ok?
    ensures var c := AddOrderCheck(d, userId, tableNumber, items, payMethod, payStatus);
            var e := Placed(d, StaffOrderOf(d, userId, c.value, payMethod, payStatus, slipUrl, now), c.value.0, now, tableWriteOk);
            && d.nextId in e.orders && d.nextId + 1 in e.reservations
            && e.orders[d.nextId].totalPrice == LinesCost(d.menus, c.value.1)
            && e.orders[d.nextId].userId == Some(userId)
            && e.orders[d.nextId].paymentStatus == payStatus
            && (forall k :: k in e.reservations && e.reservations[k].orderId == Some(d.nextId) ==> k == d.nextId + 1)
            && e.reservations[d.nextId + 1].status == ReservationStatus.Reserved
            && e.reservations[d.nextId + 1].tableId == c.value.0
  {
    var c := AddOrderCheck(d, userId, tableNumber, items, payMethod, payStatus);
    var o := StaffOrderOf(d, userId, c.value, payMethod, payStatus, slipUrl, now);
    PlacedReservation(d, o, c.value.0, now, tableWriteOk);
    PricedTotal(d.menus, c.value.1);
  }

  // ---------------------------------------------------------------- updateOrderStatus

  /** The fields `updateOrderStatus` writes; `None` leaves a field as it is. */
  datatype OrderPatch = OrderPatch(status: Option<OrderStatus>, paymentMethod: Option<string>, paymentStatus: Option<string>)
  {
    predicate IsEmpty() {
      status.None? && paymentMethod.None? && paymentStatus.None?
    }
  }

  /** A request field that is present and not empty. */
  predicate Given(x: Option<string>) {
    x.Some? && x.value != ""
  }

  /** What `updateOrderStatus` writes (controllers/orders.js:194-224): a given
      status must be an OrderStatus name, and CANCELLED also sets the payment
      status to "order cancelled"; a given method must be a PaymentMethod; a
      given payment status must be a PaymentStatus, and is ignored when the
      status is CANCELLED; an empty update is refused. */
  function PatchFor(status: Option<string>, payMethod: Option<string>, payStatus: Option<string>): (r: Result<OrderPatch>)
    ensures r.Ok? ==> !r.value.IsEmpty()
    ensures r.Ok? && Given(status) && status.value == "CANCELLED" ==>
              r.value.status == Some(OrderStatus.Cancelled) && r.value.paymentStatus == Some(OrderCancelledThai)
    ensures r.Ok? && !(Given(status) && status.value == "CANCELLED") ==>
              r.value.paymentStatus == (if Given(payStatus) then payStatus else None)
    ensures r.Ok? ==> (r.value.status.Some? <==> Given(status))
                      && (Given(status) ==> r.value.status.value.Name() == status.value)
                      && r.value.paymentMethod == (if Given(payMethod) then payMethod else None)
    ensures r.Err? <==>
              || (Given(status) && !IsOrderStatus(status.value))
              || (Given(payMethod) && !IsPaymentMethod(payMethod.value))
              || (!(Given(status) && status.value == "CANCELLED") && Given(payStatus) && !IsPaymentStatus(payStatus.value))
              || (!Given(status) && !Given(payMethod) && !Given(payStatus))
    ensures r.Err? ==> r.error.BadRequest?
  {
    if Given(status) && !IsOrderStatus(status.value) then Err(BadRequest("invalid order status"))
    else
      var st := if Given(status) then ParseOrderStatus(status.value) else None;
      var ps := if Given(status) && status.value == "CANCELLED" then Some(OrderCancelledThai) else None;
      if Given(payMethod) && !IsPaymentMethod(payMethod.value) then Err(BadRequest("invalid payment method"))
      else
        var pm := if Given(payMethod) then payMethod else None;
        if Given(payStatus) && !(Given(status) && status.value == "CANCELLED") && !IsPaymentStatus(payStatus.value) then
          Err(BadRequest("invalid payment status"))
        else
          var ps2 := if Given(payStatus) && !(Given(status) && status.value == "CANCELLED") then payStatus else ps;
          var patch := OrderPatch(st, pm, ps2);
          if patch.IsEmpty() then Err(BadRequest("nothing to update")) else Ok(patch)
  }

  /** Builds the update field by field, as the handler fills `dataToUpdate`. */
  method BuildPatch(status: Option<string>, payMethod: Option<string>, payStatus: Option<string>) returns (r: Result<OrderPatch>)
    ensures r == PatchFor(status, payMethod, payStatus)
  {
    var patch := OrderPatch(None, None, None);
    if Given(status) {
      if !IsOrderStatus(status.value) {
        return Err(BadRequest("invalid order status"));
      }
      patch := patch.(status := ParseOrderStatus(status.value));
      if status.value == "CANCELLED" {
        patch := patch.(paymentStatus := Some(OrderCancelledThai));
      }
    }
    if Given(payMethod) {
      if !IsPaymentMethod(payMethod.value) {
        return Err(BadRequest("invalid payment method"));
      }
      patch := patch.(paymentMethod := payMethod);
    }
    if Given(payStatus) && patch.status != Some(OrderStatus.Cancelled) {
      if !IsPaymentStatus(payStatus.value) {
        return Err(BadRequest("invalid payment status"));
      }
      patch := patch.(paymentStatus := payStatus);
    }
    if patch.IsEmpty() {
      return Err(BadRequest("nothing to update"));
    }
    r := Ok(patch);
  }

  /** The order with the patch's fields written over it. */
  function Patched(o: Order, p: OrderPatch): (e: Order)
    ensures e.(status := o.status, paymentMethod := o.paymentMethod, paymentStatus := o.paymentStatus) == o
  {
    o.(status := if p.status.Some? then p.status.value else o.status,
       paymentMethod := if p.paymentMethod.Some? then p.paymentMethod else o.paymentMethod,
       paymentStatus := if p.paymentStatus.Some? then p.paymentStatus.value else o.paymentStatus)
  }

  /** `updateOrderStatus` on the store: the update is built first, and the
      store then refuses a non-numeric or unknown id (there is no 404 here). */
  method UpdateOrderStatus(db: Database, id: Input<int>, status: Option<string>, payMethod: Option<string>,
                           payStatus: Option<string>) returns (r: Result<OrderPatch>)
    requires db.Valid()
    modifies db
    ensures db.Valid()
    ensures PatchFor(status, payMethod, payStatus).Err? ==> r == PatchFor(status, payMethod, payStatus)
    ensures PatchFor(status, payMethod, payStatus).Ok? ==>
              (r.Ok? <==> id.Value? && id.v in old(db.orders)) && (r.Err? ==> r.error.ServerError?)
    ensures r.Ok? ==> r == PatchFor(status, payMethod, payStatus)
    ensures r.Ok? ==> db.Snapshot() == old(db.Snapshot()).(orders := old(db.orders)[id.v := Patched(old(db.orders)[id.v], r.value)])
    ensures r.Err? ==> db.Snapshot() == old(db.Snapshot())
  {
    r := BuildPatch(status, payMethod, payStatus);
    if r.Err? {
      return;
    }
    if !id.Value? || id.v !in db.orders {
      return Err(ServerError("record to update not found"));
    }
    db.orders := db.orders[id.v := Patched(db.orders[id.v], r.value)];
  }

  /** A CANCELLED status always wins over a payment status sent with it: the
      order ends up with the "order cancelled" token whatever was sent. */
  lemma CancelOverridesPayment(o: Order, payMethod: Option<string>, payStatus: Option<string>)
    requires PatchFor(Some("CANCELLED"), payMethod, payStatus).Ok?
    ensures var e := Patched(o, PatchFor(Some("CANCELLED"), payMethod, payStatus).value);
            e.status == OrderStatus.Cancelled && e.paymentStatus == OrderCancelledThai
  {
  }

  // ---------------------------------------------------------------- updateOrderDetail

  /** One row of `orderItems` after parsing: `menuId` is `Absent` when the field
      is empty, `name` is the trimmed name ("" when missing). */
  datatype DetailRow = DetailRow(menuId: Input<int>, name: string, qty: Input<int>, price: Input<int>)

  /** A row the handler accepts: a positive menu id or a name, a positive
      integer quantity and a price that is a number of at least 0. */
  predicate RowOk(row: DetailRow) {
    && ((row.menuId.Value? && row.menuId.v > 0) || row.name != "")
    && row.qty.Value? && row.qty.v > 0
    && row.price.Value? && row.price.v >= 0
  }

  /** The stored line of an accepted row; a menu id that is not positive is dropped. */
  function RowItem(row: DetailRow): (item: OrderItem)
    requires RowOk(row)
    ensures item.quantity == row.qty.v && item.price == row.price.v && item.name == Some(row.name)
    ensures item.menuId.Some? <==> row.menuId.Value? && row.menuId.v > 0
  {
    OrderItem(if row.menuId.Value? && row.menuId.v > 0 then Some(row.menuId.v) else None, Some(row.name),
              row.qty.v, row.price.v)
  }

  function RowItems(rows: seq<DetailRow>): (items: seq<OrderItem>)
    requires forall i :: 0 <= i < |rows| ==> RowOk(rows[i])
    ensures |items| == |rows| && forall i :: 0 <= i < |rows| ==> items[i] == RowItem(rows[i])
  {
    seq(|rows|, i requires 0 <= i < |rows| => RowItem(rows[i]))
  }

  /** `updateOrderDetail`'s checks (controllers/orders.js:238-302): `orderItems`
      an array (`None` otherwise) with at least one row; every row accepted
      (the first refused row answers 400); then the store refuses a
      non-numeric id, the order must exist, and a menu id must name a menu
      item or the line insert fails. */
  function DetailCheck(d: Db, id: Input<int>, rows: Option<seq<DetailRow>>): (r: Result<seq<OrderItem>>)
    ensures r.Err? && r.error.BadRequest? <==> !RowsOk(rows)
    ensures r.Err? && r.error.NotFound? <==> RowsOk(rows) && id.Value? && id.v !in d.orders
    ensures r.Err? && r.error.ServerError? <==>
              RowsOk(rows) && (!id.Value? || (id.v in d.orders && !MenusKnown(d, RowItems(rows.value))))
    ensures r.Err? ==> r.error.BadRequest? || r.error.NotFound? || r.error.ServerError?
    ensures r.Ok? <==> RowsOk(rows) && id.Value? && id.v in d.orders && MenusKnown(d, RowItems(rows.value))
    ensures r.Ok? ==> r.value == RowItems(rows.value)
  {
    if rows.None? || rows.value == [] then Err(BadRequest("no rows"))
    else if exists i :: 0 <= i < |rows.value| && !RowOk(rows.value[i]) then Err(BadRequest("invalid row"))
    else if !id.Value? then Err(ServerError("order id is not a number"))
    else if id.v !in d.orders then Err(NotFound("order"))
    else
      var items := RowItems(rows.value);
      if !MenusKnown(d, items) then Err(ServerError("unknown menu item"))
      else Ok(items)
  }

  /** A `rows` array with at least one row, every row accepted. */
  predicate RowsOk(rows: Option<seq<DetailRow>>) {
    rows.Some? && rows.value != [] && forall i :: 0 <= i < |rows.value| ==> RowOk(rows.value[i])
  }

  /** Every line that names a menu item names one that exists. */
  predicate MenusKnown(d: Db, items: seq<OrderItem>) {
    forall i :: 0 <= i < |items| && items[i].menuId.Some? ==> items[i].menuId.value in d.menus
  }

  /** Inside one transaction: the old lines deleted, the new ones inserted, the total written. */
  method UpdateOrderDetail(db: Database, id: Input<int>, rows: Option<seq<DetailRow>>) returns (r: Result<seq<OrderItem>>)
    requires db.Valid()
    modifies db
    ensures db.Valid()
    ensures r == DetailCheck(old(db.Snapshot()), id, rows)
    ensures r.Ok? ==> db.Snapshot() == old(db.Snapshot()).(
              orders := old(db.orders)[id.v := old(db.orders)[id.v].(items := r.value, totalPrice := Total(r.value))])
    ensures r.Err? ==> db.Snapshot() == old(db.Snapshot())
  {
    r := DetailCheck(db.Snapshot(), id, rows);
    if r.Err? {
      return;
    }
    var total := SumLines(r.value);
    db.orders := db.orders[id.v := db.orders[id.v].(items := [])];
    db.orders := db.orders[id.v := db.orders[id.v].(items := r.value)];
    db.orders := db.orders[id.v := db.orders[id.v].(totalPrice := total)];
  }

  /** `items.reduce((s, it) => s + it.qty * it.price, 0)`. */
  method SumLines(items: seq<OrderItem>) returns (total: int)
    ensures total == Total(items)
  {
    total := 0;
    var i := 0;
    while i < |items|
      invariant 0 <= i <= |items|
      invariant total == Total(items[..i])
    {
      assert items[..i + 1][..i] == items[..i];
      total := total + items[i].quantity * items[i].price;
      i := i + 1;
    }
    assert items[..i] == items;
  }

  /** After the rewrite the order's lines are exactly the accepted rows, in
      order, and its total is the sum of quantity times price over them,
      which is at least 0. */
  lemma DetailCharges(d: Db, id: Input<int>, rows: Option<seq<DetailRow>>)
    requires DetailCheck(d, id, rows).Ok?
    ensures var items := DetailCheck(d, id, rows).value;
            && |items| == |rows.value|
            && (forall i :: 0 <= i < |items| ==> items[i].quantity == rows.value[i].qty.v && items[i].price == rows.value[i].price.v)
            && Total(items) >= 0
  {
    var items := DetailCheck(d, id, rows).value;
    TotalNonNegative(items);
  }

  // ---------------------------------------------------------------- cancelOrder

  /** `cancelOrder` (controllers/orders.js:304-321): the store refuses a
      non-numeric id; an unknown order is 404; otherwise the order is deleted. */
  function DeleteOrderCheck(d: Db, id: Input<int>): (r: Outcome)
    ensures r.Pass? <==> id.Value? && id.v in d.orders
    ensures r.Fail? && r.error.NotFound? <==> id.Value? && id.v !in d.orders
    ensures r.Fail? && !r.error.NotFound? ==> r.error.ServerError?
  {
    if !id.Value? then Fail(ServerError("order id is not a number"))
    else if id.v !in d.orders then Fail(NotFound("order"))
    else Pass
  }

  method DeleteOrder(db: Database, id: Input<int>) returns (r: Outcome)
    requires db.Valid()
    modifies db
    ensures db.Valid()
    ensures r == DeleteOrderCheck(old(db.Snapshot()), id)
    ensures r.Pass? ==> db.Snapshot() == old(db.Snapshot()).(orders := old(db.orders) - {id.v})
    ensures r.Fail? ==> db.Snapshot() == old(db.Snapshot())
  {
    r := DeleteOrderCheck(db.Snapshot(), id);
    if r.Pass? {
      db.orders := db.orders - {id.v};
    }
  }

  // ---------------------------------------------------------------- getUnpaidTableNumbers

  /** The table numbers of unpaid orders that have a table, in order id order. */
  function UnpaidNumbersFrom(d: Db, lo: int): (ns: seq<int>)
    ensures forall n :: n in ns <==> exists k :: lo <= k < d.nextId && UnpaidAt(d, k, n)
    decreases d.nextId - lo
  {
    if lo >= d.nextId then []
    else
      var rest := UnpaidNumbersFrom(d, lo + 1);
      if lo in d.orders && d.orders[lo].paymentStatus == Unpaid && d.orders[lo].tableId.Some?
         && d.orders[lo].tableId.value in d.tables
      then
        assert UnpaidAt(d, lo, d.tables[d.orders[lo].tableId.value].tableNumber);
        [d.tables[d.orders[lo].tableId.value].tableNumber] + rest
      else rest
  }

  /** Order `k` is unpaid and sits at the table numbered `n`. */
  predicate UnpaidAt(d: Db, k: int, n: int) {
    k in d.orders && d.orders[k].paymentStatus == Unpaid && d.orders[k].tableId.Some?
    && d.orders[k].tableId.value in d.tables && d.tables[d.orders[k].tableId.value].tableNumber == n
  }

  /** The position of the first occurrence of `x` in `xs`. */
  function FirstIndex(xs: seq<int>, x: int): (i: nat)
    requires x in xs
    ensures i < |xs| && xs[i] == x
    ensures forall j :: 0 <= j < i ==> xs[j] != x
  {
    if xs[0] == x then 0 else 1 + FirstIndex(xs[1..], x)
  }

  /** Extending a list leaves the first occurrence of every element it already held where it was. */
  lemma FirstIndexPrefix(xs: seq<int>, n: nat, x: int)
    requires n <= |xs| && x in xs[..n]
    ensures FirstIndex(xs, x) == FirstIndex(xs[..n], x)
  {
    var i := FirstIndex(xs[..n], x);
    var k := FirstIndex(xs, x);
    assert xs[i] == x;
    assert k <= i;
    assert xs[..n][k] == x;
  }

  /** `[...new Set(xs)]`: the elements of `xs` without repeats, each at its
      first occurrence, so in the order those first occurrences come. */
  function Dedupe(xs: seq<int>): (r: seq<int>)
    ensures forall x :: x in r <==> x in xs
    ensures forall i, j :: 0 <= i < j < |r| ==> r[i] != r[j]
    ensures forall i :: 0 <= i < |r| ==> r[i] in xs
    ensures forall i, j :: 0 <= i < j < |r| ==> FirstIndex(xs, r[i]) < FirstIndex(xs, r[j])
    ensures |r| <= |xs|
    decreases |xs|
  {
    if xs == [] then []
    else
      var n := |xs| - 1;
      var r := Dedupe(xs[..n]);
      if xs[n] in r then DedupeSeen(xs, r); r
      else
        var s := r + [xs[n]];
        DedupeNew(xs, r, s);
        DedupeNewOrder(xs, r, s);
        s
  }

  /** The first occurrences of the prefix's elements are where they were, before the last position. */
  lemma PrefixFirstIndices(xs: seq<int>, r: seq<int>)
    requires xs != []
    requires forall i :: 0 <= i < |r| ==> r[i] in xs[..|xs| - 1]
    ensures forall i :: 0 <= i < |r| ==> r[i] in xs && FirstIndex(xs, r[i]) == FirstIndex(xs[..|xs| - 1], r[i]) < |xs| - 1
  {
    forall i | 0 <= i < |r| ensures r[i] in xs && FirstIndex(xs, r[i]) == FirstIndex(xs[..|xs| - 1], r[i]) < |xs| - 1 {
      FirstIndexPrefix(xs, |xs| - 1, r[i]);
    }
  }

  /** The step of `Dedupe` when the last element was seen before: the
      prefix's result already has every property for the whole list. */
  lemma DedupeSeen(xs: seq<int>, r: seq<int>)
    requires xs != [] && xs[|xs| - 1] in r
    requires forall x :: x in r <==> x in xs[..|xs| - 1]
    requires forall i :: 0 <= i < |r| ==> r[i] in xs[..|xs| - 1]
    requires forall i, j :: 0 <= i < j < |r| ==> FirstIndex(xs[..|xs| - 1], r[i]) < FirstIndex(xs[..|xs| - 1], r[j])
    requires |r| <= |xs| - 1
    ensures forall x :: x in r <==> x in xs
    ensures forall i :: 0 <= i < |r| ==> r[i] in xs
    ensures forall i, j :: 0 <= i < j < |r| ==> FirstIndex(xs, r[i]) < FirstIndex(xs, r[j])
    ensures |r| <= |xs|
  {
    InitAndLast(xs);
    PrefixFirstIndices(xs, r);
  }

  /** A non-empty list holds exactly the elements of its prefix and its last element. */
  lemma InitAndLast(xs: seq<int>)
    requires xs != []
    ensures forall x :: x in xs <==> x in xs[..|xs| - 1] || x == xs[|xs| - 1]
  {
    assert xs == xs[..|xs| - 1] + [xs[|xs| - 1]];
  }

  /** The step of `Dedupe` when the last element is new: appending it keeps
      the elements exactly those of the list, without repeats. */
  lemma DedupeNew(xs: seq<int>, r: seq<int>, s: seq<int>)
    requires xs != [] && xs[|xs| - 1] !in r && s == r + [xs[|xs| - 1]]
    requires forall x :: x in r <==> x in xs[..|xs| - 1]
    requires forall i, j :: 0 <= i < j < |r| ==> r[i] != r[j]
    requires |r| <= |xs| - 1
    ensures forall x :: x in s <==> x in xs
    ensures forall i, j :: 0 <= i < j < |s| ==> s[i] != s[j]
    ensures forall i :: 0 <= i < |s| ==> s[i] in xs
    ensures |s| <= |xs|
  {
    InitAndLast(xs);
    forall i, j | 0 <= i < j < |s| ensures s[i] != s[j] {
      assert s[i] == r[i];
    }
  }

  /** Appending a new last element keeps the order of first occurrences:
      its own first occurrence is the last position. */
  lemma DedupeNewOrder(xs: seq<int>, r: seq<int>, s: seq<int>)
    requires xs != [] && xs[|xs| - 1] !in xs[..|xs| - 1] && s == r + [xs[|xs| - 1]]
    requires forall i :: 0 <= i < |r| ==> r[i] in xs[..|xs| - 1]
    requires forall i, j :: 0 <= i < j < |r| ==> FirstIndex(xs[..|xs| - 1], r[i]) < FirstIndex(xs[..|xs| - 1], r[j])
    requires forall i :: 0 <= i < |s| ==> s[i] in xs
    ensures forall i, j :: 0 <= i < j < |s| ==> FirstIndex(xs, s[i]) < FirstIndex(xs, s[j])
  {
    var n := |xs| - 1;
    PrefixFirstIndices(xs, r);
    FirstIndexLast(xs);
    forall i, j | 0 <= i < j < |s| ensures FirstIndex(xs, s[i]) < FirstIndex(xs, s[j]) {
      assert s[i] == r[i];
      if j < |r| {
        assert s[j] == r[j];
      } else {
        assert s[j] == xs[n];
      }
    }
  }

  /** An element that first appears at the end has its first occurrence there. */
  lemma FirstIndexLast(xs: seq<int>)
    requires xs != [] && xs[|xs| - 1] !in xs[..|xs| - 1]
    ensures FirstIndex(xs, xs[|xs| - 1]) == |xs| - 1
  {
    assert forall k :: 0 <= k < |xs| - 1 ==> xs[..|xs| - 1][k] == xs[k];
  }

  /** Deduplicating a list without repeats gives the list back. */
  lemma {:induction false} DedupeKeepsDistinct(xs: seq<int>)
    requires forall i, j :: 0 <= i < j < |xs| ==> xs[i] != xs[j]
    ensures Dedupe(xs) == xs
    decreases |xs|
  {
    if xs != [] {
      var n := |xs| - 1;
      DedupeKeepsDistinct(xs[..n]);
      assert xs[n] !in xs[..n];
      assert xs[..n] + [xs[n]] == xs;
    }
  }

  /** Deduplicating twice is deduplicating once. */
  lemma DedupeIdempotent(xs: seq<int>)
    ensures Dedupe(Dedupe(xs)) == Dedupe(xs)
  {
    DedupeKeepsDistinct(Dedupe(xs));
  }

  /** `getUnpaidTableNumbers` (controllers/orders.js:323-348): each table
      number with an unpaid order on it, once. */
  function UnpaidTableNumbers(d: Db): (ns: seq<int>)
    ensures forall n :: n in ns <==> exists k :: 1 <= k < d.nextId && UnpaidAt(d, k, n)
    ensures forall i, j :: 0 <= i < j < |ns| ==> ns[i] != ns[j]
    ensures forall i :: 0 <= i < |ns| ==> ns[i] in UnpaidNumbersFrom(d, 1)
    ensures forall i, j :: 0 <= i < j < |ns| ==>
              FirstIndex(UnpaidNumbersFrom(d, 1), ns[i]) < FirstIndex(UnpaidNumbersFrom(d, 1), ns[j])
  {
    Dedupe(UnpaidNumbersFrom(d, 1))
  }
}
