/** The transaction shared by the two "add an order for a table" handlers
    (controllers/cashier.js:261-306, controllers/orders.js:64-110): create the
    order, mark its table RESERVED, then create or update the reservation
    keyed by the new order's id. */
module Ordering {
  import opened Http
  import opened Schema
  import opened Store

  /** The reservation already tied to order `orderId`, if any (`orderId` is unique). */
  function ReservationOfOrder(d: Db, orderId: int): (r: Option<int>)
    ensures r.Some? ==> r.value in d.reservations && d.reservations[r.value].orderId == Some(orderId)
    ensures r.None? ==> forall k :: k in d.reservations && 1 <= k < d.nextId ==> d.reservations[k].orderId != Some(orderId)
  {
    FindFirst(d.reservations, (res: Reservation) => res.orderId == Some(orderId), d.nextId)
  }

  /** `reservation.upsert({ where: { orderId } })`: the reservation of the order
      moves to `tableId` at `now` with status RESERVED, or a new one is created. */
  function Upsert(d: Db, orderId: int, tableId: int, now: int): Db {
    match ReservationOfOrder(d, orderId)
    case Some(k) =>
      d.(reservations := d.reservations[k := d.reservations[k].(tableId := tableId, time := now,
                                                                status := ReservationStatus.Reserved)])
    case None =>
      d.(reservations := d.reservations[d.nextId := Reservation(None, None, tableId, now, ReservationStatus.Reserved,
                                                                None, Some(orderId))],
         nextId := d.nextId + 1)
  }

  /** The database after the transaction. The new order gets id `d.nextId`. The
      table update sits in its own try/catch: when it fails (`tableWriteOk` is
      false) the transaction carries on without it. */
  function Placed(d: Db, order: Order, tableId: int, now: int, tableWriteOk: bool): Db {
    Upsert(MarkIf(AddOrder(d, order), tableId, tableWriteOk), d.nextId, tableId, now)
  }

  /** `order.create`: the order stored under the next id. */
  function AddOrder(d: Db, order: Order): Db {
    d.(orders := d.orders[d.nextId := order], nextId := d.nextId + 1)
  }

  /** The table marked RESERVED when that write succeeds. */
  function MarkIf(d: Db, tableId: int, ok: bool): Db {
    if ok then d.(tables := MarkTables(d.tables, {tableId}, TableStatus.Reserved)) else d
  }

  method PlaceOrder(db: Database, order: Order, tableId: int, now: int, tableWriteOk: bool) returns (orderId: int)
    modifies db
    ensures orderId == old(db.nextId)
    ensures db.Snapshot() == Placed(old(db.Snapshot()), order, tableId, now, tableWriteOk)
  {
    ghost var d0 := db.Snapshot();
    orderId := db.FreshId();
    db.orders := db.orders[orderId := order];
    assert db.Snapshot() == AddOrder(d0, order);
    if tableWriteOk {
      db.tables := MarkTables(db.tables, {tableId}, TableStatus.Reserved);
    }
    ghost var d1 := db.Snapshot();
    assert d1 == MarkIf(AddOrder(d0, order), tableId, tableWriteOk);
    var existing := ReservationOfOrder(db.Snapshot(), orderId);
    if existing.Some? {
      var k := existing.value;
      db.reservations := db.reservations[k := db.reservations[k].(tableId := tableId, time := now,
                                                                   status := ReservationStatus.Reserved)];
    } else {
      var k := db.FreshId();
      db.reservations := db.reservations[k := Reservation(None, None, tableId, now, ReservationStatus.Reserved,
                                                          None, Some(orderId))];
    }
    assert db.Snapshot() == Upsert(d1, orderId, tableId, now);
  }

  /** Placing an order for an existing table keeps the database well formed. */
  lemma PlacedValid(d: Db, order: Order, tableId: int, now: int, tableWriteOk: bool)
    requires d.Valid() && tableId in d.tables
    ensures Placed(d, order, tableId, now, tableWriteOk).Valid()
  {
    var d1 := AddOrder(d, order);
    AddOrderValid(d, order);
    MarkIfValid(d1, tableId, tableWriteOk);
    UpsertValid(MarkIf(d1, tableId, tableWriteOk), d.nextId, tableId, now);
  }

  lemma AddOrderValid(d: Db, order: Order)
    requires d.Valid()
    ensures AddOrder(d, order).Valid() && AddOrder(d, order).tables == d.tables
  {
  }

  lemma MarkIfValid(d: Db, tableId: int, ok: bool)
    requires d.Valid()
    ensures MarkIf(d, tableId, ok).Valid() && MarkIf(d, tableId, ok).tables.Keys == d.tables.Keys
  {
    MarkTablesKeepsNumbers(d.tables, {tableId}, TableStatus.Reserved);
  }

  lemma UpsertValid(d: Db, orderId: int, tableId: int, now: int)
    requires d.Valid() && tableId in d.tables && orderId < d.nextId
    ensures Upsert(d, orderId, tableId, now).Valid()
  {
    match ReservationOfOrder(d, orderId)
    case Some(k) => MovedReservationValid(d, k, tableId, now);
    case None => NewReservationValid(d, orderId, tableId, now);
  }

  lemma MovedReservationValid(d: Db, k: int, tableId: int, now: int)
    requires d.Valid() && tableId in d.tables && k in d.reservations
    ensures d.(reservations := d.reservations[k := d.reservations[k].(tableId := tableId, time := now,
                                                                      status := ReservationStatus.Reserved)]).Valid()
  {
    var rs := d.reservations[k := d.reservations[k].(tableId := tableId, time := now, status := ReservationStatus.Reserved)];
    assert rs.Keys == d.reservations.Keys;
    assert IdsBelow(rs, d.nextId);
    assert ReservationsReferToTables(rs, d.tables);
    assert OrderRefsBelow(rs, d.nextId);
  }

  lemma NewReservationValid(d: Db, orderId: int, tableId: int, now: int)
    requires d.Valid() && tableId in d.tables && orderId < d.nextId
    ensures d.(reservations := d.reservations[d.nextId := Reservation(None, None, tableId, now, ReservationStatus.Reserved,
                                                                      None, Some(orderId))],
               nextId := d.nextId + 1).Valid()
  {
    var rs := d.reservations[d.nextId := Reservation(None, None, tableId, now, ReservationStatus.Reserved, None, Some(orderId))];
    var e := d.(reservations := rs, nextId := d.nextId + 1);
    assert IdsBelow(rs, e.nextId);
    assert ReservationsReferToTables(rs, d.tables);
    assert OrderRefsBelow(rs, e.nextId);
  }

  /** After the transaction exactly one reservation carries the new order's id;
      it is RESERVED, at `now`, on the order's table. The order is stored as given. */
  lemma {:induction false} PlacedReservation(d: Db, order: Order, tableId: int, now: int, tableWriteOk: bool)
    requires OrderRefsBelow(d.reservations, d.nextId)
    ensures var e := Placed(d, order, tableId, now, tableWriteOk);
            && d.nextId in e.orders && e.orders[d.nextId] == order
            && d.nextId + 1 in e.reservations
            && e.reservations[d.nextId + 1] == Reservation(None, None, tableId, now, ReservationStatus.Reserved,
                                                           None, Some(d.nextId))
            && forall k :: k in e.reservations && e.reservations[k].orderId == Some(d.nextId) ==> k == d.nextId + 1
  {
    var d2 := MarkIf(AddOrder(d, order), tableId, tableWriteOk);
    assert d2.reservations == d.reservations && d2.nextId == d.nextId + 1;
    assert ReservationOfOrder(d2, d.nextId).None?;
  }

  /** The transaction writes only the order, that table and the reservation:
      every other table and every earlier reservation are as they were. */
  lemma PlacedIsLocal(d: Db, order: Order, tableId: int, now: int, tableWriteOk: bool)
    requires OrderRefsBelow(d.reservations, d.nextId) && IdsBelow(d.reservations, d.nextId)
    ensures var e := Placed(d, order, tableId, now, tableWriteOk);
            && e.tables.Keys == d.tables.Keys
            && (forall t :: t in d.tables && t != tableId ==> e.tables[t] == d.tables[t])
            && (forall k :: k in d.reservations ==> k in e.reservations && e.reservations[k] == d.reservations[k])
            && e.carts == d.carts && e.menus == d.menus && e.users == d.users
  {
    var d2 := MarkIf(AddOrder(d, order), tableId, tableWriteOk);
    assert d2.reservations == d.reservations && d2.nextId == d.nextId + 1;
    assert ReservationOfOrder(d2, d.nextId).None?;
  }
}
