/** The admin handlers (controllers/admin.js): roles, table and reservation
    status, payments and the paid-orders ledger, the daily summary, and
    password changes. */
module AdminController {
  import opened Http
  import opened Text
  import opened Schema
  import opened Store
  import CashierController

  // ---------------------------------------------------------------- roles

  /** The roles `updateUserRole` accepts. */
  predicate IsRole(s: string) {
    s == "USER" || s == "ADMIN" || s == "CASHIER"
  }

  /** `updateUserRole` (controllers/admin.js:99-142) up to the write: a role must
      be given, the id must be an integer of at least 1, the upper-cased role
      must be one of the three, and the user must exist. The result is the role
      to store. */
  function RoleCheck(d: Db, id: Input<int>, role: Option<string>): (r: Result<string>)
    ensures r.Err? && r.error.BadRequest? <==>
              role.None? || role.value == "" || !IntAtLeast(id, 1) || !IsRole(Upper(role.value))
    ensures r.Err? && r.error.NotFound? <==>
              role.Some? && role.value != "" && IntAtLeast(id, 1) && IsRole(Upper(role.value)) && id.v !in d.users
    ensures r.Ok? ==> role.Some? && IntAtLeast(id, 1) && id.v in d.users && r.value == Upper(role.value) && IsRole(r.value)
    ensures r.Err? ==> r.error.BadRequest? || r.error.NotFound?
  {
    if role.None? || role.value == "" then Err(BadRequest("user id and role are required"))
    else if !IntAtLeast(id, 1) then Err(BadRequest("invalid user id"))
    else if !IsRole(Upper(role.value)) then Err(BadRequest("invalid role"))
    else if id.v !in d.users then Err(NotFound("user"))
    else Ok(Upper(role.value))
  }

  function WithRole(d: Db, id: int, role: string): Db
    requires id in d.users
  {
    d.(users := d.users[id := d.users[id].(role := role)])
  }

  method UpdateUserRole(db: Database, id: Input<int>, role: Option<string>) returns (r: Result<string>)
    requires db.Valid()
    modifies db
    ensures db.Valid()
    ensures r == RoleCheck(old(db.Snapshot()), id, role)
    ensures r.Ok? ==> db.Snapshot() == WithRole(old(db.Snapshot()), id.v, r.value)
    ensures r.Err? ==> db.Snapshot() == old(db.Snapshot())
  {
    r := RoleCheck(db.Snapshot(), id, role);
    if r.Ok? {
      db.users := db.users[id.v := db.users[id.v].(role := r.value)];
    }
  }

  /** Sending the stored role again is accepted and changes nothing: the stored
      role is already upper case and one of the three. */
  lemma RoleUpdateIdempotent(d: Db, id: Input<int>, role: Option<string>)
    requires RoleCheck(d, id, role).Ok?
    ensures var stored := RoleCheck(d, id, role).value;
            var e := WithRole(d, id.v, stored);
            && RoleCheck(e, id, Some(stored)) == Ok(stored)
            && WithRole(e, id.v, stored) == e
  {
    UpperIdempotent(role.value);
  }

  // ---------------------------------------------------------------- table status

  /** `updateReservation` (controllers/admin.js:162-197) up to the writes. A
      table number that does not parse reaches the query as NaN and fails with
      500; an unknown number is 404; a status that is not a table status is
      refused by the table update (500). No status leaves the table as it is.
      The result is the table's id and the status to store. */
  function ReservationUpdateCheck(d: Db, tableNumber: Input<int>, status: Option<string>)
    : (r: Result<(int, Option<TableStatus>)>)
    ensures r.Err? && r.error.ServerError? <==>
              !tableNumber.Value?
              || (TableByNumber(d, tableNumber.v).Some? && status.Some? && ParseTableStatus(status.value).None?)
    ensures r.Err? && r.error.NotFound? <==> tableNumber.Value? && TableByNumber(d, tableNumber.v).None?
    ensures r.Ok? ==> tableNumber.Value? && Some(r.value.0) == TableByNumber(d, tableNumber.v)
                      && (status.None? ==> r.value.1.None?)
                      && (status.Some? ==> r.value.1 == ParseTableStatus(status.value) && r.value.1.Some?)
    ensures r.Err? ==> r.error.ServerError? || r.error.NotFound?
  {
    if !tableNumber.Value? then Err(ServerError("table number is not a number"))
    else
      match TableByNumber(d, tableNumber.v)
      case None => Err(NotFound("table"))
      case Some(k) =>
        if status.None? then Ok((k, None))
        else
          match ParseTableStatus(status.value)
          case None => Err(ServerError("invalid table status"))
          case Some(s) => Ok((k, Some(s)))
  }

  /** A reservation a release of its table completes. */
  predicate Open(res: Reservation) {
    res.status == ReservationStatus.Pending || res.status == ReservationStatus.Reserved
  }

  /** `reservation.updateMany` of the table's PENDING and RESERVED bookings to COMPLETED. */
  function CompleteOpen(reservations: map<int, Reservation>, tableId: int): map<int, Reservation> {
    map j | j in reservations ::
      if reservations[j].tableId == tableId && Open(reservations[j])
      then reservations[j].(status := ReservationStatus.Completed)
      else reservations[j]
  }

  /** The database after the update: the table takes the new status, and when
      that status is AVAILABLE the table's open bookings are completed. */
  function AfterReservationUpdate(d: Db, k: int, status: Option<TableStatus>): Db {
    if status.None? then d
    else
      var d1 := d.(tables := MarkTables(d.tables, {k}, status.value));
      if status.value == TableStatus.Available then d1.(reservations := CompleteOpen(d.reservations, k)) else d1
  }

  method UpdateReservation(db: Database, tableNumber: Input<int>, status: Option<string>)
    returns (r: Result<(int, Option<TableStatus>)>)
    requires db.Valid()
    modifies db
    ensures db.Valid()
    ensures r == ReservationUpdateCheck(old(db.Snapshot()), tableNumber, status)
    ensures r.Ok? ==> db.Snapshot() == AfterReservationUpdate(old(db.Snapshot()), r.value.0, r.value.1)
    ensures r.Err? ==> db.Snapshot() == old(db.Snapshot())
  {
    r := ReservationUpdateCheck(db.Snapshot(), tableNumber, status);
    if r.Err? {
      return;
    }
    ReservationUpdateValid(db.Snapshot(), r.value.0, r.value.1);
    var (k, st) := r.value;
    if st.Some? {
      db.tables := MarkTables(db.tables, {k}, st.value);
      if st.value == TableStatus.Available {
        db.reservations := CompleteOpen(db.reservations, k);
      }
    }
  }

  lemma ReservationUpdateValid(d: Db, k: int, status: Option<TableStatus>)
    requires d.Valid() && k in d.tables
    ensures AfterReservationUpdate(d, k, status).Valid()
  {
    if status.Some? {
      var d1 := d.(tables := MarkTables(d.tables, {k}, status.value));
      MarkTablesKeepsNumbers(d.tables, {k}, status.value);
      assert d1.tables.Keys == d.tables.Keys;
      assert d1.Valid();
      if status.value == TableStatus.Available {
        var e := d1.(reservations := CompleteOpen(d.reservations, k));
        assert e.reservations.Keys == d.reservations.Keys;
        assert ReservationsReferToTables(e.reservations, e.tables);
      }
    }
  }

  /** Releasing a table completes exactly its PENDING and RESERVED bookings:
      every other booking, of this table or another, keeps its status, and no
      booking moves or disappears. */
  lemma ReleaseCompletesOpenBookings(d: Db, tableNumber: Input<int>)
    requires ReservationUpdateCheck(d, tableNumber, Some("AVAILABLE")).Ok?
    ensures var (k, st) := ReservationUpdateCheck(d, tableNumber, Some("AVAILABLE")).value;
            var e := AfterReservationUpdate(d, k, st);
            && k in e.tables && e.tables[k].status == TableStatus.Available
            && e.tables[k].tableNumber == tableNumber.v
            && e.reservations.Keys == d.reservations.Keys
            && forall j :: j in d.reservations ==>
                 && e.reservations[j].tableId == d.reservations[j].tableId
                 && e.reservations[j].status ==
                      (if d.reservations[j].tableId == k && Open(d.reservations[j])
                       then ReservationStatus.Completed else d.reservations[j].status)
  {
  }

  // ---------------------------------------------------------------- cancel a table's booking

  /** `cancelReservation` (controllers/admin.js:199-239) performs the same steps
      as the cashier's handler: an integer table number of at least 1, the
      first booking of that table, its order deleted, the booking deleted and
      the table AVAILABLE. */
  method CancelReservation(db: Database, tableNumber: Input<int>) returns (r: Result<int>)
    requires db.Valid()
    modifies db
    ensures db.Valid()
    ensures r == CashierController.CashierCancelCheck(old(db.Snapshot()), tableNumber)
    ensures r.Ok? ==> db.Snapshot() == CashierController.AfterCashierCancel(old(db.Snapshot()), r.value)
    ensures r.Err? ==> db.Snapshot() == old(db.Snapshot())
  {
    r := CashierController.CashierCancelReservation(db, tableNumber);
  }

  // ---------------------------------------------------------------- order status

  /** `AdmingetOrderStatus` (controllers/admin.js:242-296): an id that `isNaN`
      accepts; `parseInt` of it, which Prisma refuses with 500 when it is NaN;
      then the same lookup as the cashier's. */
  function AdminOrderStatusView(d: Db, orderId: Checked<int>, viewer: int, role: string)
    : (r: Result<CashierController.OrderView>)
    ensures r.Err? && r.error.BadRequest? <==> !orderId.Accepted?
    ensures orderId.Accepted? && orderId.parsed.None? ==> r.Err? && r.error.ServerError?
    ensures r.Err? && r.error.NotFound? <==> orderId.Parsed() && orderId.parsed.value !in d.orders
    ensures r.Err? && r.error.Forbidden? <==>
              && orderId.Parsed() && orderId.parsed.value in d.orders && role != "ADMIN"
              && d.orders[orderId.parsed.value].userId != Some(viewer)
    ensures r.Ok? ==> orderId.Parsed() && orderId.parsed.value in d.orders && r.value.orderId == orderId.parsed.value
                      && (role == "ADMIN" || d.orders[orderId.parsed.value].userId == Some(viewer))
    ensures orderId.Parsed() ==> r == CashierController.ViewOf(d, orderId.parsed.value, viewer, role)
  {
    if !orderId.Accepted? then Err(BadRequest("invalid order id"))
    else if orderId.parsed.None? then Err(ServerError("order id is NaN"))
    else CashierController.ViewOf(d, orderId.parsed.value, viewer, role)
  }

  // ---------------------------------------------------------------- payment

  /** The methods `updatePaymentStatus` accepts. */
  predicate IsAdminPaymentMethod(m: string) {
    m == "CASH" || m == QrCode || m == "PROMPTPAY"
  }

  /** The status token this handler writes, on the order and on the ledger row. */
  const AdminPaid: string := "PAID"

  /** `updatePaymentStatus` (controllers/admin.js:298-348) up to the writes: the
      method must be one of three; `orderId` is taken from the JSON body as is,
      so anything but a number fails in the query (500); an unknown order is 404. */
  function PaymentCheck(d: Db, orderId: Input<int>, payMethod: Option<string>): (r: Result<int>)
    ensures r.Err? && r.error.BadRequest? <==> payMethod.None? || !IsAdminPaymentMethod(payMethod.value)
    ensures r.Err? && r.error.ServerError? <==>
              payMethod.Some? && IsAdminPaymentMethod(payMethod.value) && !orderId.Value?
    ensures r.Err? && r.error.NotFound? <==>
              payMethod.Some? && IsAdminPaymentMethod(payMethod.value) && orderId.Value? && orderId.v !in d.orders
    ensures r.Ok? ==> payMethod.Some? && orderId == Value(r.value) && r.value in d.orders
    ensures r.Err? ==> r.error.BadRequest? || r.error.ServerError? || r.error.NotFound?
  {
    if payMethod.None? || !IsAdminPaymentMethod(payMethod.value) then Err(BadRequest("invalid payment method"))
    else if !orderId.Value? then Err(ServerError("order id is not a number"))
    else if orderId.v !in d.orders then Err(NotFound("order"))
    else Ok(orderId.v)
  }

  /** The ledger row recorded for a payment; `year`, `month` and `day` are the
      server's calendar date of `now`. */
  function LedgerRow(o: Order, id: int, payMethod: string, now: int, year: int, month: int, day: int): HistoryRow {
    HistoryRow(o.userId, id, o.tableId, o.totalPrice, now, year, month, day, AdminPaid, payMethod)
  }

  /** The order marked PAID with its method, and its ledger row appended. */
  function AfterPayment(d: Db, id: int, payMethod: string, now: int, year: int, month: int, day: int): Db
    requires id in d.orders
  {
    var o := d.orders[id];
    d.(orders := d.orders[id := o.(paymentStatus := AdminPaid, paymentMethod := Some(payMethod))],
       history := d.history + [LedgerRow(o, id, payMethod, now, year, month, day)])
  }

  method UpdatePaymentStatus(db: Database, orderId: Input<int>, payMethod: Option<string>,
                             now: int, year: int, month: int, day: int) returns (r: Result<int>)
    requires db.Valid()
    modifies db
    ensures db.Valid()
    ensures r == PaymentCheck(old(db.Snapshot()), orderId, payMethod)
    ensures r.Ok? ==> db.Snapshot() == AfterPayment(old(db.Snapshot()), r.value, payMethod.value, now, year, month, day)
    ensures r.Err? ==> db.Snapshot() == old(db.Snapshot())
  {
    r := PaymentCheck(db.Snapshot(), orderId, payMethod);
    if r.Err? {
      return;
    }
    var id := r.value;
    var o := db.orders[id];
    db.orders := db.orders[id := o.(paymentStatus := AdminPaid, paymentMethod := Some(payMethod.value))];
    db.history := db.history + [LedgerRow(o, id, payMethod.value, now, year, month, day)];
  }

  /** A payment appends exactly one ledger row, which copies the order's
      customer, table and total; earlier rows and other orders are kept. */
  lemma PaymentRecorded(d: Db, orderId: Input<int>, payMethod: Option<string>,
                        now: int, year: int, month: int, day: int)
    requires PaymentCheck(d, orderId, payMethod).Ok?
    ensures var id := orderId.v;
            var e := AfterPayment(d, id, payMethod.value, now, year, month, day);
            var row := e.history[|d.history|];
            && |e.history| == |d.history| + 1 && e.history[..|d.history|] == d.history
            && row.orderId == id && row.userId == d.orders[id].userId && row.tableId == d.orders[id].tableId
            && row.totalPrice == d.orders[id].totalPrice && row.paymentMethod == payMethod.value
            && e.orders[id].paymentStatus == AdminPaid && e.orders[id].paymentMethod == Some(payMethod.value)
            && e.orders[id].items == d.orders[id].items && e.orders[id].totalPrice == d.orders[id].totalPrice
            && e.orders.Keys == d.orders.Keys
            && forall j :: j in d.orders && j != id ==> e.orders[j] == d.orders[j]
  {
  }

  // ---------------------------------------------------------------- ledger query

  /** One query parameter of `getOrderHistory` after `if (x) filter.x = parseInt(x)`:
      `None` when the parameter is missing or empty, otherwise the parsed value. */
  type Param = Option<Input<int>>

  predicate FieldMatches(p: Param, value: int) {
    p.None? || p.value == Value(value)
  }

  /** A ledger row satisfies the filter: every supplied field is equal. */
  predicate RowMatches(row: HistoryRow, userId: Param, year: Param, month: Param, day: Param) {
    && (userId.None? || (userId.value.Value? && row.userId == Some(userId.value.v)))
    && FieldMatches(year, row.year) && FieldMatches(month, row.month) && FieldMatches(day, row.day)
  }

  predicate Decreasing(xs: seq<int>) {
    forall i, j :: 0 <= i < j < |xs| ==> xs[i] > xs[j]
  }

  /** The positions below `n` of the matching ledger rows, latest first. */
  function MatchingRows(h: seq<HistoryRow>, userId: Param, year: Param, month: Param, day: Param, n: nat)
    : (rows: seq<int>)
    requires n <= |h|
    ensures forall i :: i in rows <==> 0 <= i < n && RowMatches(h[i], userId, year, month, day)
    ensures Decreasing(rows)
  {
    if n == 0 then []
    else
      var rest := MatchingRows(h, userId, year, month, day, n - 1);
      if RowMatches(h[n - 1], userId, year, month, day) then
        assert forall i :: 0 <= i < |rest| ==> rest[i] in rest;
        [n - 1] + rest
      else rest
  }

  /** `getOrderHistory` (controllers/admin.js:351-396): the ledger rows matching
      the supplied fields, most recent first (rows are appended as payments
      happen). A supplied field that does not parse puts NaN into the query,
      which fails with 500. */
  function HistoryQuery(d: Db, userId: Param, year: Param, month: Param, day: Param): (r: Result<seq<int>>)
    ensures r.Err? <==> exists p :: p in {userId, year, month, day} && p.Some? && !p.value.Value?
    ensures r.Err? ==> r.error.ServerError?
    ensures r.Ok? ==> Decreasing(r.value)
                      && forall i :: i in r.value <==> 0 <= i < |d.history| && RowMatches(d.history[i], userId, year, month, day)
  {
    if exists p :: p in {userId, year, month, day} && p.Some? && !p.value.Value? then
      Err(ServerError("filter value is not a number"))
    else Ok(MatchingRows(d.history, userId, year, month, day, |d.history|))
  }

  /** A payment's ledger row is found by a query for its calendar date, and
      with no filter every row is listed. */
  lemma PaymentShowsInHistory(d: Db, id: int, payMethod: string, now: int, year: int, month: int, day: int)
    requires id in d.orders
    ensures var e := AfterPayment(d, id, payMethod, now, year, month, day);
            && HistoryQuery(e, None, Some(Value(year)), Some(Value(month)), Some(Value(day))).Ok?
            && |d.history| in HistoryQuery(e, None, Some(Value(year)), Some(Value(month)), Some(Value(day))).value
            && HistoryQuery(e, None, None, None, None).Ok?
            && |HistoryQuery(e, None, None, None, None).value| == |e.history|
  {
    var e := AfterPayment(d, id, payMethod, now, year, month, day);
    var all := HistoryQuery(e, None, None, None, None).value;
    AllRows(all, |e.history|);
  }

  /** A strictly decreasing list of exactly the numbers below `n` has `n` entries. */
  lemma {:induction false} AllRows(xs: seq<int>, n: nat)
    requires Decreasing(xs)
    requires forall i :: i in xs <==> 0 <= i < n
    ensures |xs| == n
  {
    if n > 0 {
      assert n - 1 in xs;
      assert xs[0] in xs;
      assert xs[0] == n - 1;
      var tail := xs[1..];
      forall i ensures i in tail <==> 0 <= i < n - 1 {
        if i in tail {
          var t :| 0 <= t < |tail| && tail[t] == i;
          assert xs[t + 1] == i && xs[0] > xs[t + 1];
        }
        if i in tail {
          var t :| 0 <= t < |tail| && tail[t] == i;
          assert xs[t + 1] in xs;
        }
        if 0 <= i < n - 1 {
          assert i in xs;
          var t :| 0 <= t < |xs| && xs[t] == i;
          assert t != 0;
          assert tail[t - 1] == i;
        }
      }
      AllRows(tail, n - 1);
    }
  }

  // ---------------------------------------------------------------- daily summary

  /** What `getOrderSummary7Days` reports for one day. */
  datatype DaySummary = DaySummary(date: int, total: int, paid: nat, orders: nat)

  /** dayjs's `diff` in whole days: the quotient truncated toward zero. */
  function TruncDiv(a: int, b: int): (q: int)
    requires b > 0
    ensures a >= 0 ==> q == a / b
    ensures a < 0 ==> q == -((-a) / b)
  {
    if a >= 0 then a / b else -((-a) / b)
  }

  /** `endDate.diff(startDate, "day") + 1`: the number of days listed. */
  function DayCount(startDay: int, endInstant: int): int {
    TruncDiv(endInstant - startDay, DAY) + 1
  }

  /** The first day and the last instant of the report. `start` and `end` are
      the midnights of the requested dates (days of 24 hours); missing ones
      default to six days before `today` and to the end of `today`; a date that
      does not parse makes the day count NaN, and the report is empty. */
  function Range(start: Input<int>, end: Input<int>, today: int): (r: Option<(int, int)>)
    ensures r.None? <==> start.Invalid? || end.Invalid?
  {
    if start.Invalid? || end.Invalid? then None
    else
      var s := if start.Value? then start.v else today - 6 * DAY;
      var e := (if end.Value? then end.v else today) + DAY - 1;
      Some((s, e))
  }

  predicate CreatedOn(o: Order, day: int) {
    day <= o.createdAt < day + DAY
  }

  /** The paid orders among `ids`, in the order of `ids`. */
  function PaidOf(orders: map<int, Order>, ids: seq<int>): (paid: seq<int>)
    ensures forall k :: k in paid <==> k in ids && k in orders && orders[k].paymentStatus == Paid
  {
    if ids == [] then []
    else
      var last := ids[|ids| - 1];
      var front := PaidOf(orders, ids[..|ids| - 1]);
      assert forall k :: k in ids <==> k in ids[..|ids| - 1] || k == last;
      if last in orders && orders[last].paymentStatus == Paid then front + [last] else front
  }

  /** The sum of the totals of the orders `ids`. */
  function SumTotals(orders: map<int, Order>, ids: seq<int>): int {
    if ids == [] then 0
    else
      var last := ids[|ids| - 1];
      SumTotals(orders, ids[..|ids| - 1]) + (if last in orders then orders[last].totalPrice else 0)
  }

  /** The report of one day: the orders created that day, the paid ones among
      them and the sum of their totals. */
  function DayOf(d: Db, day: int): DaySummary {
    var all := Where(d.orders, (o: Order) => CreatedOn(o, day), 1, d.nextId);
    var paid := PaidOf(d.orders, all);
    DaySummary(day, SumTotals(d.orders, paid), |paid|, |all|)
  }

  /** The whole report: one entry per day from `startDay`. */
  function Summary(d: Db, startDay: int, days: int): (s: seq<DaySummary>)
    ensures |s| == if days <= 0 then 0 else days
    ensures forall i :: 0 <= i < |s| ==> s[i] == DayOf(d, startDay + i * DAY)
  {
    if days <= 0 then [] else Summary(d, startDay, days - 1) + [DayOf(d, startDay + (days - 1) * DAY)]
  }

  /** `getOrderSummary7Days` (controllers/admin.js:424-463): one query per day,
      then the paid orders filtered and their totals added up. */
  method Summary7Days(db: Database, start: Input<int>, end: Input<int>, today: int) returns (result: seq<DaySummary>)
    ensures Range(start, end, today).None? ==> result == []
    ensures Range(start, end, today).Some? ==>
              var (s, e) := Range(start, end, today).value;
              result == Summary(db.Snapshot(), s, DayCount(s, e))
  {
    result := [];
    var range := Range(start, end, today);
    if range.None? {
      return;
    }
    var (startDay, endInstant) := range.value;
    var days := DayCount(startDay, endInstant);
    ghost var d := db.Snapshot();
    var i := 0;
    while i < days
      invariant 0 <= i && (days > 0 ==> i <= days) && (days <= 0 ==> i == 0)
      invariant result == Summary(d, startDay, i)
      decreases days - i
    {
      var day := DayReport(db, startDay + i * DAY);
      result := result + [day];
      i := i + 1;
    }
    assert days <= 0 ==> Summary(d, startDay, days) == [] == result;
    assert days > 0 ==> i == days;
  }

  /** One pass of the handler's loop: the day's query, filter and sum. */
  method DayReport(db: Database, date: int) returns (s: DaySummary)
    ensures s == DayOf(db.Snapshot(), date)
  {
    var all := Where(db.orders, (o: Order) => CreatedOn(o, date), 1, db.nextId);
    var paid, total := PaidAndTotal(db.orders, all);
    s := DaySummary(date, total, |paid|, |all|);
  }

  /** `orders.filter(paid)` and the `reduce` over the paid ones. */
  method PaidAndTotal(orders: map<int, Order>, all: seq<int>) returns (paid: seq<int>, total: int)
    ensures paid == PaidOf(orders, all) && total == SumTotals(orders, paid)
  {
    paid, total := [], 0;
    var i := 0;
    while i < |all|
      invariant 0 <= i <= |all|
      invariant paid == PaidOf(orders, all[..i]) && total == SumTotals(orders, paid)
    {
      assert all[..i + 1][..i] == all[..i];
      var k := all[i];
      if k in orders && orders[k].paymentStatus == Paid {
        assert (paid + [k])[..|paid|] == paid;
        total := total + orders[k].totalPrice;
        paid := paid + [k];
      }
      i := i + 1;
    }
    assert all[..|all|] == all;
  }

  /** Each day counts no more paid orders than orders. */
  lemma {:induction false} PaidAtMostOrders(d: Db, day: int)
    ensures DayOf(d, day).paid <= DayOf(d, day).orders
  {
    PaidOfShorter(d.orders, Where(d.orders, (o: Order) => CreatedOn(o, day), 1, d.nextId));
  }

  lemma {:induction false} PaidOfShorter(orders: map<int, Order>, ids: seq<int>)
    ensures |PaidOf(orders, ids)| <= |ids|
  {
    if ids != [] {
      PaidOfShorter(orders, ids[..|ids| - 1]);
    }
  }

  /** Without dates the report lists exactly seven days, ending today. Two
      midnights `n` days apart give `n + 1` days; an end date one day before
      the start still gives one day, and earlier ones give none. */
  lemma DayCounts(today: int, startDay: int, n: int)
    ensures var (s, e) := Range(Absent, Absent, today).value;
            DayCount(s, e) == 7 && s + 6 * DAY == today
    ensures n >= 0 ==> DayCount(startDay, startDay + n * DAY + DAY - 1) == n + 1
    ensures DayCount(startDay, startDay - DAY + DAY - 1) == 1
    ensures n >= 2 ==> DayCount(startDay, startDay - n * DAY + DAY - 1) <= 0
  {
    if n >= 2 {
      assert (n - 1) * DAY + 1 >= DAY;
      assert (n * DAY - DAY + 1) / DAY >= 1;
    }
  }

  /** An order the admin marked paid is never counted as paid in the report:
      the handler writes "PAID", the report counts only the Thai paid token. */
  lemma AdminPaymentUncounted(d: Db, id: int, payMethod: string, now: int, year: int, month: int, day: int,
                              reportDay: int)
    requires id in d.orders
    ensures var e := AfterPayment(d, id, payMethod, now, year, month, day);
            id !in PaidOf(e.orders, Where(e.orders, (o: Order) => CreatedOn(o, reportDay), 1, e.nextId))
  {
    assert AdminPaid[0] != Paid[0];
  }

  // ---------------------------------------------------------------- passwords

  /** `changeUserPassword` (controllers/admin.js:503-537) up to the write: an
      integer id of at least 1, a password of at least eight characters, and
      the requester must be an ADMIN or the user. An unknown user makes the
      update fail (500). */
  function PasswordCheck(d: Db, id: Input<int>, password: Option<string>, requesterId: int, requesterRole: string)
    : (r: Outcome)
    ensures r.Fail? && r.error.BadRequest? <==> !IntAtLeast(id, 1) || password.None? || |password.value| < 8
    ensures r.Fail? && r.error.Forbidden? <==>
              IntAtLeast(id, 1) && password.Some? && |password.value| >= 8
              && requesterRole != "ADMIN" && requesterId != id.v
    ensures r.Fail? && r.error.ServerError? <==>
              IntAtLeast(id, 1) && password.Some? && |password.value| >= 8
              && (requesterRole == "ADMIN" || requesterId == id.v) && id.v !in d.users
    ensures r.Fail? ==> r.error.BadRequest? || r.error.Forbidden? || r.error.ServerError?
    ensures r.Pass? <==>
              IntAtLeast(id, 1) && password.Some? && |password.value| >= 8
              && (requesterRole == "ADMIN" || requesterId == id.v) && id.v in d.users
  {
    if !IntAtLeast(id, 1) then Fail(BadRequest("invalid id"))
    else if password.None? || |password.value| < 8 then Fail(BadRequest("password too short"))
    else if requesterRole != "ADMIN" && requesterId != id.v then Fail(Forbidden("not your account"))
    else if id.v !in d.users then Fail(ServerError("user"))
    else Pass
  }

  /** `hash` stands for bcrypt: the stored value is the hash of the new password. */
  method ChangeUserPassword(db: Database, id: Input<int>, password: Option<string>, requesterId: int,
                            requesterRole: string, hash: string -> string) returns (r: Outcome)
    requires db.Valid()
    modifies db
    ensures db.Valid()
    ensures r == PasswordCheck(old(db.Snapshot()), id, password, requesterId, requesterRole)
    ensures r.Pass? ==> db.users == old(db.users)[id.v := old(db.users)[id.v].(password := hash(password.value))]
                        && db.Snapshot() == old(db.Snapshot()).(users := db.users)
    ensures r.Fail? ==> db.Snapshot() == old(db.Snapshot())
  {
    r := PasswordCheck(db.Snapshot(), id, password, requesterId, requesterRole);
    if r.Pass? {
      db.users := db.users[id.v := db.users[id.v].(password := hash(password.value))];
    }
  }
}
