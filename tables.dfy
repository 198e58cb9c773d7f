/** The table listing and lookup (controllers/tables.js): which reservations the
    floor plan shows next to each table, and a table found by its number. */
module TablesController {
  import opened Http
  import opened Schema
  import Booking

  /** Half the width of the listing's window around the selected time. */
  const WINDOW: int := 3 * HOUR

  /** The listing shows a reservation when it is not CANCELLED and, once a
      time is selected, lies in [selected - 3h, selected + 3h). */
  predicate Listed(r: Reservation, selected: Option<int>) {
    r.status != ReservationStatus.Cancelled
    && (selected.Some? ==> selected.value - WINDOW <= r.time < selected.value + WINDOW)
  }

  /** The ids of the reservations the listing shows for table `t`, in id order. */
  function ListedIds(d: Db, t: int, selected: Option<int>): (ks: seq<int>)
    ensures forall k :: k in ks <==>
              && k in d.reservations && 1 <= k < d.nextId && d.reservations[k].tableId == t
              && d.reservations[k].status != ReservationStatus.Cancelled
              && (selected.Some? ==> selected.value - 3 * HOUR <= d.reservations[k].time < selected.value + 3 * HOUR)
    ensures Increasing(ks)
  {
    Where(d.reservations, (r: Reservation) => r.tableId == t && Listed(r, selected), 1, d.nextId)
  }

  /** What the listing sends per reservation: its time and status. */
  datatype Slot = Slot(time: int, status: ReservationStatus)

  /** What the listing sends per table. */
  datatype TableRow = TableRow(id: int, tableNumber: int, status: TableStatus, slots: seq<Slot>)

  function Slots(d: Db, ks: seq<int>): (slots: seq<Slot>)
    requires forall i :: 0 <= i < |ks| ==> ks[i] in d.reservations
    ensures |slots| == |ks|
    ensures forall i :: 0 <= i < |ks| ==>
              slots[i] == Slot(d.reservations[ks[i]].time, d.reservations[ks[i]].status)
  {
    seq(|ks|, i requires 0 <= i < |ks| => Slot(d.reservations[ks[i]].time, d.reservations[ks[i]].status))
  }

  function RowOf(d: Db, t: int, selected: Option<int>): (row: TableRow)
    requires t in d.tables
    ensures row.id == t && row.tableNumber == d.tables[t].tableNumber && row.status == d.tables[t].status
    ensures row.slots == Slots(d, ListedIds(d, t, selected))
  {
    var ks := ListedIds(d, t, selected);
    assert forall i :: 0 <= i < |ks| ==> ks[i] in ks;
    TableRow(t, d.tables[t].tableNumber, d.tables[t].status, Slots(d, ks))
  }

  /** `getTables` (controllers/tables.js:8-73): every table in id order, each
      with the reservations the window keeps. A selected time that does not
      parse is 400; a missing one lists every reservation that is not
      CANCELLED. */
  function GetTables(d: Db, selectedTime: Input<int>): (r: Result<seq<TableRow>>)
    ensures r.Err? <==> selectedTime.Invalid?
    ensures r.Err? ==> r.error.BadRequest?
    ensures r.Ok? ==>
              var ts := Where(d.tables, (t: Table) => true, 1, d.nextId);
              var selected := if selectedTime.Value? then Some(selectedTime.v) else None;
              && |r.value| == |ts|
              && forall i :: 0 <= i < |ts| ==> ts[i] in d.tables && r.value[i] == RowOf(d, ts[i], selected)
  {
    if selectedTime.Invalid? then Err(BadRequest("invalid time"))
    else
      var selected := if selectedTime.Value? then Some(selectedTime.v) else None;
      var ts := Where(d.tables, (t: Table) => true, 1, d.nextId);
      assert forall i :: 0 <= i < |ts| ==> ts[i] in ts;
      Ok(seq(|ts|, i requires 0 <= i < |ts| => RowOf(d, ts[i], selected)))
  }

  /** The listing's window and the booking conflict window disagree: a PENDING
      reservation three hours after the selected time blocks a booking at that
      time, yet the listing does not show it; a reservation three hours before
      is both shown and blocking. */
  lemma WindowsDiffer(r: Reservation, selected: int)
    requires r.status == ReservationStatus.Pending
    ensures r.time == selected + 3 * HOUR ==>
              Booking.Blocks(r, [r.tableId], selected) && !Listed(r, Some(selected))
    ensures r.time == selected - 3 * HOUR ==>
              Booking.Blocks(r, [r.tableId], selected) && Listed(r, Some(selected))
  {
  }

  /** `getTableByNumber` (controllers/tables.js:75-104): a number that does
      not parse is 400, an unknown one 404, otherwise the table's id and number. */
  function GetTableByNumber(d: Db, number: Input<int>): (r: Result<(int, int)>)
    ensures r.Err? && r.error.BadRequest? <==> !number.Value?
    ensures r.Err? && r.error.NotFound? <==> number.Value? && TableByNumber(d, number.v).None?
    ensures r.Err? ==> r.error.BadRequest? || r.error.NotFound?
    ensures r.Ok? ==> Some(r.value.0) == TableByNumber(d, number.v)
    ensures r.Ok? ==> number.Value? && r.value.0 in d.tables && d.tables[r.value.0].tableNumber == number.v
                      && r.value.1 == number.v
  {
    if !number.Value? then Err(BadRequest("invalid table number"))
    else
      match TableByNumber(d, number.v)
      case None => Err(NotFound("table"))
      case Some(k) => Ok((k, d.tables[k].tableNumber))
  }

  /** In a well-formed database the lookup answers 404 exactly when no table has
      that number, and otherwise finds the only table that has it. */
  lemma TableByNumberExact(d: Db, number: int)
    requires d.Valid()
    ensures GetTableByNumber(d, Value(number)).Err? <==> forall k :: k in d.tables ==> d.tables[k].tableNumber != number
    ensures GetTableByNumber(d, Value(number)).Ok? ==>
              forall k :: k in d.tables && d.tables[k].tableNumber == number ==> k == GetTableByNumber(d, Value(number)).value.0
  {
  }
}
