/** Booking without an account: a guest names tables, a time and a phone
    number; bookings are found again by phone number (controllers/guest.js). */
module GuestController {
  import opened Http
  import opened Text
  import opened Schema
  import opened Store
  import opened Booking
  import UserController

  /** Every element of a JSON `tableIds` array after `parseInt`, or `None`
      when the field is not an array. */
  type RawIds = Option<seq<Input<int>>>

  /** `createGuestReservation`'s checks (controllers/guest.js:17-67), in order:
      name, phone, start time and a non-zero party size present; a Thai mobile
      number (`phoneValid`, decided by the validator library); a non-empty
      array of table ids, all numeric; a valid time; every id an existing table
      named once; no PENDING reservation of those tables within the window. */
  function GuestBookCheck(d: Db, name: string, phone: string, phoneValid: bool, start: Input<int>,
                          people: Input<int>, rawIds: RawIds): (r: Result<seq<int>>)
    ensures r.Ok? ==> Trim(name) != "" && Trim(phone) != "" && phoneValid && start.Value? && Truthy(people)
    ensures r.Ok? ==> rawIds.Some? && |r.value| == |rawIds.value| > 0
    ensures r.Ok? ==> forall i :: 0 <= i < |r.value| ==> rawIds.value[i] == Value(r.value[i])
    ensures r.Ok? ==> forall i :: 0 <= i < |r.value| ==> r.value[i] in d.tables
    ensures r.Ok? ==> Distinct(r.value) == |r.value| && Conflicts(d, r.value, start.v) == []
    ensures r.Err? && r.error.BusyTables? ==>
              start.Value? && rawIds.Some? && Conflicts(d, Numbers(rawIds.value), start.v) != []
    ensures r.Err? && r.error.BusyTables? ==> r.error.tableIds == BusyTableIds(d, Numbers(rawIds.value), start.v)
    ensures r.Err? && r.error.BusyTables? <==>
              && GuestFieldsOk(name, phone, phoneValid, start, people, rawIds)
              && (forall i :: 0 <= i < |rawIds.value| ==> Numbers(rawIds.value)[i] in d.tables)
              && Distinct(Numbers(rawIds.value)) == |rawIds.value|
              && Conflicts(d, Numbers(rawIds.value), start.v) != []
    ensures r.Err? ==> r.error.BadRequest? || r.error.BusyTables?
    ensures r.Ok? <==>
              && GuestFieldsOk(name, phone, phoneValid, start, people, rawIds)
              && (forall i :: 0 <= i < |rawIds.value| ==> Numbers(rawIds.value)[i] in d.tables)
              && Distinct(Numbers(rawIds.value)) == |rawIds.value|
              && Conflicts(d, Numbers(rawIds.value), start.v) == []
  {
    if !GuestFieldsOk(name, phone, phoneValid, start, people, rawIds) then
      Err(GuestFieldError(name, phone, phoneValid, start, people, rawIds))
    else
      AdmitTables(d, Numbers(rawIds.value), start.v)
  }

  /** The answer to a request that fails a check before the table lookups,
      from the first check it fails, in the source's order. */
  function GuestFieldError(name: string, phone: string, phoneValid: bool, start: Input<int>, people: Input<int>,
                           rawIds: RawIds): (e: Failure)
    ensures e.BadRequest?
  {
    if Trim(name) == "" || Trim(phone) == "" || start.Absent? || !Truthy(people) then BadRequest("name, phone, time and party size required")
    else if !phoneValid then BadRequest("invalid phone number")
    else if rawIds.None? || rawIds.value == [] then BadRequest("no table chosen")
    else if exists i :: 0 <= i < |rawIds.value| && !rawIds.value[i].Value? then BadRequest("invalid table id")
    else BadRequest("invalid time")
  }

  /** The request passes every check before the table lookups: name, phone,
      time and party size given, the phone valid, and a non-empty array of
      numeric table ids. */
  predicate GuestFieldsOk(name: string, phone: string, phoneValid: bool, start: Input<int>, people: Input<int>,
                          rawIds: RawIds) {
    && Trim(name) != "" && Trim(phone) != "" && start.Value? && Truthy(people) && phoneValid
    && rawIds.Some? && rawIds.value != [] && forall i :: 0 <= i < |rawIds.value| ==> rawIds.value[i].Value?
  }

  /** The numbers of an all-numeric id list. */
  function Numbers(raw: seq<Input<int>>): (ids: seq<int>)
    ensures |ids| == |raw|
    ensures forall i :: 0 <= i < |raw| && raw[i].Value? ==> ids[i] == raw[i].v
  {
    seq(|raw|, i requires 0 <= i < |raw| => if raw[i].Value? then raw[i].v else 0)
  }

  /** Creates the guest record, then the bookings for it. */
  method CreateGuestReservation(db: Database, name: string, phone: string, phoneValid: bool, start: Input<int>,
                                people: Input<int>, rawIds: RawIds) returns (r: Result<int>)
    requires db.Valid()
    modifies db
    ensures db.Valid()
    ensures r.Err? <==> GuestBookCheck(old(db.Snapshot()), name, phone, phoneValid, start, people, rawIds).Err?
    ensures r.Err? ==> r.error == GuestBookCheck(old(db.Snapshot()), name, phone, phoneValid, start, people, rawIds).error
    ensures r.Err? ==> db.Snapshot() == old(db.Snapshot())
    ensures r.Ok? ==> r.value == old(db.nextId)
    ensures r.Ok? ==> db.Snapshot() == Book(WithGuest(old(db.Snapshot()), Trim(name), Trim(phone)), Guest(r.value),
                                           GuestBookCheck(old(db.Snapshot()), name, phone, phoneValid, start, people, rawIds).value,
                                           start.v, people.v)
  {
    var c := GuestBookCheck(db.Snapshot(), name, phone, phoneValid, start, people, rawIds);
    if c.Err? {
      return Err(c.error);
    }
    ghost var d0 := db.Snapshot();
    var g := db.FreshId();
    db.guests := db.guests[g := GuestUser(Trim(name), Trim(phone))];
    assert db.Snapshot() == WithGuest(d0, Trim(name), Trim(phone));
    PlaceBooking(db, Guest(g), c.value, start.v, people.v);
    GuestBookValid(d0, Trim(name), Trim(phone), c.value, start.v, people.v);
    r := Ok(g);
  }

  /** The database with a new guest record. */
  function WithGuest(d: Db, name: string, phone: string): Db {
    d.(guests := d.guests[d.nextId := GuestUser(name, phone)], nextId := d.nextId + 1)
  }

  /** Recording the guest and booking tables that exist keeps the database well formed. */
  lemma GuestBookValid(d: Db, name: string, phone: string, tableIds: seq<int>, start: int, people: int)
    requires d.Valid()
    requires forall i :: 0 <= i < |tableIds| ==> tableIds[i] in d.tables
    ensures Book(WithGuest(d, name, phone), Guest(d.nextId), tableIds, start, people).Valid()
  {
    var d1 := WithGuest(d, name, phone);
    assert d1.Valid();
    BookValid(d1, Guest(d.nextId), tableIds, start, people);
  }

  /** Every row of a guest booking belongs to the new guest record and to no user. */
  lemma GuestRowsBelongToGuest(d: Db, g: int, tableIds: seq<int>, start: int, people: int)
    ensures var rows := Rows(d.nextId, Guest(g), tableIds, start, people);
            forall k :: k in rows ==> rows[k].guestUserId == Some(g) && rows[k].userId.None?
                                      && rows[k].status == ReservationStatus.Pending && rows[k].time == start
  {
    var rows := Rows(d.nextId, Guest(g), tableIds, start, people);
    forall k | k in rows
      ensures rows[k].guestUserId == Some(g) && rows[k].userId.None?
    {
      var i := k - d.nextId;
      assert rows[d.nextId + i] == Row(Guest(g), tableIds[i], start, people);
    }
  }

  // ---------------------------------------------------------------- lookup by phone

  /** One line of the guest's booking list. */
  datatype BookingLine = BookingLine(
    reservationId: int, tableId: int, tableNumber: int, time: int, people: Option<int>, status: ReservationStatus)

  /** The status shown to the guest: COMPLETED once the table is AVAILABLE again,
      otherwise the stored status. */
  function ShownStatus(r: Reservation, table: Table): (s: ReservationStatus)
    ensures table.status == TableStatus.Available ==> s == ReservationStatus.Completed
    ensures table.status != TableStatus.Available ==> s == r.status
  {
    if table.status == TableStatus.Available then ReservationStatus.Completed else r.status
  }

  /** Reservation `k` was made under a guest record with this phone number
      and starts today. */
  predicate BookedToday(d: Db, phone: string, today: UserController.Day, k: int) {
    && k in d.reservations
    && d.reservations[k].guestUserId.Some?
    && d.reservations[k].guestUserId.value in d.guests
    && d.guests[d.reservations[k].guestUserId.value].phone == phone
    && today.first <= d.reservations[k].time <= today.last
  }

  /** Reservations today of the guest records in `gs`, guest by guest. */
  function BookingsOf(d: Db, gs: seq<int>, today: UserController.Day): (ks: seq<int>)
    ensures forall k :: k in ks <==> (k in d.reservations && 1 <= k < d.nextId
                                      && d.reservations[k].guestUserId.Some?
                                      && d.reservations[k].guestUserId.value in gs
                                      && today.first <= d.reservations[k].time <= today.last)
    decreases |gs|
  {
    if gs == [] then []
    else
      Where(d.reservations, (r: Reservation) => r.guestUserId == Some(gs[0]) && today.first <= r.time <= today.last, 1, d.nextId)
      + BookingsOf(d, gs[1..], today)
  }

  /** Today's bookings under any guest record with this phone number. */
  function TodaysBookings(d: Db, phone: string, today: UserController.Day): (ks: seq<int>)
    requires IdsBelow(d.reservations, d.nextId) && IdsBelow(d.guests, d.nextId)
    ensures forall k :: k in ks <==> BookedToday(d, phone, today, k)
  {
    var gs := Where(d.guests, (g: GuestUser) => g.phone == phone, 1, d.nextId);
    BookingsOf(d, gs, today)
  }

  /** The line shown for reservation `k`. */
  function LineOf(d: Db, k: int): (l: BookingLine)
    requires k in d.reservations && d.reservations[k].tableId in d.tables
    ensures l.reservationId == k && l.status == ShownStatus(d.reservations[k], d.tables[d.reservations[k].tableId])
  {
    var res := d.reservations[k];
    var t := d.tables[res.tableId];
    BookingLine(k, res.tableId, t.tableNumber, res.time, res.people, ShownStatus(res, t))
  }

  /** The lines for reservations `ks`, in the same order. */
  function Lines(d: Db, ks: seq<int>): (ls: seq<BookingLine>)
    requires forall i :: 0 <= i < |ks| ==> ks[i] in d.reservations
    requires ReservationsReferToTables(d.reservations, d.tables)
    ensures |ls| == |ks|
    ensures forall i :: 0 <= i < |ks| ==> ls[i] == LineOf(d, ks[i]) && ls[i].reservationId == ks[i]
  {
    seq(|ks|, i requires 0 <= i < |ks| => LineOf(d, ks[i]))
  }

  /** `getGuestReservation` (controllers/guest.js:104-160): the bookings made
      today under any guest record with this phone number, or 404 when there
      are none. */
  function GuestBookings(d: Db, name: string, phone: string, phoneValid: bool, today: UserController.Day)
    : (r: Result<seq<BookingLine>>)
    requires IdsBelow(d.reservations, d.nextId) && IdsBelow(d.guests, d.nextId)
    requires ReservationsReferToTables(d.reservations, d.tables)
    ensures r.Err? && r.error.BadRequest? <==> Trim(name) == "" || Trim(phone) == "" || !phoneValid
    ensures !r.Err? || !r.error.BadRequest? ==> r == PhoneBookings(d, Trim(phone), today)
  {
    if Trim(name) == "" || Trim(phone) == "" then Err(BadRequest("name and phone required"))
    else if !phoneValid then Err(BadRequest("invalid phone number"))
    else PhoneBookings(d, Trim(phone), today)
  }

  /** The lookup once the name and a valid phone number are given: one line per
      booking made today under this phone number, or 404 when there is none. */
  function PhoneBookings(d: Db, phone: string, today: UserController.Day): (r: Result<seq<BookingLine>>)
    requires IdsBelow(d.reservations, d.nextId) && IdsBelow(d.guests, d.nextId)
    requires ReservationsReferToTables(d.reservations, d.tables)
    ensures r.Ok? ==> r.value != []
    ensures r.Ok? ==> forall i :: 0 <= i < |r.value| ==>
              BookedToday(d, phone, today, r.value[i].reservationId)
              && r.value[i] == LineOf(d, r.value[i].reservationId)
    ensures r.Ok? ==> forall k :: BookedToday(d, phone, today, k) ==>
              exists i :: 0 <= i < |r.value| && r.value[i].reservationId == k
    ensures r.Err? <==> forall k :: !BookedToday(d, phone, today, k)
    ensures r.Err? ==> r.error.NotFound?
  {
    var ks := TodaysBookings(d, phone, today);
    TodaysLines(d, phone, today);
    if ks == [] then Err(NotFound("no booking today for this phone"))
    else Ok(Lines(d, ks))
  }

  /** The lines listed for today's bookings name each of them exactly, and at least one exists when the list is not empty. */
  lemma TodaysLines(d: Db, phone: string, today: UserController.Day)
    requires IdsBelow(d.reservations, d.nextId) && IdsBelow(d.guests, d.nextId)
    requires ReservationsReferToTables(d.reservations, d.tables)
    ensures var ks := TodaysBookings(d, phone, today);
            ks == [] <==> forall k :: !BookedToday(d, phone, today, k)
    ensures var ks := TodaysBookings(d, phone, today);
            forall i :: 0 <= i < |ks| ==> BookedToday(d, phone, today, ks[i])
    ensures var ks := TodaysBookings(d, phone, today);
            forall k :: BookedToday(d, phone, today, k) ==> exists i :: 0 <= i < |ks| && ks[i] == k
  {
    var ks := TodaysBookings(d, phone, today);
    if ks != [] {
      assert BookedToday(d, phone, today, ks[0]);
    }
  }

  // ---------------------------------------------------------------- cancel

  /** `cancelGuestReservation` (controllers/guest.js:181-199): a positive integer
      id of an existing reservation that is not already CANCELLED. Anyone may
      cancel any reservation: there is no owner check. */
  function GuestCancelCheck(d: Db, id: Input<int>): (r: Outcome)
    ensures r.Pass? <==> IntAtLeast(id, 1) && id.v in d.reservations && d.reservations[id.v].status != ReservationStatus.Cancelled
    ensures r.Fail? && r.error.NotFound? <==> IntAtLeast(id, 1) && id.v !in d.reservations
    ensures r.Fail? && r.error.BadRequest? <==>
              !IntAtLeast(id, 1) || (id.v in d.reservations && d.reservations[id.v].status == ReservationStatus.Cancelled)
    ensures r.Fail? ==> r.error.BadRequest? || r.error.NotFound?
  {
    if !IntAtLeast(id, 1) then Fail(BadRequest("invalid reservation id"))
    else if id.v !in d.reservations then Fail(NotFound("reservation"))
    else if d.reservations[id.v].status == ReservationStatus.Cancelled then Fail(BadRequest("already cancelled"))
    else Pass
  }

  /** The reservation marked CANCELLED, then its table AVAILABLE. */
  function AfterGuestCancel(d: Db, id: int): Db
    requires id in d.reservations
  {
    var res := d.reservations[id];
    d.(reservations := d.reservations[id := res.(status := ReservationStatus.Cancelled)],
       tables := MarkTables(d.tables, {res.tableId}, TableStatus.Available))
  }

  method CancelGuestReservation(db: Database, id: Input<int>) returns (r: Outcome)
    requires db.Valid()
    modifies db
    ensures db.Valid()
    ensures r == GuestCancelCheck(old(db.Snapshot()), id)
    ensures r.Pass? ==> db.Snapshot() == AfterGuestCancel(old(db.Snapshot()), id.v)
    ensures r.Fail? ==> db.Snapshot() == old(db.Snapshot())
  {
    r := GuestCancelCheck(db.Snapshot(), id);
    if r.Pass? {
      var res := db.reservations[id.v];
      db.reservations := db.reservations[id.v := res.(status := ReservationStatus.Cancelled)];
      MarkTablesKeepsNumbers(db.tables, {res.tableId}, TableStatus.Available);
      db.tables := MarkTables(db.tables, {res.tableId}, TableStatus.Available);
    }
  }

  /** A cancelled reservation no longer stands in the way of any booking, and a
      second cancellation of it is refused. */
  lemma GuestCancelReleases(d: Db, id: int, request: seq<int>, s: int)
    requires GuestCancelCheck(d, Value(id)).Pass?
    ensures id !in Conflicts(AfterGuestCancel(d, id), request, s)
    ensures GuestCancelCheck(AfterGuestCancel(d, id), Value(id)) == Fail(BadRequest("already cancelled"))
  {
  }

  // ---------------------------------------------------------------- availability

  /** `^([01]\d|2[0-3]):[0-5]\d$`: a 24-hour clock time "HH:mm". */
  predicate IsClock(s: string) {
    |s| == 5 && s[2] == ':'
    && (('0' <= s[0] <= '1' && '0' <= s[1] <= '9') || (s[0] == '2' && '0' <= s[1] <= '3'))
    && '0' <= s[3] <= '5' && '0' <= s[4] <= '9'
  }

  /** Milliseconds after midnight of a clock time. */
  function ClockOffset(s: string): (ms: int)
    requires IsClock(s)
    ensures 0 <= ms < DAY
  {
    var h := (s[0] as int - '0' as int) * 10 + (s[1] as int - '0' as int);
    var m := (s[3] as int - '0' as int) * 10 + (s[4] as int - '0' as int);
    h * HOUR + m * MINUTE
  }

  /** Reservation `k` is listed beside table `t`: PENDING or CONFIRMED and
      starting before `end`. */
  predicate Shown(d: Db, t: int, end: int, k: int) {
    k in d.reservations && 1 <= k < d.nextId && d.reservations[k].tableId == t
    && d.reservations[k].status in {ReservationStatus.Pending, ReservationStatus.Confirmed}
    && d.reservations[k].time < end
  }

  /** A table with the reservations shown beside it. */
  datatype TableAgenda = TableAgenda(tableId: int, table: Table, reservations: seq<int>)

  /** `getTablesWithReservations` (controllers/guest.js:227-267): `date` is
      `Missing` when absent, `Rejected` when strict ISO 8601 refuses it, and
      otherwise carries the start of the requested day at UTC+7, or `None` when
      the string with the clock time appended is no date (Prisma then refuses
      the invalid bound with 500); every table with its PENDING or CONFIRMED
      reservations that start before one hour after the requested time. */
  function TablesWithReservations(d: Db, date: Checked<int>, time: string): (r: Result<seq<TableAgenda>>)
    ensures r.Err? && r.error.BadRequest? <==> !date.Accepted? || !IsClock(time)
    ensures r.Err? && r.error.ServerError? <==> date.Accepted? && date.parsed.None? && IsClock(time)
    ensures r.Ok? <==> date.Parsed() && IsClock(time)
    ensures r.Err? ==> r.error.BadRequest? || r.error.ServerError?
    ensures r.Ok? ==> var ts := Where(d.tables, (t: Table) => true, 1, d.nextId);
                      |r.value| == |ts| && forall i :: 0 <= i < |ts| ==> r.value[i].tableId == ts[i]
    ensures r.Ok? ==> forall a :: a in r.value ==> a.tableId in d.tables && a.table == d.tables[a.tableId]
    ensures r.Ok? ==> forall a, k :: a in r.value ==>
                        (k in a.reservations <==> Shown(d, a.tableId, date.parsed.value + ClockOffset(time) + HOUR, k))
  {
    if date.Missing? || time == "" then Err(BadRequest("date and time required"))
    else if date.Rejected? then Err(BadRequest("invalid date"))
    else if !IsClock(time) then Err(BadRequest("invalid time"))
    else if date.parsed.None? then Err(ServerError("invalid date bound"))
    else
      var end := date.parsed.value + ClockOffset(time) + HOUR;
      var ts := Where(d.tables, (t: Table) => true, 1, d.nextId);
      Ok(seq(|ts|, i requires 0 <= i < |ts| =>
        TableAgenda(ts[i], d.tables[ts[i]],
          Where(d.reservations, (res: Reservation) => res.tableId == ts[i]
            && res.status in {ReservationStatus.Pending, ReservationStatus.Confirmed} && res.time < end, 1, d.nextId))))
  }
}
