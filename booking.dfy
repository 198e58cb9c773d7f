/** The reservation scheduler shared by the member and guest booking handlers:
    the conflict window, the rows a booking creates, and what a booking then
    forbids (controllers/user.js:559-608, controllers/guest.js:34-93). */
module Booking {
  import opened Http
  import opened Schema
  import opened Store

  /** A visit lasts one hour and keeps three hours clear on both sides. */
  const VISIT: int := HOUR
  const BUFFER: int := 3 * HOUR

  /** Who a reservation row is for: a signed-in user or a guest record. */
  datatype Booker = Member(userId: int) | Guest(guestUserId: int)

  /** The row created for one table of a booking at `start`. */
  function Row(who: Booker, tableId: int, start: int, people: int): (r: Reservation)
    ensures r.status == ReservationStatus.Pending && r.tableId == tableId && r.time == start
    ensures r.userId.Some? <==> who.Member? && r.guestUserId.Some? <==> who.Guest?
  {
    match who
    case Member(u) => Reservation(Some(u), None, tableId, start, ReservationStatus.Pending, Some(people), None)
    case Guest(g) => Reservation(None, Some(g), tableId, start, ReservationStatus.Pending, Some(people), None)
  }

  /** A PENDING reservation of one of `tableIds` whose time lies in
      [start - 3h, start + 1h + 3h) stands in the way of a booking at `start`. */
  predicate Blocks(r: Reservation, tableIds: seq<int>, start: int) {
    r.status == ReservationStatus.Pending && r.tableId in tableIds
    && start - BUFFER <= r.time < start + VISIT + BUFFER
  }

  /** The ids of the reservations that stand in the way, in id order. */
  function Conflicts(d: Db, tableIds: seq<int>, start: int): (ks: seq<int>)
    ensures forall k :: k in ks <==> k in d.reservations && 1 <= k < d.nextId && Blocks(d.reservations[k], tableIds, start)
    ensures ks == [] <==> forall k :: k in d.reservations && 1 <= k < d.nextId ==> !Blocks(d.reservations[k], tableIds, start)
  {
    Where(d.reservations, (r: Reservation) => Blocks(r, tableIds, start), 1, d.nextId)
  }

  /** The tables of the conflicting reservations, as the 400 response lists them. */
  function BusyTableIds(d: Db, tableIds: seq<int>, start: int): (busy: seq<int>)
    ensures forall t :: t in busy ==> t in tableIds
    ensures |busy| == |Conflicts(d, tableIds, start)|
    ensures forall i :: 0 <= i < |busy| ==> busy[i] == d.reservations[Conflicts(d, tableIds, start)[i]].tableId
  {
    var ks := Conflicts(d, tableIds, start);
    seq(|ks|, i requires 0 <= i < |ks| => d.reservations[ks[i]].tableId)
  }

  /** The last two checks of both booking handlers: every id an existing table
      named once (400), then no conflict (400 with the busy tables). */
  function AdmitTables(d: Db, ids: seq<int>, start: int): (r: Result<seq<int>>)
    ensures r.Ok? <==> (forall i :: 0 <= i < |ids| ==> ids[i] in d.tables) && Distinct(ids) == |ids|
                       && Conflicts(d, ids, start) == []
    ensures r.Ok? ==> r.value == ids
    ensures r.Err? && r.error.BusyTables? <==> Found(d.tables, ids) == |ids| && Conflicts(d, ids, start) != []
    ensures r.Err? && r.error.BusyTables? <==>
              (forall i :: 0 <= i < |ids| ==> ids[i] in d.tables) && Distinct(ids) == |ids| && Conflicts(d, ids, start) != []
    ensures r.Err? && r.error.BusyTables? ==> r.error.tableIds == BusyTableIds(d, ids, start)
    ensures r.Err? ==> r.error.BadRequest? || r.error.BusyTables?
  {
    if Found(d.tables, ids) != |ids| then Err(BadRequest("unknown table"))
    else if Conflicts(d, ids, start) != [] then Err(BusyTables(BusyTableIds(d, ids, start)))
    else Ok(ids)
  }

  /** The rows a booking of `tableIds` creates, numbered from `base` in list order. */
  function Rows(base: int, who: Booker, tableIds: seq<int>, start: int, people: int): (m: map<int, Reservation>)
    ensures forall k :: k in m <==> base <= k < base + |tableIds|
    ensures forall i :: 0 <= i < |tableIds| ==> m[base + i] == Row(who, tableIds[i], start, people)
    decreases |tableIds|
  {
    if tableIds == [] then map[]
    else
      var n := |tableIds| - 1;
      Rows(base, who, tableIds[..n], start, people)[base + n := Row(who, tableIds[n], start, people)]
  }

  /** The database after a booking: the new PENDING rows and every named table RESERVED. */
  function Book(d: Db, who: Booker, tableIds: seq<int>, start: int, people: int): Db {
    d.(reservations := d.reservations + Rows(d.nextId, who, tableIds, start, people),
       tables := MarkTables(d.tables, (set t | t in tableIds), TableStatus.Reserved),
       nextId := d.nextId + |tableIds|)
  }

  /** `$transaction(tableIds.map(...))`: builds one PENDING row per table in
      list order, then commits the whole batch at once. */
  method CreateRows(db: Database, who: Booker, tableIds: seq<int>, start: int, people: int)
    modifies db
    ensures db.Snapshot() == old(db.Snapshot()).(
      reservations := old(db.reservations) + Rows(old(db.nextId), who, tableIds, start, people),
      nextId := old(db.nextId) + |tableIds|)
  {
    var base := db.nextId;
    var batch: map<int, Reservation> := map[];
    var i := 0;
    while i < |tableIds|
      invariant 0 <= i <= |tableIds|
      invariant batch == Rows(base, who, tableIds[..i], start, people)
    {
      assert tableIds[..i + 1][..i] == tableIds[..i];
      batch := batch[base + i := Row(who, tableIds[i], start, people)];
      i := i + 1;
    }
    assert tableIds[..i] == tableIds;
    db.reservations := db.reservations + batch;
    db.nextId := base + |tableIds|;
  }

  /** Books `tableIds` at `start`: the rows, then the tables marked RESERVED. */
  method PlaceBooking(db: Database, who: Booker, tableIds: seq<int>, start: int, people: int)
    modifies db
    ensures db.Snapshot() == Book(old(db.Snapshot()), who, tableIds, start, people)
  {
    CreateRows(db, who, tableIds, start, people);
    db.tables := MarkTables(db.tables, (set t | t in tableIds), TableStatus.Reserved);
  }

  /** A booking of existing tables keeps the database well formed. */
  lemma BookValid(d: Db, who: Booker, tableIds: seq<int>, start: int, people: int)
    requires d.Valid()
    requires forall i :: 0 <= i < |tableIds| ==> tableIds[i] in d.tables
    ensures Book(d, who, tableIds, start, people).Valid()
  {
    var e := Book(d, who, tableIds, start, people);
    var rows := Rows(d.nextId, who, tableIds, start, people);
    forall k | k in e.reservations
      ensures e.reservations[k].tableId in e.tables && 1 <= k < e.nextId
      ensures e.reservations[k].orderId.Some? ==> e.reservations[k].orderId.value < e.nextId
    {
      if k in rows {
        var i :| 0 <= i < |tableIds| && k == d.nextId + i;
        assert rows[k] == Row(who, tableIds[i], start, people);
      }
    }
    MarkTablesKeepsNumbers(d.tables, (set t | t in tableIds), TableStatus.Reserved);
  }

  /** The row a booking at `start` creates blocks a later request for the same
      table at `s` exactly when `s` lies in (start - 4h, start + 3h]. */
  lemma NewRowBlocks(who: Booker, tableId: int, start: int, people: int, s: int)
    ensures Blocks(Row(who, tableId, start, people), [tableId], s) <==> start - VISIT - BUFFER < s <= start + BUFFER
  {
  }

  /** After a booking of `tableIds` at `start`, any request that includes one of
      those tables at a time in (start - 4h, start + 3h] meets a conflict. */
  lemma {:induction false} NoDoubleBooking(d: Db, who: Booker, tableIds: seq<int>, start: int, people: int,
                                           request: seq<int>, s: int)
    requires d.Valid()
    requires exists t :: t in tableIds && t in request
    requires start - VISIT - BUFFER < s <= start + BUFFER
    ensures Conflicts(Book(d, who, tableIds, start, people), request, s) != []
  {
    var t :| t in tableIds && t in request;
    var i :| 0 <= i < |tableIds| && tableIds[i] == t;
    var e := Book(d, who, tableIds, start, people);
    var k := d.nextId + i;
    assert k in Rows(d.nextId, who, tableIds, start, people);
    assert e.reservations[k] == Row(who, t, start, people);
    assert Blocks(e.reservations[k], request, s);
    assert k in Conflicts(e, request, s);
  }

  /** A booking leaves the reservations of other tables, and their conflicts, as they were. */
  lemma {:induction false} BookingIsLocal(d: Db, who: Booker, tableIds: seq<int>, start: int, people: int,
                                          request: seq<int>, s: int)
    requires d.Valid()
    requires forall t :: t in request ==> t !in tableIds
    ensures Conflicts(Book(d, who, tableIds, start, people), request, s) == Conflicts(d, request, s)
  {
    var e := Book(d, who, tableIds, start, people);
    var rows := Rows(d.nextId, who, tableIds, start, people);
    forall k | k in rows ensures !Blocks(rows[k], request, s) {
      var i :| 0 <= i < |tableIds| && k == d.nextId + i;
      assert rows[k].tableId == tableIds[i];
    }
    WhereAboveUnchanged(d, e, (r: Reservation) => Blocks(r, request, s), 1);
  }

  /** Where `e` extends `d` by rows above `d.nextId` that fail `p`, listing by `p` is the same. */
  lemma {:induction false} WhereAboveUnchanged(d: Db, e: Db, p: Reservation -> bool, lo: int)
    requires e.nextId >= d.nextId
    requires IdsBelow(d.reservations, d.nextId)
    requires forall k :: k in d.reservations ==> k in e.reservations && e.reservations[k] == d.reservations[k]
    requires forall k :: k in e.reservations && k !in d.reservations ==> k >= d.nextId && !p(e.reservations[k])
    ensures Where(e.reservations, p, lo, e.nextId) == Where(d.reservations, p, lo, d.nextId)
    decreases e.nextId - lo
  {
    if lo < e.nextId {
      WhereAboveUnchanged(d, e, p, lo + 1);
      if lo >= d.nextId {
        assert Where(d.reservations, p, lo, d.nextId) == [];
        assert Where(d.reservations, p, lo + 1, d.nextId) == [];
      }
    }
  }
}
