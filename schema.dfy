/** The Prisma models the controllers read and write, the whole database as one
    value, and the queries (`findFirst`, `findMany`, `count`) over it. */
module Schema {
  import opened Http

  /** Instants are integer milliseconds; durations below are in the same unit. */
  const MINUTE: int := 60 * 1000
  const HOUR: int := 60 * MINUTE
  const DAY: int := 24 * HOUR

  /** Wire names of the payment states and methods stored as plain strings. */
  const Unpaid: string := "ยังไม่ชำระเงิน"
  const Paid: string := "ชำระเงินแล้ว"
  const OrderCancelledThai: string := "ยกเลิกออเดอร์"
  const QrCode: string := "QR_CODE"

  /** The two menu states `updateMenu` accepts: in stock and sold out. A new
      menu starts in stock (the column's default). */
  const MenuAvailable: string := "มีอยู่"
  const MenuSoldOut: string := "หมดแล้ว"

  datatype TableStatus = Available | Reserved | Occupied
  {
    function Name(): string {
      match this
      case Available => "AVAILABLE"
      case Reserved => "RESERVED"
      case Occupied => "OCCUPIED"
    }
  }

  datatype ReservationStatus = Pending | Reserved | Confirmed | Cancelled | Completed
  {
    function Name(): string {
      match this
      case Pending => "PENDING"
      case Reserved => "RESERVED"
      case Confirmed => "CONFIRMED"
      case Cancelled => "CANCELLED"
      case Completed => "COMPLETED"
    }
  }

  datatype OrderStatus = Pending | Completed | Cancelled
  {
    function Name(): string {
      match this
      case Pending => "PENDING"
      case Completed => "COMPLETED"
      case Cancelled => "CANCELLED"
    }
  }

  /** The table status a wire name denotes, if any (exact case). */
  function ParseTableStatus(s: string): (r: Option<TableStatus>)
    ensures r.Some? ==> r.value.Name() == s
    ensures forall t: TableStatus :: t.Name() == s ==> r == Some(t)
  {
    if s == "AVAILABLE" then Some(TableStatus.Available)
    else if s == "RESERVED" then Some(TableStatus.Reserved)
    else if s == "OCCUPIED" then Some(TableStatus.Occupied)
    else None
  }

  /** The order status a wire name denotes, if any (exact case). */
  function ParseOrderStatus(s: string): (r: Option<OrderStatus>)
    ensures r.Some? ==> r.value.Name() == s
    ensures forall t: OrderStatus :: t.Name() == s ==> r == Some(t)
  {
    if s == "PENDING" then Some(OrderStatus.Pending)
    else if s == "COMPLETED" then Some(OrderStatus.Completed)
    else if s == "CANCELLED" then Some(OrderStatus.Cancelled)
    else None
  }

  /** The reservation status a wire name denotes, if any (exact case). */
  function ParseReservationStatus(s: string): (r: Option<ReservationStatus>)
    ensures r.Some? ==> r.value.Name() == s
    ensures forall t: ReservationStatus :: t.Name() == s ==> r == Some(t)
  {
    if s == "PENDING" then Some(ReservationStatus.Pending)
    else if s == "RESERVED" then Some(ReservationStatus.Reserved)
    else if s == "CONFIRMED" then Some(ReservationStatus.Confirmed)
    else if s == "CANCELLED" then Some(ReservationStatus.Cancelled)
    else if s == "COMPLETED" then Some(ReservationStatus.Completed)
    else None
  }

  datatype Table = Table(tableNumber: int, status: TableStatus)

  /** A booking of one table; exactly one of `userId` and `guestUserId` is set for
      bookings made by customers, neither for rows the cashier flow creates. */
  datatype Reservation = Reservation(
    userId: Option<int>,
    guestUserId: Option<int>,
    tableId: int,
    time: int,
    status: ReservationStatus,
    people: Option<int>,
    orderId: Option<int>)

  /** A line of an order; `menuId` is unset for free-text lines, prices are in minor units. */
  datatype OrderItem = OrderItem(menuId: Option<int>, name: Option<string>, quantity: int, price: int)

  datatype Order = Order(
    userId: Option<int>,
    tableId: Option<int>,
    status: OrderStatus,
    paymentStatus: string,
    paymentMethod: Option<string>,
    slipUrl: Option<string>,
    totalPrice: int,
    createdAt: int,
    items: seq<OrderItem>)

  /** A cart line: one user's pending quantity of one menu item for one table. */
  datatype CartRow = CartRow(userId: int, menuId: int, tableId: int, quantity: int, price: int, total: int)

  datatype GuestUser = GuestUser(name: string, phone: string)

  datatype User = User(
    username: string,
    email: string,
    phone: string,
    password: string,
    enabled: bool,
    role: string,
    resetToken: Option<string>,
    resetTokenExp: Option<int>)

  datatype Menu = Menu(
    name: string,
    price: int,
    description: string,
    image: string,
    publicId: string,
    categoryId: int,
    status: string)

  datatype StockItem = StockItem(itemName: string, quantity: int, menuId: Option<int>)

  datatype Category = Category(name: string)

  /** A row of the paid-orders ledger written when the admin confirms a payment. */
  datatype HistoryRow = HistoryRow(
    userId: Option<int>,
    orderId: int,
    tableId: Option<int>,
    totalPrice: int,
    date: int,
    year: int,
    month: int,
    day: int,
    paymentStatus: string,
    paymentMethod: string)

  /** The whole database: one map per model from row id to row, the history
      ledger, and the next id the database hands out (ids are never reused). */
  datatype Db = Db(
    tables: map<int, Table>,
    reservations: map<int, Reservation>,
    orders: map<int, Order>,
    carts: map<int, CartRow>,
    guests: map<int, GuestUser>,
    users: map<int, User>,
    menus: map<int, Menu>,
    stock: map<int, StockItem>,
    categories: map<int, Category>,
    history: seq<HistoryRow>,
    nextId: int)
  {
    /** Schema constraints the controllers rely on: ids are below `nextId`,
        table numbers and category names are unique, reservations point at
        existing tables and at orders created before them, cart rows at existing menus, and a user has at most
        one cart row per menu item and table. */
    predicate Valid() {
      && nextId >= 1
      && IdsBelow(tables, nextId) && IdsBelow(reservations, nextId) && IdsBelow(orders, nextId)
      && IdsBelow(carts, nextId) && IdsBelow(guests, nextId) && IdsBelow(users, nextId)
      && IdsBelow(menus, nextId) && IdsBelow(stock, nextId) && IdsBelow(categories, nextId)
      && TableNumbersUnique(tables)
      && CategoryNamesUnique(categories)
      && ReservationsReferToTables(reservations, tables)
      && OrderRefsBelow(reservations, nextId)
      && CartsReferToMenus(carts, menus)
      && CartKeysUnique(carts)
    }
  }

  /** Rewriting an existing menu item keeps the database well formed. */
  lemma MenuRewriteValid(d: Db, k: int, m: Menu)
    requires d.Valid() && k in d.menus
    ensures d.(menus := d.menus[k := m]).Valid()
  {
    var e := d.(menus := d.menus[k := m]);
    assert e.menus.Keys == d.menus.Keys;
    assert IdsBelow(e.menus, e.nextId) && CartsReferToMenus(e.carts, e.menus);
  }

  predicate ReservationsReferToTables(reservations: map<int, Reservation>, tables: map<int, Table>) {
    forall k :: k in reservations ==> reservations[k].tableId in tables
  }

  /** Reservations only ever name orders that were created before them. */
  predicate OrderRefsBelow(reservations: map<int, Reservation>, nextId: int) {
    forall k :: k in reservations && reservations[k].orderId.Some? ==> reservations[k].orderId.value < nextId
  }

  predicate CartsReferToMenus(carts: map<int, CartRow>, menus: map<int, Menu>) {
    forall k :: k in carts ==> carts[k].menuId in menus
  }

  predicate IdsBelow<V>(m: map<int, V>, n: int) {
    forall k :: k in m ==> 1 <= k < n
  }

  predicate TableNumbersUnique(tables: map<int, Table>) {
    forall i, j :: i in tables && j in tables && tables[i].tableNumber == tables[j].tableNumber ==> i == j
  }

  predicate CategoryNamesUnique(categories: map<int, Category>) {
    forall i, j :: i in categories && j in categories && categories[i].name == categories[j].name ==> i == j
  }

  predicate SameCartKey(a: CartRow, b: CartRow) {
    a.userId == b.userId && a.menuId == b.menuId && a.tableId == b.tableId
  }

  predicate CartKeysUnique(carts: map<int, CartRow>) {
    forall i, j :: i in carts && j in carts && SameCartKey(carts[i], carts[j]) ==> i == j
  }

  predicate Increasing(ids: seq<int>) {
    forall i, j :: 0 <= i < j < |ids| ==> ids[i] < ids[j]
  }

  /** `findMany`: the ids in [lo, hi) of the rows satisfying `p`, in id order. */
  function Where<V>(m: map<int, V>, p: V -> bool, lo: int, hi: int): (ids: seq<int>)
    ensures forall k :: k in ids <==> k in m && lo <= k < hi && p(m[k])
    ensures ids == [] <==> forall k :: k in m && lo <= k < hi ==> !p(m[k])
    ensures Increasing(ids)
    decreases hi - lo
  {
    if lo >= hi then []
    else
      var rest := Where(m, p, lo + 1, hi);
      if lo in m && p(m[lo]) then
        assert forall i :: 0 <= i < |rest| ==> rest[i] in rest;
        [lo] + rest
      else rest
  }

  /** `findFirst`: the smallest id below `hi` whose row satisfies `p`. */
  function FindFirst<V>(m: map<int, V>, p: V -> bool, hi: int): (r: Option<int>)
    ensures r.Some? ==> r.value in m && 1 <= r.value < hi && p(m[r.value])
    ensures r.Some? ==> forall k :: k in m && 1 <= k < r.value && p(m[k]) ==> false
    ensures r.None? ==> forall k :: k in m && 1 <= k < hi ==> !p(m[k])
  {
    var ids := Where(m, p, 1, hi);
    if ids == [] then None
    else
      assert ids[0] in ids;
      assert forall k :: k in m && 1 <= k < ids[0] && p(m[k]) ==> k in ids;
      Some(ids[0])
  }

  /** `table.findUnique({ where: { tableNumber } })`: the table with this number, if any. */
  function TableByNumber(d: Db, n: int): (r: Option<int>)
    ensures r.Some? ==> r.value in d.tables && d.tables[r.value].tableNumber == n
    ensures r.None? && IdsBelow(d.tables, d.nextId) ==> forall k :: k in d.tables ==> d.tables[k].tableNumber != n
  {
    FindFirst(d.tables, (t: Table) => t.tableNumber == n, d.nextId)
  }

  /** `count`: the number of rows below `hi` satisfying `p`. */
  function Count<V>(m: map<int, V>, p: V -> bool, hi: int): (n: nat)
    ensures n == |Where(m, p, 1, hi)|
  {
    |Where(m, p, 1, hi)|
  }

  /** The number of distinct elements of a sequence. */
  function Distinct(xs: seq<int>): (n: nat)
    ensures n <= |xs|
    ensures n == |xs| <==> forall i, j :: 0 <= i < j < |xs| ==> xs[i] != xs[j]
  {
    DistinctBound(xs);
    |set k | k in xs|
  }

  lemma {:induction false} DistinctBound(xs: seq<int>)
    ensures |set k | k in xs| <= |xs|
    ensures |set k | k in xs| == |xs| <==> forall i, j :: 0 <= i < j < |xs| ==> xs[i] != xs[j]
  {
    if xs != [] {
      var rest := xs[1..];
      DistinctBound(rest);
      ElementsOfCons(xs);
      var t := set k | k in rest;
      if xs[0] in t {
        var i :| 0 <= i < |rest| && rest[i] == xs[0];
        assert xs[0] == xs[i + 1];
      } else {
        PairwiseOfCons(xs);
      }
    }
  }

  /** The elements of a non-empty sequence are its head and those of its tail. */
  lemma ElementsOfCons(xs: seq<int>)
    requires xs != []
    ensures (set k | k in xs) == {xs[0]} + (set k | k in xs[1..])
  {
    assert xs == [xs[0]] + xs[1..];
  }

  /** A sequence whose head is not in its tail has pairwise distinct elements
      exactly when its tail has. */
  lemma PairwiseOfCons(xs: seq<int>)
    requires xs != [] && xs[0] !in xs[1..]
    ensures (forall i, j :: 0 <= i < j < |xs| ==> xs[i] != xs[j]) <==>
            (forall i, j :: 0 <= i < j < |xs[1..]| ==> xs[1..][i] != xs[1..][j])
  {
    var rest := xs[1..];
    if forall i, j :: 0 <= i < j < |rest| ==> rest[i] != rest[j] {
      forall i, j | 0 <= i < j < |xs| ensures xs[i] != xs[j] {
        if i == 0 {
          assert xs[j] == rest[j - 1];
        } else {
          assert xs[i] == rest[i - 1] && xs[j] == rest[j - 1];
        }
      }
    } else {
      var i, j :| 0 <= i < j < |rest| && rest[i] == rest[j];
      assert xs[i + 1] == xs[j + 1];
    }
  }

  /** The number of distinct ids of `ids` that are rows of `m`: what
      `findMany({ where: { id: { in: ids } } }).length` returns. */
  function Found<V>(m: map<int, V>, ids: seq<int>): (n: nat)
    ensures n <= |ids|
    ensures n == |ids| <==> (forall i :: 0 <= i < |ids| ==> ids[i] in m) && Distinct(ids) == |ids|
  {
    FoundBound(m, ids);
    |set k | k in ids && k in m|
  }

  lemma FoundBound<V>(m: map<int, V>, ids: seq<int>)
    ensures |set k | k in ids && k in m| <= |ids|
    ensures |set k | k in ids && k in m| == |ids| <==>
      (forall i :: 0 <= i < |ids| ==> ids[i] in m) && Distinct(ids) == |ids|
  {
    var a := set k | k in ids && k in m;
    var b := set k | k in ids;
    assert a <= b;
    DistinctBound(ids);
    SubsetCard(a, b);
    if |a| == |ids| {
      forall i | 0 <= i < |ids| ensures ids[i] in m {
        assert ids[i] in b;
      }
    }
    if forall i :: 0 <= i < |ids| ==> ids[i] in m {
      assert a == b;
    }
  }

  lemma SubsetCard(a: set<int>, b: set<int>)
    requires a <= b
    ensures |a| <= |b|
    ensures |a| == |b| ==> a == b
  {
    if a != b {
      assert exists x :: x in b && x !in a by {
        if forall x :: x in b ==> x in a {
          assert false;
        }
      }
      var x :| x in b && x !in a;
      assert a <= b - {x};
      assert |b - {x}| == |b| - 1;
      SubsetCard(a, b - {x});
    }
  }

  /** `updateMany({ where: { id: { in: ids } }, data: { status } })` on tables. */
  function MarkTables(tables: map<int, Table>, ids: set<int>, status: TableStatus): (r: map<int, Table>)
    ensures r.Keys == tables.Keys
    ensures forall k :: k in r ==> r[k] == if k in ids then tables[k].(status := status) else tables[k]
  {
    map k | k in tables :: if k in ids then tables[k].(status := status) else tables[k]
  }

  lemma MarkTablesKeepsNumbers(tables: map<int, Table>, ids: set<int>, status: TableStatus)
    requires TableNumbersUnique(tables)
    ensures TableNumbersUnique(MarkTables(tables, ids, status))
  {
  }
}
