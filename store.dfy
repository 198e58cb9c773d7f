/** The Prisma client as one mutable object: a map field per model, the history
    ledger, and the id counter. Controllers read and reassign these fields. */
module Store {
  import opened Http
  import opened Schema

  class Database {
    var tables: map<int, Table>
    var reservations: map<int, Reservation>
    var orders: map<int, Order>
    var carts: map<int, CartRow>
    var guests: map<int, GuestUser>
    var users: map<int, User>
    var menus: map<int, Menu>
    var stock: map<int, StockItem>
    var categories: map<int, Category>
    var history: seq<HistoryRow>
    var nextId: int

    /** The current contents as a value. */
    function Snapshot(): (d: Db)
      reads this
      ensures d.tables == tables && d.reservations == reservations && d.orders == orders
      ensures d.carts == carts && d.guests == guests && d.users == users && d.menus == menus
      ensures d.stock == stock && d.categories == categories && d.history == history
      ensures d.nextId == nextId
    {
      Db(tables, reservations, orders, carts, guests, users, menus, stock, categories, history, nextId)
    }

    predicate Valid()
      reads this
    {
      Snapshot().Valid()
    }

    /** A database holding the rows of `d` (the seeded restaurant). */
    constructor (d: Db)
      requires d.Valid()
      ensures Snapshot() == d && Valid()
    {
      tables, reservations, orders, carts, guests := d.tables, d.reservations, d.orders, d.carts, d.guests;
      users, menus, stock, categories := d.users, d.menus, d.stock, d.categories;
      history, nextId := d.history, d.nextId;
    }

    /** Hands out the id of the next row to be created. */
    method FreshId() returns (id: int)
      modifies this
      ensures id == old(nextId)
      ensures Snapshot() == old(Snapshot()).(nextId := id + 1)
    {
      id := nextId;
      nextId := nextId + 1;
    }
  }
}
