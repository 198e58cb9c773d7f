/** The stock room (controllers/inventory.js): creating, merging into and
    deleting inventory rows after early-return validation. */
module InventoryController {
  import opened Http
  import opened Text
  import opened Schema
  import opened Store

  // ---------------------------------------------------------------- create

  /** `createStock`'s validation. `itemName` is `None` when the field is
      missing; `quantity` is the field after `validator.toInt`, `Absent` when
      the raw field is falsy (missing, empty, or the number 0 — so a JSON 0
      is refused while the text "0" is accepted). */
  function CreateStockCheck(itemName: Option<string>, quantity: Input<int>): (r: Result<StockItem>)
    ensures r.Err? <==> itemName.None? || itemName.value == "" || !IntAtLeast(quantity, 0)
    ensures r.Err? ==> r.error.BadRequest?
    ensures r.Ok? ==> r.value == StockItem(Trim(itemName.value), quantity.v, None)
  {
    if itemName.None? || itemName.value == "" || quantity.Absent? then Err(BadRequest("itemName and quantity required"))
    else if !IntAtLeast(quantity, 0) then Err(BadRequest("quantity must be an integer of at least 0"))
    else Ok(StockItem(Trim(itemName.value), quantity.v, None))
  }

  /** The database with `item` stored under the next id. */
  function WithStock(d: Db, item: StockItem): Db {
    d.(stock := d.stock[d.nextId := item], nextId := d.nextId + 1)
  }

  lemma WithStockValid(d: Db, item: StockItem)
    requires d.Valid()
    ensures WithStock(d, item).Valid()
  {
    var e := WithStock(d, item);
    assert IdsBelow(e.stock, e.nextId);
    assert IdsBelow(e.tables, e.nextId) && IdsBelow(e.reservations, e.nextId) && IdsBelow(e.orders, e.nextId);
    assert IdsBelow(e.carts, e.nextId) && IdsBelow(e.guests, e.nextId) && IdsBelow(e.users, e.nextId);
    assert IdsBelow(e.menus, e.nextId) && IdsBelow(e.categories, e.nextId);
  }

  /** `createStock` (controllers/inventory.js:5-32): one new row, under a fresh id. */
  method CreateStock(db: Database, itemName: Option<string>, quantity: Input<int>) returns (r: Result<StockItem>, id: int)
    requires db.Valid()
    modifies db
    ensures db.Valid()
    ensures r == CreateStockCheck(itemName, quantity)
    ensures r.Ok? ==> id == old(db.nextId) && db.Snapshot() == WithStock(old(db.Snapshot()), r.value)
    ensures r.Err? ==> db.Snapshot() == old(db.Snapshot())
  {
    id := 0;
    r := CreateStockCheck(itemName, quantity);
    if r.Ok? {
      ghost var d0 := db.Snapshot();
      WithStockValid(d0, r.value);
      id := db.FreshId();
      db.stock := db.stock[id := r.value];
      assert db.Snapshot() == WithStock(d0, r.value);
    }
  }

  /** The check is made on the name as sent and the row stores it trimmed:
      a stored name never starts or ends with a blank. */
  lemma CreatedNameTrimmed(itemName: string, quantity: Input<int>)
    requires CreateStockCheck(Some(itemName), quantity).Ok?
    ensures Trim(CreateStockCheck(Some(itemName), quantity).value.itemName) == CreateStockCheck(Some(itemName), quantity).value.itemName
  {
    TrimIdempotent(itemName);
  }

  /** A name made only of blanks is not empty as sent, so it passes the check
      and is stored as the empty name. */
  lemma BlankNameStoredEmpty(blanks: string, quantity: Input<int>)
    requires blanks != [] && forall i :: 0 <= i < |blanks| ==> IsSpace(blanks[i])
    requires IntAtLeast(quantity, 0)
    ensures CreateStockCheck(Some(blanks), quantity) == Ok(StockItem("", quantity.v, None))
  {
    TrimBlank(blanks);
  }

  // ---------------------------------------------------------------- update

  /** `updateStock`'s validation. `id` is the path parameter after `parseInt`;
      `quantity` and `menuId` are `None` when not sent, and otherwise
      `Value` exactly when the text is an integer; `itemName` is `None` when
      falsy. Malformed input is 400 before the lookup, a missing row 404, and
      a menu id naming no menu 400 after it. */
  function UpdateStockCheck(d: Db, id: Input<int>, quantity: Option<Input<int>>, menuId: Option<Input<int>>): (r: Outcome)
    ensures r.Pass? <==>
              && IntAtLeast(id, 1)
              && (quantity.Some? ==> IntAtLeast(quantity.value, 0))
              && (menuId.Some? ==> IntAtLeast(menuId.value, 1))
              && id.v in d.stock
              && (menuId.Some? ==> menuId.value.v in d.menus)
    ensures r.Fail? && r.error.NotFound? <==>
              && IntAtLeast(id, 1)
              && (quantity.Some? ==> IntAtLeast(quantity.value, 0))
              && (menuId.Some? ==> IntAtLeast(menuId.value, 1))
              && id.v !in d.stock
    ensures r.Fail? ==> r.error.BadRequest? || r.error.NotFound?
  {
    if !IntAtLeast(id, 1) then Fail(BadRequest("invalid stock id"))
    else if quantity.Some? && !IntAtLeast(quantity.value, 0) then Fail(BadRequest("quantity must be an integer of at least 0"))
    else if menuId.Some? && !IntAtLeast(menuId.value, 1) then Fail(BadRequest("menuId must be an integer of at least 1"))
    else if id.v !in d.stock then Fail(NotFound("stock item"))
    else if menuId.Some? && menuId.value.v !in d.menus then Fail(BadRequest("unknown menu"))
    else Pass
  }

  /** The row after the merge: a supplied non-blank name (trimmed), a supplied
      quantity and a supplied menu id replace the stored ones. */
  function Merged(s: StockItem, itemName: Option<string>, quantity: Option<Input<int>>, menuId: Option<Input<int>>): StockItem
    requires quantity.Some? ==> quantity.value.Value?
    requires menuId.Some? ==> menuId.value.Value?
  {
    StockItem(
      if itemName.Some? && Trim(itemName.value) != "" then Trim(itemName.value) else s.itemName,
      if quantity.Some? then quantity.value.v else s.quantity,
      if menuId.Some? then Some(menuId.value.v) else s.menuId)
  }

  /** `updateStock` (controllers/inventory.js:51-102). */
  method UpdateStock(db: Database, id: Input<int>, itemName: Option<string>, quantity: Option<Input<int>>,
                     menuId: Option<Input<int>>) returns (r: Outcome)
    requires db.Valid()
    modifies db
    ensures db.Valid()
    ensures r == UpdateStockCheck(old(db.Snapshot()), id, quantity, menuId)
    ensures r.Pass? ==> db.Snapshot() == old(db.Snapshot()).(stock := old(db.stock)[id.v := Merged(old(db.stock)[id.v], itemName, quantity, menuId)])
    ensures r.Fail? ==> db.Snapshot() == old(db.Snapshot())
  {
    r := UpdateStockCheck(db.Snapshot(), id, quantity, menuId);
    if r.Pass? {
      db.stock := db.stock[id.v := Merged(db.stock[id.v], itemName, quantity, menuId)];
    }
  }

  /** Every field not supplied keeps its stored value, every supplied one
      takes the new value, and a merged row's menu id names a menu whenever
      one was supplied. */
  lemma MergeKeepsUnsupplied(d: Db, id: Input<int>, itemName: Option<string>, quantity: Option<Input<int>>,
                             menuId: Option<Input<int>>)
    requires UpdateStockCheck(d, id, quantity, menuId).Pass?
    ensures var before := d.stock[id.v];
            var after := Merged(before, itemName, quantity, menuId);
            && (itemName.None? ==> after.itemName == before.itemName)
            && (quantity.None? ==> after.quantity == before.quantity)
            && (menuId.None? ==> after.menuId == before.menuId)
            && (quantity.Some? ==> after.quantity == quantity.value.v && after.quantity >= 0)
            && (menuId.Some? ==> after.menuId.Some? && after.menuId.value in d.menus)
  {
  }

  /** Sending the same update twice leaves the row as the first one did. */
  lemma UpdateStockIdempotent(d: Db, id: Input<int>, itemName: Option<string>, quantity: Option<Input<int>>,
                              menuId: Option<Input<int>>)
    requires UpdateStockCheck(d, id, quantity, menuId).Pass?
    ensures var e := d.(stock := d.stock[id.v := Merged(d.stock[id.v], itemName, quantity, menuId)]);
            && UpdateStockCheck(e, id, quantity, menuId).Pass?
            && Merged(e.stock[id.v], itemName, quantity, menuId) == e.stock[id.v]
  {
    if itemName.Some? && Trim(itemName.value) != "" {
      TrimIdempotent(itemName.value);
    }
  }

  // ---------------------------------------------------------------- delete

  /** `deleteStock`'s validation: an id that is not an integer of at least 1
      is 400, a missing row 404. */
  function DeleteStockCheck(d: Db, id: Input<int>): (r: Outcome)
    ensures r.Pass? <==> IntAtLeast(id, 1) && id.v in d.stock
    ensures r.Fail? && r.error.NotFound? <==> IntAtLeast(id, 1) && id.v !in d.stock
    ensures r.Fail? ==> r.error.BadRequest? || r.error.NotFound?
  {
    if !IntAtLeast(id, 1) then Fail(BadRequest("invalid stock id"))
    else if id.v !in d.stock then Fail(NotFound("stock item"))
    else Pass
  }

  /** `deleteStock` (controllers/inventory.js:104-130). */
  method DeleteStock(db: Database, id: Input<int>) returns (r: Outcome)
    requires db.Valid()
    modifies db
    ensures db.Valid()
    ensures r == DeleteStockCheck(old(db.Snapshot()), id)
    ensures r.Pass? ==> db.Snapshot() == old(db.Snapshot()).(stock := old(db.stock) - {id.v})
    ensures r.Fail? ==> db.Snapshot() == old(db.Snapshot())
  {
    r := DeleteStockCheck(db.Snapshot(), id);
    if r.Pass? {
      db.stock := db.stock - {id.v};
    }
  }

  /** A delete removes exactly one row and leaves the others as they were;
      deleting the same id again is 404. */
  lemma DeleteRemovesExactlyOne(d: Db, id: Input<int>)
    requires DeleteStockCheck(d, id).Pass?
    ensures var s := d.stock - {id.v};
            && |s| == |d.stock| - 1
            && (forall k :: k in d.stock && k != id.v ==> k in s && s[k] == d.stock[k])
            && DeleteStockCheck(d.(stock := s), id) == Fail(NotFound("stock item"))
  {
    var s := d.stock - {id.v};
    assert d.stock.Keys == s.Keys + {id.v};
  }
}
