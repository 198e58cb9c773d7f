/** The admin's menu handlers (controllers/menu.js): creating a menu item with
    its uploaded picture and updating the fields a request supplies. The image
    host is left out: an upload is the path and file name it reports. */
module MenuController {
  import opened Http
  import opened Schema
  import opened Store

  /** A picture the upload middleware stored: its URL and its public id. */
  datatype Upload = Upload(path: string, filename: string)

  /** A text field that JavaScript reads as truthy: sent and not empty. */
  predicate Given(s: Option<string>) {
    s.Some? && s.value != ""
  }

  /** The states a menu may be put in. */
  predicate AllowedStatus(s: string) {
    s == MenuAvailable || s == MenuSoldOut
  }

  /** Every menu is in one of the allowed states. */
  predicate StatusesAllowed(menus: map<int, Menu>) {
    forall k :: k in menus ==> AllowedStatus(menus[k].status)
  }

  // ---------------------------------------------------------------- create

  /** `createMenu`'s validation. `price` is `validator.toFloat` of the field
      in minor units and `categoryId` `validator.toInt` of it; NaN and 0 are
      both falsy. A missing field is 400, a price that is not positive 400,
      an unknown category 404. */
  function CreateMenuCheck(d: Db, name: Option<string>, description: Option<string>, price: Input<int>,
                           image: Option<Upload>, categoryId: Input<int>): (r: Result<Menu>)
    ensures r.Err? && r.error.NotFound? <==>
              Given(name) && Truthy(price) && image.Some? && Truthy(categoryId) && price.v > 0
              && categoryId.v !in d.categories
    ensures r.Err? ==> r.error.BadRequest? || r.error.NotFound?
    ensures r.Ok? <==>
              Given(name) && Truthy(price) && image.Some? && Truthy(categoryId) && price.v > 0
              && categoryId.v in d.categories
    ensures r.Ok? ==>
              && r.value.name == name.value && r.value.price == price.v
              && r.value.description == (if Given(description) then description.value else "")
              && r.value.image == image.value.path && r.value.publicId == image.value.filename
              && r.value.categoryId == categoryId.v && r.value.status == MenuAvailable
  {
    if !Given(name) || !Truthy(price) || image.None? || !Truthy(categoryId) then
      Err(BadRequest("name, price, image and categoryId required"))
    else if price.v <= 0 then Err(BadRequest("price must be greater than 0"))
    else if categoryId.v !in d.categories then Err(NotFound("category"))
    else
      Ok(Menu(name.value, price.v, if Given(description) then description.value else "",
              image.value.path, image.value.filename, categoryId.v, MenuAvailable))
  }

  /** The database with `m` stored under the next id. */
  function WithMenu(d: Db, m: Menu): Db {
    d.(menus := d.menus[d.nextId := m], nextId := d.nextId + 1)
  }

  lemma WithMenuValid(d: Db, m: Menu)
    requires d.Valid()
    ensures WithMenu(d, m).Valid()
  {
    var e := WithMenu(d, m);
    assert IdsBelow(e.menus, e.nextId);
    assert IdsBelow(e.tables, e.nextId) && IdsBelow(e.reservations, e.nextId) && IdsBelow(e.orders, e.nextId);
    assert IdsBelow(e.carts, e.nextId) && IdsBelow(e.guests, e.nextId) && IdsBelow(e.users, e.nextId);
    assert IdsBelow(e.stock, e.nextId) && IdsBelow(e.categories, e.nextId);
  }

  /** `createMenu` (controllers/menu.js:10-97). */
  method CreateMenu(db: Database, name: Option<string>, description: Option<string>, price: Input<int>,
                    image: Option<Upload>, categoryId: Input<int>) returns (r: Result<Menu>, id: int)
    requires db.Valid()
    modifies db
    ensures db.Valid()
    ensures r == CreateMenuCheck(old(db.Snapshot()), name, description, price, image, categoryId)
    ensures r.Ok? ==> id == old(db.nextId) && db.Snapshot() == WithMenu(old(db.Snapshot()), r.value)
    ensures r.Err? ==> db.Snapshot() == old(db.Snapshot())
  {
    id := 0;
    r := CreateMenuCheck(db.Snapshot(), name, description, price, image, categoryId);
    if r.Ok? {
      ghost var d0 := db.Snapshot();
      WithMenuValid(d0, r.value);
      id := db.FreshId();
      db.menus := db.menus[id := r.value];
      assert db.Snapshot() == WithMenu(d0, r.value);
    }
  }

  // ---------------------------------------------------------------- update

  /** `updateMenu`'s validation: an id that does not parse is 400, an unknown
      one 404, and a status that is sent but not one of the two allowed 400. */
  function UpdateMenuCheck(d: Db, id: Input<int>, status: Option<string>): (r: Outcome)
    ensures r.Pass? <==> id.Value? && id.v in d.menus && (Given(status) ==> AllowedStatus(status.value))
    ensures r.Fail? && r.error.NotFound? <==> id.Value? && id.v !in d.menus
    ensures r.Fail? ==> r.error.BadRequest? || r.error.NotFound?
  {
    if !id.Value? then Fail(BadRequest("invalid menu id"))
    else if id.v !in d.menus then Fail(NotFound("menu"))
    else if Given(status) && !AllowedStatus(status.value) then Fail(BadRequest("invalid status"))
    else Pass
  }

  /** The menu with every truthy field written over the stored one; a new
      picture replaces both its URL and its public id. */
  function Updated(m: Menu, name: Option<string>, price: Input<int>, description: Option<string>,
                   status: Option<string>, image: Option<Upload>): Menu
  {
    m.(name := if Given(name) then name.value else m.name,
       price := if Truthy(price) then price.v else m.price,
       description := if Given(description) then description.value else m.description,
       status := if Given(status) then status.value else m.status,
       image := if image.Some? then image.value.path else m.image,
       publicId := if image.Some? then image.value.filename else m.publicId)
  }

  /** `updateMenu` (controllers/menu.js:116-171). */
  method UpdateMenu(db: Database, id: Input<int>, name: Option<string>, price: Input<int>, description: Option<string>,
                    status: Option<string>, image: Option<Upload>) returns (r: Outcome)
    requires db.Valid()
    modifies db
    ensures db.Valid()
    ensures r == UpdateMenuCheck(old(db.Snapshot()), id, status)
    ensures r.Pass? ==> db.Snapshot() == old(db.Snapshot()).(menus := old(db.menus)[id.v := Updated(old(db.menus)[id.v], name, price, description, status, image)])
    ensures r.Fail? ==> db.Snapshot() == old(db.Snapshot())
  {
    r := UpdateMenuCheck(db.Snapshot(), id, status);
    if r.Pass? {
      ghost var d0 := db.Snapshot();
      var m := Updated(db.menus[id.v], name, price, description, status, image);
      MenuRewriteValid(d0, id.v, m);
      db.menus := db.menus[id.v := m];
      assert db.Snapshot() == d0.(menus := d0.menus[id.v := m]);
    }
  }

  /** Only the supplied fields change: an update that sends nothing leaves the
      menu as it was, the category never changes, and a new picture sets both
      its URL and its public id. */
  lemma UpdateChangesOnlySupplied(m: Menu, name: Option<string>, price: Input<int>, description: Option<string>,
                                  status: Option<string>, image: Option<Upload>)
    ensures !Given(name) && !Truthy(price) && !Given(description) && !Given(status) && image.None? ==>
              Updated(m, name, price, description, status, image) == m
    ensures Updated(m, name, price, description, status, image).categoryId == m.categoryId
    ensures image.Some? ==>
              && Updated(m, name, price, description, status, image).image == image.value.path
              && Updated(m, name, price, description, status, image).publicId == image.value.filename
  {
  }

  /** Both handlers keep every menu in an allowed state. */
  lemma StatusesStayAllowed(d: Db, id: Input<int>, name: Option<string>, price: Input<int>, description: Option<string>,
                            status: Option<string>, image: Option<Upload>, categoryId: Input<int>)
    requires StatusesAllowed(d.menus)
    ensures UpdateMenuCheck(d, id, status).Pass? ==>
              StatusesAllowed(d.menus[id.v := Updated(d.menus[id.v], name, price, description, status, image)])
    ensures CreateMenuCheck(d, name, description, price, image, categoryId).Ok? ==>
              StatusesAllowed(WithMenu(d, CreateMenuCheck(d, name, description, price, image, categoryId).value).menus)
  {
  }

  /** The two handlers disagree on prices: creating refuses a price that is
      not positive, while an update takes a negative one (only NaN and 0 are
      skipped as falsy). */
  lemma NegativePriceOnlyByUpdate(d: Db, id: int, name: string, image: Upload, categoryId: int, p: int)
    requires id in d.menus && name != "" && categoryId != 0 && p < 0
    ensures CreateMenuCheck(d, Some(name), None, Value(p), Some(image), Value(categoryId)) == Err(BadRequest("price must be greater than 0"))
    ensures UpdateMenuCheck(d, Value(id), None).Pass?
    ensures Updated(d.menus[id], None, Value(p), None, None, None).price == p
  {
  }
}
