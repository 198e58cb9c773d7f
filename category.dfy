/** The category handlers (controllers/category.js): a category with a unique
    name, and the admin's form that creates a menu item in a category. */
module CategoryController {
  import opened Http
  import opened Text
  import opened Schema
  import opened Store
  import MenuController

  /** The name both handlers read: the field trimmed, empty when it is missing. */
  function NameField(name: Option<string>): (n: string)
    ensures name.None? ==> n == ""
    ensures name.Some? ==> n == Trim(name.value)
  {
    if name.Some? then Trim(name.value) else ""
  }

  /** `category.findUnique({ where: { name } })`. */
  function CategoryNamed(d: Db, n: string): (r: Option<int>)
    ensures r.Some? ==> r.value in d.categories && d.categories[r.value].name == n
    ensures r.None? && IdsBelow(d.categories, d.nextId) ==> forall k :: k in d.categories ==> d.categories[k].name != n
  {
    FindFirst(d.categories, (c: Category) => c.name == n, d.nextId)
  }

  // ---------------------------------------------------------------- createCategory

  /** `createCategory`'s checks: an empty trimmed name is 400, a name already
      taken 409; otherwise the category to insert. */
  function CreateCategoryCheck(d: Db, name: Option<string>): (r: Result<Category>)
    ensures r.Err? && r.error.BadRequest? <==> NameField(name) == ""
    ensures r.Err? && r.error.Conflict? <==> NameField(name) != "" && CategoryNamed(d, NameField(name)).Some?
    ensures r.Err? ==> r.error.BadRequest? || r.error.Conflict?
    ensures r.Ok? ==> r.value == Category(NameField(name)) && r.value.name != ""
  {
    var n := NameField(name);
    if n == "" then Err(BadRequest("name required"))
    else if CategoryNamed(d, n).Some? then Err(Conflict("category exists"))
    else Ok(Category(n))
  }

  /** The database with `c` stored under the next id. */
  function WithCategory(d: Db, c: Category): Db {
    d.(categories := d.categories[d.nextId := c], nextId := d.nextId + 1)
  }

  /** A category the check lets through clashes with no stored name, so
      names stay unique. */
  lemma CreateCategoryValid(d: Db, name: Option<string>)
    requires d.Valid() && CreateCategoryCheck(d, name).Ok?
    ensures WithCategory(d, CreateCategoryCheck(d, name).value).Valid()
  {
    var c := CreateCategoryCheck(d, name).value;
    assert CategoryNamed(d, c.name).None?;
    InsertKeepsNamesUnique(d.categories, d.nextId, c);
    WithCategoryValid(d, c);
  }

  /** A fresh key holding a name no row has keeps names unique. */
  lemma InsertKeepsNamesUnique(categories: map<int, Category>, id: int, c: Category)
    requires CategoryNamesUnique(categories) && id !in categories
    requires forall k :: k in categories ==> categories[k].name != c.name
    ensures CategoryNamesUnique(categories[id := c])
  {
  }

  lemma WithCategoryValid(d: Db, c: Category)
    requires d.Valid() && CategoryNamesUnique(d.categories[d.nextId := c])
    ensures WithCategory(d, c).Valid()
  {
    var e := WithCategory(d, c);
    assert IdsBelow(e.categories, e.nextId);
    assert IdsBelow(e.tables, e.nextId) && IdsBelow(e.reservations, e.nextId) && IdsBelow(e.orders, e.nextId);
    assert IdsBelow(e.carts, e.nextId) && IdsBelow(e.guests, e.nextId) && IdsBelow(e.users, e.nextId);
    assert IdsBelow(e.menus, e.nextId) && IdsBelow(e.stock, e.nextId);
  }

  /** `createCategory` (controllers/category.js:5-37). */
  method CreateCategory(db: Database, name: Option<string>) returns (r: Result<Category>, id: int)
    requires db.Valid()
    modifies db
    ensures db.Valid()
    ensures r == CreateCategoryCheck(old(db.Snapshot()), name)
    ensures r.Ok? ==> id == old(db.nextId) && db.Snapshot() == WithCategory(old(db.Snapshot()), r.value)
    ensures r.Err? ==> db.Snapshot() == old(db.Snapshot())
  {
    id := 0;
    r := CreateCategoryCheck(db.Snapshot(), name);
    if r.Ok? {
      ghost var d0 := db.Snapshot();
      CreateCategoryValid(d0, name);
      id := db.FreshId();
      db.categories := db.categories[id := r.value];
      assert db.Snapshot() == WithCategory(d0, r.value);
    }
  }

  /** Creating a category and then sending the same name again, with any
      surrounding blanks, is refused with 409 and the second request inserts
      nothing. */
  lemma SecondCreateConflicts(d: Db, name: string, again: string)
    requires d.Valid() && CreateCategoryCheck(d, Some(name)).Ok?
    requires Trim(again) == Trim(name)
    ensures CreateCategoryCheck(WithCategory(d, CreateCategoryCheck(d, Some(name)).value), Some(again)) == Err(Conflict("category exists"))
  {
    var e := WithCategory(d, CreateCategoryCheck(d, Some(name)).value);
    CreateCategoryValid(d, Some(name));
    assert d.nextId in e.categories && e.categories[d.nextId].name == Trim(again);
  }

  // ---------------------------------------------------------------- AdmincreateCategory

  /** `AdmincreateCategory`'s checks. `price` is the field in minor units:
      `Absent` when missing or empty, `Invalid` when `validator.isNumeric`
      refuses it; `categoryId` likewise for `validator.isInt`. Both number
      checks accept zero and negative values. The category is attached with a
      `connect`, which fails with 500 when it does not exist. */
  function AdminCreateMenuCheck(d: Db, name: Option<string>, price: Input<int>, categoryId: Input<int>): (r: Outcome)
    ensures r.Pass? <==> NameField(name) != "" && price.Value? && categoryId.Value? && categoryId.v in d.categories
    ensures r.Fail? && r.error.ServerError? <==>
              NameField(name) != "" && price.Value? && categoryId.Value? && categoryId.v !in d.categories
    ensures r.Fail? ==> r.error.BadRequest? || r.error.ServerError?
  {
    if NameField(name) == "" || price.Absent? || categoryId.Absent? then Fail(BadRequest("missing fields"))
    else if price.Invalid? || categoryId.Invalid? then Fail(BadRequest("invalid price or categoryId"))
    else if categoryId.v !in d.categories then Fail(ServerError("category not found"))
    else Pass
  }

  /** The picture the form names: the body's `image`, else the uploaded
      file's path, else empty. */
  function ImageField(image: Option<string>, file: Option<MenuController.Upload>): (s: string)
    ensures MenuController.Given(image) ==> s == image.value
    ensures !MenuController.Given(image) && file.Some? ==> s == file.value.path
    ensures !MenuController.Given(image) && file.None? ==> s == ""
  {
    if MenuController.Given(image) then image.value
    else if file.Some? then file.value.path
    else ""
  }

  /** The menu the form creates; a missing description or public id is empty. */
  function FormMenu(name: Option<string>, description: Option<string>, price: Input<int>, categoryId: Input<int>,
                    image: Option<string>, file: Option<MenuController.Upload>, publicId: Option<string>): Menu
    requires price.Value? && categoryId.Value?
  {
    Menu(NameField(name), price.v,
         if MenuController.Given(description) then description.value else "",
         ImageField(image, file),
         if MenuController.Given(publicId) then publicId.value else "",
         categoryId.v, MenuAvailable)
  }

  /** `AdmincreateCategory` (controllers/category.js:39-79). */
  method AdminCreateMenu(db: Database, name: Option<string>, description: Option<string>, price: Input<int>,
                         categoryId: Input<int>, image: Option<string>, file: Option<MenuController.Upload>,
                         publicId: Option<string>) returns (r: Outcome, id: int)
    requires db.Valid()
    modifies db
    ensures db.Valid()
    ensures r == AdminCreateMenuCheck(old(db.Snapshot()), name, price, categoryId)
    ensures r.Pass? ==> id == old(db.nextId)
                        && db.Snapshot() == MenuController.WithMenu(old(db.Snapshot()),
                                              FormMenu(name, description, price, categoryId, image, file, publicId))
    ensures r.Fail? ==> db.Snapshot() == old(db.Snapshot())
  {
    id := 0;
    r := AdminCreateMenuCheck(db.Snapshot(), name, price, categoryId);
    if r.Pass? {
      ghost var d0 := db.Snapshot();
      var m := FormMenu(name, description, price, categoryId, image, file, publicId);
      MenuController.WithMenuValid(d0, m);
      id := db.FreshId();
      db.menus := db.menus[id := m];
      assert db.Snapshot() == MenuController.WithMenu(d0, m);
    }
  }

  /** The admin form takes a zero or negative price and a form without a
      picture, both of which `createMenu` refuses with 400. */
  lemma FormLaxerThanCreateMenu(d: Db, name: string, p: int, c: int)
    requires Trim(name) != "" && p <= 0 && c != 0 && c in d.categories
    ensures AdminCreateMenuCheck(d, Some(name), Value(p), Value(c)).Pass?
    ensures MenuController.CreateMenuCheck(d, Some(name), None, Value(p), None, Value(c)).Err?
  {
    assert name != [];
  }

  /** An unknown category is 500 on the admin form, where `createMenu`
      answers 404. */
  lemma MissingCategoryAnswersDiffer(d: Db, name: string, c: int, image: MenuController.Upload)
    requires Trim(name) != "" && c != 0 && c !in d.categories
    ensures AdminCreateMenuCheck(d, Some(name), Value(1), Value(c)).Fail?
    ensures AdminCreateMenuCheck(d, Some(name), Value(1), Value(c)).error.ServerError?
    ensures MenuController.CreateMenuCheck(d, Some(name), None, Value(1), Some(image), Value(c)).Err?
    ensures MenuController.CreateMenuCheck(d, Some(name), None, Value(1), Some(image), Value(c)).error.NotFound?
  {
    assert name != [];
  }
}
