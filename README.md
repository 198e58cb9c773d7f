# Rungruang Mookratha restaurant backend — a verified model

This project models the business rules of the restaurant's Express/Prisma
backend:

- customers' carts, checkout and order cancellation;
- orders taken by staff for a table, and rewriting an order's lines;
- table booking by members and by guests;
- table and reservation statuses, including the three ways of cancelling a booking;
- payments and the paid-orders ledger, and the daily sales report;
- stock rows, menu items and categories;
- the request gates: bearer token, roles, ownership, registration, login,
  logout blacklist and password reset.

## How the model is built

- **The store.** The Prisma client is one mutable object, `Store.Database`.
  It has one `map` field per model: tables, reservations, orders (with
  their lines), cart rows, guest records, users, menu items, stock rows and
  categories. The order history is a `seq` field.
  - All rows draw their ids from one shared counter, so ids are fresh and
    never reused.
  - `Snapshot()` returns the whole store as a `Db` value.
  - `Db.Valid()` is the invariant every handler keeps:
    - ids lie below the counter;
    - table numbers are unique, and so are category names;
    - every reservation names an existing table, and any order it names
      was created before the counter reached its current value;
    - every cart row names an existing menu item;
    - no two cart rows share the same user, menu item and table.
- **Handlers.** Each handler is modelled in two parts:
  - A pure check function. It runs the source's validations and lookups in
    the source's order and returns either the error response or what to
    write. Its `ensures` say when each error is answered, which error kinds
    can occur, and when the request is accepted.
  - A method in the handler's module that takes the `Database` and changes
    it. Its contract says three things:
    - the answer equals the check;
    - on success the new store is exactly a named function of the old one;
    - on failure nothing changes.
  - Where the source loops, the method keeps the loop, with invariants: the
    booking rows, pricing the lines, the daily report, summing a rewrite.
- **Properties.** The properties the handlers promise are lemmas over `Db`
  values: no double booking, cart merging, the cancellation policy, the
  status cascade, token revocation, unique names, and the others.
- **Units.** Times are integer milliseconds. Prices are integer minor units.
- **Parsed inputs.** A number field after `parseInt`, `validator.toInt` or
  date parsing is an `Input<int>`:
  - `Absent` when it is missing or empty;
  - `Invalid` when it parsed to NaN or an invalid date;
  - `Value(n)` otherwise.

  JavaScript truthiness (`Truthy`: NaN and 0 are falsy) and
  `validator.isInt(min)` (`IntAtLeast`) are stated on this type.
- **Screened inputs.** Where a validator screens a field and a second parse
  then reads it, the field is a `Checked<int>`: `Missing`, `Rejected` by the
  validator, or `Accepted(parsed)` with the second parse's result, `None`
  when that is NaN or an invalid date. This keeps the 500 that follows when
  the two disagree (`isNaN(" ")` is false while `parseInt(" ")` is NaN).
- **Raw body numbers.** A body value that is used without any parse is a
  `RawNumber`: `Whole(n)` for an integer, otherwise `NotWhole` with the
  outcome of JavaScript's `value < 1` on it.
- **Library calls.** Calls into libraries become parameters:
  - bcrypt becomes `hash` and `matches`;
  - `jwt.verify` becomes `verify`;
  - `validator.isMobilePhone` becomes `phoneValid`;
  - the random reset token becomes `token`;
  - the clock becomes `now`, and "today" becomes a `Day`.

Modules: `Http` (inputs and error responses), `Text` (trim, upper case,
splitting), `Schema` (rows and Prisma-style queries), `Store`, `Pricing`,
`Booking`, `Ordering`, `Enums`, `UserController`, `GuestController`,
`CashierController`, `OrdersController`, `AdminController`,
`TablesController`, `AuthMiddleware`, `Ownership`, `AuthController`,
`InventoryController`, `MenuController`, `CategoryController`.

## Model

| member | source | states |
|---|---|---|
| Booking.Row | controllers/user.js:589-602 | A booking row is PENDING, at the requested start, on its table. It belongs to the member or to the guest record, never both. |
| Booking.Conflicts | controllers/user.js:569-587 | Lists exactly the PENDING reservations on a requested table whose time lies in [start − 3h, start + 1h + 3h). It is empty iff there is none. |
| Booking.BusyTableIds | controllers/user.js:582-586 | The 400 answer lists one requested table per conflicting reservation. |
| Booking.AdmitTables | controllers/user.js:562-587 | The last two booking checks, the same in the guest handler at controllers/guest.js:42-67. It succeeds iff every id is an existing table named once and nothing conflicts. A refusal is 400. It is the busy-tables answer iff the tables are fine but there is a conflict, and that answer lists the table of each conflicting reservation, in reservation-id order. |
| Booking.Rows | controllers/user.js:589-602 | Exactly one new row per requested table, numbered consecutively in request order. |
| Booking.CreateRows | controllers/user.js:589-602 | The loop adds exactly those rows and advances the id counter by the number of tables. Nothing else changes. |
| Booking.PlaceBooking | controllers/user.js:589-608 | The new store is the old one plus the rows, with every requested table RESERVED. |
| Booking.BookValid | controllers/user.js:589-608 | Booking existing tables keeps the store well formed. |
| Booking.NewRowBlocks | controllers/user.js:570-577 | A row booked at `start` blocks a later request for its table iff the request time lies in (start − 4h, start + 3h]. |
| Booking.NoDoubleBooking | controllers/user.js:570-608 | After a booking, every request that shares a table and falls in that span meets a conflict. |
| Booking.BookingIsLocal | controllers/user.js:573-608 | A booking leaves the conflicts of requests for other tables exactly as they were. |
| Pricing.PriceOf | controllers/cashier.js:252-256 | A line is charged the menu's price, or 0 when the menu item is unknown. |
| Pricing.Priced | controllers/cashier.js:254-258 | One stored line per requested line, with the same menu item and quantity and the menu price at that moment. |
| Pricing.PriceLines | controllers/cashier.js:252-258 | The accumulating loop yields exactly the priced lines, and a total equal to their sum of price × quantity. |
| Pricing.TotalNonNegative | controllers/orders.js:271 | Lines of positive quantity at non-negative prices never total below 0. |
| Pricing.PricedTotal | controllers/cashier.js:253-258 | The total of the priced lines equals the sum, over the request, of menu price × quantity. |
| Ordering.ReservationOfOrder | controllers/cashier.js:286-303 | The upsert's lookup. It finds the reservation carrying that order id, or reports that none does. |
| Ordering.PlaceOrder | controllers/cashier.js:261-306 | The transaction stores the order under a fresh id. It marks the table RESERVED only when that write succeeds. It then upserts the reservation keyed by the order id. |
| Ordering.PlacedValid | controllers/cashier.js:261-306 | Placing an order for an existing table keeps the store well formed. |
| Ordering.PlacedReservation | controllers/cashier.js:275-303 | Afterwards exactly one reservation names the new order. It is RESERVED, at `now`, on the order's table, even when the table write failed. |
| Ordering.PlacedIsLocal | controllers/cashier.js:261-306 | Only that table and the new reservation are written. Other tables, earlier reservations, carts, menus and users are unchanged. |
| Enums.StatusLabel | enums/order.js:19-23 | The label is defined for every order status. PENDING is shown as the unpaid token and COMPLETED as the paid token. Only CANCELLED maps outside the PaymentStatus table. |
| Enums.OrderStatusNames | enums/order.js:2-6 | The OrderStatus whitelist accepts exactly the three stored status names, and each name is in it. |
| Enums.WhitelistsDisagree | enums/order.js:8-17 | The QR_CODE method stored by checkout is not in PaymentMethod. The "order cancelled" token is not in PaymentStatus. |
| UserController.CartRowFor | controllers/user.js:173-180 | Finds the row with the same user, menu item and table, or shows that there is none. |
| UserController.AddToCartCheck | controllers/user.js:143-171 | 400 iff an id is 0 or NaN, or the quantity is below 1. Otherwise 404 iff the menu item or the table is unknown. Otherwise a non-numeric quantity fails only at the write (500). Success holds exactly when none of these applies, and it names the row to merge into. |
| UserController.AddToCart | controllers/user.js:143-213 | On success the existing row's quantity grows, or a new row is created. The total is the quantity at today's price. On error nothing is written. |
| UserController.AddToCartValid | controllers/user.js:173-204 | The merge keeps cart keys unique and the store well formed. |
| UserController.AddToCartMerges | controllers/user.js:173-204 | Afterwards exactly one row has the key. Its quantity is the old quantity (0 if none) plus the new one, and its total is that quantity × the menu price. |
| UserController.UpdateCartCheck | controllers/user.js:238-272 | Succeeds iff the row exists and the body quantity is an integer or a value JavaScript finds below 1 (null, "", false included). The stored quantity is at least 1: exactly 1 for a value below 1, the integer sent otherwise. 404 iff the row is missing; 500 iff the id is NaN, or the value is neither an integer nor below 1. |
| UserController.UpdateCart | controllers/user.js:238-272 | Writes the clamped quantity and a total at the menu's current price to that row only. |
| UserController.RemoveFromCartCheck | controllers/user.js:274-297 | 500 iff an id is not a number (a NaN filter). Otherwise it finds the first row of that user and menu item, on any table, and 404 iff there is none. |
| UserController.RemoveFromCart | controllers/user.js:274-300 | Deletes exactly that row. |
| UserController.CartOf | controllers/user.js:312-318 | The user's cart rows, exactly, in id order. |
| UserController.CreateOrderCheck | controllers/user.js:303-352 | The body's table id is used unparsed: a falsy value names no table, and a truthy value that is not a JSON integer ("5", 2.5, true) is `Invalid`. Succeeds iff the table id is not `Invalid`, a named table exists, the cart is not empty and its total is positive. 500 iff the table id is `Invalid`, since the table query refuses it; every other refusal is 400. On success it gives the table to attach, present iff one was named. |
| UserController.CreateOrder | controllers/user.js:303-409 | On success the store holds the new order and none of the user's cart rows. Nothing else changes. |
| UserController.CheckoutCharges | controllers/user.js:347-392 | The order's total is the cart's sum of menu price × quantity. The user's cart is empty afterwards, and other users' carts are unchanged. |
| UserController.CancelOrderCheck | controllers/user.js:454-516 | Passes iff the order exists, belongs to the caller, is unpaid, is at most 5 minutes old, and the caller has fewer than 3 cancelled orders created today. A non-numeric id is 500, since Prisma refuses NaN. Otherwise 404 iff the order is missing, 403 iff it is another user's, and 400 iff the caller's own order fails the unpaid, 5-minute or daily-quota rule. |
| UserController.CancelOrder | controllers/user.js:454-529 | On success only the order's payment status changes, to "CANCELLED". |
| UserController.CheckoutOrderNotCancellable | controllers/user.js:378 | An order made by checkout is stored as "PENDING", so the cancel handler always refuses it. |
| UserController.CancelOrderOnce | controllers/user.js:478-522 | A cancelled order can never be cancelled again. |
| UserController.NumericIds | controllers/user.js:541-543 | The table ids that parsed, and only those. A one-entry list keeps its id iff it is a number. |
| UserController.NumericIdsAppend | controllers/user.js:541-543 | The filter works entry by entry: the ids of two joined lists are the ids of each, joined, so order and repeats are kept. |
| UserController.NumericIdsAllNumeric | controllers/user.js:541-543 | When every entry is a number, the ids are the entries position by position, repeats included. |
| UserController.BookCheck | controllers/user.js:532-587 | Ids that are not numbers are dropped without an error (lines 541-543). Success holds exactly when a time and party size are given and the remaining ids are non-empty, all existing, none repeated, and free of conflicts; the accepted ids are the remaining ones. When everything else holds and there is a conflict, the answer is 400 with the table of each conflicting reservation, in reservation-id order. |
| UserController.CreateReservation | controllers/user.js:532-616 | On success the store is exactly the booking of those tables. On error nothing is created. |
| UserController.DuplicateTableRefused | controllers/user.js:562-567 | A table id named twice is refused, even when the table is free. |
| UserController.BookingScenario | controllers/user.js:569-608 | Tables 3 and 4 booked at 19:00 block table 3 at 20:30. Table 5 can still be booked then. |
| UserController.CancelBookingCheck | controllers/user.js:664-685 | Passes iff the reservation exists and is the caller's. Another user's booking gets 403, a missing one 404, and a non-numeric id 400; there is no other refusal. |
| UserController.CancelReservation | controllers/user.js:664-706 | On success the reservation row is deleted and its table is AVAILABLE. |
| UserController.WithdrawFreesOnlyItself | controllers/user.js:688-698 | Withdrawing a reservation removes exactly that one row from every conflict list. |
| GuestController.GuestBookCheck | controllers/guest.js:8-67 | Refuses missing fields, an invalid phone, an empty or non-numeric id list, a bad time, unknown or repeated tables, and conflicts. Success holds exactly when none of these applies, and the ids are then the request's, in order. The busy-tables answer comes exactly when only the conflict check fails, and it lists the table of each conflicting reservation. |
| GuestController.CreateGuestReservation | controllers/guest.js:8-100 | On success one guest record is created, then the booking of those tables under it. On any error, conflicts included, neither is created. |
| GuestController.GuestBookValid | controllers/guest.js:70-93 | The guest record and the booking keep the store well formed. |
| GuestController.GuestRowsBelongToGuest | controllers/guest.js:75-87 | Every created row is PENDING, at the start time, and owned by the new guest and by no user. |
| GuestController.ShownStatus | controllers/guest.js:159-160 | A reservation is shown as COMPLETED when its table is AVAILABLE, and with its stored status otherwise. |
| GuestController.BookingsOf | controllers/guest.js:120-150 | Exactly today's reservations of the given guest records. |
| GuestController.TodaysBookings | controllers/guest.js:115-150 | Exactly the reservations made today under any guest record with this phone number. |
| GuestController.GuestBookings | controllers/guest.js:102-174 | 400 iff the name or phone is missing or the phone is invalid; otherwise the phone lookup. |
| GuestController.PhoneBookings | controllers/guest.js:115-160 | One line per booking made today under that phone, and every such booking is listed. 404 iff there is none. |
| GuestController.TodaysLines | controllers/guest.js:115-160 | The listed ids are exactly today's bookings for that phone. |
| GuestController.GuestCancelCheck | controllers/guest.js:177-199 | Passes iff the id is a positive integer of an existing reservation that is not CANCELLED. 404 iff the reservation is missing, and 400 iff the id is malformed or the reservation is already CANCELLED; no other error. No owner is checked. |
| GuestController.CancelGuestReservation | controllers/guest.js:177-224 | The reservation is kept but marked CANCELLED, and its table is AVAILABLE. |
| GuestController.GuestCancelReleases | controllers/guest.js:193-211 | A cancelled reservation no longer blocks any booking. A second cancel is 400. |
| GuestController.ClockOffset | controllers/guest.js:241-250 | An HH:mm time is a point within one day. |
| GuestController.TablesWithReservations | controllers/guest.js:226-269 | 400 iff the date or time is missing, the date is not strict ISO 8601, or the time is not HH:mm. 500 iff both pass but the date with the time appended is no valid date (a week, ordinal or full date-time form), so the query bound is invalid. Succeeds otherwise. Every table is listed, once each and in id order, with exactly its PENDING or CONFIRMED reservations that start before the requested time + 1h. |
| CashierController.TableStatusCheck | controllers/cashier.js:28-56 | 400 iff the number is not an integer ≥ 1 or the upper-cased status is not AVAILABLE, RESERVED or OCCUPIED. Otherwise 404 iff no table has that number, and success iff one does. The stored status is the upper-cased one. |
| CashierController.TableStatusAnyCase | controllers/cashier.js:33-40 | The status is accepted in any letter case. |
| CashierController.UpdateTableStatus | controllers/cashier.js:28-64 | Only that table's status changes. |
| CashierController.ReservationAtTable | controllers/cashier.js:78-85 | The first reservation on the table with that number, or none. |
| CashierController.CashierCancelCheck | controllers/cashier.js:66-100 | 400 iff the number is bad, and 404 iff the table has no reservation. 500 iff the linked order no longer exists, so its delete fails before anything is written. Success holds exactly otherwise, and names the table's first reservation. |
| CashierController.CashierCancelReservation | controllers/cashier.js:66-108 | Deletes the linked order, then the reservation, then marks the table AVAILABLE. |
| CashierController.CashierCancelFreesTable | controllers/cashier.js:82-100 | Afterwards the table with that number is AVAILABLE, and the reservation and its order are gone. Every other reservation is kept. |
| CashierController.CashierMenuCheck | controllers/cashier.js:129-160 | Passes iff the id is truthy, a name or a price is given, the price is a number ≥ 0 and the menu exists; otherwise 400, and 404 for a missing menu. |
| CashierController.EditedMenu | controllers/cashier.js:160-165 | Only a supplied non-blank name (trimmed) and a supplied price are written. Every other field is kept. |
| CashierController.CashierUpdateMenu | controllers/cashier.js:129-173 | Only that menu item changes, to the edited form. |
| CashierController.FirstBadLine | controllers/cashier.js:230-245 | No message iff every entry has a non-zero menu id and a quantity ≥ 1. |
| CashierController.CounterOrderCheck | controllers/cashier.js:210-250 | Success holds exactly when there is a non-zero table number, a non-empty list of valid entries, an existing table, and as many distinct existing menu items as entries. An unknown table is 404, everything else 400. |
| CashierController.AddCounterOrder | controllers/cashier.js:210-318 | On success the new store is the order transaction applied to the checked lines. On error nothing is written. |
| CashierController.CounterOrderCharges | controllers/cashier.js:252-306 | Line by line, the stored order holds each entry at the menu's current price. Its total is the sum of price × quantity, and it is PENDING and unpaid on the requested table. Exactly one RESERVED reservation points at it. |
| CashierController.OrderStatusCheck | controllers/cashier.js:355-394 | 400 iff the id is missing or `isNaN`, or the trimmed, upper-cased status is not PENDING, COMPLETED or CANCELLED. 500 iff both pass but `parseInt` gives NaN (" ", ".5", "Infinity"). Then 404 iff the order is missing; success otherwise. The stored status is the upper-cased one. |
| CashierController.UpdateOrderStatus | controllers/cashier.js:355-394 | Only that order's status changes. |
| CashierController.OrderEditValid | controllers/cashier.js:355-394 | Rewriting an existing order keeps the store well formed. |
| CashierController.CancelOrderCheck | controllers/cashier.js:396-420 | Passes iff the id is an integer ≥ 1 of an existing order; 404 otherwise, for a well-formed id. |
| CashierController.CancelOrder | controllers/cashier.js:396-428 | Deletes exactly that order. |
| CashierController.OrderStatusView | controllers/cashier.js:430-484 | 400 iff the id is not an integer ≥ 1; otherwise the shared order view. |
| CashierController.ViewOf | controllers/cashier.js:440-478 | 404 iff the order is missing, and 403 iff the viewer is neither an ADMIN nor the owner. Otherwise an order without a customer, or with a free-text line, fails with 500; no other refusal exists. The view copies the order's total, lines and payment status. |
| CashierController.PaymentStatusCheck | controllers/cashier.js:487-512 | Passes iff the id is an integer ≥ 1, the trimmed status is one of the three Thai payment tokens, and the order exists. |
| CashierController.UpdatePaymentStatus | controllers/cashier.js:487-519 | Only the order's payment status changes, to the trimmed token. |
| CashierController.ReplaceItemsCheck | controllers/cashier.js:557-643 | Succeeds iff the id is an integer ≥ 1, the list is non-empty, every entry has integers ≥ 1, the order exists, and every entry names an existing menu item. 400 iff the id or the list is malformed; 404 iff only the order is missing; 500 iff an entry is malformed, or an entry names no menu item, which breaks the line-to-menu relation when the new lines are created. |
| CashierController.ReplaceOrderItems | controllers/cashier.js:557-643 | The delete of the old lines (lines 599-602) is not in a transaction. On success the order gets the new priced lines and their total. A refusal before the delete changes nothing. A failure after it leaves the order with no lines and its old total. |
| CashierController.ReplacedCharges | controllers/cashier.js:600-635 | The order holds exactly the new lines, each at the menu's price. Every line names a menu item whenever the check accepts. The total is their sum of price × quantity. Owner and payment status are kept, and other orders are untouched. |
| OrdersController.MapThaiStatus | controllers/orders.js:7-14 | The three Thai words map to PENDING, COMPLETED and CANCELLED. Any other input is returned unchanged. |
| OrdersController.MapThaiStatusIdempotent | controllers/orders.js:7-14 | Mapping twice equals mapping once, and each mapped Thai word is a valid order status. |
| OrdersController.AddOrderCheck | controllers/orders.js:16-45 | 400 exactly for a missing table number, items, method or status, or for too few existing menu items; 404 exactly for an unknown table; 500 for a non-numeric menu id or quantity, or an unknown user. Success holds exactly when none of these applies, and the lines are then the entries, in order. |
| OrdersController.AddItemOrder | controllers/orders.js:16-122 | On success the store is the order transaction applied to the priced lines. On error nothing is written. |
| OrdersController.StaffOrderCharges | controllers/orders.js:52-107 | The total is the sum of menu price × quantity. The order is the caller's, with the payment status sent. Exactly one RESERVED reservation on its table points at it. |
| OrdersController.PatchFor | controllers/orders.js:194-224 | Refuses a status outside OrderStatus, a method outside PaymentMethod, a payment status outside PaymentStatus (unless the status is CANCELLED), and an empty update. CANCELLED forces the "order cancelled" payment token. |
| OrdersController.BuildPatch | controllers/orders.js:194-224 | Filling the update field by field gives exactly that result. |
| OrdersController.Patched | controllers/orders.js:226-230 | Only the status, method and payment status can change. |
| OrdersController.UpdateOrderStatus | controllers/orders.js:182-236 | A bad update is 400 before any lookup. Then a non-numeric or unknown id fails (500). Otherwise only the patched fields change. |
| OrdersController.CancelOverridesPayment | controllers/orders.js:203-215 | With CANCELLED, the order always ends with the "order cancelled" payment token, whatever payment status was sent. |
| OrdersController.RowItem | controllers/orders.js:275-285 | The stored line keeps the row's quantity, price and name. It keeps the menu id iff that id is positive. |
| OrdersController.DetailCheck | controllers/orders.js:238-270 | 400 iff the rows are missing or empty, or a row lacks both a positive menu id and a name, has a quantity ≤ 0, or has a negative price. 404 exactly for an unknown order, 500 for a non-numeric order id or an unknown menu id; success exactly otherwise, with the lines being the rows, in order. |
| OrdersController.UpdateOrderDetail | controllers/orders.js:238-302 | The order's lines become exactly the new rows and its total their sum. Nothing is written on error. |
| OrdersController.SumLines | controllers/orders.js:271 | The loop computes the order total of the lines. |
| OrdersController.DetailCharges | controllers/orders.js:271-289 | The new lines match the rows' quantities and prices, and the total is at least 0. |
| OrdersController.DeleteOrderCheck | controllers/orders.js:304-321 | Passes iff the id is numeric and the order exists; 404 iff it is missing. |
| OrdersController.DeleteOrder | controllers/orders.js:304-321 | Deletes exactly that order. |
| OrdersController.UnpaidNumbersFrom | controllers/orders.js:325-338 | Exactly the table numbers of unpaid orders that have a table. |
| OrdersController.Dedupe | controllers/orders.js:339-343 | The same elements, without repeats, no longer than the input, and in the order of their first occurrences, as a JavaScript `Set` keeps them. |
| OrdersController.DedupeKeepsDistinct | controllers/orders.js:339-343 | A list without repeats is returned unchanged. |
| OrdersController.DedupeIdempotent | controllers/orders.js:339-343 | Deduplicating twice equals deduplicating once. |
| OrdersController.UnpaidTableNumbers | controllers/orders.js:323-348 | Each table number that has an unpaid order appears, exactly once, in the order its first unpaid order comes (by order id). |
| AdminController.RoleCheck | controllers/admin.js:99-131 | 400 iff the role is missing, the id is not an integer ≥ 1, or the upper-cased role is not USER, ADMIN or CASHIER; then 404. The stored role is the upper-cased one. |
| AdminController.UpdateUserRole | controllers/admin.js:99-142 | Only that user's role changes. |
| AdminController.RoleUpdateIdempotent | controllers/admin.js:113-131 | Sending the stored role again is accepted and changes nothing. |
| AdminController.ReservationUpdateCheck | controllers/admin.js:162-190 | A non-numeric number fails (500), and an unknown table is 404. A status that is not a table status fails (500). With no status nothing is written. |
| AdminController.UpdateReservation | controllers/admin.js:162-197 | The table takes the new status. On AVAILABLE, the table's open bookings are completed. |
| AdminController.ReservationUpdateValid | controllers/admin.js:176-190 | The update keeps the store well formed. |
| AdminController.ReleaseCompletesOpenBookings | controllers/admin.js:176-190 | Releasing a table completes exactly its PENDING and RESERVED bookings. Every other booking keeps its status and its table, and none disappears. |
| AdminController.CancelReservation | controllers/admin.js:199-239 | Same decision and same writes as the cashier's cancel: the linked order is deleted, then the reservation, then the table is AVAILABLE. |
| AdminController.AdminOrderStatusView | controllers/admin.js:242-296 | 400 iff the id is missing or `isNaN`; 500 when it passes but `parseInt` gives NaN; 404 iff the order is missing, and 403 iff the viewer is neither ADMIN nor the owner. For a parsed id the answer is the cashier's shared view, so an ADMIN or the owner gets the order unless a null user or menu item makes it 500. |
| AdminController.PaymentCheck | controllers/admin.js:298-312 | 400 iff the method is not CASH, QR_CODE or PROMPTPAY. Then a non-numeric order id fails (500), and an unknown order is 404. |
| AdminController.UpdatePaymentStatus | controllers/admin.js:298-348 | The order becomes "PAID" with the method, and one ledger row is appended. |
| AdminController.PaymentRecorded | controllers/admin.js:315-337 | Exactly one ledger row is appended, copying the order's customer, table and total. Earlier rows, the order's lines and total, and other orders are kept. |
| AdminController.MatchingRows | controllers/admin.js:355-375 | Exactly the ledger rows matching every supplied field, latest first. |
| AdminController.HistoryQuery | controllers/admin.js:351-396 | Fails (500) iff a supplied field does not parse. Otherwise it lists exactly the rows equal on every supplied field, latest first. |
| AdminController.PaymentShowsInHistory | controllers/admin.js:315-375 | A query for the payment's date finds its ledger row, and a query without filters lists every row. |
| AdminController.AllRows | controllers/admin.js:355-375 | A strictly decreasing list of exactly the positions below n has n entries, so an unfiltered query lists each row once. |
| AdminController.TruncDiv | controllers/admin.js:432 | Day differences are truncated toward zero, as dayjs does. |
| AdminController.Range | controllers/admin.js:426-431 | The report is empty iff a date does not parse. Missing dates default to the last seven days. |
| AdminController.PaidOf | controllers/admin.js:446-448 | Exactly the paid orders among those of the day. |
| AdminController.Summary | controllers/admin.js:431-456 | One entry per day, in order, each the report of its day. |
| AdminController.Summary7Days | controllers/admin.js:424-463 | The loop's result is the report of each day from the first to the last. |
| AdminController.DayReport | controllers/admin.js:433-455 | One day's entry: the orders created that day, the paid ones, and their summed totals. |
| AdminController.PaidAndTotal | controllers/admin.js:446-448 | The filter and the reduce give the paid orders and their total. |
| AdminController.PaidAtMostOrders | controllers/admin.js:446-455 | Each day counts no more paid orders than orders. |
| AdminController.DayCounts | controllers/admin.js:426-431 | Without dates there are exactly seven days, ending today. Midnights n days apart give n + 1 days. |
| AdminController.AdminPaymentUncounted | controllers/admin.js:324-330 | An order the admin marked paid is never counted as paid in the report: it stores "PAID", but the report counts the Thai token. |
| AdminController.PasswordCheck | controllers/admin.js:503-523 | 400 iff the id is not an integer ≥ 1 or the password is shorter than 8. Otherwise 403 iff the requester is neither ADMIN nor that user. Otherwise 500 iff the user is unknown, since the write fails. Success holds exactly when none of these applies. |
| AdminController.ChangeUserPassword | controllers/admin.js:503-537 | Only that user's password changes, to the hash of the new one. |
| TablesController.ListedIds | controllers/tables.js:14-44 | Exactly the table's reservations that are not CANCELLED and, when a time is selected, lie in [selected − 3h, selected + 3h). |
| TablesController.RowOf | controllers/tables.js:50-62 | A table is listed with its number, its status and the kept reservations. |
| TablesController.GetTables | controllers/tables.js:8-73 | 400 iff the selected time does not parse. Otherwise every table is listed, in id order, with the reservations the window keeps. |
| TablesController.WindowsDiffer | controllers/tables.js:30-44 | The listing's window differs from the booking conflict window. A PENDING reservation 3h after the selected time blocks a booking but is not listed. |
| TablesController.GetTableByNumber | controllers/tables.js:75-104 | 400 iff the number is not numeric, and 404 iff no table has it. Otherwise it gives the table found by that number, with its id and number. |
| TablesController.TableByNumberExact | controllers/tables.js:82-99 | In a well-formed store, 404 means no table has the number. Otherwise the table found is the only one. |
| AuthMiddleware.NormalRole | middleware/authMiddleware.js:38-43 | The role is the claim upper-cased character by character, with the same length, or USER when the claim is not a string. It is always upper case. |
| AuthMiddleware.VerifyToken | middleware/authMiddleware.js:7-50 | OPTIONS gets 204, and a missing header 401. The request passes iff the header is exactly "Bearer" (any case) and a JWT-shaped token that verifies. The caller then gets the token's id and normalised role. |
| AuthMiddleware.BearerRoundTrip | middleware/authMiddleware.js:17-43 | "Bearer " followed by a well-formed token is read back as that token, whatever the case of the scheme. |
| AuthMiddleware.ExtraWordRefused | middleware/authMiddleware.js:17-20 | A header with a third word is refused. |
| AuthMiddleware.VerifyAdmin | middleware/authMiddleware.js:52-59 | 401 without a user. Passes iff the upper-cased role is ADMIN, else 403. |
| AuthMiddleware.VerifyCashier | middleware/authMiddleware.js:61-68 | 401 without a user. Passes iff the upper-cased role is CASHIER or ADMIN, else 403. |
| AuthMiddleware.RequireLogin | middleware/authMiddleware.js:70-75 | Passes iff there is a user, else 401. |
| AuthMiddleware.RequireRole | middleware/authMiddleware.js:77-84 | Passes iff the stored role is in the list, compared case-sensitively; 403 otherwise, also without a user. |
| AuthMiddleware.AdminIsCashier | middleware/authMiddleware.js:52-68 | Every admin passes the cashier gate. |
| AuthMiddleware.RoleGatesAgree | middleware/authMiddleware.js:38-84 | After verifyToken, requireRole(["ADMIN"]) and verifyAdmin agree. For a role stored in lower case they disagree. |
| Ownership.VerifyOwnership | middleware/ownership.js:3-28 | 401 without a caller id, before the lookup. A missing row is 404 for every role. A role in the allowed list passes. Otherwise it passes iff the owner field is the caller, else 403. |
| Ownership.OwnerAndStranger | middleware/ownership.js:9-22 | The owner always passes. A stranger without a privileged role gets 403. ADMIN passes for any existing row. |
| AuthController.ContactTaken | controllers/auth.js:33-40 | Finds a user with that email or phone, or shows that none exists. |
| AuthController.RegisterCheck | controllers/auth.js:16-45 | The checks run in the source's order, and the first failure is the answer: username, email, password, confirmation, equality, length ≥ 6, phone, ten digits, then a taken email or phone. |
| AuthController.Register | controllers/auth.js:16-60 | On success there is one new user: enabled, role USER, with the hashed password. |
| AuthController.RegisterKeepsContactsUnique | controllers/auth.js:33-52 | Registration keeps emails and phones unique across accounts. |
| AuthController.UserNamed | controllers/auth.js:70-73 | Finds the user with that username, the one with the lowest id, or shows that none exists. |
| AuthController.SignedRole | controllers/auth.js:90-95 | The signed role is the stored role upper-cased, or USER when it is empty. |
| AuthController.Login | controllers/auth.js:62-111 | 400 for missing fields or an unknown user, 403 iff the account is disabled, 401 iff the password does not match. On success the payload is the id, username and e-mail of the first user with that username, with the upper-cased role. |
| AuthController.SignedRoleIsNormal | controllers/auth.js:90-95 | The role login signs survives verifyToken's normalisation unchanged. |
| AuthController.HeaderToken | controllers/auth.js:115-120 | The token is the second piece of the header split on spaces, when there is one and it is not empty. |
| AuthController.LogoutToken | controllers/auth.js:113-126 | logout accepts iff the header carries a JWT-shaped token, and that token is blacklisted. |
| AuthController.CheckToken | controllers/auth.js:135-147 | Passes iff the header carries a JWT-shaped token that is not blacklisted; 401 otherwise. |
| AuthController.LogoutRevokes | controllers/auth.js:6-147 | A logged-out header is refused from then on. Revoking never admits a header that was refused before. |
| AuthController.TokenBlacklist.Logout | controllers/auth.js:113-133 | The blacklist grows by exactly the token, or stays the same on 400. Afterwards the same header is refused. |
| AuthController.TokenBlacklist.Check | controllers/auth.js:135-147 | The check against the current blacklist. |
| AuthController.UserWithEmail | controllers/auth.js:155-160 | Finds the user with that email, or shows that none exists. |
| AuthController.ResetIssueCheck | controllers/auth.js:150-162 | 404 iff no user has the email. |
| AuthController.SendResetEmail | controllers/auth.js:150-198 | That user gets the token, valid until now + 1h. |
| AuthController.ResetCheck | controllers/auth.js:200-215 | Succeeds iff some user holds the token with an expiry not before now; 400 otherwise. |
| AuthController.ResetPassword | controllers/auth.js:200-234 | The new hashed password is stored, and both token fields are cleared. |
| AuthController.ResetTokenSingleUse | controllers/auth.js:162-226 | An issued token opens a reset for its user throughout the next hour. Once used, it opens nothing, at any time. |
| InventoryController.CreateStockCheck | controllers/inventory.js:5-18 | 400 iff the name is missing or empty, or the quantity is not an integer ≥ 0. On success the row holds the trimmed name and the quantity, with no menu link. |
| InventoryController.WithStockValid | controllers/inventory.js:20-25 | Adding a row keeps the store well formed. |
| InventoryController.CreateStock | controllers/inventory.js:5-32 | On success there is exactly one new row, under a fresh id. |
| InventoryController.CreatedNameTrimmed | controllers/inventory.js:9-25 | The stored name never starts or ends with a blank. |
| InventoryController.BlankNameStoredEmpty | controllers/inventory.js:9-25 | A name made only of blanks passes the check, because it is not empty as sent, and is stored as the empty name. |
| InventoryController.UpdateStockCheck | controllers/inventory.js:51-85 | Passes iff the id is an integer ≥ 1, a supplied quantity is an integer ≥ 0, a supplied menu id is an integer ≥ 1, the row exists, and a supplied menu id names a menu. 404 iff only the row is missing. |
| InventoryController.UpdateStock | controllers/inventory.js:51-102 | Only that row changes, to the merge of the supplied fields. |
| InventoryController.MergeKeepsUnsupplied | controllers/inventory.js:87-94 | Every field not supplied keeps its value, and every supplied one takes the new value. A supplied menu id names a menu. |
| InventoryController.UpdateStockIdempotent | controllers/inventory.js:51-102 | Sending the same update twice leaves the row as the first one did. |
| InventoryController.DeleteStockCheck | controllers/inventory.js:104-118 | Passes iff the id is an integer ≥ 1 of an existing row; 404 iff the row is missing. |
| InventoryController.DeleteStock | controllers/inventory.js:104-130 | Deletes exactly that row. |
| InventoryController.DeleteRemovesExactlyOne | controllers/inventory.js:112-122 | One row fewer, the others unchanged. Deleting again is 404. |
| MenuController.CreateMenuCheck | controllers/menu.js:10-61 | 400 when the name, price, image or category is missing, or the price is not positive; 404 iff the category is unknown. On success the item has the supplied fields, the picture's URL and id, and is in stock. |
| MenuController.WithMenuValid | controllers/menu.js:73-84 | Adding a menu item keeps the store well formed. |
| MenuController.CreateMenu | controllers/menu.js:10-97 | On success there is exactly one new menu item, under a fresh id. |
| MenuController.UpdateMenuCheck | controllers/menu.js:116-149 | Passes iff the id parses, the menu exists, and a supplied status is "มีอยู่" or "หมดแล้ว"; 404 iff the menu is missing. |
| MenuController.UpdateMenu | controllers/menu.js:116-171 | Only that menu item changes, and only in the supplied fields. |
| MenuController.UpdateChangesOnlySupplied | controllers/menu.js:138-164 | An empty update changes nothing, and the category never changes. A new picture sets both its URL and its public id. |
| MenuController.StatusesStayAllowed | controllers/menu.js:73-164 | Both handlers keep every menu item in one of the two allowed states. |
| MenuController.NegativePriceOnlyByUpdate | controllers/menu.js:35-143 | Create refuses a price that is not positive, but an update stores a negative one. |
| CategoryController.NameField | controllers/category.js:7-9 | The name is the field trimmed, or empty when missing. |
| CategoryController.CategoryNamed | controllers/category.js:15-18 | Finds the category with that name, or shows that none exists. |
| CategoryController.CreateCategoryCheck | controllers/category.js:5-27 | 400 iff the trimmed name is empty, and 409 iff a category already has it. On success the category has the trimmed name. |
| CategoryController.CreateCategoryValid | controllers/category.js:15-27 | An accepted name keeps category names unique. |
| CategoryController.CreateCategory | controllers/category.js:5-37 | On success there is exactly one new category. On error nothing is written. |
| CategoryController.SecondCreateConflicts | controllers/category.js:15-23 | Creating the same name again, with any surrounding blanks, is 409. |
| CategoryController.AdminCreateMenuCheck | controllers/category.js:39-72 | Passes iff the name, a numeric price and an integer category are given and the category exists. A missing category fails the connect (500); everything else is 400. |
| CategoryController.ImageField | controllers/category.js:45-66 | The picture is the body's image, else the uploaded file's path, else empty. |
| CategoryController.AdminCreateMenu | controllers/category.js:39-79 | On success there is exactly one new menu item, built from the form. |
| CategoryController.FormLaxerThanCreateMenu | controllers/category.js:49-72 | The admin form accepts a price ≤ 0 and no picture, both of which createMenu refuses. |
| CategoryController.MissingCategoryAnswersDiffer | controllers/category.js:60-72 | An unknown category is a 500 from the admin form, where createMenu answers 404. |

## Left out

- deleteMenu, CashierdeleteMenu, updatePaymentMethodByCashier, deleteOrderHistory and getOrderSummaryByMonth are not modelled. Each is a single lookup-and-write, or a report like the seven-day one, and adds no rule the modelled handlers lack.
- The listing endpoints (the cart, my orders, users, profile, stock, menus, categories, the cashier's reservation and order lists) are not modelled: each is a query with no rule.
- updateProfile is not modelled: it reads variables before they are declared, so it cannot run as written.
- E-mail, QR/PromptPay images, PDF receipts, notifications and Cloudinary uploads and deletions are not modelled. An upload is the URL and id it reports, and a failed Cloudinary deletion is not modelled.
- bcrypt, `jwt.sign`, `jwt.verify`, `crypto.randomBytes`, `validator.isMobilePhone` and `validator.isJWT` are parameters or predicates, not implementations. The JWT shape requires three dot-separated base64url segments and does not require them non-empty.
- Dates and clocks: `now`, "today" and parsed dates are inputs in milliseconds. Days are 24 hours, with no daylight-saving time. The server's calendar date of a payment is a parameter.
- `xss` is treated as the identity on the text fields. Upper-casing and trimming are ASCII-only. String length counts characters, not UTF-16 units.
- The partial parses of `parseInt` and `validator.toInt` (for example "3.5" read as 3) are folded into the `Input` value the handler receives.
- Floating point: prices are integer minor units, so `parseFloat`, `toFixed(2)` and Prisma decimals are not modelled.
- Concurrency, isolation and transaction rollback are not modelled. Each handler runs alone. The race between the conflict query and the insert is out of scope.
- Ordering.PlaceOrder: whether the table write inside the transaction succeeds is the parameter `tableWriteOk`.
- Prisma errors are modelled as a 500 answer with nothing written: NaN in a filter, a string id where a number is expected, and a connect to a missing category. Enum columns refuse unknown values the same way.
- Schema defaults are assumed: a menu starts "มีอยู่", and an order starts PENDING and "ยังไม่ชำระเงิน". The Prisma schema file is not part of this model.
- Queries without `orderBy` (`findFirst`, and `findMany` in the booking overlap query, the checkout cart query, getUnpaidTableNumbers, getTables, getTablesWithReservations and the guest lookup by phone) are modelled as returning rows by ascending id. Prisma promises no order there. This affects UserController.CartRowFor, UserController.RemoveFromCartCheck, CashierController.ReservationAtTable, AuthController.UserNamed, AuthController.Login, AuthController.ContactTaken, AuthController.ResetCheck, OrdersController.UnpaidTableNumbers, TablesController.GetTables, GuestController.TablesWithReservations, GuestController.BookingsOf, GuestController.TodaysBookings, Booking.Conflicts and Booking.BusyTableIds (the order of the busy-tables payload), and UserController.CartOf, UserController.CreateOrderCheck, UserController.CreateOrder and UserController.CheckoutCharges (the order of the stored order lines).
- Foreign-key actions are not modelled, because the Prisma schema is not part of this model. Deleting an order removes only the order row, with its lines, which the model stores inside the order. A reservation whose `orderId` names it keeps that id, and ledger rows are kept. A real database would instead null the link, cascade, or refuse the delete. This affects OrdersController.DeleteOrder, CashierController.CancelOrder, CashierController.CashierCancelReservation and AdminController.CancelReservation. It also affects the 500 path of CashierController.CashierCancelCheck, which is reached only through such a dangling link. Schema.OrderRefsBelow only bounds the linked ids; it does not require the order to exist.
- Integer width: ids, table numbers, quantities and prices are unbounded integers. Prisma `Int` columns refuse values outside 32 bits, so the source answers 500 there, where the model answers 404 or success. Examples are GuestController.GuestCancelCheck, CashierController.TableStatusCheck, TablesController.GetTableByNumber, InventoryController.CreateStockCheck and InventoryController.DeleteStockCheck.
- AdminController.HistoryQuery: the latest-first order assumes ledger rows are appended in time order.
- Ownership.VerifyOwnership: the row lookup `prisma[model].findUnique` is the parameter `lookup`. The model and field names are not modelled.
- InventoryController.UpdateStockCheck: a JSON `null` for quantity or menu id is not modelled, and `itemName` is assumed to be text.
- GuestController.GuestBookings and AuthController.RegisterCheck: names, phones and e-mails are compared as given, after trimming where the source trims.
- Response bodies are reduced to the fields the rules decide (ids, lines, totals, statuses). Messages are kept only as a short reason.
