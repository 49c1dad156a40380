/** The request contracts of the API (schemas.py): each request body
    becomes a datatype, and its declared field constraints become a
    validity predicate. A request that fails its predicate is answered with
    422 before any handler runs. */
module Schemas {
  import opened Common

  // Order statuses (models.py:113 lists them; schemas.py:178 allows exactly these).
  const PENDING: string := "pending"
  const CONFIRMED: string := "confirmed"
  const PREPARING: string := "preparing"
  const READY: string := "ready"
  const COMPLETED: string := "completed"
  const CANCELLED: string := "cancelled"

  /** `pattern="^(pending|confirmed|preparing|ready|completed|cancelled)$"`. */
  predicate KnownStatus(s: string) {
    s == PENDING || s == CONFIRMED || s == PREPARING ||
    s == READY || s == COMPLETED || s == CANCELLED
  }

  const MAX_QUANTITY: int := 10
  const MAX_NOTES_LENGTH: int := 500
  const MAX_MENU_NAME_LENGTH: int := 255
  const MAX_PER_PAGE: int := 100

  // ----- UserCreate -------------------------------------------------------

  datatype UserCreate = UserCreate(
    username: string, email: string, password: string, fullName: string, role: string)

  /** Username 3..50 characters, password at least 6, full name 1..100, and a
      role matching `^(customer|store)$`. (The e-mail syntax check is the
      library's and is not part of this model.) */
  predicate ValidUserCreate(u: UserCreate) {
    && 3 <= |u.username| <= 50
    && |u.password| >= 6
    && 1 <= |u.fullName| <= 100
    && (u.role == "customer" || u.role == "store")
  }

  // ----- MenuBase / MenuCreate / MenuUpdate -------------------------------

  predicate ValidMenuName(name: string) { 1 <= |name| <= MAX_MENU_NAME_LENGTH }
  predicate ValidPrice(price: int) { price >= 1 }

  /** `is_available` may be left out of the body; it then defaults to true. */
  datatype MenuCreate = MenuCreate(
    name: string, price: int, description: Option<string>, imageUrl: Option<string>,
    isAvailable: Option<bool>)

  predicate ValidMenuCreate(m: MenuCreate) {
    ValidMenuName(m.name) && ValidPrice(m.price)
  }

  /** The value `is_available` takes after defaulting. */
  function AvailabilityOf(m: MenuCreate): (b: bool)
    ensures m.isAvailable.None? ==> b
    ensures m.isAvailable.Some? ==> b == m.isAvailable.value
  {
    match m.isAvailable
    case None => true
    case Some(a) => a
  }

  /** Every field optional; a field that is sent obeys MenuBase's bounds. */
  datatype MenuUpdate = MenuUpdate(
    name: Patch<string>, price: Patch<int>, description: Patch<Option<string>>,
    imageUrl: Patch<Option<string>>, isAvailable: Patch<bool>)

  predicate ValidMenuUpdate(u: MenuUpdate) {
    && (u.name.Set? ==> ValidMenuName(u.name.value))
    && (u.price.Set? ==> ValidPrice(u.price.value))
  }

  // ----- OrderBase / OrderCreate / OrderStatusUpdate ----------------------

  /** `delivery_time` is a time of day, kept as microseconds since midnight. */
  datatype OrderCreate = OrderCreate(
    menuId: int, quantity: int, deliveryTime: Option<int>, notes: Option<string>)

  predicate ValidOrderCreate(o: OrderCreate) {
    && o.menuId >= 1
    && 1 <= o.quantity <= MAX_QUANTITY
    && (o.notes.Some? ==> |o.notes.value| <= MAX_NOTES_LENGTH)
  }

  datatype OrderStatusUpdate = OrderStatusUpdate(status: string)

  predicate ValidStatusUpdate(u: OrderStatusUpdate) { KnownStatus(u.status) }

  // ----- The listing handlers' paging parameters --------------------------

  /** `page: int = Query(1, ge=1)`, `per_page: int = Query(20, ge=1, le=100)`. */
  predicate ValidPaging(page: int, perPage: int) {
    page >= 1 && 1 <= perPage <= MAX_PER_PAGE
  }

  // ----- What the constraints guarantee downstream ------------------------

  /** A valid order for a validly priced menu has a total between one and ten
      times the unit price, and so is at least 1. */
  lemma ValidOrderTotalBounds(req: OrderCreate, price: int)
    requires ValidOrderCreate(req) && ValidPrice(price)
    ensures price <= price * req.quantity <= MAX_QUANTITY * price
    ensures price * req.quantity >= req.quantity >= 1
  {
    var q := req.quantity;
    assert price * q - price == price * (q - 1);
    assert MAX_QUANTITY * price - price * q == price * (MAX_QUANTITY - q);
    assert price * q - q == (price - 1) * q;
  }
}
