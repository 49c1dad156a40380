/** The customer router (routers/customer.py): menu browsing, placing an
    order, reading one's own orders and cancelling a pending one. The caller
    is the customer account that the access-control dependency resolved; its
    id is a parameter. Reads are functions of the tables; placing and
    cancelling change the database. */
module CustomerRouter {
  import opened Common
  import opened Schemas
  import opened Tables

  /** The filter parameters of GET /customer/menus (the handler declares no
      bounds on the prices). */
  datatype MenuQuery = MenuQuery(
    isAvailable: Option<bool>, priceMin: Option<int>, priceMax: Option<int>, search: Option<string>)


  /** The WHERE clause of the customer menu listing: the requested
      availability (available only, when not requested), the price bounds that
      were given, and the name substring when one was given. */
  predicate MenuMatches(q: MenuQuery, m: Menu) {
    && (match q.isAvailable
        case Some(a) => m.isAvailable == a
        case None => m.isAvailable)
    && (q.priceMin.Some? ==> m.price >= q.priceMin.value)
    && (q.priceMax.Some? ==> m.price <= q.priceMax.value)
    && (Given(q.search) ==> ContainsText(m.name, q.search.value))
  }

  function MenuQueryFilter(q: MenuQuery): Menu -> bool { (m: Menu) => MenuMatches(q, m) }

  /** GET /customer/menus: the requested page of the matching menus and the
      number of matches before paging. */
  function GetMenus(menus: seq<Menu>, q: MenuQuery, page: int, perPage: int): (r: Result<MenuList>)
    ensures r.Err? <==> !ValidPaging(page, perPage)
    ensures r.Err? ==> r.error == Unprocessable
    ensures r.Ok? ==>
      var matches := Filter(menus, MenuQueryFilter(q));
      && r.value.total == |matches|
      && r.value.menus == Page(matches, page, perPage)
      && |r.value.menus| == (if Offset(page, perPage) < |matches| then Min(perPage, |matches| - Offset(page, perPage)) else 0)
      && (forall i :: 0 <= i < |r.value.menus| ==>
            Offset(page, perPage) + i < |matches| &&
            r.value.menus[i] == matches[Offset(page, perPage) + i])
    ensures r.Ok? ==> forall m | m in r.value.menus :: m in menus && MenuMatches(q, m)
    ensures r.Ok? && q.isAvailable.None? ==> forall m | m in r.value.menus :: m.isAvailable
    ensures r.Ok? && Given(q.search) ==> forall m | m in r.value.menus :: ContainsText(m.name, q.search.value)
  {
    if !ValidPaging(page, perPage) then Err(Unprocessable)
    else
      var matches := Filter(menus, MenuQueryFilter(q));
      Ok(MenuList(Page(matches, page, perPage), |matches|))
  }

  /** Paging loses no match: every matching menu is on some page. */
  lemma MenusListsEveryMatch(menus: seq<Menu>, q: MenuQuery, perPage: int, m: Menu)
    requires 1 <= perPage <= MAX_PER_PAGE
    requires m in menus && MenuMatches(q, m)
    ensures exists page :: page >= 1 && m in GetMenus(menus, q, page, perPage).value.menus
  {
    var matches := Filter(menus, MenuQueryFilter(q));
    assert MenuQueryFilter(q)(m);
    assert m in matches;
    PagesCover(matches, perPage, m);
    var page :| page >= 1 && m in Page(matches, page, perPage);
    assert GetMenus(menus, q, page, perPage).value.menus == Page(matches, page, perPage);
  }

  /** Asking for unavailable menus is honoured: the availability default
      applies only when the parameter is left out. */
  lemma UnavailableMenusOnRequest(menus: seq<Menu>, m: Menu)
    requires m in menus && !m.isAvailable
    ensures GetMenus(menus, MenuQuery(Some(false), None, None, None), 1, MAX_PER_PAGE).value.total >= 1
  {
    var q := MenuQuery(Some(false), None, None, None);
    assert MenuQueryFilter(q)(m);
    var matches := Filter(menus, MenuQueryFilter(q));
    assert m in matches;
  }

  /** GET /customer/menus/{id}: only an available menu is shown. */
  function GetMenu(menus: seq<Menu>, menuId: int): (r: Result<Menu>)
    ensures r.Ok? <==> exists i :: 0 <= i < |menus| && menus[i].id == menuId && menus[i].isAvailable
    ensures r.Ok? ==> r.value in menus && r.value.id == menuId && r.value.isAvailable
    ensures r.Err? ==> r.error == NotFound("Menu not found")
  {
    match IndexWhere(menus, AvailableWithId(menuId))
    case Some(i) => Ok(menus[i])
    case None =>
      assert forall i :: 0 <= i < |menus| ==> !AvailableWithId(menuId)(menus[i]);
      Err(NotFound("Menu not found"))
  }

  /** POST /customer/orders. The menu must exist and be available; the
      order's total is the menu's current price times the quantity, its
      status the column default "pending", its time `now`. */
  method CreateOrder(db: Db, userId: int, req: OrderCreate, now: int) returns (r: Result<Order>)
    requires db.Valid()
    requires userId in UserIds(db.users)
    modifies db
    ensures db.Valid()
    ensures db.users == old(db.users) && db.stores == old(db.stores) && db.menus == old(db.menus)
    ensures db.nextUserId == old(db.nextUserId) && db.nextMenuId == old(db.nextMenuId)
    ensures !ValidOrderCreate(req) ==> r == Err(Unprocessable)
    ensures ValidOrderCreate(req) && IndexWhere(old(db.menus), AvailableWithId(req.menuId)).None? ==>
              r == Err(NotFound("Menu not found or not available"))
    ensures r.Err? ==> db.orders == old(db.orders)
    ensures r.Ok? <==> ValidOrderCreate(req) && IndexWhere(old(db.menus), AvailableWithId(req.menuId)).Some?
    ensures r.Ok? ==>
      var o := r.value;
      && db.orders == old(db.orders) + [o]
      && o.id !in OrderIds(old(db.orders))
      && o.userId == userId && o.menuId == req.menuId && o.quantity == req.quantity
      && o.deliveryTime == req.deliveryTime && o.notes == req.notes
      && o.status == PENDING && o.orderedAt == now
      && exists m | m in old(db.menus) :: m.id == req.menuId && m.isAvailable && o.totalPrice == m.price * req.quantity
  {
    if !ValidOrderCreate(req) {
      return Err(Unprocessable);
    }
    var k := IndexWhere(db.menus, AvailableWithId(req.menuId));
    if k.None? {
      return Err(NotFound("Menu not found or not available"));
    }
    var menu := db.menus[k.value];
    assert menu in db.menus && menu.id == req.menuId && menu.isAvailable;
    ValidOrderTotalBounds(req, menu.price);
    var o := Order(db.nextOrderId, userId, req.menuId, req.quantity, menu.price * req.quantity,
                   PENDING, req.deliveryTime, req.notes, now);
    AddOrderKeepsIntegrity(db.users, db.menus, db.orders, db.nextUserId, db.nextMenuId, db.nextOrderId, o);
    db.orders := db.orders + [o];
    db.nextOrderId := db.nextOrderId + 1;
    r := Ok(o);
  }

  /** The WHERE clause of the order history: the caller's orders, with the
      given status when a non-empty status filter was sent. */
  function MyOrdersFilter(userId: int, statusFilter: Option<string>): Order -> bool {
    (o: Order) => o.userId == userId && (Given(statusFilter) ==> o.status == statusFilter.value)
  }

  /** GET /customer/orders: the caller's orders, newest first, paged, with the
      number of matches before paging. */
  function GetMyOrders(orders: seq<Order>, userId: int, statusFilter: Option<string>, page: int, perPage: int)
    : (r: Result<OrderList>)
    ensures r.Err? <==> !ValidPaging(page, perPage)
    ensures r.Err? ==> r.error == Unprocessable
    ensures r.Ok? ==>
      var matches := Filter(orders, MyOrdersFilter(userId, statusFilter));
      && r.value.total == |matches|
      && |r.value.orders| <= perPage
      && r.value.orders == Page(SortDesc(matches, OrderedAt), page, perPage)
    ensures r.Ok? ==> forall o | o in r.value.orders ::
      o in orders && o.userId == userId && (Given(statusFilter) ==> o.status == statusFilter.value)
    ensures r.Ok? ==> SortedDesc(r.value.orders, OrderedAt)
  {
    if !ValidPaging(page, perPage) then Err(Unprocessable)
    else
      var matches := Filter(orders, MyOrdersFilter(userId, statusFilter));
      SortedPage(matches, OrderedAt, page, perPage);
      Ok(OrderList(Page(SortDesc(matches, OrderedAt), page, perPage), |matches|))
  }

  /** Paging loses none of the caller's orders: each is on some page. */
  lemma MyOrdersListsEveryOrder(orders: seq<Order>, userId: int, statusFilter: Option<string>,
                                perPage: int, o: Order)
    requires 1 <= perPage <= MAX_PER_PAGE
    requires o in orders && o.userId == userId
    requires Given(statusFilter) ==> o.status == statusFilter.value
    ensures exists page :: (page >= 1 &&
      o in GetMyOrders(orders, userId, statusFilter, page, perPage).value.orders)
  {
    var matches := Filter(orders, MyOrdersFilter(userId, statusFilter));
    var sorted := SortDesc(matches, OrderedAt);
    assert MyOrdersFilter(userId, statusFilter)(o);
    assert o in matches;
    assert o in multiset(sorted);
    PagesCover(sorted, perPage, o);
    var page :| page >= 1 && o in Page(sorted, page, perPage);
    assert GetMyOrders(orders, userId, statusFilter, page, perPage).value.orders == Page(sorted, page, perPage);
  }

  /** GET /customer/orders/{id}: another customer's order is reported exactly
      like a missing one. */
  function GetMyOrder(orders: seq<Order>, userId: int, orderId: int): (r: Result<Order>)
    ensures r.Ok? <==> exists i :: 0 <= i < |orders| && orders[i].id == orderId && orders[i].userId == userId
    ensures r.Ok? ==> r.value in orders && r.value.id == orderId && r.value.userId == userId
    ensures r.Err? ==> r.error == NotFound("Order not found")
  {
    match IndexWhere(orders, OwnedOrder(userId, orderId))
    case Some(i) => Ok(orders[i])
    case None =>
      assert forall i :: 0 <= i < |orders| ==> !OwnedOrder(userId, orderId)(orders[i]);
      Err(NotFound("Order not found"))
  }

  /** PUT /customer/orders/{id}/cancel: the caller's own order, and only from
      "pending"; on success only that order's status changes. */
  method CancelOrder(db: Db, userId: int, orderId: int) returns (r: Result<Order>)
    requires db.Valid()
    modifies db
    ensures db.Valid()
    ensures db.users == old(db.users) && db.stores == old(db.stores) && db.menus == old(db.menus)
    ensures db.nextUserId == old(db.nextUserId) && db.nextMenuId == old(db.nextMenuId)
    ensures db.nextOrderId == old(db.nextOrderId)
    ensures var k := IndexWhere(old(db.orders), OwnedOrder(userId, orderId));
      && (k.None? ==> r == Err(NotFound("Order not found")))
      && (k.Some? && old(db.orders)[k.value].status != PENDING ==>
            r == Err(BadRequest("Only pending orders can be cancelled")))
      && (r.Err? ==> db.orders == old(db.orders))
      && (k.Some? && old(db.orders)[k.value].status == PENDING ==>
            && db.orders == old(db.orders)[k.value := old(db.orders)[k.value].(status := CANCELLED)]
            && r == Ok(db.orders[k.value]))
    ensures r.Ok? <==> exists o | o in old(db.orders) :: o.id == orderId && o.userId == userId && o.status == PENDING
  {
    var k := IndexWhere(db.orders, OwnedOrder(userId, orderId));
    if k.None? {
      return Err(NotFound("Order not found"));
    }
    var i := k.value;
    if db.orders[i].status != PENDING {
      assert forall j :: 0 <= j < |db.orders| && db.orders[j].id == orderId && db.orders[j].userId == userId ==> j == i;
      return Err(BadRequest("Only pending orders can be cancelled"));
    }
    var cancelled := db.orders[i].(status := CANCELLED);
    assert WellFormedOrder(cancelled, db.menus, db.users) by {
      assert db.orders[i] in db.orders;
    }
    SetOrderKeepsIntegrity(db.users, db.menus, db.orders, db.nextUserId, db.nextMenuId, db.nextOrderId, i, cancelled);
    db.orders := db.orders[i := cancelled];
    r := Ok(cancelled);
  }
}
