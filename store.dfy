/** The store router (routers/store.py): the dashboard, the order listing and
    status updates, menu management and the store profile update. The sales
    report is in its own module. Reads are functions of the tables; writes
    are methods on the database. */
module StoreRouter {
  import opened Common
  import opened Schemas
  import opened Tables
  import opened Aggregates

  // ----- Dashboard ---------------------------------------------------------

  /** The body of GET /store/dashboard. */
  datatype OrderSummary = OrderSummary(
    totalOrders: nat, pendingOrders: nat, confirmedOrders: nat, preparingOrders: nat,
    readyOrders: nat, completedOrders: nat, cancelledOrders: nat, totalSales: int)

  /** Today's orders (00:00:00.000000 to 23:59:59.999999) counted per status,
      and the sum of the non-cancelled totals. */
  function Dashboard(orders: seq<Order>, today: int): (r: OrderSummary)
    ensures r.pendingOrders <= r.totalOrders && r.confirmedOrders <= r.totalOrders
    ensures r.preparingOrders <= r.totalOrders && r.readyOrders <= r.totalOrders
    ensures r.completedOrders <= r.totalOrders && r.cancelledOrders <= r.totalOrders
    ensures r.totalOrders == 0 ==> r.totalSales == 0
  {
    var lo, hi := DayStart(today), DayEnd(today);
    PartCountsBounded(orders, lo, hi, PENDING);
    PartCountsBounded(orders, lo, hi, CONFIRMED);
    PartCountsBounded(orders, lo, hi, PREPARING);
    PartCountsBounded(orders, lo, hi, READY);
    PartCountsBounded(orders, lo, hi, COMPLETED);
    PartCountsBounded(orders, lo, hi, CANCELLED);
    assert CountIn(orders, lo, hi) == 0 ==> SalesLiveIn(orders, lo, hi) == 0 by {
      if CountIn(orders, lo, hi) == 0 { NoLiveOrdersNoSales(orders, lo, hi); }
    }
    OrderSummary(
      CountIn(orders, lo, hi),
      CountStatusIn(orders, lo, hi, PENDING),
      CountStatusIn(orders, lo, hi, CONFIRMED),
      CountStatusIn(orders, lo, hi, PREPARING),
      CountStatusIn(orders, lo, hi, READY),
      CountStatusIn(orders, lo, hi, COMPLETED),
      CountStatusIn(orders, lo, hi, CANCELLED),
      SalesLiveIn(orders, lo, hi))
  }

  /** With every status one of the six (which `Db.Valid` guarantees), the six
      per-status counts add up to the total. */
  lemma DashboardCountsPartition(orders: seq<Order>, today: int)
    requires forall o | o in orders :: KnownStatus(o.status)
    ensures var r := Dashboard(orders, today);
      r.totalOrders == r.pendingOrders + r.confirmedOrders + r.preparingOrders +
                       r.readyOrders + r.completedOrders + r.cancelledOrders
  {
    StatusCountsPartition(orders, DayStart(today), DayEnd(today));
  }

  /** Sales are not negative over stored orders. */
  lemma DashboardSalesNonNegative(orders: seq<Order>, today: int)
    requires forall o | o in orders :: o.totalPrice >= 0
    ensures Dashboard(orders, today).totalSales >= 0
  {
    SalesNonNegative(orders, DayStart(today), DayEnd(today));
  }

  /** An order placed on another day leaves today's dashboard as it was. */
  lemma DashboardIgnoresOtherDays(orders: seq<Order>, o: Order, today: int)
    requires !InWindow(o, DayStart(today), DayEnd(today))
    ensures Dashboard(orders + [o], today) == Dashboard(orders, today)
  {
    var lo, hi := DayStart(today), DayEnd(today);
    AppendOrder(orders, o, lo, hi, PENDING);
    AppendOrder(orders, o, lo, hi, CONFIRMED);
    AppendOrder(orders, o, lo, hi, PREPARING);
    AppendOrder(orders, o, lo, hi, READY);
    AppendOrder(orders, o, lo, hi, COMPLETED);
    AppendOrder(orders, o, lo, hi, CANCELLED);
  }

  /** An order placed today (status "pending") adds one to the total and to
      the pending count, and its total to the sales. */
  lemma DashboardAfterPlacing(orders: seq<Order>, o: Order, today: int)
    requires InWindow(o, DayStart(today), DayEnd(today)) && o.status == PENDING
    ensures var before, after := Dashboard(orders, today), Dashboard(orders + [o], today);
      after == before.(totalOrders := before.totalOrders + 1,
                       pendingOrders := before.pendingOrders + 1,
                       totalSales := before.totalSales + o.totalPrice)
  {
    var lo, hi := DayStart(today), DayEnd(today);
    AppendOrder(orders, o, lo, hi, PENDING);
    AppendOrder(orders, o, lo, hi, CONFIRMED);
    AppendOrder(orders, o, lo, hi, PREPARING);
    AppendOrder(orders, o, lo, hi, READY);
    AppendOrder(orders, o, lo, hi, COMPLETED);
    AppendOrder(orders, o, lo, hi, CANCELLED);
  }

  /** Cancelling one of today's pending orders moves it from the pending to
      the cancelled count and takes its total out of the sales; the total
      count stays. */
  lemma DashboardAfterCancelling(orders: seq<Order>, i: nat, today: int)
    requires i < |orders| && orders[i].status == PENDING
    requires InWindow(orders[i], DayStart(today), DayEnd(today))
    ensures var before := Dashboard(orders, today);
      var after := Dashboard(orders[i := orders[i].(status := CANCELLED)], today);
      && after.totalOrders == before.totalOrders
      && after.pendingOrders + 1 == before.pendingOrders
      && after.cancelledOrders == before.cancelledOrders + 1
      && after.confirmedOrders == before.confirmedOrders && after.preparingOrders == before.preparingOrders
      && after.readyOrders == before.readyOrders && after.completedOrders == before.completedOrders
      && after.totalSales == before.totalSales - orders[i].totalPrice
  {
    var lo, hi := DayStart(today), DayEnd(today);
    var x := orders[i].(status := CANCELLED);
    ReplaceOrder(orders, i, x, lo, hi, PENDING);
    ReplaceOrder(orders, i, x, lo, hi, CONFIRMED);
    ReplaceOrder(orders, i, x, lo, hi, PREPARING);
    ReplaceOrder(orders, i, x, lo, hi, READY);
    ReplaceOrder(orders, i, x, lo, hi, COMPLETED);
    ReplaceOrder(orders, i, x, lo, hi, CANCELLED);
  }

  // ----- Order listing -----------------------------------------------------

  /** The WHERE clause of GET /store/orders: the status when a non-empty one
      is given, at or after 00:00:00 of the start day, at or before 23:59:59
      (microsecond 0) of the end day. */
  function AllOrdersFilter(statusFilter: Option<string>, startDate: DateParam, endDate: DateParam)
    : Order -> bool
  {
    (o: Order) =>
      && (Given(statusFilter) ==> o.status == statusFilter.value)
      && (startDate.On? ==> o.orderedAt >= DayStart(startDate.day))
      && (endDate.On? ==> o.orderedAt <= DayLastSecond(endDate.day))
  }

  /** GET /store/orders: every order of every customer, filtered, newest
      first, paged. The start date is parsed before the end date. */
  function GetAllOrders(orders: seq<Order>, statusFilter: Option<string>, startDate: DateParam,
                        endDate: DateParam, page: int, perPage: int): (r: Result<OrderList>)
    ensures !ValidPaging(page, perPage) ==> r == Err(Unprocessable)
    ensures ValidPaging(page, perPage) && startDate.Malformed? ==>
              r == Err(BadRequest("Invalid start_date format. Use YYYY-MM-DD"))
    ensures ValidPaging(page, perPage) && !startDate.Malformed? && endDate.Malformed? ==>
              r == Err(BadRequest("Invalid end_date format. Use YYYY-MM-DD"))
    ensures r.Ok? <==> ValidPaging(page, perPage) && !startDate.Malformed? && !endDate.Malformed?
    ensures r.Ok? ==>
      var matches := Filter(orders, AllOrdersFilter(statusFilter, startDate, endDate));
      && r.value.total == |matches|
      && |r.value.orders| <= perPage
      && r.value.orders == Page(SortDesc(matches, OrderedAt), page, perPage)
      && SortedDesc(r.value.orders, OrderedAt)
    ensures r.Ok? ==> forall o | o in r.value.orders ::
      && o in orders
      && (Given(statusFilter) ==> o.status == statusFilter.value)
      && (startDate.On? ==> o.orderedAt >= DayStart(startDate.day))
      && (endDate.On? ==> o.orderedAt <= DayLastSecond(endDate.day))
  {
    if !ValidPaging(page, perPage) then Err(Unprocessable)
    else if startDate.Malformed? then Err(BadRequest("Invalid start_date format. Use YYYY-MM-DD"))
    else if endDate.Malformed? then Err(BadRequest("Invalid end_date format. Use YYYY-MM-DD"))
    else
      var matches := Filter(orders, AllOrdersFilter(statusFilter, startDate, endDate));
      SortedPage(matches, OrderedAt, page, perPage);
      Ok(OrderList(Page(SortDesc(matches, OrderedAt), page, perPage), |matches|))
  }

  /** Nothing that matches is lost: every matching order is on some page. */
  lemma AllOrdersListsEveryMatch(orders: seq<Order>, statusFilter: Option<string>, startDate: DateParam,
                                 endDate: DateParam, perPage: int, o: Order)
    requires 1 <= perPage <= MAX_PER_PAGE
    requires !startDate.Malformed? && !endDate.Malformed?
    requires o in orders && AllOrdersFilter(statusFilter, startDate, endDate)(o)
    ensures exists page :: (page >= 1 &&
      o in GetAllOrders(orders, statusFilter, startDate, endDate, page, perPage).value.orders)
  {
    var matches := Filter(orders, AllOrdersFilter(statusFilter, startDate, endDate));
    var sorted := SortDesc(matches, OrderedAt);
    assert o in matches;
    assert o in multiset(sorted);
    PagesCover(sorted, perPage, o);
    var page :| page >= 1 && o in Page(sorted, page, perPage);
    assert GetAllOrders(orders, statusFilter, startDate, endDate, page, perPage).value.orders
        == Page(sorted, page, perPage);
  }

  /** An order at 23:59:59.5 on the end day is left out of the listing: the
      end bound is 23:59:59 with microsecond 0. */
  lemma AllOrdersEndDayCutoff(o: Order, day: int)
    requires o.orderedAt == DayStart(day) + (SECONDS_PER_DAY - 1) * MICROS_PER_SECOND + 500_000
    ensures !AllOrdersFilter(None, Omitted, On(day))(o)
  {
  }

  /** PUT /store/orders/{id}/status: any of the six statuses, from any
      current status; nothing else changes. */
  method UpdateOrderStatus(db: Db, orderId: int, req: OrderStatusUpdate) returns (r: Result<Order>)
    requires db.Valid()
    modifies db
    ensures db.Valid()
    ensures db.users == old(db.users) && db.stores == old(db.stores) && db.menus == old(db.menus)
    ensures db.nextUserId == old(db.nextUserId) && db.nextMenuId == old(db.nextMenuId)
    ensures db.nextOrderId == old(db.nextOrderId)
    ensures !ValidStatusUpdate(req) ==> r == Err(Unprocessable)
    ensures r.Err? ==> db.orders == old(db.orders)
    ensures ValidStatusUpdate(req) ==>
      var k := IndexWhere(old(db.orders), OrderWithId(orderId));
      && (k.None? ==> r == Err(NotFound("Order not found")))
      && (k.Some? ==>
            && db.orders == old(db.orders)[k.value := old(db.orders)[k.value].(status := req.status)]
            && r == Ok(db.orders[k.value]))
    ensures r.Ok? <==> ValidStatusUpdate(req) && orderId in OrderIds(old(db.orders))
  {
    if !ValidStatusUpdate(req) {
      return Err(Unprocessable);
    }
    var k := IndexWhere(db.orders, OrderWithId(orderId));
    if k.None? {
      assert orderId !in OrderIds(db.orders) by {
        forall o | o in db.orders ensures o.id != orderId {
          var j :| 0 <= j < |db.orders| && db.orders[j] == o;
          assert !OrderWithId(orderId)(db.orders[j]);
        }
      }
      return Err(NotFound("Order not found"));
    }
    var i := k.value;
    var updated := db.orders[i].(status := req.status);
    assert WellFormedOrder(updated, db.menus, db.users) by {
      assert db.orders[i] in db.orders;
    }
    assert db.orders[i] in db.orders;
    SetOrderKeepsIntegrity(db.users, db.menus, db.orders, db.nextUserId, db.nextMenuId, db.nextOrderId, i, updated);
    db.orders := db.orders[i := updated];
    r := Ok(updated);
  }

  // ----- Menu management ---------------------------------------------------

  /** The WHERE clause of the management listing: the requested availability,
      when one is requested. */
  function AvailabilityFilter(isAvailable: Option<bool>): Menu -> bool {
    (m: Menu) => isAvailable.Some? ==> m.isAvailable == isAvailable.value
  }

  /** GET /store/menus: every menu, or those with the requested availability,
      paged. Unlike the customer listing, unavailable menus are included. */
  function GetAllMenus(menus: seq<Menu>, isAvailable: Option<bool>, page: int, perPage: int)
    : (r: Result<MenuList>)
    ensures r.Err? <==> !ValidPaging(page, perPage)
    ensures r.Err? ==> r.error == Unprocessable
    ensures r.Ok? ==>
      var matches := Filter(menus, AvailabilityFilter(isAvailable));
      && r.value.total == |matches|
      && r.value.menus == Page(matches, page, perPage)
      && |r.value.menus| == (if Offset(page, perPage) < |matches| then Min(perPage, |matches| - Offset(page, perPage)) else 0)
      && (forall i :: 0 <= i < |r.value.menus| ==>
            Offset(page, perPage) + i < |matches| && r.value.menus[i] == matches[Offset(page, perPage) + i])
    ensures r.Ok? ==> forall m | m in r.value.menus ::
      m in menus && (isAvailable.Some? ==> m.isAvailable == isAvailable.value)
    ensures r.Ok? && isAvailable.None? ==> r.value.total == |menus|
  {
    if !ValidPaging(page, perPage) then Err(Unprocessable)
    else
      var matches := Filter(menus, AvailabilityFilter(isAvailable));
      assert isAvailable.None? ==> matches == menus by {
        if isAvailable.None? { FilterAll(menus, AvailabilityFilter(isAvailable)); }
      }
      Ok(MenuList(Page(matches, page, perPage), |matches|))
  }

  /** POST /store/menus: one new row; `is_available` defaults to true. */
  method CreateMenu(db: Db, req: MenuCreate) returns (r: Result<Menu>)
    requires db.Valid()
    modifies db
    ensures db.Valid()
    ensures db.users == old(db.users) && db.stores == old(db.stores) && db.orders == old(db.orders)
    ensures db.nextUserId == old(db.nextUserId) && db.nextOrderId == old(db.nextOrderId)
    ensures !ValidMenuCreate(req) ==> r == Err(Unprocessable) && db.menus == old(db.menus)
    ensures ValidMenuCreate(req) ==> r.Ok?
    ensures r.Ok? ==>
      var m := r.value;
      && db.menus == old(db.menus) + [m]
      && m.id !in MenuIds(old(db.menus))
      && m.name == req.name && m.price == req.price
      && m.description == req.description && m.imageUrl == req.imageUrl
      && m.isAvailable == AvailabilityOf(req)
  {
    if !ValidMenuCreate(req) {
      return Err(Unprocessable);
    }
    var m := Menu(db.nextMenuId, req.name, req.price, req.description, req.imageUrl, AvailabilityOf(req));
    AddMenuKeepsIntegrity(db.users, db.menus, db.orders, db.nextUserId, db.nextMenuId, db.nextOrderId, m);
    db.menus := db.menus + [m];
    db.nextMenuId := db.nextMenuId + 1;
    r := Ok(m);
  }

  /** `setattr` of every field present in the update; the id and the fields
      left out keep their values. */
  function ApplyMenuUpdate(m: Menu, u: MenuUpdate): (r: Menu)
    ensures r.id == m.id
    ensures u.name.Unset? ==> r.name == m.name
    ensures u.price.Unset? ==> r.price == m.price
    ensures u.description.Unset? ==> r.description == m.description
    ensures u.imageUrl.Unset? ==> r.imageUrl == m.imageUrl
    ensures u.isAvailable.Unset? ==> r.isAvailable == m.isAvailable
    ensures u.name.Set? ==> r.name == u.name.value
    ensures u.price.Set? ==> r.price == u.price.value
    ensures u.description.Set? ==> r.description == u.description.value
    ensures u.imageUrl.Set? ==> r.imageUrl == u.imageUrl.value
    ensures u.isAvailable.Set? ==> r.isAvailable == u.isAvailable.value
  {
    Menu(m.id, Patched(u.name, m.name), Patched(u.price, m.price), Patched(u.description, m.description),
         Patched(u.imageUrl, m.imageUrl), Patched(u.isAvailable, m.isAvailable))
  }

  /** Sending the same update twice has the effect of sending it once. */
  lemma MenuUpdateIdempotent(m: Menu, u: MenuUpdate)
    ensures ApplyMenuUpdate(ApplyMenuUpdate(m, u), u) == ApplyMenuUpdate(m, u)
  {
  }

  /** An empty update body changes nothing. */
  lemma EmptyMenuUpdateIsIdentity(m: Menu)
    ensures ApplyMenuUpdate(m, MenuUpdate(Unset, Unset, Unset, Unset, Unset)) == m
  {
  }

  /** A valid update of a valid menu leaves a valid menu. */
  lemma MenuUpdateKeepsMenuValid(m: Menu, u: MenuUpdate)
    requires ValidMenuName(m.name) && ValidPrice(m.price) && ValidMenuUpdate(u)
    ensures ValidMenuName(ApplyMenuUpdate(m, u).name) && ValidPrice(ApplyMenuUpdate(m, u).price)
  {
  }

  /** PUT /store/menus/{id}: a partial update of that one menu. */
  method UpdateMenu(db: Db, menuId: int, req: MenuUpdate) returns (r: Result<Menu>)
    requires db.Valid()
    modifies db
    ensures db.Valid()
    ensures db.users == old(db.users) && db.stores == old(db.stores) && db.orders == old(db.orders)
    ensures db.nextUserId == old(db.nextUserId) && db.nextMenuId == old(db.nextMenuId)
    ensures db.nextOrderId == old(db.nextOrderId)
    ensures !ValidMenuUpdate(req) ==> r == Err(Unprocessable)
    ensures r.Err? ==> db.menus == old(db.menus)
    ensures ValidMenuUpdate(req) ==>
      var k := IndexWhere(old(db.menus), HasId(menuId));
      && (k.None? ==> r == Err(NotFound("Menu not found")))
      && (k.Some? ==>
            && db.menus == old(db.menus)[k.value := ApplyMenuUpdate(old(db.menus)[k.value], req)]
            && r == Ok(db.menus[k.value]))
    ensures r.Ok? <==> ValidMenuUpdate(req) && menuId in MenuIds(old(db.menus))
  {
    if !ValidMenuUpdate(req) {
      return Err(Unprocessable);
    }
    var k := IndexWhere(db.menus, HasId(menuId));
    if k.None? {
      assert MenuOf(db.menus, menuId).None?;
      return Err(NotFound("Menu not found"));
    }
    var i := k.value;
    var updated := ApplyMenuUpdate(db.menus[i], req);
    assert db.menus[i] in db.menus;
    MenuUpdateKeepsMenuValid(db.menus[i], req);
    SetMenuKeepsIntegrity(db.users, db.menus, db.orders, db.nextUserId, db.nextMenuId, db.nextOrderId, i, updated);
    db.menus := db.menus[i := updated];
    r := Ok(updated);
  }

  /** DELETE /store/menus/{id}: a menu some order references is only made
      unavailable; any other menu is removed. Orders never change. */
  method DeleteMenu(db: Db, menuId: int) returns (r: Result<string>)
    requires db.Valid()
    modifies db
    ensures db.Valid()
    ensures db.users == old(db.users) && db.stores == old(db.stores) && db.orders == old(db.orders)
    ensures db.nextUserId == old(db.nextUserId) && db.nextMenuId == old(db.nextMenuId)
    ensures db.nextOrderId == old(db.nextOrderId)
    ensures var k := IndexWhere(old(db.menus), HasId(menuId));
      var referenced := IndexWhere(old(db.orders), ReferencesMenu(menuId)).Some?;
      && (k.None? ==> r == Err(NotFound("Menu not found")) && db.menus == old(db.menus))
      && (k.Some? && referenced ==>
            && db.menus == old(db.menus)[k.value := old(db.menus)[k.value].(isAvailable := false)]
            && r == Ok("Menu disabled due to existing orders"))
      && (k.Some? && !referenced ==>
            && db.menus == old(db.menus)[..k.value] + old(db.menus)[k.value + 1..]
            && r == Ok("Menu deleted successfully"))
    ensures r.Ok? <==> menuId in MenuIds(old(db.menus))
    ensures MenuIds(db.menus) <= MenuIds(old(db.menus))
  {
    var k := IndexWhere(db.menus, HasId(menuId));
    if k.None? {
      assert MenuOf(db.menus, menuId).None?;
      return Err(NotFound("Menu not found"));
    }
    var i := k.value;
    assert MenuOf(db.menus, menuId).Some?;
    var ref := IndexWhere(db.orders, ReferencesMenu(menuId));
    if ref.Some? {
      var disabled := db.menus[i].(isAvailable := false);
      assert db.menus[i] in db.menus;
      SetMenuKeepsIntegrity(db.users, db.menus, db.orders, db.nextUserId, db.nextMenuId, db.nextOrderId, i, disabled);
      db.menus := db.menus[i := disabled];
      r := Ok("Menu disabled due to existing orders");
    } else {
      var rest := db.menus[..i] + db.menus[i + 1..];
      forall o | o in db.orders ensures o.menuId != db.menus[i].id {
        var j :| 0 <= j < |db.orders| && db.orders[j] == o;
        assert !ReferencesMenu(menuId)(db.orders[j]);
      }
      RemoveMenuKeepsIntegrity(db.users, db.menus, db.orders, db.nextUserId, db.nextMenuId, db.nextOrderId, i);
      db.menus := rest;
      r := Ok("Menu deleted successfully");
    }
  }

  /** After a soft delete, the customer-facing lookup no longer finds the menu
      (and so no new order can be placed for it). */
  lemma DisabledMenuIsHidden(menus: seq<Menu>, k: nat)
    requires k < |menus| && UniqueMenuIds(menus)
    ensures var s := menus[k := menus[k].(isAvailable := false)];
      IndexWhere(s, AvailableWithId(menus[k].id)).None?
  {
    var s := menus[k := menus[k].(isAvailable := false)];
    forall j | 0 <= j < |s| ensures !AvailableWithId(menus[k].id)(s[j]) {
      if j != k {
        assert menus[j].id != menus[k].id;
      }
    }
  }

  // ----- Store profile -----------------------------------------------------

  /** The body of PUT /store/profile: every column of `stores` except the id,
      each optional. */
  datatype StoreUpdate = StoreUpdate(
    name: Patch<string>, email: Patch<Option<string>>, phone: Patch<Option<string>>,
    address: Patch<Option<string>>, openingTime: Patch<int>, closingTime: Patch<int>,
    description: Patch<Option<string>>, imageUrl: Patch<Option<string>>, isActive: Patch<bool>)

  function ApplyStoreUpdate(s: Store, u: StoreUpdate): (r: Store)
    ensures r.id == s.id
    ensures u.name.Unset? ==> r.name == s.name
    ensures u.email.Unset? ==> r.email == s.email
    ensures u.phone.Unset? ==> r.phone == s.phone
    ensures u.address.Unset? ==> r.address == s.address
    ensures u.openingTime.Unset? ==> r.openingTime == s.openingTime
    ensures u.closingTime.Unset? ==> r.closingTime == s.closingTime
    ensures u.description.Unset? ==> r.description == s.description
    ensures u.imageUrl.Unset? ==> r.imageUrl == s.imageUrl
    ensures u.isActive.Unset? ==> r.isActive == s.isActive
    ensures u.name.Set? ==> r.name == u.name.value
    ensures u.email.Set? ==> r.email == u.email.value
    ensures u.phone.Set? ==> r.phone == u.phone.value
    ensures u.address.Set? ==> r.address == u.address.value
    ensures u.openingTime.Set? ==> r.openingTime == u.openingTime.value
    ensures u.closingTime.Set? ==> r.closingTime == u.closingTime.value
    ensures u.description.Set? ==> r.description == u.description.value
    ensures u.imageUrl.Set? ==> r.imageUrl == u.imageUrl.value
    ensures u.isActive.Set? ==> r.isActive == u.isActive.value
  {
    Store(s.id, Patched(u.name, s.name), Patched(u.email, s.email), Patched(u.phone, s.phone),
          Patched(u.address, s.address), Patched(u.openingTime, s.openingTime),
          Patched(u.closingTime, s.closingTime), Patched(u.description, s.description),
          Patched(u.imageUrl, s.imageUrl), Patched(u.isActive, s.isActive))
  }

  /** Sending the same profile update twice has the effect of sending it
      once. */
  lemma StoreUpdateIdempotent(s: Store, u: StoreUpdate)
    ensures ApplyStoreUpdate(ApplyStoreUpdate(s, u), u) == ApplyStoreUpdate(s, u)
  {
  }

  /** An empty profile update changes nothing. */
  lemma EmptyStoreUpdateIsIdentity(s: Store)
    ensures ApplyStoreUpdate(s, StoreUpdate(Unset, Unset, Unset, Unset, Unset, Unset, Unset, Unset, Unset)) == s
  {
  }

  /** `if not current_user.store_id`: no store, or store id 0. */
  predicate HasStore(u: User) { u.storeId.Some? && u.storeId.value != 0 }

  /** PUT /store/profile: a partial update of the caller's own store. */
  method UpdateStoreProfile(db: Db, caller: User, req: StoreUpdate) returns (r: Result<Store>)
    requires db.Valid()
    modifies db
    ensures db.Valid()
    ensures db.users == old(db.users) && db.menus == old(db.menus) && db.orders == old(db.orders)
    ensures db.nextUserId == old(db.nextUserId) && db.nextMenuId == old(db.nextMenuId)
    ensures db.nextOrderId == old(db.nextOrderId)
    ensures !HasStore(caller) ==>
      r == Err(NotFound("Store not found. User is not associated with any store."))
    ensures HasStore(caller) ==>
      var k := IndexWhere(old(db.stores), StoreWithId(caller.storeId.value));
      && (k.None? ==> r == Err(NotFound("Store not found")))
      && (k.Some? ==>
            && db.stores == old(db.stores)[k.value := ApplyStoreUpdate(old(db.stores)[k.value], req)]
            && r == Ok(db.stores[k.value]))
    ensures r.Err? ==> db.stores == old(db.stores)
    ensures r.Ok? ==> r.value.id == caller.storeId.value
  {
    if !HasStore(caller) {
      return Err(NotFound("Store not found. User is not associated with any store."));
    }
    var k := IndexWhere(db.stores, StoreWithId(caller.storeId.value));
    if k.None? {
      return Err(NotFound("Store not found"));
    }
    var updated := ApplyStoreUpdate(db.stores[k.value], req);
    db.stores := db.stores[k.value := updated];
    r := Ok(updated);
  }
}
