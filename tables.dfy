/** The rows of the tables the routers read and write (users, stores, menus,
    orders), lookups over them, and the in-memory database that replaces the
    ORM session: one object whose fields are the tables, with the integrity
    rules the handlers keep as its invariant. */
module Tables {
  import opened Common
  import opened Schemas

  /** A row of `users`. `role` is the coarse account type, "customer" or
      "store"; `storeId` is the store a store account belongs to. */
  datatype User = User(
    id: int, username: string, email: string, hashedPassword: string,
    fullName: string, role: string, isActive: bool, storeId: Option<int>)

  /** A row of `stores`; opening and closing times are microseconds since
      midnight. */
  datatype Store = Store(
    id: int, name: string, email: Option<string>, phone: Option<string>,
    address: Option<string>, openingTime: int, closingTime: int,
    description: Option<string>, imageUrl: Option<string>, isActive: bool)

  /** A row of `menus`; `price` is in the smallest currency unit. */
  datatype Menu = Menu(
    id: int, name: string, price: int, description: Option<string>,
    imageUrl: Option<string>, isAvailable: bool)

  /** A row of `orders`. `totalPrice` is fixed when the order is placed;
      `orderedAt` is the insertion time in microseconds. */
  datatype Order = Order(
    id: int, userId: int, menuId: int, quantity: int, totalPrice: int,
    status: string, deliveryTime: Option<int>, notes: Option<string>,
    orderedAt: int)

  function OrderedAt(o: Order): int { o.orderedAt }

  /** A page of a listing and the number of matching rows before paging. */
  datatype MenuList = MenuList(menus: seq<Menu>, total: nat)
  datatype OrderList = OrderList(orders: seq<Order>, total: nat)

  function MenuIds(menus: seq<Menu>): set<int> { set m | m in menus :: m.id }
  function OrderIds(orders: seq<Order>): set<int> { set o | o in orders :: o.id }
  function UserIds(users: seq<User>): set<int> { set u | u in users :: u.id }

  // ----- Lookups: `db.query(T).filter(...).first()` -----------------------

  function HasId(id: int): Menu -> bool { (m: Menu) => m.id == id }
  function AvailableWithId(id: int): Menu -> bool { (m: Menu) => m.id == id && m.isAvailable }
  function OrderWithId(id: int): Order -> bool { (o: Order) => o.id == id }
  function OwnedOrder(userId: int, id: int): Order -> bool { (o: Order) => o.id == id && o.userId == userId }
  function ReferencesMenu(menuId: int): Order -> bool { (o: Order) => o.menuId == menuId }
  function WithUsername(name: string): User -> bool { (u: User) => u.username == name }
  function WithEmail(email: string): User -> bool { (u: User) => u.email == email }
  function StoreWithId(id: int): Store -> bool { (s: Store) => s.id == id }

  /** The menu a menu id joins to (the first row with that id). */
  function MenuOf(menus: seq<Menu>, id: int): (r: Option<Menu>)
    ensures r.Some? <==> id in MenuIds(menus)
    ensures r.Some? ==> r.value in menus && r.value.id == id
  {
    match IndexWhere(menus, HasId(id))
    case Some(i) => Some(menus[i])
    case None =>
      assert forall m | m in menus :: m.id != id by {
        forall m | m in menus ensures m.id != id {
          var j :| 0 <= j < |menus| && menus[j] == m;
          assert !HasId(id)(menus[j]);
        }
      }
      None
  }

  // ----- Integrity rules ---------------------------------------------------

  ghost predicate UniqueMenuIds(menus: seq<Menu>) {
    forall i, j :: 0 <= i < j < |menus| ==> menus[i].id != menus[j].id
  }

  ghost predicate UniqueOrderIds(orders: seq<Order>) {
    forall i, j :: 0 <= i < j < |orders| ==> orders[i].id != orders[j].id
  }

  /** The `unique=True` columns of `users`: id, username and email. */
  ghost predicate UniqueUsers(users: seq<User>) {
    forall i, j :: 0 <= i < j < |users| ==>
      users[i].id != users[j].id &&
      users[i].username != users[j].username &&
      users[i].email != users[j].email
  }

  /** What every stored order satisfies: its foreign keys resolve, its status
      is one of the six, and the request constraints it was created under
      still hold of it. */
  ghost predicate WellFormedOrder(o: Order, menus: seq<Menu>, users: seq<User>) {
    && o.menuId in MenuIds(menus)
    && o.userId in UserIds(users)
    && KnownStatus(o.status)
    && 1 <= o.quantity <= MAX_QUANTITY
    && o.totalPrice >= o.quantity
    && (o.notes.Some? ==> |o.notes.value| <= MAX_NOTES_LENGTH)
  }

  /** Rewriting a menu row in place without touching its id keeps the set of
      menu ids and their uniqueness. */
  lemma ReplaceMenuKeepsIds(menus: seq<Menu>, k: nat, x: Menu)
    requires k < |menus| && x.id == menus[k].id
    ensures MenuIds(menus[k := x]) == MenuIds(menus)
    ensures UniqueMenuIds(menus) ==> UniqueMenuIds(menus[k := x])
  {
    var s := menus[k := x];
    forall id | id in MenuIds(menus) ensures id in MenuIds(s) {
      var m :| m in menus && m.id == id;
      var j :| 0 <= j < |menus| && menus[j] == m;
      assert s[j].id == id;
    }
    forall id | id in MenuIds(s) ensures id in MenuIds(menus) {
      var m :| m in s && m.id == id;
      var j :| 0 <= j < |s| && s[j] == m;
      assert menus[j].id == id;
    }
  }

  /** Removing row k of a table with unique ids removes exactly its id. */
  lemma RemoveMenuDropsOneId(menus: seq<Menu>, k: nat)
    requires k < |menus| && UniqueMenuIds(menus)
    ensures MenuIds(menus[..k] + menus[k + 1..]) == MenuIds(menus) - {menus[k].id}
    ensures UniqueMenuIds(menus[..k] + menus[k + 1..])
  {
    var s := menus[..k] + menus[k + 1..];
    assert |s| == |menus| - 1;
    forall j | 0 <= j < |s| ensures s[j] == menus[if j < k then j else j + 1] {
      if j < k {
        assert s[j] == menus[..k][j];
      } else {
        assert s[j] == menus[k + 1..][j - k];
      }
    }
    forall i, j | 0 <= i < j < |s| ensures s[i].id != s[j].id {
      var i', j' := if i < k then i else i + 1, if j < k then j else j + 1;
      assert s[i] == menus[i'] && s[j] == menus[j'] && i' < j';
    }
    forall id | id in MenuIds(menus) - {menus[k].id} ensures id in MenuIds(s) {
      var m :| m in menus && m.id == id;
      var j :| 0 <= j < |menus| && menus[j] == m;
      assert s[if j < k then j else j - 1] == m;
    }
    forall id | id in MenuIds(s) ensures id in MenuIds(menus) - {menus[k].id} {
      var m :| m in s && m.id == id;
      var j :| 0 <= j < |s| && s[j] == m;
      var j' := if j < k then j else j + 1;
      assert menus[j'] == m && j' != k;
    }
  }

  /** Orders stay well formed when the menu table changes but still holds
      every menu id they reference. */
  lemma OrdersFollowMenus(orders: seq<Order>, menus: seq<Menu>, menus': seq<Menu>, users: seq<User>)
    requires forall o | o in orders :: WellFormedOrder(o, menus, users)
    requires forall o | o in orders :: o.menuId in MenuIds(menus')
    ensures forall o | o in orders :: WellFormedOrder(o, menus', users)
  {
  }

  /** The integrity rules of the whole database: unique keys, ids below the
      next autoincrement value, valid menus and well-formed orders. */
  ghost predicate Integrity(users: seq<User>, menus: seq<Menu>, orders: seq<Order>,
                            nextUserId: int, nextMenuId: int, nextOrderId: int)
  {
    && UniqueUsers(users)
    && UniqueMenuIds(menus)
    && UniqueOrderIds(orders)
    && (forall u | u in users :: u.id < nextUserId)
    && (forall m | m in menus :: m.id < nextMenuId)
    && (forall o | o in orders :: o.id < nextOrderId)
    && (forall m | m in menus :: ValidMenuName(m.name) && ValidPrice(m.price))
    && (forall o | o in orders :: WellFormedOrder(o, menus, users))
  }

  /** Registering a user under a fresh id, username and e-mail keeps the
      integrity rules. */
  lemma AddUserKeepsIntegrity(users: seq<User>, menus: seq<Menu>, orders: seq<Order>,
                              nu: int, nm: int, no: int, u: User)
    requires Integrity(users, menus, orders, nu, nm, no)
    requires u.id == nu
    requires forall v | v in users :: v.username != u.username && v.email != u.email
    ensures UserIds(users + [u]) == UserIds(users) + {u.id}
    ensures Integrity(users + [u], menus, orders, nu + 1, nm, no)
  {
    var s := users + [u];
    assert forall x | x in s :: x in users || x == u;
    forall i, j | 0 <= i < j < |s|
      ensures s[i].id != s[j].id && s[i].username != s[j].username && s[i].email != s[j].email
    {
      if j == |users| {
        assert s[i] in users && s[j] == u;
      } else {
        assert s[i] == users[i] && s[j] == users[j];
      }
    }
  }

  /** Adding a valid menu under a fresh id keeps the integrity rules. */
  lemma AddMenuKeepsIntegrity(users: seq<User>, menus: seq<Menu>, orders: seq<Order>,
                              nu: int, nm: int, no: int, m: Menu)
    requires Integrity(users, menus, orders, nu, nm, no)
    requires m.id == nm && ValidMenuName(m.name) && ValidPrice(m.price)
    ensures MenuIds(menus + [m]) == MenuIds(menus) + {m.id}
    ensures Integrity(users, menus + [m], orders, nu, nm + 1, no)
  {
    var s := menus + [m];
    assert forall x | x in s :: x in menus || x == m;
    forall i, j | 0 <= i < j < |s| ensures s[i].id != s[j].id {
      if j == |menus| {
        assert s[i] in menus;
      } else {
        assert s[i] == menus[i] && s[j] == menus[j];
      }
    }
  }

  /** Adding a well-formed order under a fresh id keeps the integrity rules. */
  lemma AddOrderKeepsIntegrity(users: seq<User>, menus: seq<Menu>, orders: seq<Order>,
                               nu: int, nm: int, no: int, o: Order)
    requires Integrity(users, menus, orders, nu, nm, no)
    requires o.id == no && WellFormedOrder(o, menus, users)
    ensures o.id !in OrderIds(orders)
    ensures Integrity(users, menus, orders + [o], nu, nm, no + 1)
  {
    var s := orders + [o];
    assert forall x | x in s :: x in orders || x == o;
    forall i, j | 0 <= i < j < |s| ensures s[i].id != s[j].id {
      if j == |orders| {
        assert s[i] in orders;
      } else {
        assert s[i] == orders[i] && s[j] == orders[j];
      }
    }
  }

  /** Rewriting order k in place, keeping its id and well-formedness, keeps
      the integrity rules. */
  lemma SetOrderKeepsIntegrity(users: seq<User>, menus: seq<Menu>, orders: seq<Order>,
                               nu: int, nm: int, no: int, k: nat, o: Order)
    requires Integrity(users, menus, orders, nu, nm, no)
    requires k < |orders| && o.id == orders[k].id && WellFormedOrder(o, menus, users)
    ensures Integrity(users, menus, orders[k := o], nu, nm, no)
  {
    assert orders[k] in orders;
    var s := orders[k := o];
    assert forall x | x in s :: x in orders || x == o;
    forall i, j | 0 <= i < j < |s| ensures s[i].id != s[j].id {
      assert s[i].id == orders[i].id && s[j].id == orders[j].id;
    }
  }

  /** Rewriting menu k in place, keeping its id and a valid name and price,
      keeps the integrity rules. */
  lemma SetMenuKeepsIntegrity(users: seq<User>, menus: seq<Menu>, orders: seq<Order>,
                              nu: int, nm: int, no: int, k: nat, m: Menu)
    requires Integrity(users, menus, orders, nu, nm, no)
    requires k < |menus| && m.id == menus[k].id && ValidMenuName(m.name) && ValidPrice(m.price)
    ensures MenuIds(menus[k := m]) == MenuIds(menus)
    ensures Integrity(users, menus[k := m], orders, nu, nm, no)
  {
    assert menus[k] in menus;
    ReplaceMenuKeepsIds(menus, k, m);
    var s := menus[k := m];
    assert forall x | x in s :: x in menus || x == m;
    OrdersFollowMenus(orders, menus, s, users);
  }

  /** Removing a menu that no order references keeps the integrity rules. */
  lemma RemoveMenuKeepsIntegrity(users: seq<User>, menus: seq<Menu>, orders: seq<Order>,
                                 nu: int, nm: int, no: int, k: nat)
    requires Integrity(users, menus, orders, nu, nm, no)
    requires k < |menus| && forall o | o in orders :: o.menuId != menus[k].id
    ensures MenuIds(menus[..k] + menus[k + 1..]) == MenuIds(menus) - {menus[k].id}
    ensures Integrity(users, menus[..k] + menus[k + 1..], orders, nu, nm, no)
  {
    var s := menus[..k] + menus[k + 1..];
    RemoveMenuDropsOneId(menus, k);
    assert forall x | x in s :: x in menus by {
      forall x | x in s ensures x in menus {
        var j :| 0 <= j < |s| && s[j] == x;
        assert x == menus[if j < k then j else j + 1];
      }
    }
    OrdersFollowMenus(orders, menus, s, users);
  }

  /** The database behind the handlers. Ids come from per-table counters, as
      the autoincrement primary keys do. */
  class Db {
    var users: seq<User>
    var stores: seq<Store>
    var menus: seq<Menu>
    var orders: seq<Order>
    var nextUserId: int
    var nextMenuId: int
    var nextOrderId: int

    ghost predicate Valid()
      reads this
    {
      Integrity(users, menus, orders, nextUserId, nextMenuId, nextOrderId)
    }

    constructor ()
      ensures Valid()
      ensures users == [] && stores == [] && menus == [] && orders == []
    {
      users, stores, menus, orders := [], [], [], [];
      nextUserId, nextMenuId, nextOrderId := 1, 1, 1;
    }
  }
}
