# Bento ordering backend — a Dafny model of the order and menu rules

The system is the backend of a boxed-lunch ordering service. Customers browse
the menu, place orders and cancel them while they are still pending; store
staff follow every order through its statuses, manage the menu, read a
dashboard of today's orders and a sales report over a range of days; anyone
can register an account and log in.

This project models the rules inside those request handlers once the
database is replaced by in-memory tables:

- `Common` (common.dfy): optional values, the HTTP errors with their messages,
  partial-update fields, timestamp arithmetic, and the query building blocks:
  filter, first match, ORDER BY … DESC, OFFSET/LIMIT paging and substring
  search.
- `Schemas` (schemas.dfy): the request bodies and their declared field
  constraints as validity predicates. A request that fails one is answered
  with 422 (`Unprocessable`) before the handler runs.
- `Tables` (tables.dfy): the rows of `users`, `stores`, `menus` and `orders`,
  and the class `Db` whose fields are the tables. `Db.Valid` is the integrity
  every handler keeps: unique ids, usernames and e-mails; valid menu names
  and prices; every order's menu and user exist; its status is one of the
  six; its quantity, total and notes obey the order constraints.
- `Aggregates` (aggregates.dfy): the COUNT and SUM folds over a time window
  of the orders table, and how they behave when a window is split, a row is
  appended or a row's status changes.
- `CustomerRouter` (customer.dfy), `StoreRouter` (store.dfy), `SalesReports`
  (sales_report.dfy) and `AuthRouter` (auth.dfy): the handlers. Read-only
  handlers are functions of the tables. Handlers that write are methods on a
  `Db`, and their contracts state the whole new state. The sales report's
  day-by-day loop is a method with a `while` loop, proved against the
  function `DailyReports`.

Time is an integer number of microseconds and a calendar day `d` starts at
`d * 86_400_000_000`. Two end-of-day bounds appear in the source and both are
kept as written:

- `datetime.max.time()` is 23:59:59.999999. The dashboard and the per-day
  figures of the sales report use it.
- `replace(hour=23, minute=59, second=59)` is 23:59:59.000000. The order
  listing and the range of the sales report use it.

As a consequence, an order placed in the last second of the report's end day
counts in that day's sales, but not in that day's order count and not in the
report's totals. `SalesReports.DailyTotals` states the exact relation, and
`SalesReports.LastSecondGap` shows one such order.

Two behaviours of the code differ from what its comments suggest. The
customer menu listing hides unavailable menus only when `is_available` is
left out; a request for `is_available=false` lists them
(`CustomerRouter.UnavailableMenusOnRequest`). The store-side status update
accepts any of the six statuses from any current status.

## Model

| member | source | states |
|---|---|---|
| Common.Filter | routers/customer.py:44-57 | a WHERE clause: every result row is a table row satisfying the condition, and every table row satisfying it is in the result |
| Common.FilterCount | routers/customer.py:44-60 | a WHERE clause keeps each matching row exactly as many times as the table holds it and drops every other row, so COUNT over it counts the matching rows |
| Common.Given | routers/customer.py:56 | `if value:` on an optional string parameter: true only when the value is present and not empty |
| Common.ContainsText | routers/customer.py:57 | `name.contains(search)`: the name holds the search text as a contiguous substring |
| Common.ContainsTextAt | routers/customer.py:57 | `contains` holds exactly when the search text occurs at some position of the name |
| Common.DayStart | routers/store.py:41 | `datetime.combine(day, datetime.min.time())`: 00:00:00.000000 of the day |
| Common.DayEnd | routers/store.py:42 | `datetime.combine(day, datetime.max.time())`: 23:59:59.999999 of the day |
| Common.DayLastSecond | routers/store.py:339 | `replace(hour=23, minute=59, second=59)` on a parsed date: 23:59:59.000000 of the day |
| Common.DayBounds | routers/store.py:41-42 | a day starts before its 23:59:59 mark, which is 999999 microseconds before its last microsecond, and the next day starts right after that |
| Common.IndexWhere | routers/customer.py:78-81 | `.filter(...).first()`: the index of the first matching row, and "none" exactly when no row matches |
| Common.Page | routers/customer.py:63-64 | OFFSET (page-1)*per_page LIMIT per_page: at most per_page rows, the i-th being row offset+i of the full result; empty past the end |
| Common.PageCovers | routers/customer.py:63-64 | row k of a result is row k mod per_page of page k div per_page + 1 |
| Common.PagesCover | routers/customer.py:63-64 | every row of a result is on some page |
| Common.SortDesc | routers/customer.py:163 | ORDER BY key DESC: the result is ordered by the key, is a permutation of the input, and keeps the sum of the key |
| Common.SortDescSameRows | routers/store.py:413 | sorting neither adds nor drops a row |
| Common.PermutationKeepsDistinctIds | routers/store.py:402-413 | reordering rows (same multiset) keeps their ids pairwise distinct |
| Common.SortedPage | routers/customer.py:163-170 | a page of a sorted result is sorted and holds only input rows |
| Common.LaterPagesRankLower | routers/store.py:132-139 | every row on a page ranks at least as high as every row on a later page |
| Common.FilterAll | routers/store.py:203-207 | a filter every row passes returns the whole table |
| Schemas.AvailabilityOf | schemas.py:128 | `is_available` defaults to true when left out of a new menu |
| Schemas.ValidOrderTotalBounds | routers/customer.py:119 | for a valid order (quantity 1..10) of a validly priced menu (price ≥ 1), the total is between the price and ten times the price, and at least the quantity |
| Schemas.KnownStatus | schemas.py:178 | the status pattern: one of pending, confirmed, preparing, ready, completed, cancelled |
| Schemas.ValidUserCreate | schemas.py:36-42 | username 3..50 characters, password at least 6, full name 1..100, role "customer" or "store" |
| Schemas.ValidMenuName | schemas.py:124 | a menu name is 1..255 characters |
| Schemas.ValidPrice | schemas.py:125 | a menu price is at least 1 |
| Schemas.ValidMenuCreate | schemas.py:122-133 | a new menu's name and price obey those two constraints |
| Schemas.ValidMenuUpdate | schemas.py:136-142 | a name or price that is sent obeys the same constraints; the other fields are free |
| Schemas.ValidOrderCreate | schemas.py:163-173 | menu id at least 1, quantity 1..10, notes at most 500 characters when given |
| Schemas.ValidStatusUpdate | schemas.py:176-178 | the requested status is one of the six |
| Schemas.ValidPaging | routers/customer.py:29-30 | page at least 1, per_page 1..100 |
| Tables.MenuOf | routers/store.py:380-390 | the join from an order to its menu finds a row exactly when the menu id exists, and that row has the id |
| Tables.ReplaceMenuKeepsIds | routers/store.py:260-264 | rewriting a menu in place without changing its id keeps the menu ids and their uniqueness |
| Tables.RemoveMenuDropsOneId | routers/store.py:300-302 | removing a menu from a table with unique ids removes exactly its id |
| Tables.AddUserKeepsIntegrity | routers/auth.py:54-67 | a new user with a fresh id, username and e-mail keeps every integrity rule |
| Tables.AddMenuKeepsIntegrity | routers/store.py:230-234 | a valid new menu under a fresh id keeps every integrity rule |
| Tables.AddOrderKeepsIntegrity | routers/customer.py:122-133 | a well-formed new order under a fresh id keeps every integrity rule |
| Tables.SetOrderKeepsIntegrity | routers/store.py:177 | rewriting an order in place with the same id, still well formed, keeps every integrity rule |
| Tables.SetMenuKeepsIntegrity | routers/store.py:260-264 | rewriting a menu in place with the same id and a valid name and price keeps the menu ids and every integrity rule |
| Tables.RemoveMenuKeepsIntegrity | routers/store.py:298-302 | removing a menu no order references drops only its id and keeps every integrity rule |
| Aggregates.SplitWindow | routers/store.py:360-377 | splitting a time window splits every count and sum over it |
| Aggregates.CountIn | routers/store.py:45-53 | COUNT of the orders placed inside the window |
| Aggregates.CountStatusIn | routers/store.py:54-59 | COUNT of the window's orders with one status |
| Aggregates.CountLiveIn | routers/store.py:347-371 | COUNT of the window's orders that are not cancelled |
| Aggregates.SalesLiveIn | routers/store.py:61-68 | SUM(total_price) of the window's non-cancelled orders, 0 over no rows |
| Aggregates.EmptyWindow | routers/store.py:347-353 | an empty window counts and sums to 0 |
| Aggregates.StatusCountsPartition | routers/store.py:52-59 | when every status is one of the six, the per-status counts add up to the count |
| Aggregates.LiveIsAllButCancelled | routers/store.py:62-68 | the non-cancelled count is the count minus the cancelled count |
| Aggregates.NoLiveOrdersNoSales | routers/store.py:62-68 | no non-cancelled order means the `or 0` sum of 0 |
| Aggregates.AppendOrder | routers/customer.py:131-133 | appending one order adds exactly its contribution to each count and sum |
| Aggregates.ReplaceOrder | routers/store.py:177 | changing one order swaps its contribution for the new row's in each count and sum |
| Aggregates.PartCountsBounded | routers/store.py:52-59 | a per-status count and the non-cancelled count never exceed the count |
| Aggregates.SalesNonNegative | routers/store.py:62-68 | sales are never negative when no stored total is |
| CustomerRouter.GetMenus | routers/customer.py:23-66 | 422 exactly for bad paging; total is the number of matches; the page is exactly the slice of the matches at the offset, min(per_page, matches − offset) rows long and empty past the end; every row matches the filters; with availability left out only available menus; with a non-empty search the name contains it |
| CustomerRouter.MenuMatches | routers/customer.py:44-57 | the customer filter: the requested availability (available when left out), the price bounds when given, the search text when given and non-empty |
| CustomerRouter.MenusListsEveryMatch | routers/customer.py:44-64 | every matching menu is on some page |
| CustomerRouter.UnavailableMenusOnRequest | routers/customer.py:44-49 | a request for unavailable menus does list them |
| CustomerRouter.GetMenu | routers/customer.py:69-89 | a menu is found exactly when an available menu has that id; otherwise 404 "Menu not found" |
| CustomerRouter.CreateOrder | routers/customer.py:92-138 | 422 for an invalid body; 404 "Menu not found or not available" when no available menu has the id; else exactly one order is appended with the caller, menu, quantity, delivery time and notes of the request, total = price × quantity, status "pending"; nothing else changes; the integrity invariant holds after |
| CustomerRouter.GetMyOrders | routers/customer.py:141-176 | only the caller's orders (with the status when one is given), newest first, total before paging, page at the offset |
| CustomerRouter.MyOrdersListsEveryOrder | routers/customer.py:156-170 | every order of the caller that passes the status filter is on some page |
| CustomerRouter.GetMyOrder | routers/customer.py:179-202 | found exactly when the caller owns an order with that id; another customer's order is a 404 like a missing one |
| CustomerRouter.CancelOrder | routers/customer.py:205-240 | 404 when the caller has no such order; 400 when it is not pending; else only that order's status becomes "cancelled"; succeeds exactly for the caller's pending order |
| StoreRouter.Dashboard | routers/store.py:30-79 | each per-status count is at most the total; no order today means no sales |
| StoreRouter.DashboardCountsPartition | routers/store.py:52-59 | with every status one of the six, the six counts add up to the total |
| StoreRouter.DashboardSalesNonNegative | routers/store.py:62-68 | the sales figure is not negative |
| StoreRouter.DashboardIgnoresOtherDays | routers/store.py:40-50 | an order outside today's window leaves the dashboard unchanged |
| StoreRouter.DashboardAfterPlacing | routers/store.py:40-68 | a new pending order today adds one to the total and to pending, and its total to the sales |
| StoreRouter.DashboardAfterCancelling | routers/store.py:40-68 | cancelling today's pending order moves it from pending to cancelled, keeps the total and removes its amount from the sales |
| StoreRouter.AllOrdersFilter | routers/store.py:105-124 | the order listing's WHERE clause: the status when a non-empty one is given, at or after 00:00:00 of the start day, at or before 23:59:59 of the end day |
| StoreRouter.GetAllOrders | routers/store.py:84-146 | 422 for bad paging; 400 with the start-date message for a bad start date, checked before the end date; every listed order passes the status filter, is at or after 00:00:00 of the start day and at or before 23:59:59 of the end day; newest first; total before paging |
| StoreRouter.AllOrdersListsEveryMatch | routers/store.py:106-139 | every matching order is on some page |
| StoreRouter.AllOrdersEndDayCutoff | routers/store.py:121-124 | an order at 23:59:59.5 on the end day is not listed |
| StoreRouter.UpdateOrderStatus | routers/store.py:149-185 | 422 for a status outside the six; 404 "Order not found"; else that order gets the requested status whatever its current one, and nothing else changes |
| StoreRouter.GetAllMenus | routers/store.py:190-216 | 422 exactly for bad paging; every menu or those with the requested availability; total before paging; the page is exactly the slice at the offset, min(per_page, matches − offset) rows long and empty past the end |
| StoreRouter.CreateMenu | routers/store.py:219-236 | 422 for an invalid body; else one menu is appended with the request's fields, a fresh id and availability defaulting to true |
| StoreRouter.ApplyMenuUpdate | routers/store.py:260-262 | the fields sent take the sent values; the id and the fields left out keep theirs |
| StoreRouter.MenuUpdateIdempotent | routers/store.py:260-262 | sending the same update twice equals sending it once |
| StoreRouter.EmptyMenuUpdateIsIdentity | routers/store.py:260-262 | an empty update changes nothing |
| StoreRouter.MenuUpdateKeepsMenuValid | schemas.py:136-142 | a valid update of a valid menu leaves a valid name and price |
| StoreRouter.UpdateMenu | routers/store.py:239-267 | 422 for an invalid body; 404 "Menu not found"; else only that menu changes, by the partial update |
| StoreRouter.DeleteMenu | routers/store.py:270-302 | 404 "Menu not found"; a menu some order references is kept and made unavailable; any other menu is removed; orders never change; the integrity invariant holds after |
| StoreRouter.DisabledMenuIsHidden | routers/customer.py:107-116 | after a soft delete no available menu has that id, so customers can no longer see or order it |
| StoreRouter.ApplyStoreUpdate | routers/store.py:499-501 | the fields sent take the sent values; the id and the fields left out keep theirs |
| StoreRouter.StoreUpdateIdempotent | routers/store.py:499-501 | sending the same profile update twice equals sending it once |
| StoreRouter.EmptyStoreUpdateIsIdentity | routers/store.py:499-501 | an empty profile update changes nothing |
| StoreRouter.HasStore | routers/store.py:485 | `if not current_user.store_id`: the caller has a store id and it is not 0 |
| StoreRouter.UpdateStoreProfile | routers/store.py:474-506 | 404 with the "not associated" message when the caller has no store id (or 0); 404 "Store not found" when the store is missing; else only the caller's store changes, by the partial update |
| SalesReports.DefaultLookback | routers/store.py:325-331 | an omitted start date lies 7 days back for "daily", 30 for "weekly" and 90 for any other period |
| SalesReports.DayReport | routers/store.py:360-397 | one day's entry: the non-cancelled orders of the day inside the report range, the whole day's non-cancelled sales, the most ordered menu name |
| SalesReports.PopularMenu | routers/store.py:380-396 | the most ordered menu name of a day over the joined non-cancelled orders, or none |
| SalesReports.Heaviest | routers/store.py:390 | ORDER BY total DESC … first(): the chosen name is one of the candidates and weighs at least as much as every other |
| SalesReports.JoinedNamesOfJoinedRows | routers/store.py:380-389 | every name in the GROUP BY over menu names is the name of a joined non-cancelled order of the window |
| SalesReports.JoinedRowsAreNamed | routers/store.py:380-389 | the name of every joined non-cancelled order of the window is in the GROUP BY |
| SalesReports.PopularMenuIsMostOrdered | routers/store.py:380-393 | none exactly when no joined order falls on the day; otherwise the name of a joined order with the largest summed quantity |
| SalesReports.DailyReports | routers/store.py:360-399 | one report per day from the start to the end day, in ascending order; none when start > end |
| SalesReports.JoinedMenuIds | routers/store.py:402-413 | each menu id of the joined orders, once |
| SalesReports.MenuRows | routers/store.py:402-413 | one row per group, carrying the menu's name and its summed quantity and sales |
| SalesReports.MenuRowsOfJoinedIds | routers/store.py:402-413 | every row is the group of its menu id, and every joined order's menu has a row |
| SalesReports.JoinedRowsBacked | routers/store.py:402-413 | every group row belongs to a menu some joined order has |
| SalesReports.JoinedRowsDistinct | routers/store.py:402-413 | GROUP BY Menu.id: no two group rows share a menu id |
| SalesReports.RankedRowsAreGroups | routers/store.py:402-413 | the ranked rows are exactly the group rows: each is its menu's group, each has a joined order, each joined order's menu is ranked |
| SalesReports.RankedRowsDistinct | routers/store.py:402-413 | ranking keeps the menu ids distinct |
| SalesReports.MenuReports | routers/store.py:402-423 | sorted by sales, descending; exactly one row per menu that has a joined order (distinct menu ids, no row without a joined order), each with that menu's name, quantity and sales |
| SalesReports.GetSalesReport | routers/store.py:307-443 | 400 "Invalid date format. Use YYYY-MM-DD" exactly when a given date is malformed; start defaults to today-7 (daily), today-30 (weekly) or today-90 (other); end defaults to today; the loop yields one report per day, ascending; the ranking is sorted; totals are over the range's non-cancelled orders |
| SalesReports.DailyOrdersPrefix | routers/store.py:360-370 | the daily counts up to a day add up to the range count up to the end of that day |
| SalesReports.DailySalesPrefix | routers/store.py:372-379 | the daily sales up to a day add up to the sales from the start day to the end of that day |
| SalesReports.DailyTotals | routers/store.py:360-433 | the daily counts add up to total_orders; the daily sales add up to total_sales plus the sales of the end day's last 999999 microseconds |
| SalesReports.EmptyRangeReport | routers/store.py:336-433 | with the end day before the start day: no daily reports, no menu reports, zero totals |
| SalesReports.NoJoinedRowsNoIds | routers/store.py:402-413 | an empty window has no menu groups |
| SalesReports.LastSecondGap | routers/store.py:336-379 | an order at 23:59:59.5 on the end day is in that day's sales but not in its count or the totals |
| SalesReports.MenuRowsSales | routers/store.py:402-413 | the rows' sales add up to the sum of each group's sales |
| SalesReports.SalesOverIdsCons | routers/store.py:402-413 | over distinct menu ids, one more order adds its total once when its menu is among them |
| SalesReports.SalesOverIdsEmpty | routers/store.py:402-413 | no orders, no sales in any group |
| SalesReports.SalesOverJoinedIds | routers/store.py:402-413 | the groups' sales add up to the joined sales |
| SalesReports.JoinedSalesAreAllSales | routers/store.py:402-433 | when every order's menu exists, the joined sales are the range's sales |
| SalesReports.MenuReportsAddUp | routers/store.py:402-433 | the per-menu ranking's sales add up to total_sales when every order's menu exists |
| AuthRouter.RegisterUser | routers/auth.py:26-69 | 422 for an invalid body; 400 "Username already registered" when the username exists, before the e-mail is checked; 400 "Email already registered"; else exactly one active user is appended with the request's fields and hash(password); uniqueness holds after |
| AuthRouter.Login | routers/auth.py:72-114 | 401 "Incorrect username or password" alike for a missing user and a failed password check; 403 "Inactive user account" only once the credentials pass; success returns that user, token type "bearer" and the access token for the username |
| AuthRouter.LoginAcceptsValidAccount | routers/auth.py:83-114 | with unique usernames, an active account whose password verifies logs in as itself |
| AuthRouter.LoginIgnoresOtherAccounts | routers/auth.py:83-91 | adding an account with another username does not change a login's answer |
| AuthRouter.Logout | routers/auth.py:117-128 | always succeeds with "Successfully logged out" |

## Left out

- Access control: `require_role`, `get_current_customer` and bearer-token parsing decide who may call a handler. They are not part of this model; the caller's id (or user row) is a parameter.
- Password hashing, password verification and token creation are not part of this model; they are function parameters. Token expiry is not modelled.
- `date.today()` and the clock are parameters; `strptime` is modelled by the three outcomes of a date parameter (left out or empty, a day, malformed). Time zones are not modelled.
- The image upload and delete endpoints (file-system writes, content-type checks, uuid names) and the store profile read, token refresh and "current user" endpoints are not modelled.
- Every `created_at`/`updated_at` column is not modelled; the handlers only let the database fill them.
- CustomerRouter.CreateOrder: `orders.store_id` is declared NOT NULL with no default (models.py:110), and the handler never sets it (routers/customer.py:122-132), so the insert is rejected by the database and the request ends in a server error. The model leaves the column out and shows the path the handler evidently intends: the order is stored.
- StoreRouter.CreateMenu: `menus.store_id` is likewise NOT NULL with no default (models.py:94) and never set (routers/store.py:230-233); the database rejects the insert. The model leaves the column out and stores the menu, the evidently intended path.
- CustomerRouter.CreateOrder: `price` and `total_price` are `Integer` columns (models.py:90, models.py:112); a product `price * quantity` beyond the database's integer range is rejected at commit. The model's integers are unbounded, so it stores any total.
- SalesReports.GetSalesReport: Python dates end at 9999-12-31; with that end date the loop's `current_date += timedelta(days=1)` (routers/store.py:399) raises `OverflowError` after the last day. The model's day numbers are unbounded and the loop simply stops.
- CustomerRouter.GetMenus: a page number so large that `(page - 1) * per_page` exceeds the database's OFFSET range is an error there; in the model it is an empty page. The same holds for CustomerRouter.GetMyOrders, StoreRouter.GetAllOrders and StoreRouter.GetAllMenus.
- CustomerRouter.GetMyOrders: the OFFSET overflow above is not modelled.
- StoreRouter.GetAllOrders: the OFFSET overflow above is not modelled.
- StoreRouter.GetAllMenus: the OFFSET overflow above is not modelled.
- AuthRouter.Login: the handler also builds a refresh token (routers/auth.py:106-111), but the declared response model `TokenResponse` (schemas.py:65-69) has no such field, so the response drops it. The model's response has no refresh token either.
- Schemas: `OrderFilter` and `MenuFilter` (schemas.py:280-298) are used by no handler (`MenuFilter` is only imported, at routers/customer.py:16), so they are not modelled.
- StoreRouter.StoreUpdate: routers/store.py:18-23 imports `StoreUpdate` and `StoreResponse` from schemas.py, and schemas.py defines neither. The model takes the body as every non-id column of the `stores` table (models.py:137-152), each optional, with no constraints.
- StoreRouter.ApplyMenuUpdate: an explicit `null` sent for a field is not modelled; only "left out" and "a value" are. For `name` and `price` the database rejects it (`nullable=False`, models.py:89-90). `is_available` is a nullable column (models.py:93), so a `null` copied by `setattr` (routers/store.py:260-264) is stored. The `bool` field of the response then cannot hold it, and the customer listing's `is_available == True` test (routers/customer.py:48) no longer shows the menu. The model keeps `is_available` a boolean.
- Schemas.ValidUserCreate: the e-mail syntax check (`EmailStr`) is not modelled.
- Common.ContainsText: `contains` is modelled as a plain substring test; LIKE wildcards inside the search text and database collation (case folding) are not.
- Common.SortDesc: SQL leaves the order among rows with equal keys unspecified. The model's sort is one valid order, and the contracts that use it pin that order.
- CustomerRouter.GetMenus, StoreRouter.GetAllMenus, CustomerRouter.GetMyOrders, StoreRouter.GetAllOrders, CustomerRouter.MenusListsEveryMatch, CustomerRouter.MyOrdersListsEveryOrder, StoreRouter.AllOrdersListsEveryMatch: the model fixes one row order that every request sees. The menu listings page with OFFSET/LIMIT and no ORDER BY (routers/customer.py:63-64, routers/store.py:213-214); the model uses table order. The order listings sort only by `ordered_at` (routers/customer.py:163, routers/store.py:132); the model breaks ties by the sort's order. A database may return another order, and a different one on each request. The three page-coverage lemmas rely on the fixed order: without a total ORDER BY, a row may be skipped or repeated across pages.
- SalesReports.Heaviest: which of several equally popular menu names is reported is unspecified; the contract only says it is a heaviest one.
- SalesReports.GetSalesReport: the `start_date`/`end_date` strings echoed in the response are represented by the start and end day numbers.
- The loops that attach user and menu rows to each listed order only shape the response and are not modelled.
- Floating-point dashboard figures and the other dashboard features some tests expect (averages, comparisons with yesterday, hourly counts, per-store scoping) are not in the handlers and are not modelled.
