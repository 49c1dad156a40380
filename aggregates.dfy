/** The aggregate queries the store router runs over a time window of the
    orders table, each a fold over the rows:
      COUNT(*)                WHERE lo <= ordered_at <= hi
      COUNT(*)                WHERE ... AND status == st
      COUNT(*)                WHERE ... AND status != 'cancelled'
      SUM(total_price) or 0   WHERE ... AND status != 'cancelled'
    and how they behave when a window is split, a row is appended or a row's
    status changes. */
module Aggregates {
  import opened Common
  import opened Schemas
  import opened Tables

  predicate InWindow(o: Order, lo: int, hi: int) { lo <= o.orderedAt <= hi }

  /** Counted in sales: every status except "cancelled". */
  predicate Live(o: Order) { o.status != CANCELLED }

  function CountIn(orders: seq<Order>, lo: int, hi: int): nat {
    if orders == [] then 0
    else (if InWindow(orders[0], lo, hi) then 1 else 0) + CountIn(orders[1..], lo, hi)
  }

  function CountStatusIn(orders: seq<Order>, lo: int, hi: int, st: string): nat {
    if orders == [] then 0
    else (if InWindow(orders[0], lo, hi) && orders[0].status == st then 1 else 0)
         + CountStatusIn(orders[1..], lo, hi, st)
  }

  function CountLiveIn(orders: seq<Order>, lo: int, hi: int): nat {
    if orders == [] then 0
    else (if InWindow(orders[0], lo, hi) && Live(orders[0]) then 1 else 0)
         + CountLiveIn(orders[1..], lo, hi)
  }

  /** `func.sum(total_price)` is NULL over no rows; `or 0` turns that into 0. */
  function SalesLiveIn(orders: seq<Order>, lo: int, hi: int): int {
    if orders == [] then 0
    else (if InWindow(orders[0], lo, hi) && Live(orders[0]) then orders[0].totalPrice else 0)
         + SalesLiveIn(orders[1..], lo, hi)
  }

  /** Splitting a window at `mid` splits every count and sum over it. */
  lemma {:induction false} SplitWindow(orders: seq<Order>, lo: int, mid: int, hi: int)
    requires lo <= mid <= hi + 1
    ensures CountIn(orders, lo, hi) == CountIn(orders, lo, mid - 1) + CountIn(orders, mid, hi)
    ensures CountLiveIn(orders, lo, hi) == CountLiveIn(orders, lo, mid - 1) + CountLiveIn(orders, mid, hi)
    ensures SalesLiveIn(orders, lo, hi) == SalesLiveIn(orders, lo, mid - 1) + SalesLiveIn(orders, mid, hi)
  {
    if orders != [] {
      SplitWindow(orders[1..], lo, mid, hi);
    }
  }

  /** An empty window holds nothing. */
  lemma {:induction false} EmptyWindow(orders: seq<Order>, lo: int, hi: int)
    requires hi < lo
    ensures CountIn(orders, lo, hi) == 0 && CountLiveIn(orders, lo, hi) == 0
    ensures SalesLiveIn(orders, lo, hi) == 0
  {
    if orders != [] {
      EmptyWindow(orders[1..], lo, hi);
    }
  }

  /** When every status is one of the six, the per-status counts partition
      the count of the window. */
  lemma {:induction false} StatusCountsPartition(orders: seq<Order>, lo: int, hi: int)
    requires forall o | o in orders :: KnownStatus(o.status)
    ensures CountIn(orders, lo, hi) ==
      CountStatusIn(orders, lo, hi, PENDING) + CountStatusIn(orders, lo, hi, CONFIRMED) +
      CountStatusIn(orders, lo, hi, PREPARING) + CountStatusIn(orders, lo, hi, READY) +
      CountStatusIn(orders, lo, hi, COMPLETED) + CountStatusIn(orders, lo, hi, CANCELLED)
  {
    if orders != [] {
      assert KnownStatus(orders[0].status);
      StatusCountsPartition(orders[1..], lo, hi);
    }
  }

  /** The non-cancelled count is the count minus the cancelled count. */
  lemma {:induction false} LiveIsAllButCancelled(orders: seq<Order>, lo: int, hi: int)
    ensures CountLiveIn(orders, lo, hi) == CountIn(orders, lo, hi) - CountStatusIn(orders, lo, hi, CANCELLED)
  {
    if orders != [] {
      LiveIsAllButCancelled(orders[1..], lo, hi);
    }
  }

  /** No non-cancelled order in the window means no sales in it. */
  lemma {:induction false} NoLiveOrdersNoSales(orders: seq<Order>, lo: int, hi: int)
    requires CountLiveIn(orders, lo, hi) == 0
    ensures SalesLiveIn(orders, lo, hi) == 0
  {
    if orders != [] {
      NoLiveOrdersNoSales(orders[1..], lo, hi);
    }
  }

  /** Appending one row adds exactly that row's contribution to each fold. */
  lemma {:induction false} AppendOrder(orders: seq<Order>, o: Order, lo: int, hi: int, st: string)
    ensures CountIn(orders + [o], lo, hi) == CountIn(orders, lo, hi) + (if InWindow(o, lo, hi) then 1 else 0)
    ensures CountStatusIn(orders + [o], lo, hi, st) ==
      CountStatusIn(orders, lo, hi, st) + (if InWindow(o, lo, hi) && o.status == st then 1 else 0)
    ensures CountLiveIn(orders + [o], lo, hi) ==
      CountLiveIn(orders, lo, hi) + (if InWindow(o, lo, hi) && Live(o) then 1 else 0)
    ensures SalesLiveIn(orders + [o], lo, hi) ==
      SalesLiveIn(orders, lo, hi) + (if InWindow(o, lo, hi) && Live(o) then o.totalPrice else 0)
  {
    if orders == [] {
      assert [o][1..] == [];
    } else {
      assert (orders + [o])[1..] == orders[1..] + [o];
      AppendOrder(orders[1..], o, lo, hi, st);
    }
  }

  /** Replacing row i by x swaps row i's contribution to each fold for x's. */
  lemma {:induction false} ReplaceOrder(orders: seq<Order>, i: nat, x: Order, lo: int, hi: int, st: string)
    requires i < |orders|
    ensures var s' := orders[i := x]; var o := orders[i];
      && CountIn(s', lo, hi) ==
           CountIn(orders, lo, hi) - (if InWindow(o, lo, hi) then 1 else 0)
           + (if InWindow(x, lo, hi) then 1 else 0)
      && CountStatusIn(s', lo, hi, st) ==
           CountStatusIn(orders, lo, hi, st) - (if InWindow(o, lo, hi) && o.status == st then 1 else 0)
           + (if InWindow(x, lo, hi) && x.status == st then 1 else 0)
      && CountLiveIn(s', lo, hi) ==
           CountLiveIn(orders, lo, hi) - (if InWindow(o, lo, hi) && Live(o) then 1 else 0)
           + (if InWindow(x, lo, hi) && Live(x) then 1 else 0)
      && SalesLiveIn(s', lo, hi) ==
           SalesLiveIn(orders, lo, hi) - (if InWindow(o, lo, hi) && Live(o) then o.totalPrice else 0)
           + (if InWindow(x, lo, hi) && Live(x) then x.totalPrice else 0)
  {
    if i == 0 {
      assert orders[i := x][1..] == orders[1..];
    } else {
      assert orders[i := x][1..] == orders[1..][i - 1 := x];
      ReplaceOrder(orders[1..], i - 1, x, lo, hi, st);
    }
  }

  /** A per-status count and the non-cancelled count never exceed the count
      of the window. */
  lemma {:induction false} PartCountsBounded(orders: seq<Order>, lo: int, hi: int, st: string)
    ensures CountStatusIn(orders, lo, hi, st) <= CountIn(orders, lo, hi)
    ensures CountLiveIn(orders, lo, hi) <= CountIn(orders, lo, hi)
  {
    if orders != [] {
      PartCountsBounded(orders[1..], lo, hi, st);
    }
  }

  /** Sales are never negative when no stored total is. */
  lemma {:induction false} SalesNonNegative(orders: seq<Order>, lo: int, hi: int)
    requires forall o | o in orders :: o.totalPrice >= 0
    ensures SalesLiveIn(orders, lo, hi) >= 0
  {
    if orders != [] {
      assert orders[0] in orders;
      SalesNonNegative(orders[1..], lo, hi);
    }
  }
}
