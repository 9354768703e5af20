/** `create_daily_orders_df`: `df.resample('D', on='order_purchase_timestamp')`
    aggregated to `order_count = nunique(order_id)` and `revenue = sum(price)`.
    The bins are the calendar days from the first day present to the last; a day
    without rows still gets a bin, with 0 orders and 0 revenue. */
module DailyRollup {
  import opened Rows

  /** One row of the daily frame. */
  datatype DailyRow = DailyRow(day: int, orderCount: nat, revenue: int)

  /** The rows bought on the days `lo` through `hi`, in their order. */
  function RowsBetweenDays(rows: seq<Row>, lo: int, hi: int): seq<Row>
  {
    if rows == [] then []
    else if lo <= rows[0].day <= hi then [rows[0]] + RowsBetweenDays(rows[1..], lo, hi)
    else RowsBetweenDays(rows[1..], lo, hi)
  }

  /** The bin of days `lo..hi` holds each row of those days as often as the input does,
      and no other row. */
  lemma {:induction false} BetweenDaysCounts(rows: seq<Row>, lo: int, hi: int)
    ensures forall x :: multiset(RowsBetweenDays(rows, lo, hi))[x] == if lo <= x.day <= hi then multiset(rows)[x] else 0
  {
    if rows != [] {
      BetweenDaysCounts(rows[1..], lo, hi);
      assert rows == [rows[0]] + rows[1..];
    }
  }

  /** The rows of one day's bin. */
  function RowsOn(rows: seq<Row>, d: int): seq<Row>
  {
    RowsBetweenDays(rows, d, d)
  }

  /** The first day present. */
  function MinDay(rows: seq<Row>): (d: int)
    requires rows != []
    ensures forall i :: 0 <= i < |rows| ==> d <= rows[i].day
    ensures exists i :: 0 <= i < |rows| && rows[i].day == d
  {
    if |rows| == 1 then rows[0].day
    else
      var m := MinDay(rows[1..]);
      assert forall i :: 1 <= i < |rows| ==> rows[i] == rows[1..][i - 1];
      if rows[0].day <= m then rows[0].day else m
  }

  /** The last day present. */
  function MaxDay(rows: seq<Row>): (d: int)
    requires rows != []
    ensures forall i :: 0 <= i < |rows| ==> rows[i].day <= d
    ensures exists i :: 0 <= i < |rows| && rows[i].day == d
  {
    if |rows| == 1 then rows[0].day
    else
      var m := MaxDay(rows[1..]);
      assert forall i :: 1 <= i < |rows| ==> rows[i] == rows[1..][i - 1];
      if rows[0].day >= m then rows[0].day else m
  }

  /** The bins of the days `d` through `hi`: each holds the number of distinct order
      ids among that day's rows and the sum of their prices. */
  function DaysFrom(rows: seq<Row>, d: int, hi: int): (r: seq<DailyRow>)
    ensures |r| == if d <= hi then hi - d + 1 else 0
    ensures forall i :: 0 <= i < |r| ==> r[i].day == d + i
    ensures forall i :: 0 <= i < |r| ==>
      r[i].orderCount == |OrderIds(RowsOn(rows, r[i].day))| && r[i].revenue == TotalPrice(RowsOn(rows, r[i].day))
    decreases hi - d
  {
    if d > hi then []
    else
      var bin := RowsOn(rows, d);
      var t := DaysFrom(rows, d + 1, hi);
      assert forall i :: 0 < i <= |t| ==> ([DailyRow(d, |OrderIds(bin)|, TotalPrice(bin))] + t)[i] == t[i - 1];
      [DailyRow(d, |OrderIds(bin)|, TotalPrice(bin))] + t
  }

  /** `create_daily_orders_df(df)`: one entry per calendar day from the first day
      present to the last, ascending and without gaps; each holds the distinct orders
      and the price sum of that day's rows.  No rows, no entries. */
  function DailyOrders(rows: seq<Row>): (r: seq<DailyRow>)
    ensures r == [] <==> rows == []
    ensures rows != [] ==> |r| == MaxDay(rows) - MinDay(rows) + 1 && r[0].day == MinDay(rows)
    ensures forall i :: 0 <= i < |r| ==> r[i].day == r[0].day + i
    ensures forall i :: 0 <= i < |r| ==>
      r[i].orderCount == |OrderIds(RowsOn(rows, r[i].day))| && r[i].revenue == TotalPrice(RowsOn(rows, r[i].day))
  {
    if rows == [] then [] else DaysFrom(rows, MinDay(rows), MaxDay(rows))
  }

  /** `daily_orders_df.revenue.sum()`, the "Total Revenue" metric. */
  function TotalRevenue(daily: seq<DailyRow>): int
  {
    if daily == [] then 0 else daily[0].revenue + TotalRevenue(daily[1..])
  }

  /** `daily_orders_df.order_count.sum()`, the "Total Orders" metric. */
  function TotalOrders(daily: seq<DailyRow>): int
  {
    if daily == [] then 0 else daily[0].orderCount + TotalOrders(daily[1..])
  }

  /** No order has item rows on two different days. */
  ghost predicate NoOrderSpansDays(rows: seq<Row>)
  {
    forall i, j :: 0 <= i < |rows| && 0 <= j < |rows| && rows[i].orderId == rows[j].orderId ==> rows[i].day == rows[j].day
  }

  // ---- revenue is conserved -------------------------------------------------

  /** The rows of days `lo..hi` are those of day `lo` and those of days `lo+1..hi`. */
  lemma {:induction false} PriceSplitsAtFirstDay(rows: seq<Row>, lo: int, hi: int)
    requires lo <= hi
    ensures TotalPrice(RowsBetweenDays(rows, lo, hi)) == TotalPrice(RowsOn(rows, lo)) + TotalPrice(RowsBetweenDays(rows, lo + 1, hi))
  {
    if rows != [] {
      PriceSplitsAtFirstDay(rows[1..], lo, hi);
    }
  }

  lemma {:induction false} RevenueOfDays(rows: seq<Row>, d: int, hi: int)
    ensures TotalRevenue(DaysFrom(rows, d, hi)) == TotalPrice(RowsBetweenDays(rows, d, hi))
    decreases hi - d
  {
    if d > hi {
      NoDaysNoRows(rows, d, hi);
    } else {
      var t := DaysFrom(rows, d + 1, hi);
      var bin := RowsOn(rows, d);
      var e := DailyRow(d, |OrderIds(bin)|, TotalPrice(bin));
      assert DaysFrom(rows, d, hi) == [e] + t;
      assert ([e] + t)[1..] == t;
      RevenueOfDays(rows, d + 1, hi);
      PriceSplitsAtFirstDay(rows, d, hi);
    }
  }

  lemma {:induction false} NoDaysNoRows(rows: seq<Row>, lo: int, hi: int)
    requires lo > hi
    ensures RowsBetweenDays(rows, lo, hi) == []
  {
    if rows != [] {
      NoDaysNoRows(rows[1..], lo, hi);
    }
  }

  /** Days covering every row keep every row. */
  lemma {:induction false} AllDaysKeepAllRows(rows: seq<Row>, lo: int, hi: int)
    requires forall i :: 0 <= i < |rows| ==> lo <= rows[i].day <= hi
    ensures RowsBetweenDays(rows, lo, hi) == rows
  {
    if rows != [] {
      assert forall i :: 0 <= i < |rows[1..]| ==> rows[1..][i] == rows[i + 1];
      AllDaysKeepAllRows(rows[1..], lo, hi);
    }
  }

  /** The daily revenues add up to the revenue of all rows: the "Total Revenue" that
      `display_metrics` shows is the price sum of the filtered frame. */
  lemma DailyRevenueConserved(rows: seq<Row>)
    ensures TotalRevenue(DailyOrders(rows)) == TotalPrice(rows)
  {
    if rows != [] {
      RevenueOfDays(rows, MinDay(rows), MaxDay(rows));
      AllDaysKeepAllRows(rows, MinDay(rows), MaxDay(rows));
    }
  }

  // ---- the bins -------------------------------------------------------------

  /** A row belongs to the bin of days `lo..hi` exactly when it is a row bought then. */
  lemma BetweenDaysMembership(rows: seq<Row>, lo: int, hi: int, x: Row)
    ensures x in RowsBetweenDays(rows, lo, hi) <==> x in rows && lo <= x.day <= hi
  {
    var r := RowsBetweenDays(rows, lo, hi);
    BetweenDaysCounts(rows, lo, hi);
    assert x in r <==> multiset(r)[x] > 0;
    assert x in rows <==> multiset(rows)[x] > 0;
  }

  /** Every row's day has an entry. */
  lemma DailyCoversEveryRow(rows: seq<Row>, k: int)
    requires 0 <= k < |rows|
    ensures 0 <= rows[k].day - MinDay(rows) < |DailyOrders(rows)|
    ensures DailyOrders(rows)[rows[k].day - MinDay(rows)].day == rows[k].day
  {
  }

  /** A day between the first and the last without any row gets `order_count = 0`
      and `revenue = 0`. */
  lemma DailyEmptyDayIsZero(rows: seq<Row>, i: int)
    requires 0 <= i < |DailyOrders(rows)|
    requires forall k :: 0 <= k < |rows| ==> rows[k].day != DailyOrders(rows)[i].day
    ensures DailyOrders(rows)[i].orderCount == 0 && DailyOrders(rows)[i].revenue == 0
  {
    var d := DailyOrders(rows)[i].day;
    var bin := RowsOn(rows, d);
    if bin != [] {
      BetweenDaysMembership(rows, d, d, bin[0]);
      assert false;
    }
  }

  /** A day's order count never exceeds its number of item rows. */
  lemma DailyOrderCountAtMostRows(rows: seq<Row>, i: int)
    requires 0 <= i < |DailyOrders(rows)|
    ensures DailyOrders(rows)[i].orderCount <= |RowsOn(rows, DailyOrders(rows)[i].day)|
  {
    OrderIdsAtMostRows(RowsOn(rows, DailyOrders(rows)[i].day));
  }

  // ---- distinct orders ------------------------------------------------------

  lemma {:induction false} OrderIdsSplitAtFirstDay(rows: seq<Row>, lo: int, hi: int)
    requires lo <= hi
    ensures OrderIds(RowsBetweenDays(rows, lo, hi)) == OrderIds(RowsOn(rows, lo)) + OrderIds(RowsBetweenDays(rows, lo + 1, hi))
  {
    if rows != [] {
      OrderIdsSplitAtFirstDay(rows[1..], lo, hi);
    }
  }

  /** When no order spans two days, no order of day `lo` occurs on a later day. */
  lemma FirstDayOrdersAreOwn(rows: seq<Row>, lo: int, hi: int)
    requires NoOrderSpansDays(rows)
    ensures OrderIds(RowsOn(rows, lo)) !! OrderIds(RowsBetweenDays(rows, lo + 1, hi))
  {
    var a, b := RowsOn(rows, lo), RowsBetweenDays(rows, lo + 1, hi);
    forall id | id in OrderIds(a)
      ensures id !in OrderIds(b)
    {
      OrderIdsMembership(a, id);
      OrderIdsMembership(b, id);
      var i :| 0 <= i < |a| && a[i].orderId == id;
      BetweenDaysMembership(rows, lo, lo, a[i]);
      var p :| 0 <= p < |rows| && rows[p] == a[i];
      if id in OrderIds(b) {
        var j :| 0 <= j < |b| && b[j].orderId == id;
        BetweenDaysMembership(rows, lo + 1, hi, b[j]);
        assert false;
      }
    }
  }

  lemma {:induction false} OrdersOfDays(rows: seq<Row>, d: int, hi: int)
    ensures TotalOrders(DaysFrom(rows, d, hi)) >= |OrderIds(RowsBetweenDays(rows, d, hi))|
    ensures NoOrderSpansDays(rows) ==> TotalOrders(DaysFrom(rows, d, hi)) == |OrderIds(RowsBetweenDays(rows, d, hi))|
    decreases hi - d
  {
    if d > hi {
      NoDaysNoRows(rows, d, hi);
    } else {
      var t := DaysFrom(rows, d + 1, hi);
      var bin := RowsOn(rows, d);
      var e := DailyRow(d, |OrderIds(bin)|, TotalPrice(bin));
      assert DaysFrom(rows, d, hi) == [e] + t;
      assert ([e] + t)[1..] == t;
      OrdersOfDays(rows, d + 1, hi);
      OrderIdsSplitAtFirstDay(rows, d, hi);
      var a, b := OrderIds(RowsOn(rows, d)), OrderIds(RowsBetweenDays(rows, d + 1, hi));
      assert |a + b| == |a| + |b| - |a * b|;
      if NoOrderSpansDays(rows) {
        FirstDayOrdersAreOwn(rows, d, hi);
        assert a * b == {};
      }
    }
  }

  /** Summed over the days, the order counts (the "Total Orders" metric) cover every
      distinct order at least once; they count each exactly once when no order has
      item rows on two different days. */
  lemma DailyOrderCountsCoverOrders(rows: seq<Row>)
    ensures TotalOrders(DailyOrders(rows)) >= |OrderIds(rows)|
    ensures NoOrderSpansDays(rows) ==> TotalOrders(DailyOrders(rows)) == |OrderIds(rows)|
  {
    if rows != [] {
      OrdersOfDays(rows, MinDay(rows), MaxDay(rows));
      AllDaysKeepAllRows(rows, MinDay(rows), MaxDay(rows));
    }
  }

  // ---- the row order does not matter ----------------------------------------

  lemma SameRowsSameDayRange(a: seq<Row>, b: seq<Row>)
    requires a != [] && multiset(a) == multiset(b)
    ensures b != [] && MinDay(a) == MinDay(b) && MaxDay(a) == MaxDay(b)
  {
    assert a[0] in multiset(b);
    assert b != [];
    forall x | x in a
      ensures x in b
    {
      assert x in multiset(a);
    }
    forall x | x in b
      ensures x in a
    {
      assert x in multiset(b);
    }
    var i :| 0 <= i < |a| && a[i].day == MinDay(a);
    var j :| 0 <= j < |b| && b[j].day == MinDay(b);
    assert a[i] in b && b[j] in a;
    var i' :| 0 <= i' < |a| && a[i'].day == MaxDay(a);
    var j' :| 0 <= j' < |b| && b[j'].day == MaxDay(b);
    assert a[i'] in b && b[j'] in a;
  }

  /** Rows with the same multiset have the same bins, up to order. */
  lemma SameRowsSameBin(a: seq<Row>, b: seq<Row>, d: int)
    requires multiset(a) == multiset(b)
    ensures OrderIds(RowsOn(a, d)) == OrderIds(RowsOn(b, d))
    ensures TotalPrice(RowsOn(a, d)) == TotalPrice(RowsOn(b, d))
  {
    BetweenDaysCounts(a, d, d);
    BetweenDaysCounts(b, d, d);
    assert multiset(RowsOn(a, d)) == multiset(RowsOn(b, d));
    TotalPricePermutation(RowsOn(a, d), RowsOn(b, d));
    OrderIdsPermutation(RowsOn(a, d), RowsOn(b, d));
  }

  /** Reordering the input rows does not change the daily frame. */
  lemma DailyOrdersIgnoreRowOrder(a: seq<Row>, b: seq<Row>)
    requires multiset(a) == multiset(b)
    ensures DailyOrders(a) == DailyOrders(b)
  {
    if a == [] {
      assert |b| == |multiset(b)| == 0;
    } else {
      SameRowsSameDayRange(a, b);
      var ra, rb := DailyOrders(a), DailyOrders(b);
      assert |ra| == |rb|;
      forall i | 0 <= i < |ra|
        ensures ra[i] == rb[i]
      {
        assert ra[i].day == rb[i].day;
        SameRowsSameBin(a, b, ra[i].day);
      }
    }
  }
}
