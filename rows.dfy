/** The order-item rows of the joined e-commerce table, as the dashboard's
    aggregation pipeline reads them, and the sums it takes over them. */
module Rows {

  datatype Option<T> = None | Some(value: T)

  /** pandas timestamps have nanosecond resolution: the ticks in one calendar day. */
  const TicksPerDay: int := 86_400_000_000_000

  /** Nanoseconds elapsed since midnight of a row's purchase day. */
  type TimeOfDay = t: int | 0 <= t < 86_400_000_000_000

  /** One row of the table: one item of one order.  `day` and `timeOfDay` together
      are `order_purchase_timestamp`; `price` is in centavos, so that sums are exact;
      a missing (NaN) category or city is `None`. */
  datatype Row = Row(
    orderId: string,
    day: int,
    timeOfDay: TimeOfDay,
    price: int,
    category: Option<string>,
    city: Option<string>)

  /** A row of a data frame: its index label and its values. */
  datatype Labeled = Labeled(index: int, row: Row)

  /** The first instant of calendar day `d`, the value `pd.to_datetime` gives a date. */
  function Midnight(d: int): int
  {
    d * TicksPerDay
  }

  /** The purchase timestamp of a row, in ticks since the epoch. */
  function Instant(r: Row): int
  {
    Midnight(r.day) + r.timeOfDay
  }

  /** The purchase timestamp of a row lies in its own day and before the next midnight. */
  lemma InstantWithinDay(r: Row)
    ensures Midnight(r.day) <= Instant(r) < Midnight(r.day + 1)
  {
  }

  /** Truncating the purchase timestamp to a day (what resample('D') bins by) gives the row's day. */
  lemma InstantFloorIsDay(r: Row)
    ensures Instant(r) / TicksPerDay == r.day
  {
    assert Instant(r) == r.day * TicksPerDay + r.timeOfDay;
  }

  /** Comparing two timestamps is comparing their days, then their times of day. */
  lemma InstantOrder(a: Row, b: Row)
    ensures Instant(a) <= Instant(b) <==> a.day < b.day || (a.day == b.day && a.timeOfDay <= b.timeOfDay)
  {
    if a.day < b.day {
      MidnightMonotone(a.day + 1, b.day);
    } else if b.day < a.day {
      MidnightMonotone(b.day + 1, a.day);
    }
  }

  lemma MidnightMonotone(d: int, e: int)
    requires d <= e
    ensures Midnight(d) <= Midnight(e)
  {
  }

  /** The projection of a frame onto its rows (dropping the index). */
  function RowsOf(f: seq<Labeled>): seq<Row>
  {
    if f == [] then [] else [f[0].row] + RowsOf(f[1..])
  }

  /** Sum of `price` over some rows, as `Series.sum()`. */
  function TotalPrice(rows: seq<Row>): int
  {
    if rows == [] then 0 else rows[0].price + TotalPrice(rows[1..])
  }

  /** The distinct `order_id` values among some rows, as `nunique` counts them. */
  function OrderIds(rows: seq<Row>): set<string>
  {
    if rows == [] then {} else {rows[0].orderId} + OrderIds(rows[1..])
  }

  lemma {:induction false} RowsOfLength(f: seq<Labeled>)
    ensures |RowsOf(f)| == |f|
  {
    if f != [] {
      RowsOfLength(f[1..]);
    }
  }

  lemma {:induction false} RowsOfConcat(a: seq<Labeled>, b: seq<Labeled>)
    ensures RowsOf(a + b) == RowsOf(a) + RowsOf(b)
  {
    if a == [] {
      assert a + b == b;
    } else {
      assert (a + b)[1..] == a[1..] + b;
      RowsOfConcat(a[1..], b);
    }
  }

  /** Permuting the frame permutes its rows: multiset equality survives the projection. */
  lemma {:induction false} RowsOfPermutation(a: seq<Labeled>, b: seq<Labeled>)
    requires multiset(a) == multiset(b)
    ensures multiset(RowsOf(a)) == multiset(RowsOf(b))
    decreases |a|
  {
    if a == [] {
      assert |b| == |multiset(b)| == 0;
    } else {
      var x := a[0];
      assert x in multiset(b);
      var k :| 0 <= k < |b| && b[k] == x;
      var rest := b[..k] + b[k + 1..];
      assert multiset(a[1..]) == multiset(rest) by {
        assert a == [x] + a[1..];
        MultisetWithout(b, k);
      }
      RowsOfPermutation(a[1..], rest);
      var p, q := RowsOf(b[..k]), RowsOf(b[k + 1..]);
      assert RowsOf(b) == p + ([x.row] + q) by {
        SplitAt(b, k);
        RowsOfConcat(b[..k], [x] + b[k + 1..]);
        RowsOfConcat([x], b[k + 1..]);
        assert RowsOf([x]) == [x.row];
      }
      assert RowsOf(rest) == p + q by {
        RowsOfConcat(b[..k], b[k + 1..]);
      }
      assert RowsOf(a) == [x.row] + RowsOf(a[1..]);
      MultisetMiddle(p, x.row, q);
    }
  }

  lemma MultisetMiddle<T>(p: seq<T>, y: T, q: seq<T>)
    ensures multiset(p + ([y] + q)) == multiset([y] + (p + q))
  {
  }

  /** Taking out the element at position `k` takes one copy of it out of the multiset. */
  lemma MultisetWithout<T>(s: seq<T>, k: nat)
    requires k < |s|
    ensures multiset(s[..k] + s[k + 1..]) == multiset(s) - multiset{s[k]}
  {
    assert s == s[..k] + [s[k]] + s[k + 1..];
  }

  lemma SplitAt<T>(s: seq<T>, k: nat)
    requires k < |s|
    ensures s == s[..k] + ([s[k]] + s[k + 1..])
  {
  }

  /** Price sums split over concatenation. */
  lemma {:induction false} TotalPriceConcat(a: seq<Row>, b: seq<Row>)
    ensures TotalPrice(a + b) == TotalPrice(a) + TotalPrice(b)
  {
    if a == [] {
      assert a + b == b;
    } else {
      assert (a + b)[1..] == a[1..] + b;
      TotalPriceConcat(a[1..], b);
    }
  }

  /** A price sum does not depend on the order of the rows. */
  lemma {:induction false} TotalPricePermutation(a: seq<Row>, b: seq<Row>)
    requires multiset(a) == multiset(b)
    ensures TotalPrice(a) == TotalPrice(b)
    decreases |a|
  {
    if a == [] {
      assert |b| == |multiset(b)| == 0;
    } else {
      var x := a[0];
      assert x in multiset(b);
      var k :| 0 <= k < |b| && b[k] == x;
      var rest := b[..k] + b[k + 1..];
      assert multiset(a[1..]) == multiset(rest) by {
        assert a == [x] + a[1..];
        MultisetWithout(b, k);
      }
      TotalPricePermutation(a[1..], rest);
      assert TotalPrice(b) == TotalPrice(b[..k]) + x.price + TotalPrice(b[k + 1..]) by {
        SplitAt(b, k);
        TotalPriceConcat(b[..k], [x] + b[k + 1..]);
        assert ([x] + b[k + 1..])[1..] == b[k + 1..];
      }
      assert TotalPrice(rest) == TotalPrice(b[..k]) + TotalPrice(b[k + 1..]) by {
        TotalPriceConcat(b[..k], b[k + 1..]);
      }
    }
  }

  /** An order id is among the distinct ids exactly when some row carries it. */
  lemma {:induction false} OrderIdsMembership(rows: seq<Row>, id: string)
    ensures id in OrderIds(rows) <==> exists i :: 0 <= i < |rows| && rows[i].orderId == id
  {
    if rows != [] {
      OrderIdsMembership(rows[1..], id);
      if id != rows[0].orderId && id in OrderIds(rows) {
        var i :| 0 <= i < |rows[1..]| && rows[1..][i].orderId == id;
        assert rows[i + 1].orderId == id;
      }
      if exists i :: 0 <= i < |rows| && rows[i].orderId == id {
        var i :| 0 <= i < |rows| && rows[i].orderId == id;
        if i > 0 {
          assert rows[1..][i - 1].orderId == id;
        }
      }
    }
  }

  /** There are never more distinct order ids than rows. */
  lemma {:induction false} OrderIdsAtMostRows(rows: seq<Row>)
    ensures |OrderIds(rows)| <= |rows|
  {
    if rows != [] {
      OrderIdsAtMostRows(rows[1..]);
    }
  }

  /** The distinct order ids depend only on which rows are present, not on their order. */
  lemma OrderIdsPermutation(a: seq<Row>, b: seq<Row>)
    requires multiset(a) == multiset(b)
    ensures OrderIds(a) == OrderIds(b)
  {
    forall id
      ensures id in OrderIds(a) <==> id in OrderIds(b)
    {
      OrderIdsMembership(a, id);
      OrderIdsMembership(b, id);
      if id in OrderIds(a) {
        var i :| 0 <= i < |a| && a[i].orderId == id;
        assert a[i] in multiset(b);
        var j :| 0 <= j < |b| && b[j] == a[i];
      }
      if id in OrderIds(b) {
        var j :| 0 <= j < |b| && b[j].orderId == id;
        assert b[j] in multiset(a);
        var i :| 0 <= i < |a| && a[i] == b[j];
      }
    }
  }
}
