/** `create_count_order_items_df` and `create_sum_order_items_df`:
    `df.groupby(col, as_index=False)` aggregated by `["order_id"].count()` or by
    `["price"].sum()`, then `sort_values(..., ascending=False)`.  `groupby` drops
    the rows whose key is missing (NaN). */
module GroupRollup {
  import opened Rows

  /** The `group_by_column` the dashboard passes. */
  datatype GroupColumn = ProductCategory | SellerCity

  /** What a group aggregates: its number of `order_id` values, or its price sum. */
  datatype Measure = OrderIdCount | PriceSum

  /** One row of a grouped frame: the key and its `order_count` or `revenue`. */
  datatype GroupRow = GroupRow(key: string, total: int)

  /** The value of the grouping column in a row; `None` is NaN. */
  function KeyOf(r: Row, col: GroupColumn): Option<string>
  {
    match col
    case ProductCategory => r.category
    case SellerCity => r.city
  }

  /** What one row contributes to its group.  `count()` counts the non-missing
      `order_id` values, and every row has one. */
  function Weight(r: Row, m: Measure): int
  {
    match m
    case OrderIdCount => 1
    case PriceSum => r.price
  }

  function TotalWeight(rows: seq<Row>, m: Measure): int
  {
    if rows == [] then 0 else Weight(rows[0], m) + TotalWeight(rows[1..], m)
  }

  /** The rows of the group with key `k`, in order. */
  function WithKey(rows: seq<Row>, col: GroupColumn, k: string): seq<Row>
  {
    if rows == [] then []
    else if KeyOf(rows[0], col) == Some(k) then [rows[0]] + WithKey(rows[1..], col, k)
    else WithKey(rows[1..], col, k)
  }

  /** The rows outside the group with key `k`, in order. */
  function WithoutKey(rows: seq<Row>, col: GroupColumn, k: string): (r: seq<Row>)
    ensures |r| <= |rows|
  {
    if rows == [] then []
    else if KeyOf(rows[0], col) == Some(k) then WithoutKey(rows[1..], col, k)
    else [rows[0]] + WithoutKey(rows[1..], col, k)
  }

  /** The rows whose key is not missing: the rows `groupby` puts into some group. */
  function Keyed(rows: seq<Row>, col: GroupColumn): seq<Row>
  {
    if rows == [] then []
    else if KeyOf(rows[0], col).Some? then [rows[0]] + Keyed(rows[1..], col)
    else Keyed(rows[1..], col)
  }

  /** The distinct non-missing keys of some rows. */
  function KeySet(rows: seq<Row>, col: GroupColumn): set<string>
  {
    if rows == [] then {}
    else (match KeyOf(rows[0], col) case None => {} case Some(k) => {k}) + KeySet(rows[1..], col)
  }

  ghost function KeysOf(g: seq<GroupRow>): set<string>
  {
    set e | e in g :: e.key
  }

  /** No key occurs twice. */
  ghost predicate KeyDistinct(g: seq<GroupRow>)
  {
    forall i, j :: 0 <= i < j < |g| ==> g[i].key != g[j].key
  }

  /** Non-increasing by total, as `sort_values(ascending=False)` leaves it. */
  ghost predicate DescendingByTotal(g: seq<GroupRow>)
  {
    forall i, j :: 0 <= i < j < |g| ==> g[i].total >= g[j].total
  }

  /** The sum of a grouped frame's value column. */
  function SumTotals(g: seq<GroupRow>): int
  {
    if g == [] then 0 else g[0].total + SumTotals(g[1..])
  }

  // ---- the groupby ----------------------------------------------------------

  /** Removing the group of `k` removes `k`, and only `k`, from the keys. */
  lemma {:induction false} KeySetWithout(rows: seq<Row>, col: GroupColumn, k: string)
    ensures KeySet(WithoutKey(rows, col, k), col) == KeySet(rows, col) - {k}
  {
    if rows != [] {
      KeySetWithout(rows[1..], col, k);
    }
  }

  /** Removing the group of `k` leaves every other group as it was. */
  lemma {:induction false} WithKeyWithout(rows: seq<Row>, col: GroupColumn, k: string)
    ensures forall k' :: k' != k ==> WithKey(WithoutKey(rows, col, k), col, k') == WithKey(rows, col, k')
  {
    if rows != [] {
      WithKeyWithout(rows[1..], col, k);
    }
  }

  lemma KeyDistinctCons(h: GroupRow, t: seq<GroupRow>)
    requires KeyDistinct(t) && h.key !in KeysOf(t)
    ensures KeyDistinct([h] + t)
  {
    var g := [h] + t;
    forall i, j | 0 <= i < j < |g|
      ensures g[i].key != g[j].key
    {
      assert g[j] == t[j - 1];
      if i > 0 {
        assert g[i] == t[i - 1];
      } else {
        assert t[j - 1] in t;
      }
    }
  }

  /** The groups of `rows`: one per distinct non-missing key, each with the aggregate
      of exactly that key's rows.  The model lists them in the order their keys first
      occur. */
  function Groups(rows: seq<Row>, col: GroupColumn, m: Measure): (g: seq<GroupRow>)
    ensures KeyDistinct(g)
    ensures KeysOf(g) == KeySet(rows, col)
    ensures forall e :: e in g ==> e.total == TotalWeight(WithKey(rows, col, e.key), m)
    decreases |rows|
  {
    if rows == [] then []
    else
      match KeyOf(rows[0], col)
      case None => Groups(rows[1..], col, m)
      case Some(k) =>
        var rest := WithoutKey(rows[1..], col, k);
        var t := Groups(rest, col, m);
        var h := GroupRow(k, TotalWeight(WithKey(rows, col, k), m));
        KeySetWithout(rows[1..], col, k);
        WithKeyWithout(rows[1..], col, k);
        KeyDistinctCons(h, t);
        assert forall e :: e in [h] + t <==> e == h || e in t;
        assert KeysOf([h] + t) == {k} + KeysOf(t);
        assert forall e :: e in t ==> e.key in KeysOf(t) && e.key != k;
        assert forall k' :: k' != k ==> WithKey(rows, col, k') == WithKey(rows[1..], col, k');
        [h] + t
  }

  // ---- the sort -------------------------------------------------------------

  lemma DescendingCons(h: GroupRow, t: seq<GroupRow>)
    requires DescendingByTotal(t)
    requires forall e :: e in t ==> e.total <= h.total
    ensures DescendingByTotal([h] + t)
  {
    var g := [h] + t;
    forall i, j | 0 <= i < j < |g|
      ensures g[i].total >= g[j].total
    {
      assert g[j] == t[j - 1];
      if i > 0 {
        assert g[i] == t[i - 1];
      } else {
        assert t[j - 1] in t;
      }
    }
  }

  /** In a descending frame the first total bounds all the others. */
  lemma DescendingHeadIsMax(s: seq<GroupRow>)
    requires DescendingByTotal(s) && s != []
    ensures forall e :: e in s[1..] ==> e.total <= s[0].total
  {
    forall e | e in s[1..]
      ensures e.total <= s[0].total
    {
      var m :| 0 <= m < |s[1..]| && s[1..][m] == e;
      assert s[m + 1] == e;
    }
  }

  /** The elements of a frame whose multiset is that of `s` plus `x`. */
  lemma ElementsOfInsert(r: seq<GroupRow>, s: seq<GroupRow>, x: GroupRow)
    requires multiset(r) == multiset(s) + multiset{x}
    ensures forall e :: e in r <==> e == x || e in s
  {
    assert forall e :: e in r <==> e in multiset(r);
    assert forall e :: e in s <==> e in multiset(s);
  }

  /** Inserts `x` into a descending frame before the first entry with a smaller total. */
  function InsertByTotal(x: GroupRow, s: seq<GroupRow>): (r: seq<GroupRow>)
    requires DescendingByTotal(s)
    ensures DescendingByTotal(r)
    ensures multiset(r) == multiset(s) + multiset{x}
  {
    if s == [] then [x]
    else if x.total >= s[0].total then
      DescendingHeadIsMax(s);
      assert s == [s[0]] + s[1..];
      DescendingCons(x, s);
      [x] + s
    else
      var t := InsertByTotal(x, s[1..]);
      assert s == [s[0]] + s[1..];
      ElementsOfInsert(t, s[1..], x);
      DescendingHeadIsMax(s);
      DescendingCons(s[0], t);
      [s[0]] + t
  }

  /** Inserting adds the inserted total to the sum of totals. */
  lemma {:induction false} InsertAddsTotal(x: GroupRow, s: seq<GroupRow>)
    requires DescendingByTotal(s)
    ensures SumTotals(InsertByTotal(x, s)) == x.total + SumTotals(s)
  {
    if s == [] {
    } else if x.total >= s[0].total {
      assert ([x] + s)[1..] == s;
    } else {
      var t := InsertByTotal(x, s[1..]);
      InsertAddsTotal(x, s[1..]);
      assert ([s[0]] + t)[1..] == t;
    }
  }

  /** `sort_values(value, ascending=False)`: non-increasing by total and a
      permutation of its input.  Ties are left in an order of the sort's choosing. */
  function SortByTotalDescending(g: seq<GroupRow>): (r: seq<GroupRow>)
    ensures DescendingByTotal(r)
    ensures multiset(r) == multiset(g)
  {
    if g == [] then []
    else
      assert g == [g[0]] + g[1..];
      InsertByTotal(g[0], SortByTotalDescending(g[1..]))
  }

  /** Sorting keeps the elements and the sum of totals. */
  lemma {:induction false} SortKeepsElementsAndSum(g: seq<GroupRow>)
    ensures forall e :: e in SortByTotalDescending(g) <==> e in g
    ensures SumTotals(SortByTotalDescending(g)) == SumTotals(g)
  {
    if g != [] {
      var t := SortByTotalDescending(g[1..]);
      SortKeepsElementsAndSum(g[1..]);
      ElementsOfInsert(InsertByTotal(g[0], t), t, g[0]);
      assert forall e :: e in g <==> e == g[0] || e in g[1..] by {
        assert g == [g[0]] + g[1..];
      }
      InsertAddsTotal(g[0], t);
    }
  }

  /** The tail of a key-distinct frame is key-distinct and lacks the head's key. */
  lemma KeyDistinctUncons(g: seq<GroupRow>)
    requires KeyDistinct(g) && g != []
    ensures KeyDistinct(g[1..]) && g[0].key !in KeysOf(g[1..])
  {
    var t := g[1..];
    forall e | e in t
      ensures e.key != g[0].key
    {
      var m :| 0 <= m < |t| && t[m] == e;
      assert g[m + 1] == e;
    }
    forall i, j | 0 <= i < j < |t|
      ensures t[i].key != t[j].key
    {
      assert t[i] == g[i + 1] && t[j] == g[j + 1];
    }
  }

  /** Inserting an entry with a new key into a key-distinct frame keeps it key-distinct. */
  lemma {:induction false} InsertKeepsKeyDistinct(x: GroupRow, s: seq<GroupRow>)
    requires DescendingByTotal(s) && KeyDistinct(s) && x.key !in KeysOf(s)
    ensures KeyDistinct(InsertByTotal(x, s))
    decreases |s|
  {
    if s == [] || x.total >= s[0].total {
      KeyDistinctCons(x, s);
    } else {
      var t := InsertByTotal(x, s[1..]);
      KeyDistinctUncons(s);
      assert s[0] in s;
      assert x.key !in KeysOf(s[1..]) by {
        assert forall e :: e in s[1..] ==> e in s;
      }
      InsertKeepsKeyDistinct(x, s[1..]);
      ElementsOfInsert(t, s[1..], x);
      assert s[0].key !in KeysOf(t);
      KeyDistinctCons(s[0], t);
    }
  }

  /** Sorting a key-distinct frame leaves it key-distinct. */
  lemma {:induction false} SortKeepsKeyDistinct(g: seq<GroupRow>)
    requires KeyDistinct(g)
    ensures KeyDistinct(SortByTotalDescending(g))
  {
    if g != [] {
      KeyDistinctUncons(g);
      SortKeepsKeyDistinct(g[1..]);
      var t := SortByTotalDescending(g[1..]);
      SortKeepsElementsAndSum(g[1..]);
      assert KeysOf(t) == KeysOf(g[1..]);
      InsertKeepsKeyDistinct(g[0], t);
    }
  }

  /** The sorted groups keep every property of the groups that does not depend on
      their order. */
  lemma SortedGroups(rows: seq<Row>, col: GroupColumn, m: Measure)
    ensures var r := SortByTotalDescending(Groups(rows, col, m));
      && KeyDistinct(r)
      && KeysOf(r) == KeySet(rows, col)
      && (forall e :: e in r ==> e.total == TotalWeight(WithKey(rows, col, e.key), m))
  {
    var g := Groups(rows, col, m);
    var r := SortByTotalDescending(g);
    SortKeepsKeyDistinct(g);
    SortKeepsElementsAndSum(g);
    assert KeysOf(r) == KeysOf(g);
  }

  // ---- the two aggregators --------------------------------------------------

  /** Counting `order_id` values counts rows. */
  lemma {:induction false} CountIsLength(rows: seq<Row>)
    ensures TotalWeight(rows, OrderIdCount) == |rows|
  {
    if rows != [] {
      CountIsLength(rows[1..]);
    }
  }

  /** Summing the `price` column is the price sum. */
  lemma {:induction false} SumIsTotalPrice(rows: seq<Row>)
    ensures TotalWeight(rows, PriceSum) == TotalPrice(rows)
  {
    if rows != [] {
      SumIsTotalPrice(rows[1..]);
    }
  }

  /** `create_count_order_items_df(df, col)`: one entry per distinct non-missing key,
      holding the number of rows with that key, largest count first. */
  function CountOrderItems(rows: seq<Row>, col: GroupColumn): (r: seq<GroupRow>)
    ensures DescendingByTotal(r)
    ensures multiset(r) == multiset(Groups(rows, col, OrderIdCount))
    ensures KeyDistinct(r)
    ensures KeysOf(r) == KeySet(rows, col)
    ensures forall e :: e in r ==> e.total == |WithKey(rows, col, e.key)|
  {
    SortedGroups(rows, col, OrderIdCount);
    CountsAreLengths(rows, col);
    SortByTotalDescending(Groups(rows, col, OrderIdCount))
  }

  lemma CountsAreLengths(rows: seq<Row>, col: GroupColumn)
    ensures forall k :: TotalWeight(WithKey(rows, col, k), OrderIdCount) == |WithKey(rows, col, k)|
  {
    forall k {
      CountIsLength(WithKey(rows, col, k));
    }
  }

  lemma PricesAreTotalPrices(rows: seq<Row>, col: GroupColumn)
    ensures forall k :: TotalWeight(WithKey(rows, col, k), PriceSum) == TotalPrice(WithKey(rows, col, k))
  {
    forall k {
      SumIsTotalPrice(WithKey(rows, col, k));
    }
  }

  /** `create_sum_order_items_df(df, col)`: one entry per distinct non-missing key,
      holding the price sum of the rows with that key, largest revenue first. */
  function SumOrderItems(rows: seq<Row>, col: GroupColumn): (r: seq<GroupRow>)
    ensures DescendingByTotal(r)
    ensures multiset(r) == multiset(Groups(rows, col, PriceSum))
    ensures KeyDistinct(r)
    ensures KeysOf(r) == KeySet(rows, col)
    ensures forall e :: e in r ==> e.total == TotalPrice(WithKey(rows, col, e.key))
  {
    SortedGroups(rows, col, PriceSum);
    PricesAreTotalPrices(rows, col);
    SortByTotalDescending(Groups(rows, col, PriceSum))
  }

  // ---- conservation ---------------------------------------------------------

  /** The rows with some key are those with key `k` and those with another key. */
  lemma {:induction false} KeyedSplits(rows: seq<Row>, col: GroupColumn, k: string, m: Measure)
    ensures TotalWeight(Keyed(rows, col), m) ==
      TotalWeight(WithKey(rows, col, k), m) + TotalWeight(Keyed(WithoutKey(rows, col, k), col), m)
  {
    if rows != [] {
      KeyedSplits(rows[1..], col, k, m);
    }
  }

  /** The group totals add up to the aggregate of all rows with a non-missing key. */
  lemma {:induction false} GroupsConserveTotal(rows: seq<Row>, col: GroupColumn, m: Measure)
    ensures SumTotals(Groups(rows, col, m)) == TotalWeight(Keyed(rows, col), m)
    decreases |rows|
  {
    if rows != [] {
      match KeyOf(rows[0], col)
      case None =>
        GroupsConserveTotal(rows[1..], col, m);
      case Some(k) =>
        var rest := WithoutKey(rows[1..], col, k);
        var t := Groups(rest, col, m);
        var h := GroupRow(k, TotalWeight(WithKey(rows, col, k), m));
        assert Groups(rows, col, m) == [h] + t;
        assert ([h] + t)[1..] == t;
        GroupsConserveTotal(rest, col, m);
        KeyedSplits(rows[1..], col, k, m);
    }
  }

  /** The counts add up to the number of rows with a non-missing key. */
  lemma CountsSumToKeyedRows(rows: seq<Row>, col: GroupColumn)
    ensures SumTotals(CountOrderItems(rows, col)) == |Keyed(rows, col)|
  {
    SortKeepsElementsAndSum(Groups(rows, col, OrderIdCount));
    GroupsConserveTotal(rows, col, OrderIdCount);
    CountIsLength(Keyed(rows, col));
  }

  /** The revenues add up to the price sum of the rows with a non-missing key. */
  lemma RevenuesSumToKeyedPrice(rows: seq<Row>, col: GroupColumn)
    ensures SumTotals(SumOrderItems(rows, col)) == TotalPrice(Keyed(rows, col))
  {
    SortKeepsElementsAndSum(Groups(rows, col, PriceSum));
    GroupsConserveTotal(rows, col, PriceSum);
    SumIsTotalPrice(Keyed(rows, col));
  }

  /** A key is present exactly when some row carries it. */
  lemma {:induction false} KeySetMembership(rows: seq<Row>, col: GroupColumn, k: string)
    ensures k in KeySet(rows, col) <==> exists i :: 0 <= i < |rows| && KeyOf(rows[i], col) == Some(k)
  {
    if rows != [] {
      KeySetMembership(rows[1..], col, k);
      if exists i :: 0 <= i < |rows| && KeyOf(rows[i], col) == Some(k) {
        var i :| 0 <= i < |rows| && KeyOf(rows[i], col) == Some(k);
        if i > 0 {
          assert rows[1..][i - 1] == rows[i];
        }
      }
      if k in KeySet(rows[1..], col) {
        var i :| 0 <= i < |rows[1..]| && KeyOf(rows[1..][i], col) == Some(k);
        assert rows[i + 1] == rows[1..][i];
      }
    }
  }

  /** Every group that is listed has at least one row. */
  lemma {:induction false} PresentKeyHasRows(rows: seq<Row>, col: GroupColumn, k: string)
    requires k in KeySet(rows, col)
    ensures |WithKey(rows, col, k)| >= 1
  {
    if KeyOf(rows[0], col) != Some(k) {
      PresentKeyHasRows(rows[1..], col, k);
    }
  }

  /** Each count is at least 1: `groupby` never lists an empty group. */
  lemma CountsArePositive(rows: seq<Row>, col: GroupColumn)
    ensures forall e :: e in CountOrderItems(rows, col) ==> e.total >= 1
  {
    forall e | e in CountOrderItems(rows, col)
      ensures e.total >= 1
    {
      assert e.key in KeysOf(CountOrderItems(rows, col));
      PresentKeyHasRows(rows, col, e.key);
    }
  }

  /** A row whose key is missing changes neither grouped frame. */
  lemma MissingKeyIsDropped(x: Row, rows: seq<Row>, col: GroupColumn)
    requires KeyOf(x, col) == None
    ensures CountOrderItems([x] + rows, col) == CountOrderItems(rows, col)
    ensures SumOrderItems([x] + rows, col) == SumOrderItems(rows, col)
  {
    assert ([x] + rows)[1..] == rows;
  }

  /** No rows (or only rows with missing keys) give no groups. */
  lemma NoKeysNoGroups(rows: seq<Row>, col: GroupColumn)
    requires forall i :: 0 <= i < |rows| ==> KeyOf(rows[i], col) == None
    ensures CountOrderItems(rows, col) == [] && SumOrderItems(rows, col) == []
  {
    forall k
      ensures k !in KeySet(rows, col)
    {
      KeySetMembership(rows, col, k);
    }
    NoKeysEmpty(CountOrderItems(rows, col));
    NoKeysEmpty(SumOrderItems(rows, col));
  }

  lemma NoKeysEmpty(g: seq<GroupRow>)
    requires KeysOf(g) == {}
    ensures g == []
  {
    HeadKeyIsKey(g);
  }

  lemma HeadKeyIsKey(g: seq<GroupRow>)
    ensures g != [] ==> g[0].key in KeysOf(g)
  {
    if g != [] {
      assert g[0] in g;
    }
  }
}
