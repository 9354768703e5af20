/** The worked example of the dashboard's aggregations: three items of two orders,
    order A bought twice on one day in category "toys", order B once on the next day
    in category "books". */
module Scenario {
  import opened Rows
  import DateFilter
  import DailyRollup
  import GroupRollup

  function ItemA1(): Row { Row("A", 19723, 0, 10, Some("toys"), Some("sao paulo")) }
  function ItemA2(): Row { Row("A", 19723, 0, 5, Some("toys"), Some("sao paulo")) }
  function ItemB(): Row { Row("B", 19724, 36_000_000_000_000, 20, Some("books"), Some("curitiba")) }

  function Items(): seq<Row> { [ItemA1(), ItemA2(), ItemB()] }

  /** The first day holds both items of order A. */
  lemma FirstDayBin()
    ensures DailyRollup.RowsOn(Items(), 19723) == [ItemA1(), ItemA2()]
    ensures |OrderIds([ItemA1(), ItemA2()])| == 1 && TotalPrice([ItemA1(), ItemA2()]) == 15
  {
    assert Items()[1..] == [ItemA2(), ItemB()] && Items()[1..][1..] == [ItemB()];
    assert [ItemA1(), ItemA2()][1..] == [ItemA2()] && [ItemA2()][1..] == [];
    assert OrderIds([ItemA1(), ItemA2()]) == {"A"};
  }

  /** The second day holds the item of order B. */
  lemma SecondDayBin()
    ensures DailyRollup.RowsOn(Items(), 19724) == [ItemB()]
    ensures |OrderIds([ItemB()])| == 1 && TotalPrice([ItemB()]) == 20
  {
    assert Items()[1..] == [ItemA2(), ItemB()] && Items()[1..][1..] == [ItemB()];
    assert [ItemB()][1..] == [];
    assert OrderIds([ItemB()]) == {"B"};
  }

  /** The items span two days: the rollup has two entries, the first for the first day. */
  lemma DailyShape()
    ensures |DailyRollup.DailyOrders(Items())| == 2 && DailyRollup.DailyOrders(Items())[0].day == 19723
  {
    var rows := Items();
    assert DailyRollup.MinDay(rows) == 19723 by {
      assert rows[0].day == 19723;
    }
    assert DailyRollup.MaxDay(rows) == 19724 by {
      assert rows[2].day == 19724;
    }
  }

  /** One entry per day, counting the distinct orders and summing the prices. */
  lemma ScenarioDaily()
    ensures DailyRollup.DailyOrders(Items()) ==
      [DailyRollup.DailyRow(19723, 1, 15), DailyRollup.DailyRow(19724, 1, 20)]
  {
    DailyShape();
    FirstDayBin();
    SecondDayBin();
  }

  /** The category groups of the items: "toys" holds the two items of order A and
      "books" the item of order B. */
  lemma CategoryBins()
    ensures GroupRollup.KeyOf(Items()[0], GroupRollup.ProductCategory) == Some("toys")
    ensures GroupRollup.WithKey(Items(), GroupRollup.ProductCategory, "toys") == [ItemA1(), ItemA2()]
    ensures GroupRollup.WithoutKey(Items()[1..], GroupRollup.ProductCategory, "toys") == [ItemB()]
    ensures GroupRollup.WithKey([ItemB()], GroupRollup.ProductCategory, "books") == [ItemB()]
    ensures GroupRollup.WithoutKey([ItemB()][1..], GroupRollup.ProductCategory, "books") == []
    ensures [ItemA1(), ItemA2()][1..] == [ItemA2()] && [ItemA2()][1..] == []
  {
    assert Items()[1..] == [ItemA2(), ItemB()] && Items()[1..][1..] == [ItemB()];
    assert [ItemB()][1..] == [];
  }

  /** The model's count groups by category, before the sort, in the order the model
      lists them (first occurrence). */
  lemma CountGroupsInModelOrder()
    ensures GroupRollup.Groups(Items(), GroupRollup.ProductCategory, GroupRollup.OrderIdCount) ==
      [GroupRollup.GroupRow("toys", 2), GroupRollup.GroupRow("books", 1)]
  {
    var col, m := GroupRollup.ProductCategory, GroupRollup.OrderIdCount;
    CategoryBins();
    assert GroupRollup.TotalWeight([ItemA2()], m) == 1;
    assert GroupRollup.TotalWeight([ItemA1(), ItemA2()], m) == 2;
    assert GroupRollup.Groups([ItemB()], col, m) == [GroupRollup.GroupRow("books", 1)];
  }

  /** The model's revenue groups by category, before the sort, in the order the
      model lists them (first occurrence). */
  lemma SumGroupsInModelOrder()
    ensures GroupRollup.Groups(Items(), GroupRollup.ProductCategory, GroupRollup.PriceSum) ==
      [GroupRollup.GroupRow("toys", 15), GroupRollup.GroupRow("books", 20)]
  {
    var col, m := GroupRollup.ProductCategory, GroupRollup.PriceSum;
    CategoryBins();
    assert GroupRollup.TotalWeight([ItemA2()], m) == 5;
    assert GroupRollup.TotalWeight([ItemA1(), ItemA2()], m) == 15;
    assert GroupRollup.Groups([ItemB()], col, m) == [GroupRollup.GroupRow("books", 20)];
  }

  /** Grouping by category and counting gives "books" 1 and "toys" 2, in whatever
      order the groups are listed. */
  lemma ScenarioCountGroups()
    ensures multiset(GroupRollup.Groups(Items(), GroupRollup.ProductCategory, GroupRollup.OrderIdCount)) ==
      multiset{GroupRollup.GroupRow("books", 1), GroupRollup.GroupRow("toys", 2)}
  {
    CountGroupsInModelOrder();
  }

  /** Grouping by category and summing prices gives "books" 20 and "toys" 15, in
      whatever order the groups are listed. */
  lemma ScenarioSumGroups()
    ensures multiset(GroupRollup.Groups(Items(), GroupRollup.ProductCategory, GroupRollup.PriceSum)) ==
      multiset{GroupRollup.GroupRow("books", 20), GroupRollup.GroupRow("toys", 15)}
  {
    SumGroupsInModelOrder();
  }

  /** The count groups are already in descending order. */
  lemma CountsSorted()
    ensures GroupRollup.SortByTotalDescending([GroupRollup.GroupRow("toys", 2), GroupRollup.GroupRow("books", 1)]) ==
      [GroupRollup.GroupRow("toys", 2), GroupRollup.GroupRow("books", 1)]
  {
    var counts := [GroupRollup.GroupRow("toys", 2), GroupRollup.GroupRow("books", 1)];
    assert counts[1..] == [counts[1]] && [counts[1]][1..] == [];
    assert GroupRollup.SortByTotalDescending(counts[1..]) == counts[1..];
  }

  /** Sorting the revenue groups puts "books" first. */
  lemma SumsSorted()
    ensures GroupRollup.SortByTotalDescending([GroupRollup.GroupRow("toys", 15), GroupRollup.GroupRow("books", 20)]) ==
      [GroupRollup.GroupRow("books", 20), GroupRollup.GroupRow("toys", 15)]
  {
    var sums := [GroupRollup.GroupRow("toys", 15), GroupRollup.GroupRow("books", 20)];
    assert sums[1..] == [sums[1]] && [sums[1]][1..] == [];
    assert GroupRollup.SortByTotalDescending(sums[1..]) == sums[1..];
    assert GroupRollup.InsertByTotal(sums[0], []) == [sums[0]];
  }

  /** Categories by item count, largest first, and by revenue, largest first. */
  lemma ScenarioGrouped()
    ensures GroupRollup.CountOrderItems(Items(), GroupRollup.ProductCategory) ==
      [GroupRollup.GroupRow("toys", 2), GroupRollup.GroupRow("books", 1)]
    ensures GroupRollup.SumOrderItems(Items(), GroupRollup.ProductCategory) ==
      [GroupRollup.GroupRow("books", 20), GroupRollup.GroupRow("toys", 15)]
  {
    CountGroupsInModelOrder();
    SumGroupsInModelOrder();
    CountsSorted();
    SumsSorted();
  }

  /** The loaded frame: the items in purchase order, indexed 0, 1, 2. */
  function Frame(): seq<Labeled>
  {
    [Labeled(0, ItemA1()), Labeled(1, ItemA2()), Labeled(2, ItemB())]
  }

  /** As written, the range [second day, second day] keeps nothing: the third item
      was bought at 10:00, after the end bound. */
  lemma ScenarioFilterLosesEndDay()
    ensures DateFilter.FilterData(Frame(), 19724, 19724) == []
  {
    var f := Frame();
    assert f[1..] == [Labeled(1, ItemA2()), Labeled(2, ItemB())];
    assert f[1..][1..] == [Labeled(2, ItemB())];
    assert [Labeled(2, ItemB())][1..] == [];
    DateFilter.InRangeByDays(ItemB(), 19724, 19724);
  }

  /** Filtering through the end of the day, the range [second day, second day] keeps
      only the third item, and its daily rollup is the single second day. */
  lemma ScenarioFilteredDaily()
    ensures DateFilter.FilterThroughEndOfDay(Frame(), 19724, 19724) == [Labeled(2, ItemB())]
    ensures DailyRollup.DailyOrders(RowsOf(DateFilter.FilterThroughEndOfDay(Frame(), 19724, 19724))) ==
      [DailyRollup.DailyRow(19724, 1, 20)]
  {
    var f := Frame();
    assert f[1..] == [Labeled(1, ItemA2()), Labeled(2, ItemB())];
    assert f[1..][1..] == [Labeled(2, ItemB())];
    assert [Labeled(2, ItemB())][1..] == [];
    DateFilter.WholeDaysByDays(ItemA1(), 19724, 19724);
    DateFilter.WholeDaysByDays(ItemA2(), 19724, 19724);
    DateFilter.WholeDaysByDays(ItemB(), 19724, 19724);
    var b := [Labeled(2, ItemB())];
    assert DateFilter.FilterThroughEndOfDay(f, 19724, 19724) == b;
    assert RowsOf(b) == [ItemB()];
    assert DailyRollup.RowsOn([ItemB()], 19724) == [ItemB()];
  }

  /** An empty frame gives empty results everywhere. */
  lemma EmptyInputGivesEmptyOutputs(startDate: int, endDate: int, col: GroupRollup.GroupColumn)
    ensures DateFilter.FilterData([], startDate, endDate) == []
    ensures DailyRollup.DailyOrders([]) == []
    ensures GroupRollup.CountOrderItems([], col) == []
    ensures GroupRollup.SumOrderItems([], col) == []
  {
    GroupRollup.NoKeysNoGroups([], col);
  }
}
