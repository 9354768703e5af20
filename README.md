# Olist e-commerce dashboard: the aggregation pipeline

The dashboard (`dashboard/dashboard.py`) loads a joined table of order items from
the Olist marketplace. It sorts the table by purchase timestamp and lets the user
pick a date range. It then computes five frames from the filtered table:

- daily orders and revenue;
- item counts per product category;
- revenue per product category;
- item counts per seller city;
- revenue per seller city.

This project models that pipeline in Dafny and proves properties of the model.

- **Rows** (`rows.dfy`): one item row is `Row(orderId, day, timeOfDay, price, category, city)`.
  - `day` is the calendar day. `timeOfDay` is the nanoseconds since midnight, which is pandas' resolution. Together they are `order_purchase_timestamp`.
  - `price` is an integer (centavos), so sums are exact.
  - A missing (NaN) category or city is `None`.
  - A data frame is a sequence of `Labeled(index, row)`. The index label travels with its row when the frame is sorted.
- **Loader** (`loader.dfy`): the in-place part of `load_and_preprocess_data`, which works on an `array`.
  - `sort_values(..., inplace=True)` is modelled by an insertion sort.
  - `reset_index(drop=True, inplace=True)` renumbers the labels.
- **DateFilter** (`datefilter.dfy`): `filter_data`, a boolean mask between two midnights.
- **DailyRollup** (`dailyrollup.dfy`): `create_daily_orders_df`, which is `resample('D')`. It makes one bin per calendar day from the first day present to the last, including empty days. Each bin holds the `nunique` of `order_id` and the `sum` of `price`.
- **GroupRollup** (`grouprollup.dfy`): `create_count_order_items_df` and `create_sum_order_items_df`.
  - First `groupby(col)`, which drops missing keys.
  - Then `count()` or `sum()`.
  - Then `sort_values(ascending=False)`.
- **Scenario** (`scenario.dfy`): a worked example. It has three items of two orders over two days, and one empty frame.

The model follows the code. In three places the code does something other than what a reader of the dashboard might expect:

- **End of the date range.** The end bound is midnight at the start of `end_date`, because `pd.to_datetime` of a date is that date's midnight. The model keeps that bound. See "Findings".
- **Empty days.** Days with no rows between the first and last day are not omitted. `resample('D')` emits them with `order_count = 0` and `revenue = 0`, and the model does the same.
- **Missing keys.** A row whose grouping key is missing is not grouped under a "missing" key. `groupby` drops it.

## Model

| member | source | states |
|---|---|---|
| Rows.InstantFloorIsDay | dashboard/dashboard.py:23 | truncating a purchase timestamp to a day, as daily resampling bins it, gives the row's `day` |
| Rows.InstantOrder | dashboard/dashboard.py:50 | comparing timestamps compares days first, then times of day |
| Rows.TotalPricePermutation | dashboard/dashboard.py:24 | a price sum does not depend on the order of the rows |
| Rows.OrderIdsAtMostRows | dashboard/dashboard.py:24 | there are never more distinct order ids than rows |
| Rows.OrderIdsMembership | dashboard/dashboard.py:24 | an id is among the distinct order ids exactly when some row carries it |
| Rows.OrderIdsPermutation | dashboard/dashboard.py:24 | the distinct order ids do not depend on the order of the rows |
| Loader.SortByPurchaseTimestamp | dashboard/dashboard.py:50 | the array ends non-decreasing by purchase timestamp and holds the same labelled rows, each label still on its row |
| Loader.InsertIntoSortedPrefix | dashboard/dashboard.py:50 | one sorting step: an ascending prefix of length i becomes an ascending prefix of length i+1, the contents are permuted, and everything after position i is unchanged |
| Loader.ResetIndex | dashboard/dashboard.py:51 | afterwards the labels are 0..n-1 and every row stays at its position |
| Loader.LoadAndPreprocess | dashboard/dashboard.py:50-51 | afterwards the frame is ascending by timestamp, indexed 0..n-1, and holds the same rows (as a multiset) |
| Loader.SortedLabelsAreOriginalPositions | dashboard/dashboard.py:49-50 | if the labels were 0..n-1 before the sort, as after reading the CSV, each label after the sort names the original position of its row |
| DateFilter.Between | dashboard/dashboard.py:57-59 | the masked frame is a subsequence of the frame; every row inside the closed interval is kept as often as it occurs, and every other row is dropped |
| DateFilter.FilterData | dashboard/dashboard.py:55-59 | `filter_data` is a subsequence of the frame; a row is kept as often as it occurs exactly when midnight of `start_date` <= timestamp <= midnight of `end_date` |
| DateFilter.InRangeByDays | dashboard/dashboard.py:57-58 | a row is kept iff its day is in `start_date..end_date-1`; a row on `end_date` is kept only if bought at midnight exactly |
| DateFilter.FilterInvertedRangeIsEmpty | dashboard/dashboard.py:57-59 | when `start_date > end_date` no row is kept |
| DateFilter.FilterKeepsTimeOrder | dashboard/dashboard.py:59 | filtering a frame that is ascending by timestamp, as the loader leaves it, gives an ascending frame |
| DateFilter.FilterKeepsIndexOrder | dashboard/dashboard.py:59 | on a 0..n-1 indexed frame the kept labels are strictly increasing, so rows keep their original order |
| DateFilter.SubsequenceKeepsOrder | dashboard/dashboard.py:59 | a subsequence keeps every pairwise order of the sequence it is taken from |
| DateFilter.FilterDropsRestOfEndDay | dashboard/dashboard.py:58 | a row bought on `end_date` just after midnight is dropped by `filter_data` but kept by the corrected filter |
| DateFilter.FilterThroughEndOfDay | dashboard/dashboard.py:58 | corrected filter: a subsequence that keeps a row, as often as it occurs, exactly when its day is in `start_date..end_date` |
| DateFilter.WholeDaysByDays | dashboard/dashboard.py:58 | the corrected bounds (midnight of `start_date` to the last tick of `end_date`) hold exactly the rows of those days |
| DateFilter.FullRangeKeepsEveryRow | dashboard/dashboard.py:140 | with the corrected filter, the sidebar's default range (first day to last day present) keeps the whole frame |
| DailyRollup.BetweenDaysCounts | dashboard/dashboard.py:23 | a day bin keeps each row of its days as often as it occurs and nothing else |
| DailyRollup.BetweenDaysMembership | dashboard/dashboard.py:23 | a row is in the bin of days lo..hi exactly when it is a row bought on one of them |
| DailyRollup.MinDay | dashboard/dashboard.py:23 | the first day present: no row is earlier and some row has it |
| DailyRollup.MaxDay | dashboard/dashboard.py:23 | the last day present: no row is later and some row has it |
| DailyRollup.DaysFrom | dashboard/dashboard.py:22-26 | one entry per day d..hi, consecutive; each holds the distinct order count and the price sum of that day's rows |
| DailyRollup.DailyOrders | dashboard/dashboard.py:20-27 | empty output iff empty input; otherwise one entry per day from the first day present to the last, consecutive (so ascending and without duplicates), each with that day's distinct order count and price sum |
| DailyRollup.DailyRevenueConserved | dashboard/dashboard.py:24 | the daily revenues add up to the price sum of all input rows, which is what "Total Revenue" (line 148) shows |
| DailyRollup.DailyCoversEveryRow | dashboard/dashboard.py:23 | every row's day has its entry, at offset day minus first day |
| DailyRollup.DailyEmptyDayIsZero | dashboard/dashboard.py:23-24 | a day inside the range without rows gets `order_count = 0` and `revenue = 0` |
| DailyRollup.DailyOrderCountAtMostRows | dashboard/dashboard.py:24 | a day's order count is at most its number of rows |
| DailyRollup.DailyOrderCountsCoverOrders | dashboard/dashboard.py:147 | "Total Orders", the sum of the daily counts, is at least the number of distinct orders, and equal to it when no order has rows on two days |
| DailyRollup.SameRowsSameDayRange | dashboard/dashboard.py:23 | the same rows in any order have the same first and last day |
| DailyRollup.SameRowsSameBin | dashboard/dashboard.py:24 | the same rows in any order give each day the same distinct orders and price sum |
| DailyRollup.DailyOrdersIgnoreRowOrder | dashboard/dashboard.py:20-27 | the daily frame depends only on the multiset of rows, not on their order |
| GroupRollup.Groups | dashboard/dashboard.py:33 | `groupby`: no key twice; the keys are exactly the non-missing keys present; each total is the aggregate of exactly the rows with that key |
| GroupRollup.KeyDistinctCons | dashboard/dashboard.py:33 | adding an entry with a new key to a frame without repeated keys keeps it without repeated keys |
| GroupRollup.KeySetWithout | dashboard/dashboard.py:33 | removing one key's rows removes that key, and only it, from the keys present |
| GroupRollup.WithKeyWithout | dashboard/dashboard.py:33 | removing one key's rows leaves every other key's rows unchanged |
| GroupRollup.KeySetMembership | dashboard/dashboard.py:33 | a key is present exactly when some row carries it |
| GroupRollup.InsertByTotal | dashboard/dashboard.py:35 | inserting into a descending frame gives a descending frame with one more element |
| GroupRollup.InsertAddsTotal | dashboard/dashboard.py:35 | inserting adds the inserted total to the sum of totals |
| GroupRollup.SortByTotalDescending | dashboard/dashboard.py:35 | `sort_values(ascending=False)`: non-increasing by total and a permutation of its input |
| GroupRollup.SortKeepsElementsAndSum | dashboard/dashboard.py:43 | sorting keeps the elements and the sum of the value column |
| GroupRollup.InsertKeepsKeyDistinct | dashboard/dashboard.py:35 | inserting an entry with a new key keeps a frame without repeated keys |
| GroupRollup.SortKeepsKeyDistinct | dashboard/dashboard.py:43 | sorting a frame without repeated keys leaves it without repeated keys |
| GroupRollup.SortedGroups | dashboard/dashboard.py:33-35 | the sorted groups keep distinct keys, keep exactly the keys present, and keep each key's aggregate |
| GroupRollup.CountOrderItems | dashboard/dashboard.py:30-36 | in non-increasing order of count, a permutation of the groups, one entry per distinct non-missing key present, each count the number of rows with that key |
| GroupRollup.SumOrderItems | dashboard/dashboard.py:38-44 | in non-increasing order of revenue, a permutation of the groups, one entry per distinct non-missing key present, each revenue the price sum of the rows with that key |
| GroupRollup.KeyedSplits | dashboard/dashboard.py:33 | the aggregate of the keyed rows is that key's aggregate plus the aggregate of the remaining keyed rows |
| GroupRollup.GroupsConserveTotal | dashboard/dashboard.py:33 | the group totals add up to the aggregate of all rows with a non-missing key |
| GroupRollup.CountsSumToKeyedRows | dashboard/dashboard.py:33-35 | the counts add up to the number of rows with a non-missing key |
| GroupRollup.RevenuesSumToKeyedPrice | dashboard/dashboard.py:41-43 | the revenues add up to the price sum of the rows with a non-missing key |
| GroupRollup.CountsArePositive | dashboard/dashboard.py:33 | every listed count is at least 1 |
| GroupRollup.PresentKeyHasRows | dashboard/dashboard.py:33 | a key that is present has at least one row |
| GroupRollup.MissingKeyIsDropped | dashboard/dashboard.py:33 | adding a row whose key is missing changes neither grouped frame |
| GroupRollup.NoKeysNoGroups | dashboard/dashboard.py:41 | rows that all lack the key, including no rows at all, give two empty grouped frames |
| Scenario.ScenarioDaily | dashboard/dashboard.py:20-27 | A, A on day 1 (10 + 5) and B on day 2 (20) give [(day 1, 1 order, 15), (day 2, 1 order, 20)] |
| Scenario.ScenarioCountGroups | dashboard/dashboard.py:33 | counting by category gives the groups books 1 and toys 2, whatever order they are listed in |
| Scenario.ScenarioSumGroups | dashboard/dashboard.py:41 | summing by category gives the groups books 20 and toys 15, whatever order they are listed in |
| Scenario.ScenarioGrouped | dashboard/dashboard.py:30-44 | count by category gives [toys 2, books 1]; revenue by category gives [books 20, toys 15] |
| Scenario.ScenarioFilterLosesEndDay | dashboard/dashboard.py:55-59 | as written, the range [day 2, day 2] drops the item bought at 10:00 on day 2 and keeps nothing |
| Scenario.ScenarioFilteredDaily | dashboard/dashboard.py:58 | with the corrected filter the range [day 2, day 2] keeps only that item, and its daily frame is [(day 2, 1 order, 20)] |
| Scenario.EmptyInputGivesEmptyOutputs | dashboard/dashboard.py:55-59 | an empty frame gives an empty filtered frame, an empty daily frame and empty grouped frames |

## Left out

- Reading `all_data.csv` and parsing its timestamps (`dashboard/dashboard.py:49`): this is file I/O and library parsing. The model starts from rows in memory. A parsed timestamp arrives as a day plus nanoseconds since midnight.
- Everything else is presentation with no behavioural contract, so it is not modelled:
  - the plotting functions (`dashboard/dashboard.py:63-127`);
  - the Streamlit sidebar, metrics, markdown, header, footer and `main` (`dashboard/dashboard.py:130-225`);
  - the global seaborn style (`dashboard/dashboard.py:11`).
- `format_currency` (`dashboard/dashboard.py:148`) is a foreign locale-formatting library. The model proves the sum it formats (`DailyRollup.DailyRevenueConserved`), not the formatting.
- Floating-point prices are modelled as exact integers (centavos), so the model has no rounding in sums.
- Tie order in `sort_values` is not modelled, because pandas' default sort is not stable. This applies to all three sorts (`dashboard/dashboard.py:35`, `43`, `50`).
  - The sorts are specified by sortedness plus permutation. The insertion sorts used in the model happen to break ties one particular way, and nothing relies on that.
  - `Loader.SortByPurchaseTimestamp`: rows with the same timestamp may end in any order.
- Column layout is not modelled:
  - An aggregator's output is a sequence of `(key, total)` or `(day, order_count, revenue)` records.
  - The row index of the grouped frames is not modelled. After `groupby(as_index=False)` it is 0..k-1 in the order of the keys, and `sort_values` carries it along.
  - The `order_purchase_timestamp` column of the daily frame is its day's midnight. The model gives the day number, and `Rows.Midnight` of that day is the column value.
- The model does not state that the functions leave their input unchanged. `filter_data` and the aggregators build new frames, and the model's functions are pure, so they cannot alter their inputs.
- GroupRollup.Groups: the model lists the groups in the order their keys first occur, while pandas `groupby` lists them by ascending key. The result is sorted right after (`dashboard/dashboard.py:35`, `43`), so the two can differ only in the order of tied totals, which is not modelled anyway.
- GroupRollup.GroupColumn: only the two grouping columns the dashboard passes (`dashboard/dashboard.py:178-181`) are modelled. `create_count_order_items_df` and `create_sum_order_items_df` accept any column name and raise `KeyError` for a missing one, but no call site reaches that error.
- `order_delivered_customer_date` and the columns the aggregators do not read are absent from `Row`.
- `count()` counts non-missing `order_id` values. The model counts rows, because every row of the joined table has an `order_id`.

## Findings

| source | as written | input that shows it | evidently intended | confidence | as-written member | corrected member |
|---|---|---|---|---|---|---|
| dashboard/dashboard.py:58 | the end bound of the date range is midnight at the start of `end_date`, so rows bought later that day are dropped; in particular the sidebar's default range [first day, last day] loses the last day's rows after midnight | one row bought on day 10 at 1 ns past midnight, range [10, 10]: `filter_data` keeps nothing | keep every row bought on any day from `start_date` through `end_date` | high; not executed | DateFilter.FilterDropsRestOfEndDay | DateFilter.FilterThroughEndOfDay |
