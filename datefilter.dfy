/** `filter_data`: the rows of the loaded frame whose purchase timestamp lies between
    the midnights of the two dates picked in the sidebar, in their original order and
    with their original index labels (what `df.loc[mask]` returns). */
module DateFilter {
  import opened Rows
  import Loader

  /** `r` is obtained from `s` by deleting elements, keeping the order of the rest. */
  ghost predicate IsSubsequence<T>(r: seq<T>, s: seq<T>)
    decreases |s|
  {
    if r == [] then true
    else if s == [] then false
    else (r[0] == s[0] && IsSubsequence(r[1..], s[1..])) || IsSubsequence(r, s[1..])
  }

  /** The row mask `lo <= order_purchase_timestamp <= hi`. */
  predicate Within(r: Row, lo: int, hi: int)
  {
    lo <= Instant(r) <= hi
  }

  /** The mask of `filter_data`: both bounds are `pd.to_datetime` of a date, i.e. that
      date's midnight. */
  predicate InRange(r: Row, startDate: int, endDate: int)
  {
    Within(r, Midnight(startDate), Midnight(endDate))
  }

  /** `df.loc[lo <= ts & ts <= hi]`: keeps exactly the rows inside the closed
      interval, each as often as it occurs, in the frame's order. */
  function Between(frame: seq<Labeled>, lo: int, hi: int): (r: seq<Labeled>)
    ensures IsSubsequence(r, frame)
    ensures forall x :: multiset(r)[x] == if Within(x.row, lo, hi) then multiset(frame)[x] else 0
  {
    if frame == [] then []
    else
      var rest := Between(frame[1..], lo, hi);
      assert frame == [frame[0]] + frame[1..];
      if Within(frame[0].row, lo, hi) then [frame[0]] + rest else rest
  }

  /** `filter_data(df, start_date, end_date)`. */
  function FilterData(frame: seq<Labeled>, startDate: int, endDate: int): (r: seq<Labeled>)
    ensures IsSubsequence(r, frame)
    ensures forall x :: multiset(r)[x] == if InRange(x.row, startDate, endDate) then multiset(frame)[x] else 0
    ensures forall x :: x in r <==> x in frame && InRange(x.row, startDate, endDate)
  {
    var r := Between(frame, Midnight(startDate), Midnight(endDate));
    assert forall x :: x in r <==> multiset(r)[x] > 0;
    r
  }

  /** Because the end bound is midnight of `endDate`, a row is kept exactly when its
      day is from `startDate` up to the day before `endDate`, or it was bought at
      midnight sharp on `endDate`. */
  lemma InRangeByDays(r: Row, startDate: int, endDate: int)
    ensures InRange(r, startDate, endDate) <==>
      startDate <= r.day && (r.day < endDate || (r.day == endDate && r.timeOfDay == 0))
  {
    InstantWithinDay(r);
    if startDate <= r.day {
      MidnightMonotone(startDate, r.day);
    } else {
      MidnightMonotone(r.day + 1, startDate);
    }
    if r.day < endDate {
      MidnightMonotone(r.day + 1, endDate);
    } else if endDate < r.day {
      MidnightMonotone(endDate + 1, r.day);
    }
  }

  /** An inverted range (`start_date > end_date`) keeps no row. */
  lemma {:induction false} FilterInvertedRangeIsEmpty(frame: seq<Labeled>, startDate: int, endDate: int)
    requires startDate > endDate
    ensures FilterData(frame, startDate, endDate) == []
  {
    var r := FilterData(frame, startDate, endDate);
    if r != [] {
      assert r[0] in r;
      InRangeByDays(r[0].row, startDate, endDate);
      assert false;
    }
  }

  /** Filtering a frame that is ascending by purchase timestamp (as the loader leaves
      it) gives a frame that is still ascending. */
  lemma FilterKeepsTimeOrder(frame: seq<Labeled>, startDate: int, endDate: int)
    requires Loader.AscendingByTime(frame)
    ensures Loader.AscendingByTime(FilterData(frame, startDate, endDate))
  {
    var r := FilterData(frame, startDate, endDate);
    SubsequenceKeepsOrder(r, frame, (x: Labeled, y: Labeled) => Loader.SortKey(x) <= Loader.SortKey(y));
  }

  /** Filtering keeps the rows in their original order: with the index 0..n-1 that
      the loader leaves, the kept labels are strictly increasing. */
  lemma FilterKeepsIndexOrder(frame: seq<Labeled>, startDate: int, endDate: int)
    requires Loader.ContiguousIndex(frame)
    ensures forall i, j :: 0 <= i < j < |FilterData(frame, startDate, endDate)| ==>
      FilterData(frame, startDate, endDate)[i].index < FilterData(frame, startDate, endDate)[j].index
  {
    var r := FilterData(frame, startDate, endDate);
    SubsequenceKeepsOrder(r, frame, (x: Labeled, y: Labeled) => x.index < y.index);
  }

  /** The elements of a subsequence are elements of the sequence. */
  lemma {:induction false} SubsequenceElements<T>(r: seq<T>, s: seq<T>)
    requires IsSubsequence(r, s)
    ensures forall x :: x in r ==> x in s
    decreases |s|
  {
    if r != [] {
      if r[0] == s[0] && IsSubsequence(r[1..], s[1..]) {
        SubsequenceElements(r[1..], s[1..]);
        assert forall x :: x in r ==> x == r[0] || x in r[1..];
      } else {
        SubsequenceElements(r, s[1..]);
      }
    }
  }

  /** A subsequence keeps every pairwise order that the sequence has. */
  lemma {:induction false} SubsequenceKeepsOrder<T>(r: seq<T>, s: seq<T>, before: (T, T) -> bool)
    requires IsSubsequence(r, s)
    requires forall i, j :: 0 <= i < j < |s| ==> before(s[i], s[j])
    ensures forall i, j :: 0 <= i < j < |r| ==> before(r[i], r[j])
    decreases |s|
  {
    if r != [] {
      if r[0] == s[0] && IsSubsequence(r[1..], s[1..]) {
        SubsequenceKeepsOrder(r[1..], s[1..], before);
        SubsequenceElements(r[1..], s[1..]);
        forall j | 0 < j < |r|
          ensures before(r[0], r[j])
        {
          assert r[j] == r[1..][j - 1];
          assert r[j] in s[1..];
          var m :| 0 <= m < |s[1..]| && s[1..][m] == r[j];
          assert s[m + 1] == r[j];
        }
        forall i, j | 0 < i < j < |r|
          ensures before(r[i], r[j])
        {
          assert r[i] == r[1..][i - 1] && r[j] == r[1..][j - 1];
        }
      } else {
        SubsequenceKeepsOrder(r, s[1..], before);
      }
    }
  }

  /** The filter the sidebar's date range evidently asks for: every row bought on any
      day from `startDate` through `endDate`, including the rest of `endDate`. */
  function FilterThroughEndOfDay(frame: seq<Labeled>, startDate: int, endDate: int): (r: seq<Labeled>)
    ensures IsSubsequence(r, frame)
    ensures forall x :: multiset(r)[x] == if startDate <= x.row.day <= endDate then multiset(frame)[x] else 0
  {
    var r := Between(frame, Midnight(startDate), Midnight(endDate + 1) - 1);
    forall x: Labeled
      ensures Within(x.row, Midnight(startDate), Midnight(endDate + 1) - 1) <==> startDate <= x.row.day <= endDate
    {
      WholeDaysByDays(x.row, startDate, endDate);
    }
    r
  }

  lemma WholeDaysByDays(r: Row, startDate: int, endDate: int)
    ensures Within(r, Midnight(startDate), Midnight(endDate + 1) - 1) <==> startDate <= r.day <= endDate
  {
    InstantWithinDay(r);
    if startDate <= r.day {
      MidnightMonotone(startDate, r.day);
    } else {
      MidnightMonotone(r.day + 1, startDate);
    }
    if r.day <= endDate {
      MidnightMonotone(r.day + 1, endDate + 1);
    } else {
      MidnightMonotone(endDate + 1, r.day);
    }
  }

  /** As written, a row bought on `endDate` after midnight is dropped: the sidebar's
      default range [first day, last day] loses the rows of the last day. */
  lemma FilterDropsRestOfEndDay()
    ensures var row := Row("A", 10, 1, 1500, Some("toys"), Some("sao paulo"));
      FilterData([Labeled(0, row)], 10, 10) == [] &&
      FilterThroughEndOfDay([Labeled(0, row)], 10, 10) == [Labeled(0, row)]
  {
    var row := Row("A", 10, 1, 1500, Some("toys"), Some("sao paulo"));
    var frame := [Labeled(0, row)];
    InRangeByDays(row, 10, 10);
    var t := FilterThroughEndOfDay(frame, 10, 10);
    assert multiset(t)[Labeled(0, row)] == 1;
    assert t[0] in multiset(t);
    assert |t| == |multiset(t)|;
    assert multiset(t) == multiset{Labeled(0, row)};
  }

  /** With the intended bound, the range from the earliest to the latest day present
      keeps the whole frame. */
  lemma {:induction false} FullRangeKeepsEveryRow(frame: seq<Labeled>, startDate: int, endDate: int)
    requires forall x :: x in frame ==> startDate <= x.row.day <= endDate
    ensures FilterThroughEndOfDay(frame, startDate, endDate) == frame
  {
    WholeDaysKeepsAll(frame, startDate, endDate);
  }

  lemma {:induction false} WholeDaysKeepsAll(frame: seq<Labeled>, startDate: int, endDate: int)
    requires forall x :: x in frame ==> startDate <= x.row.day <= endDate
    ensures Between(frame, Midnight(startDate), Midnight(endDate + 1) - 1) == frame
  {
    if frame != [] {
      WholeDaysByDays(frame[0].row, startDate, endDate);
      WholeDaysKeepsAll(frame[1..], startDate, endDate);
    }
  }
}
