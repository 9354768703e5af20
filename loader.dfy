/** The in-place preprocessing of `load_and_preprocess_data`: sort the frame by
    purchase timestamp, then replace its index by 0, 1, ..., n-1.  Reading the CSV
    file and parsing its timestamps are not part of this model: the frame arrives
    as an array of labelled rows. */
module Loader {
  import opened Rows

  /** The sort key of `sort_values(by="order_purchase_timestamp")`. */
  function SortKey(x: Labeled): int
  {
    Instant(x.row)
  }

  /** A frame whose rows are non-decreasing by purchase timestamp. */
  ghost predicate AscendingByTime(f: seq<Labeled>)
  {
    forall i, j :: 0 <= i < j < |f| ==> SortKey(f[i]) <= SortKey(f[j])
  }

  /** A frame whose index is the range 0, 1, ..., n-1. */
  ghost predicate ContiguousIndex(f: seq<Labeled>)
  {
    forall i :: 0 <= i < |f| ==> f[i].index == i
  }

  /** `df.sort_values(by="order_purchase_timestamp", inplace=True)`: the rows are
      reordered, each keeping its index label. */
  method SortByPurchaseTimestamp(frame: array<Labeled>)
    modifies frame
    ensures AscendingByTime(frame[..])
    ensures multiset(frame[..]) == multiset(old(frame[..]))
  {
    var i := 0;
    while i < frame.Length
      invariant 0 <= i <= frame.Length
      invariant forall p, q :: 0 <= p < q < i ==> SortKey(frame[p]) <= SortKey(frame[q])
      invariant multiset(frame[..]) == multiset(old(frame[..]))
    {
      InsertIntoSortedPrefix(frame, i);
      i := i + 1;
    }
  }

  /** One step of the sort: moves `frame[i]` left until `frame[..i+1]` is ascending. */
  method InsertIntoSortedPrefix(frame: array<Labeled>, i: int)
    requires 0 <= i < frame.Length
    requires forall p, q :: 0 <= p < q < i ==> SortKey(frame[p]) <= SortKey(frame[q])
    modifies frame
    ensures forall p, q :: 0 <= p < q <= i ==> SortKey(frame[p]) <= SortKey(frame[q])
    ensures multiset(frame[..]) == multiset(old(frame[..]))
    ensures frame[i + 1..] == old(frame[i + 1..])
  {
    var j := i;
    while j > 0 && SortKey(frame[j - 1]) > SortKey(frame[j])
      invariant 0 <= j <= i
      invariant forall p, q :: 0 <= p < q <= i && p != j && q != j ==> SortKey(frame[p]) <= SortKey(frame[q])
      invariant forall q :: j < q <= i ==> SortKey(frame[j]) <= SortKey(frame[q])
      invariant multiset(frame[..]) == multiset(old(frame[..]))
      invariant frame[i + 1..] == old(frame[i + 1..])
    {
      Swap(frame, j - 1, j);
      j := j - 1;
    }
  }

  method Swap(frame: array<Labeled>, i: int, j: int)
    requires 0 <= i < j < frame.Length
    modifies frame
    ensures frame[i] == old(frame[j]) && frame[j] == old(frame[i])
    ensures forall p :: 0 <= p < frame.Length && p != i && p != j ==> frame[p] == old(frame[p])
    ensures multiset(frame[..]) == multiset(old(frame[..]))
  {
    frame[i], frame[j] := frame[j], frame[i];
  }

  /** `df.reset_index(drop=True, inplace=True)`: every row stays where it is and
      the old labels are replaced by the positions. */
  method ResetIndex(frame: array<Labeled>)
    modifies frame
    ensures ContiguousIndex(frame[..])
    ensures forall i :: 0 <= i < frame.Length ==> frame[i].row == old(frame[i].row)
  {
    for i := 0 to frame.Length
      invariant forall p :: 0 <= p < i ==> frame[p] == Labeled(p, old(frame[p].row))
      invariant forall p :: i <= p < frame.Length ==> frame[p] == old(frame[p])
    {
      frame[i] := Labeled(i, frame[i].row);
    }
  }

  /** The preprocessing after the file is read: afterwards the frame holds the same
      rows, ascending by purchase timestamp, indexed 0..n-1. */
  method LoadAndPreprocess(frame: array<Labeled>)
    modifies frame
    ensures AscendingByTime(frame[..])
    ensures ContiguousIndex(frame[..])
    ensures multiset(RowsOf(frame[..])) == multiset(RowsOf(old(frame[..])))
  {
    SortByPurchaseTimestamp(frame);
    ghost var sorted := frame[..];
    ResetIndex(frame);
    RowsOfPermutation(sorted, old(frame[..]));
    assert RowsOf(frame[..]) == RowsOf(sorted) by {
      RowsOfPointwise(frame[..], sorted);
    }
  }

  /** Two frames with the same rows position by position project to the same rows. */
  lemma {:induction false} RowsOfPointwise(f: seq<Labeled>, g: seq<Labeled>)
    requires |f| == |g|
    requires forall i :: 0 <= i < |f| ==> f[i].row == g[i].row
    ensures RowsOf(f) == RowsOf(g)
  {
    if f != [] {
      RowsOfPointwise(f[1..], g[1..]);
    }
  }

  /** When the labels were the positions 0..n-1 before the sort (as `read_csv` makes
      them), each label after the sort names the original position of its row. */
  lemma SortedLabelsAreOriginalPositions(before: seq<Labeled>, after: seq<Labeled>, i: int)
    requires ContiguousIndex(before)
    requires multiset(after) == multiset(before)
    requires 0 <= i < |after|
    ensures 0 <= after[i].index < |before|
    ensures before[after[i].index].row == after[i].row
  {
    assert after[i] in multiset(before);
    var j :| 0 <= j < |before| && before[j] == after[i];
  }
}
