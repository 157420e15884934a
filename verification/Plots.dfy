/**
 deploy/test_results_db/test_results_handler.py: how `generate_and_save_plots_pdf` prepares one series of one
 subplot: padding to one row per report, filling isolated gaps, y limits, and which points get a label.
 Numbers are exact; drawing is not part of this model.
 */
module Plots {
  import opened Wrappers
  import opened Lists

  /** A cell of a table column; a missing one is pandas' NaN or None. */
  datatype Cell = Missing | Num(value: real) | Text(text: string)

  // ---------------------------------------------------------------- gap filling

  predicate Truthy(c: Cell) {
    (c.Num? && c.value != 0.0) || (c.Text? && c.text != "")
  }

  /** The average, or for non-numerical cells `above_value or below_value`. */
  function Between(above: Cell, below: Cell): Cell {
    if above.Num? && below.Num? then Num((above.value + below.value) / 2.0)
    else if Truthy(above) then above else below
  }

  /** An isolated gap: an inner missing cell whose two neighbours are present. */
  predicate IsGap(column: seq<Cell>, i: nat) {
    0 < i < |column| - 1 && column[i].Missing? && !column[i - 1].Missing? && !column[i + 1].Missing?
  }

  /** All isolated gaps filled at once, from the original neighbours. */
  function Filled(column: seq<Cell>): seq<Cell> {
    seq(|column|, i requires 0 <= i < |column| =>
      if IsGap(column, i) then Between(column[i - 1], column[i + 1]) else column[i])
  }

  /** The left-to-right loop, which reads cells it may have filled itself, fills as if all at once. */
  method FillGaps(column: array<Cell>)
    modifies column
    ensures column[..] == Filled(old(column[..]))
  {
    ghost var was := column[..];
    if column.Length < 2 {
      return;
    }
    for i := 1 to column.Length - 1
      invariant forall j | 0 <= j < i :: column[j] == Filled(was)[j]
      invariant forall j | i <= j < column.Length :: column[j] == was[j]
    {
      if column[i].Missing? {
        var aboveValue := column[i - 1];
        var belowValue := column[i + 1];
        if !aboveValue.Missing? && !belowValue.Missing? {
          column[i] := Between(aboveValue, belowValue);
        }
      }
    }
  }

  /** What an isolated gap is filled with: the midpoint of two numbers; otherwise the cell above, or the cell below
      when the one above is the empty text or zero. */
  lemma GapFilledWith(column: seq<Cell>, i: nat)
    requires IsGap(column, i)
    ensures var (above, below, filled) := (column[i - 1], column[i + 1], Filled(column)[i]);
            && (above.Num? && below.Num? ==> filled.Num? && 2.0 * filled.value == above.value + below.value)
            && (above.Text? && above.text != "" ==> filled == above)
            && (above == Text("") ==> filled == below)
            && (above.Num? && below.Text? ==> filled == if above.value == 0.0 then below else above)
  {
  }

  /** A second pass finds nothing to fill. */
  lemma FillTwice(column: seq<Cell>)
    ensures Filled(Filled(column)) == Filled(column)
  {
    var once := Filled(column);
    forall i | 0 <= i < |column|
      ensures !IsGap(once, i)
    {
      if 0 < i < |column| - 1 {
        assert column[i].Missing? ==> once[i - 1] == column[i - 1] && once[i + 1] == column[i + 1];
      }
    }
  }

  // ---------------------------------------------------------------- padding and sorting

  datatype Row = Row(timestamp: int, tag: string, value: Cell)

  function Stamps(rows: seq<Row>): (s: seq<int>)
    ensures |s| == |rows|
  {
    seq(|rows|, i requires 0 <= i < |rows| => rows[i].timestamp)
  }

  predicate HasStamp(rows: seq<Row>, t: int) {
    exists k | 0 <= k < |rows| :: rows[k].timestamp == t
  }

  /** At most one row per timestamp. */
  ghost predicate OncePerStamp(rows: seq<Row>) {
    forall i, j | 0 <= i < j < |rows| :: rows[i].timestamp != rows[j].timestamp
  }

  predicate Ascending(s: seq<int>) {
    forall i, j | 0 <= i < j < |s| :: s[i] < s[j]
  }

  /** The rows the loop appends for the first n timestamps. */
  function Padding(rows: seq<Row>, stamps: seq<int>, labels: seq<string>, n: nat): seq<Row>
    requires n <= |stamps| == |labels|
  {
    if n == 0 then []
    else
      Padding(rows, stamps, labels, n - 1) +
      if HasStamp(rows, stamps[n - 1]) then [] else [Row(stamps[n - 1], labels[n - 1], Missing)]
  }

  function Padded(rows: seq<Row>, stamps: seq<int>, labels: seq<string>): seq<Row>
    requires |stamps| == |labels|
  {
    if |stamps| == |rows| then rows else rows + Padding(rows, stamps, labels, |stamps|)
  }

  /** A padding row for one of the first n timestamps. */
  ghost predicate IsPad(row: Row, rows: seq<Row>, stamps: seq<int>, labels: seq<string>, n: nat)
    requires n <= |stamps| == |labels|
  {
    exists i :: 0 <= i < n && row == Row(stamps[i], labels[i], Missing) && !HasStamp(rows, stamps[i])
  }

  lemma {:induction false} PaddingRows(rows: seq<Row>, stamps: seq<int>, labels: seq<string>, n: nat)
    requires n <= |stamps| == |labels| && Ascending(stamps)
    ensures var padding := Padding(rows, stamps, labels, n);
            && (forall k | 0 <= k < |padding| :: IsPad(padding[k], rows, stamps, labels, n))
            && OncePerStamp(padding)
            && (forall i | 0 <= i < n :: HasStamp(rows, stamps[i]) || HasStamp(padding, stamps[i]))
  {
    if n > 0 {
      PaddingRows(rows, stamps, labels, n - 1);
      var before := Padding(rows, stamps, labels, n - 1);
      var padding := Padding(rows, stamps, labels, n);
      forall k | 0 <= k < |padding|
        ensures IsPad(padding[k], rows, stamps, labels, n)
      {
        if k < |before| {
          assert IsPad(before[k], rows, stamps, labels, n - 1);
        }
      }
      forall i | 0 <= i < n
        ensures HasStamp(rows, stamps[i]) || HasStamp(padding, stamps[i])
      {
        if i < n - 1 && !HasStamp(rows, stamps[i]) {
          var k :| 0 <= k < |before| && before[k].timestamp == stamps[i];
          assert padding[k].timestamp == stamps[i];
        } else if !HasStamp(rows, stamps[i]) {
          assert padding[|before|].timestamp == stamps[i];
        }
      }
    }
  }

  /** The loop tests each timestamp against the growing table, padding rows included. */
  method PadRows(rows: seq<Row>, stamps: seq<int>, labels: seq<string>) returns (dataSubset: seq<Row>)
    requires |stamps| == |labels| && Ascending(stamps)
    ensures dataSubset == Padded(rows, stamps, labels)
  {
    dataSubset := rows;
    var needToAddRows := |stamps| - |rows|;
    if needToAddRows != 0 {
      for i := 0 to |stamps|
        invariant dataSubset == rows + Padding(rows, stamps, labels, i)
      {
        GrowingTable(rows, stamps, labels, i);
        if !HasStamp(dataSubset, stamps[i]) {
          dataSubset := dataSubset + [Row(stamps[i], labels[i], Missing)];
        }
      }
    }
  }

  lemma GrowingTable(rows: seq<Row>, stamps: seq<int>, labels: seq<string>, i: nat)
    requires i < |stamps| == |labels| && Ascending(stamps)
    ensures HasStamp(rows + Padding(rows, stamps, labels, i), stamps[i]) <==> HasStamp(rows, stamps[i])
  {
    PaddingRows(rows, stamps, labels, i);
    var padding := Padding(rows, stamps, labels, i);
    var table := rows + padding;
    forall k | 0 <= k < |table|
      ensures !HasStamp(rows, stamps[i]) ==> table[k].timestamp != stamps[i]
    {
      if k >= |rows| {
        assert IsPad(padding[k - |rows|], rows, stamps, labels, i);
      } else {
        assert table[k] == rows[k];
      }
    }
    if HasStamp(rows, stamps[i]) {
      var k :| 0 <= k < |rows| && rows[k].timestamp == stamps[i];
      assert table[k].timestamp == stamps[i];
    }
  }

  /** sort_values(by='timestamp'). */
  function SortRows(rows: seq<Row>): seq<Row> {
    SortBy((a: Row, b: Row) => a.timestamp <= b.timestamp, rows)
  }

  lemma SortRowsSorts(rows: seq<Row>)
    ensures forall i, j | 0 <= i < j < |SortRows(rows)| :: SortRows(rows)[i].timestamp <= SortRows(rows)[j].timestamp
    ensures multiset(SortRows(rows)) == multiset(rows)
  {
    var before := (a: Row, b: Row) => a.timestamp <= b.timestamp;
    SortSorts(before, rows);
    SortPermutes(before, rows);
    assert Sorted(before, SortRows(rows));
  }

  /** A permutation of a table with one row per timestamp has one row per timestamp. */
  lemma PermutedOnce(a: seq<Row>, b: seq<Row>)
    requires OncePerStamp(a) && multiset(a) == multiset(b)
    ensures OncePerStamp(b)
  {
    PermutedDistinct(a, b);
    PermutedMembers(a, b);
    forall i, j | 0 <= i < j < |b|
      ensures b[i].timestamp != b[j].timestamp
    {
      assert b[i] in b && b[j] in b;
    }
  }

  /** An ascending list inside another one is not longer, and of equal length only if it is the same list. */
  lemma {:induction false} AscendingWithin(a: seq<int>, b: seq<int>)
    requires Ascending(a) && Ascending(b) && forall x | x in a :: x in b
    ensures |a| <= |b| && (|a| == |b| ==> a == b)
  {
    if a != [] {
      var (a0, x) := (a[..|a| - 1], a[|a| - 1]);
      assert x in b;
      var (b0, y) := (b[..|b| - 1], b[|b| - 1]);
      assert a == a0 + [x] && b == b0 + [y];
      if x == y {
        forall z | z in a0
          ensures z in b0
        {
          assert z in a && z < x;
        }
        AscendingWithin(a0, b0);
      } else {
        AscendingWithin(a, b0);
      }
    }
  }

  /** The row belongs to a known timestamp and carries its tick label. */
  ghost predicate FromReport(row: Row, stamps: seq<int>, labels: seq<string>)
    requires |stamps| == |labels|
  {
    exists i :: 0 <= i < |stamps| && row.timestamp == stamps[i] && row.tag == labels[i]
  }

  ghost predicate FromReports(rows: seq<Row>, stamps: seq<int>, labels: seq<string>)
    requires |stamps| == |labels|
  {
    forall k | 0 <= k < |rows| :: FromReport(rows[k], stamps, labels)
  }

  lemma PaddedRows(rows: seq<Row>, stamps: seq<int>, labels: seq<string>)
    requires |stamps| == |labels| && Ascending(stamps) && FromReports(rows, stamps, labels)
    ensures FromReports(Padded(rows, stamps, labels), stamps, labels)
    ensures OncePerStamp(rows) <==> OncePerStamp(Padded(rows, stamps, labels))
    ensures |stamps| != |rows| ==> forall i | 0 <= i < |stamps| :: HasStamp(Padded(rows, stamps, labels), stamps[i])
  {
    PaddingRows(rows, stamps, labels, |stamps|);
    if |stamps| != |rows| {
      var padding := Padding(rows, stamps, labels, |stamps|);
      var table := rows + padding;
      forall k | 0 <= k < |table|
        ensures FromReport(table[k], stamps, labels)
      {
        if k < |rows| {
          assert table[k] == rows[k];
        } else {
          assert IsPad(padding[k - |rows|], rows, stamps, labels, |stamps|);
        }
      }
      assert OncePerStamp(table) ==> OncePerStamp(rows) by {
        assert forall k | 0 <= k < |rows| :: table[k] == rows[k];
      }
      if OncePerStamp(rows) {
        forall i, j | 0 <= i < j < |table|
          ensures table[i].timestamp != table[j].timestamp
        {
          if i < |rows| <= j {
            assert IsPad(padding[j - |rows|], rows, stamps, labels, |stamps|);
            assert rows[i].timestamp == table[i].timestamp;
          }
        }
      }
      forall i | 0 <= i < |stamps|
        ensures HasStamp(table, stamps[i])
      {
        if HasStamp(rows, stamps[i]) {
          var k :| 0 <= k < |rows| && rows[k].timestamp == stamps[i];
          assert table[k].timestamp == stamps[i];
        } else {
          var k :| 0 <= k < |padding| && padding[k].timestamp == stamps[i];
          assert table[|rows| + k].timestamp == stamps[i];
        }
      }
    }
  }

  lemma SortedTable(rows: seq<Row>, stamps: seq<int>, labels: seq<string>)
    requires |stamps| == |labels| && FromReports(rows, stamps, labels)
    ensures FromReports(SortRows(rows), stamps, labels) && |SortRows(rows)| == |rows|
    ensures forall t :: HasStamp(rows, t) ==> t in Stamps(SortRows(rows))
  {
    var sorted := SortRows(rows);
    SortRowsSorts(rows);
    assert |multiset(sorted)| == |multiset(rows)|;
    forall k | 0 <= k < |sorted|
      ensures FromReport(sorted[k], stamps, labels)
    {
      assert sorted[k] in multiset(sorted);
      assert sorted[k] in rows;
    }
    forall t | HasStamp(rows, t)
      ensures t in Stamps(sorted)
    {
      var k :| 0 <= k < |rows| && rows[k].timestamp == t;
      assert rows[k] in multiset(sorted);
      var m :| 0 <= m < |sorted| && sorted[m] == rows[k];
      assert Stamps(sorted)[m] == t;
    }
  }

  lemma SingleRowsAlign(rows: seq<Row>, stamps: seq<int>, labels: seq<string>)
    requires |stamps| == |labels| && Ascending(stamps) && FromReports(rows, stamps, labels) && OncePerStamp(rows)
    ensures Stamps(SortRows(Padded(rows, stamps, labels))) == stamps
  {
    var table := Padded(rows, stamps, labels);
    var sorted := SortRows(table);
    var found := Stamps(sorted);
    PaddedRows(rows, stamps, labels);
    SortRowsSorts(table);
    SortedTable(table, stamps, labels);
    PermutedOnce(table, sorted);
    forall x | x in found
      ensures x in stamps
    {
      var k :| 0 <= k < |found| && found[k] == x;
      assert sorted[k].timestamp == x;
    }
    AscendingWithin(found, stamps);
    if |stamps| != |rows| {
      forall t | t in stamps
        ensures t in found
      {
        assert HasStamp(table, t);
      }
      AscendingWithin(stamps, found);
    }
  }

  lemma AlignedRowsAreSingle(rows: seq<Row>, stamps: seq<int>, labels: seq<string>)
    requires |stamps| == |labels| && Ascending(stamps) && FromReports(rows, stamps, labels)
    requires Stamps(SortRows(Padded(rows, stamps, labels))) == stamps
    ensures OncePerStamp(rows)
  {
    var table := Padded(rows, stamps, labels);
    var sorted := SortRows(table);
    PaddedRows(rows, stamps, labels);
    SortRowsSorts(table);
    assert forall k | 0 <= k < |sorted| :: sorted[k].timestamp == Stamps(sorted)[k];
    PermutedOnce(sorted, table);
  }

  lemma AlignedTags(sorted: seq<Row>, stamps: seq<int>, labels: seq<string>)
    requires |stamps| == |labels| && Ascending(stamps) && FromReports(sorted, stamps, labels)
    requires Stamps(sorted) == stamps
    ensures forall i | 0 <= i < |sorted| :: sorted[i].tag == labels[i]
  {
    forall k | 0 <= k < |sorted|
      ensures sorted[k].tag == labels[k]
    {
      assert FromReport(sorted[k], stamps, labels) && Stamps(sorted)[k] == sorted[k].timestamp;
      var i :| 0 <= i < |stamps| && sorted[k].timestamp == stamps[i] && sorted[k].tag == labels[i];
    }
  }

  /** Every row of the padded table is one of the action's own, or an empty one for a timestamp the action lacks. */
  lemma OwnOrEmpty(rows: seq<Row>, stamps: seq<int>, labels: seq<string>)
    requires |stamps| == |labels| && Ascending(stamps)
    ensures forall row | row in SortRows(Padded(rows, stamps, labels)) ::
              row in rows || (row.value == Missing && !HasStamp(rows, row.timestamp))
    ensures forall row | row in rows :: row in SortRows(Padded(rows, stamps, labels))
  {
    var table := Padded(rows, stamps, labels);
    var padding := Padding(rows, stamps, labels, |stamps|);
    SortRowsSorts(table);
    PermutedMembers(table, SortRows(table));
    PaddingRows(rows, stamps, labels, |stamps|);
    forall row | row in padding
      ensures row.value == Missing && !HasStamp(rows, row.timestamp)
    {
      var k :| 0 <= k < |padding| && padding[k] == row;
      assert IsPad(padding[k], rows, stamps, labels, |stamps|);
    }
  }

  /** After padding and sorting, row i has timestamp i for every i exactly when the action had at most one row
      per timestamp; and then row i also carries tick label i. */
  lemma RowsAlignWithTicks(rows: seq<Row>, stamps: seq<int>, labels: seq<string>)
    requires |stamps| == |labels| && Ascending(stamps) && FromReports(rows, stamps, labels)
    ensures var sorted := SortRows(Padded(rows, stamps, labels));
            && (Stamps(sorted) == stamps <==> OncePerStamp(rows))
            && (OncePerStamp(rows) ==>
                 |sorted| == |labels| && forall i | 0 <= i < |sorted| :: sorted[i].tag == labels[i])
  {
    var sorted := SortRows(Padded(rows, stamps, labels));
    if OncePerStamp(rows) {
      SingleRowsAlign(rows, stamps, labels);
      assert |Stamps(sorted)| == |stamps|;
      PaddedRows(rows, stamps, labels);
      SortedTable(Padded(rows, stamps, labels), stamps, labels);
      AlignedTags(sorted, stamps, labels);
    } else if Stamps(sorted) == stamps {
      AlignedRowsAreSingle(rows, stamps, labels);
    }
  }

  /** The other case does occur: two rows at one timestamp. */
  lemma TwoRowsOneTimestamp(rows: seq<Row>, stamps: seq<int>, labels: seq<string>)
    requires rows == [Row(1, "v1.0.0", Num(1.0)), Row(1, "v1.0.0", Num(2.0))] && stamps == [1] && labels == ["v1.0.0"]
    ensures FromReports(rows, stamps, labels) && Stamps(SortRows(Padded(rows, stamps, labels))) != stamps
  {
    forall k | 0 <= k < |rows|
      ensures FromReport(rows[k], stamps, labels)
    {
      assert rows[k].timestamp == stamps[0] && rows[k].tag == labels[0];
    }
    assert rows[0].timestamp == rows[1].timestamp;
    RowsAlignWithTicks(rows, stamps, labels);
  }

  // ---------------------------------------------------------------- y limits

  function MinOf(values: seq<real>): (m: real)
    requires values != []
    ensures m in values && forall v | v in values :: m <= v
  {
    if |values| == 1 then values[0]
    else
      var m := MinOf(values[1..]);
      assert values == [values[0]] + values[1..];
      if values[0] <= m then values[0] else m
  }

  function MaxOf(values: seq<real>): (m: real)
    requires values != []
    ensures m in values && forall v | v in values :: v <= m
  {
    if |values| == 1 then values[0]
    else
      var m := MaxOf(values[1..]);
      assert values == [values[0]] + values[1..];
      if values[0] >= m then values[0] else m
  }

  function Abs(x: real): real {
    if x < 0.0 then -x else x
  }

  /** The limits of one metric of one action, from the values present. */
  function YLimits(values: seq<real>): (real, real)
    requires values != []
  {
    var (minVal, maxVal) := (MinOf(values), MaxOf(values));
    var rangeVal := maxVal - minVal;
    if rangeVal == 0.0 then (minVal - Abs(minVal) * 0.5, maxVal + Abs(maxVal) * 0.5)
    else (minVal - rangeVal * 0.5, maxVal + rangeVal * 0.5)
  }

  /** The limits are half the spread outside the least and the greatest value; without a spread, half the value's
      size. */
  lemma LimitsWritten(values: seq<real>, least: real, greatest: real)
    requires least in values && greatest in values && forall v | v in values :: least <= v <= greatest
    ensures var (lo, hi) := YLimits(values);
            if least < greatest then 2.0 * lo == 3.0 * least - greatest && 2.0 * hi == 3.0 * greatest - least
            else if least < 0.0 then 2.0 * lo == 3.0 * least && 2.0 * hi == least
            else 2.0 * lo == least && 2.0 * hi == 3.0 * least
  {
    assert MinOf(values) == least && MaxOf(values) == greatest;
  }

  /** Every number plotted, an original one or one filled into a gap, lies within the limits; and when there is
      a spread, every original one is at least half the spread away from them. */
  lemma PointsWithinLimits(column: seq<Cell>, values: seq<real>, i: nat)
    requires values != [] && forall j | 0 <= j < |column| && column[j].Num? :: column[j].value in values
    requires forall j | 0 <= j < |column| :: !column[j].Text?
    requires i < |column| && Filled(column)[i].Num?
    ensures var (lo, hi) := YLimits(values);
            && lo <= Filled(column)[i].value <= hi
            && (lo == hi ==> lo == 0.0)
            && (MinOf(values) < MaxOf(values) && column[i].Num? ==>
                 var half := (MaxOf(values) - MinOf(values)) * 0.5;
                 lo + half <= column[i].value <= hi - half)
  {
    if IsGap(column, i) {
      assert column[i - 1].value in values && column[i + 1].value in values;
    } else {
      assert column[i].value in values;
    }
  }

  // ---------------------------------------------------------------- labels

  datatype Color = Red | Blue
  datatype Label = Label(x: nat, value: real, color: Color)

  type Series = seq<Option<real>>

  /** Points y and x are present and nothing between them is. */
  ghost predicate Consecutive(series: Series, y: int, x: int) {
    0 <= y < x < |series| && series[y].Some? && series[x].Some? && forall z | y < z < x :: series[z].None?
  }

  ghost predicate DiffersFromPrevious(series: Series, x: nat) {
    exists y :: Consecutive(series, y, x) && series[y] != series[x]
  }

  ghost predicate DiffersFromNext(series: Series, x: nat) {
    exists z :: Consecutive(series, x, z) && series[z] != series[x]
  }

  function CountAt(labels: seq<Label>, x: nat): nat {
    if labels == [] then 0
    else CountAt(labels[..|labels| - 1], x) + if labels[|labels| - 1].x == x then 1 else 0
  }

  ghost function Expected(series: Series, x: nat): nat {
    if DiffersFromPrevious(series, x) || DiffersFromNext(series, x) then 1 else 0
  }

  /** A label carries the value of its own point, and is red exactly if that point differs from the previous. */
  ghost predicate RightLabel(series: Series, l: Label) {
    && l.x < |series| && series[l.x] == Some(l.value)
    && (l.color == Red <==> DiffersFromPrevious(series, l.x))
  }

  lemma CountAppend(labels: seq<Label>, l: Label)
    ensures forall x: nat :: CountAt(labels + [l], x) == CountAt(labels, x) + if l.x == x then 1 else 0
  {
    assert (labels + [l])[..|labels|] == labels;
  }

  /** Point p is the last one before i. */
  ghost predicate LastBefore(series: Series, p: nat, i: nat) {
    p < i <= |series| && series[p].Some? && forall z | p < z < i :: series[z].None?
  }

  lemma Neighbours(series: Series, p: nat, i: nat)
    requires Consecutive(series, p, i)
    ensures DiffersFromPrevious(series, i) <==> series[p] != series[i]
    ensures DiffersFromNext(series, p) <==> series[p] != series[i]
  {
  }

  lemma NoNeighbour(series: Series, x: nat)
    requires x < |series|
    ensures (forall z | 0 <= z < x :: series[z].None?) ==> !DiffersFromPrevious(series, x)
    ensures (forall z | x < z < |series| :: series[z].None?) ==> !DiffersFromNext(series, x)
    ensures series[x].None? ==> Expected(series, x) == 0
  {
  }

  ghost predicate AllRight(series: Series, labels: seq<Label>) {
    forall k | 0 <= k < |labels| :: RightLabel(series, labels[k])
  }

  /** The loop's state after i points: the labels of all points but the last are final. */
  ghost predicate Labelled(series: Series, i: nat, labels: seq<Label>, last: Option<nat>, pending: bool) {
    && i <= |series|
    && AllRight(series, labels)
    && (forall x | i <= x < |series| :: CountAt(labels, x) == 0)
    && (forall x | 0 <= x < i && last != Some(x) :: CountAt(labels, x) == Expected(series, x))
    && match last
       case None => labels == [] && forall z | 0 <= z < i :: series[z].None?
       case Some(p) =>
         && LastBefore(series, p, i)
         && (pending <==> !DiffersFromPrevious(series, p))
         && CountAt(labels, p) == if pending then 0 else 1
  }

  lemma LabelledFirst(series: Series, i: nat, labels: seq<Label>)
    requires Labelled(series, i, labels, None, true) && i < |series| && series[i].Some?
    ensures Labelled(series, i + 1, labels, Some(i), true)
  {
    NoNeighbour(series, i);
  }

  lemma LabelledGap(series: Series, i: nat, labels: seq<Label>, last: Option<nat>, pending: bool)
    requires Labelled(series, i, labels, last, pending) && i < |series| && series[i].None?
    ensures Labelled(series, i + 1, labels, last, pending)
  {
    NoNeighbour(series, i);
    forall x | 0 <= x < i + 1 && last != Some(x)
      ensures CountAt(labels, x) == Expected(series, x)
    {
      assert x == i ==> CountAt(labels, x) == 0;
    }
    assert last.Some? ==> LastBefore(series, last.value, i + 1);
  }

  lemma LabelledSame(series: Series, i: nat, labels: seq<Label>, p: nat, pending: bool)
    requires Labelled(series, i, labels, Some(p), pending) && i < |series| && series[i].Some? && series[i] == series[p]
    ensures Labelled(series, i + 1, labels, Some(i), true)
  {
    SameAsBefore(series, p, i);
    forall x | 0 <= x < i
      ensures CountAt(labels, x) == Expected(series, x)
    {
    }
  }

  /** A point equal to the one before it makes no difference to either. */
  lemma SameAsBefore(series: Series, p: nat, i: nat)
    requires i < |series| && LastBefore(series, p, i) && series[i] == series[p]
    ensures !DiffersFromPrevious(series, i) && LastBefore(series, i, i + 1)
    ensures Expected(series, p) == if DiffersFromPrevious(series, p) then 1 else 0
  {
    assert Consecutive(series, p, i);
    Neighbours(series, p, i);
  }

  lemma LabelledChange(series: Series, i: nat, labels: seq<Label>, p: nat, pending: bool)
    requires Labelled(series, i, labels, Some(p), pending) && i < |series| && series[i].Some? && series[i] != series[p]
    ensures var red := labels + [Label(i, series[i].value, Red)];
            Labelled(series, i + 1, if pending then red + [Label(p, series[p].value, Blue)] else red, Some(i), false)
  {
    Neighbours(series, p, i);
    var l := Label(i, series[i].value, Red);
    CountAppend(labels, l);
    CountAppend(labels + [l], Label(p, series[p].value, Blue));
    assert RightLabel(series, l);
    assert pending ==> RightLabel(series, Label(p, series[p].value, Blue));
  }

  lemma LabelledAll(series: Series, labels: seq<Label>, last: Option<nat>, pending: bool)
    requires Labelled(series, |series|, labels, last, pending)
    ensures forall x | 0 <= x < |series| :: CountAt(labels, x) == Expected(series, x)
    ensures forall k | 0 <= k < |labels| :: RightLabel(series, labels[k])
  {
    forall x | 0 <= x < |series|
      ensures CountAt(labels, x) == Expected(series, x)
    {
      NoNeighbour(series, x);
    }
  }

  /** The state machine puts exactly one label on each present point that differs from its previous or its next
      present point, and none elsewhere, whatever the gaps. */
  method LabelPoints(series: Series) returns (labels: seq<Label>)
    ensures forall x | 0 <= x < |series| :: CountAt(labels, x) == Expected(series, x)
    ensures forall k | 0 <= k < |labels| :: RightLabel(series, labels[k])
  {
    labels := [];
    var prevValue: Option<real> := None;
    var prevIsValid := true;
    var prevX, prevY := 0, 0.0;
    for i := 0 to |series|
      invariant Labelled(series, i, labels, if prevValue.None? then None else Some(prevX), prevIsValid)
      invariant prevValue.None? ==> prevIsValid
      invariant prevValue.Some? ==> prevX < i && prevValue == Some(prevY) == series[prevX]
    {
      if series[i].Some? {
        var y := series[i].value;
        if prevValue.Some? && y != prevValue.value {
          LabelledChange(series, i, labels, prevX, prevIsValid);
          labels := labels + [Label(i, y, Red)];
          if prevIsValid {
            labels := labels + [Label(prevX, prevValue.value, Blue)];
          }
          prevIsValid := false;
        } else {
          if prevValue.None? {
            LabelledFirst(series, i, labels);
          } else {
            LabelledSame(series, i, labels, prevX, prevIsValid);
          }
          prevIsValid := true;
        }
        prevValue := Some(y);
        prevX, prevY := i, y;
      } else {
        LabelledGap(series, i, labels, if prevValue.None? then None else Some(prevX), prevIsValid);
      }
    }
    LabelledAll(series, labels, if prevValue.None? then None else Some(prevX), prevIsValid);
  }
}
