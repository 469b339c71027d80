/**
 * The data shaping of the ranking page (pages/3_Rank.py): a two-column
 * table is sorted by its value column; a wider table is pivoted to
 * category by series and sorted by the first series; then the axis roles,
 * the bar texts and the text position are chosen.
 */
module Rank {
  import opened Wrappers
  import opened Ordering
  import opened Sorting

  // ------------------------------------------------------- two-column table

  /** A row of a two-column upload: the category and its value. */
  datatype RankRow = RankRow(category: string, value: int)

  function RankValue(r: RankRow): int
  {
    r.value
  }

  /** `data.sort_values(by=y)`: a permutation of the rows in ascending value order. */
  function SortRank(rows: seq<RankRow>): (r: seq<RankRow>)
    ensures multiset(r) == multiset(rows)
    ensures forall p, q :: 0 <= p < q < |r| ==> r[p].value <= r[q].value
  {
    var r := SortBy(rows, RankValue);
    assert forall p, q :: 0 <= p < q < |r| ==> RankValue(r[p]) <= RankValue(r[q]);
    r
  }

  /**
   * The order among equal values is not promised; with distinct values every
   * ascending permutation of the rows is this one.
   */
  lemma SortRankDetermined(rows: seq<RankRow>, other: seq<RankRow>)
    requires KeysDistinct(rows, RankValue)
    requires multiset(other) == multiset(rows)
    requires forall p, q :: 0 <= p < q < |other| ==> other[p].value <= other[q].value
    ensures other == SortRank(rows)
  {
    var r := SortRank(rows);
    assert KeysDistinct(r, RankValue) by {
      forall p, q | 0 <= p < |r| && 0 <= q < |r| && RankValue(r[p]) == RankValue(r[q]) ensures r[p] == r[q] {
        assert r[p] in multiset(rows) && r[q] in multiset(rows);
        var a :| 0 <= a < |rows| && rows[a] == r[p];
        var b :| 0 <= b < |rows| && rows[b] == r[q];
        assert RankValue(rows[a]) == RankValue(rows[b]);
      }
    }
    assert SortedBy(other, RankValue) by {
      assert forall p, q :: 0 <= p < q < |other| ==> RankValue(other[p]) <= RankValue(other[q]);
    }
    SortedPermutationUnique(r, other, RankValue);
  }

  // ------------------------------------------------------------------ pivot

  /** A row of a long upload: category, series (the colour column), value. */
  datatype LongRow = LongRow(category: string, series: string, value: int)

  /** The pivoted frame: sorted categories by sorted series; a gap is `None` (NaN). */
  datatype Pivot = Pivot(categories: seq<string>, series: seq<string>, cells: seq<seq<Option<int>>>)

  datatype RankError =
    | DuplicateEntry  // `pivot` raises ValueError on a repeated (category, series) pair
    | NoSeries        // `data.columns[0]` of a pivot with no columns raises IndexError
    | NameClash       // the category header is also a series label: `sort_values` finds the
                      // key ambiguous, or `reset_index` cannot insert the column a second time
    | UnboundAxes     // with fewer than two columns neither branch binds `xval`/`yval`: NameError

  predicate HasDuplicatePair(rows: seq<LongRow>)
  {
    exists i, j :: 0 <= i < j < |rows| && rows[i].category == rows[j].category && rows[i].series == rows[j].series
  }

  function CategoriesOf(rows: seq<LongRow>): (cs: seq<string>)
    ensures |cs| == |rows| && forall i :: 0 <= i < |rows| ==> cs[i] == rows[i].category
  {
    seq(|rows|, i requires 0 <= i < |rows| => rows[i].category)
  }

  function SeriesOf(rows: seq<LongRow>): (ss: seq<string>)
    ensures |ss| == |rows| && forall i :: 0 <= i < |rows| ==> ss[i] == rows[i].series
  {
    seq(|rows|, i requires 0 <= i < |rows| => rows[i].series)
  }

  /** The value at (c, s), if some row has that pair. */
  function Lookup(rows: seq<LongRow>, c: string, s: string): (v: Option<int>)
    ensures v.Some? <==> exists i :: 0 <= i < |rows| && rows[i].category == c && rows[i].series == s
    ensures v.Some? ==> LongRow(c, s, v.value) in rows
  {
    if |rows| == 0 then None
    else if rows[0].category == c && rows[0].series == s then Some(rows[0].value)
    else
      var v := Lookup(rows[1..], c, s);
      assert (exists i :: 0 <= i < |rows[1..]| && rows[1..][i].category == c && rows[1..][i].series == s)
         <==> (exists i :: 0 <= i < |rows| && rows[i].category == c && rows[i].series == s) by {
        if exists i :: 0 <= i < |rows| && rows[i].category == c && rows[i].series == s {
          var i :| 0 <= i < |rows| && rows[i].category == c && rows[i].series == s;
          assert rows[1..][i - 1] == rows[i];
        }
      }
      v
  }

  /** `data.pivot(index=x, columns=color, values=y)`. */
  function PivotTable(rows: seq<LongRow>): (r: Result<Pivot, RankError>)
    ensures r.Err? <==> HasDuplicatePair(rows)
    ensures r.Err? ==> r.error == DuplicateEntry
    ensures r.Ok? ==>
      |r.value.cells| == |r.value.categories| && forall i :: 0 <= i < |r.value.cells| ==> |r.value.cells[i]| == |r.value.series|
  {
    if HasDuplicatePair(rows) then Err(DuplicateEntry)
    else
      var cs, ss := Unique(CategoriesOf(rows)), Unique(SeriesOf(rows));
      Ok(Pivot(cs, ss, seq(|cs|, i requires 0 <= i < |cs| => seq(|ss|, j requires 0 <= j < |ss| => Lookup(rows, cs[i], ss[j])))))
  }

  /**
   * The pivot's rows are the distinct categories in ascending order and its
   * columns the distinct series in ascending order.
   */
  lemma PivotAxes(rows: seq<LongRow>)
    requires !HasDuplicatePair(rows)
    ensures var p := PivotTable(rows).value;
      && StrictlyIncreasing(p.categories) && (forall c :: c in p.categories <==> exists i :: 0 <= i < |rows| && rows[i].category == c)
      && StrictlyIncreasing(p.series) && (forall s :: s in p.series <==> exists i :: 0 <= i < |rows| && rows[i].series == s)
  {
    var cs, ss := CategoriesOf(rows), SeriesOf(rows);
    forall c ensures c in cs <==> exists i :: 0 <= i < |rows| && rows[i].category == c {
      if c in cs {
        var i :| 0 <= i < |cs| && cs[i] == c;
      }
    }
    forall s ensures s in ss <==> exists i :: 0 <= i < |rows| && rows[i].series == s {
      if s in ss {
        var i :| 0 <= i < |ss| && ss[i] == s;
      }
    }
  }

  /**
   * Each cell holds the value of the one row with its (category, series)
   * pair, and is a gap exactly when no row has that pair.
   */
  lemma PivotCell(rows: seq<LongRow>, i: int, j: int, v: int)
    requires !HasDuplicatePair(rows)
    requires 0 <= i < |PivotTable(rows).value.categories| && 0 <= j < |PivotTable(rows).value.series|
    ensures var p := PivotTable(rows).value;
      && (p.cells[i][j] == Some(v) <==> LongRow(p.categories[i], p.series[j], v) in rows)
      && (p.cells[i][j] == None <==> forall k :: 0 <= k < |rows| ==> !(rows[k].category == p.categories[i] && rows[k].series == p.series[j]))
  {
    var p := PivotTable(rows).value;
    var c, s := p.categories[i], p.series[j];
    var cell := Lookup(rows, c, s);
    assert p.cells[i][j] == cell;
    if LongRow(c, s, v) in rows {
      var a :| 0 <= a < |rows| && rows[a] == LongRow(c, s, v);
      var b :| 0 <= b < |rows| && rows[b] == LongRow(c, s, cell.value);
      SamePairSameRow(rows, a, b);
    }
  }

  lemma SamePairSameRow(rows: seq<LongRow>, a: int, b: int)
    requires !HasDuplicatePair(rows)
    requires 0 <= a < |rows| && 0 <= b < |rows|
    requires rows[a].category == rows[b].category && rows[a].series == rows[b].series
    ensures a == b
  {
  }

  // ------------------------------------------- sorting by the first series

  /** A pivoted row: its category and one cell per series. */
  datatype PivotRow = PivotRow(category: string, cells: seq<Option<int>>)

  function PivotRows(p: Pivot): (rows: seq<PivotRow>)
    requires |p.cells| == |p.categories|
    ensures |rows| == |p.categories|
    ensures forall i :: 0 <= i < |rows| ==> rows[i] == PivotRow(p.categories[i], p.cells[i])
  {
    seq(|p.categories|, i requires 0 <= i < |p.categories| => PivotRow(p.categories[i], p.cells[i]))
  }

  /** The row has a value in the first series column. */
  predicate HasFirst(r: PivotRow)
  {
    |r.cells| > 0 && r.cells[0].Some?
  }

  function FirstKey(r: PivotRow): int
  {
    if HasFirst(r) then r.cells[0].value else 0
  }

  /** The rows with (`present`) or without a first-series value, in their order. */
  function Keep(rows: seq<PivotRow>, present: bool): (r: seq<PivotRow>)
    ensures forall x :: x in r <==> x in rows && HasFirst(x) == present
    ensures forall k :: 0 <= k < |r| ==> HasFirst(r[k]) == present
  {
    if |rows| == 0 then []
    else (if HasFirst(rows[0]) == present then [rows[0]] else []) + Keep(rows[1..], present)
  }

  lemma {:induction false} KeepSplits(rows: seq<PivotRow>)
    ensures multiset(Keep(rows, true)) + multiset(Keep(rows, false)) == multiset(rows)
    ensures |Keep(rows, true)| + |Keep(rows, false)| == |rows|
  {
    if |rows| > 0 {
      var t := rows[1..];
      KeepSplits(t);
      assert rows == [rows[0]] + t;
      assert multiset(rows) == multiset{rows[0]} + multiset(t);
      if HasFirst(rows[0]) {
        assert Keep(rows, true) == [rows[0]] + Keep(t, true);
        assert Keep(rows, false) == Keep(t, false);
      } else {
        assert Keep(rows, true) == Keep(t, true);
        assert Keep(rows, false) == [rows[0]] + Keep(t, false);
      }
    }
  }

  /**
   * `sort_values(by=data.columns[0])` with gaps last: the rows with a value
   * come first in ascending order, the gap rows follow in their previous
   * order, and the whole is a permutation of the pivot's rows.
   */
  function SortByFirstSeries(rows: seq<PivotRow>): (r: seq<PivotRow>)
    ensures multiset(r) == multiset(rows)
    ensures |r| == |rows| && |Keep(rows, true)| <= |r|
    ensures forall k :: 0 <= k < |r| ==> (k < |Keep(rows, true)| <==> HasFirst(r[k]))
    ensures forall p, q :: 0 <= p < q < |Keep(rows, true)| ==> FirstKey(r[p]) <= FirstKey(r[q])
    ensures r[|Keep(rows, true)|..] == Keep(rows, false)
  {
    var present := SortBy(Keep(rows, true), FirstKey);
    KeepSplits(rows);
    SortedPresent(rows);
    present + Keep(rows, false)
  }

  lemma SortedPresent(rows: seq<PivotRow>)
    ensures var s := SortBy(Keep(rows, true), FirstKey);
      |s| == |Keep(rows, true)| && forall k :: 0 <= k < |s| ==> HasFirst(s[k])
  {
    var kept := Keep(rows, true);
    var s := SortBy(kept, FirstKey);
    assert |s| == |multiset(s)| == |kept|;
    forall k | 0 <= k < |s| ensures HasFirst(s[k]) {
      assert s[k] in multiset(kept);
    }
  }

  /** The frame handed to the chart after `reset_index()`: the category column first, then the series. */
  datatype RankFrame = RankFrame(columns: seq<string>, rows: seq<PivotRow>)

  /**
   * The wide branch of the ranking page: pivot, sort by the first series, put
   * the category back as column 0 with `reset_index`.
   */
  function WideTable(categoryName: string, rows: seq<LongRow>): (r: Result<RankFrame, RankError>)
    ensures r.Err? <==> HasDuplicatePair(rows) || |rows| == 0 || categoryName in SeriesOf(rows)
    ensures r.Ok? ==> |r.value.columns| > 1 && r.value.columns[0] == categoryName
  {
    SeriesPresent(rows);
    match PivotTable(rows)
    case Err(e) => Err(e)
    case Ok(p) =>
      if |p.series| == 0 then Err(NoSeries)
      else if categoryName in p.series then Err(NameClash)
      else Ok(RankFrame([categoryName] + p.series, SortByFirstSeries(PivotRows(p))))
  }

  lemma SeriesPresent(rows: seq<LongRow>)
    ensures |Unique(SeriesOf(rows))| == 0 <==> |rows| == 0
  {
    if |rows| > 0 {
      assert SeriesOf(rows)[0] in Unique(SeriesOf(rows));
    }
  }

  /**
   * A wide table fails on a duplicated pair, or when the category header is
   * also a series label, or for want of any series when it has no rows;
   * otherwise its columns are the category name then the sorted series, and
   * its rows the pivot's rows sorted by the first series.
   */
  lemma WideTableSpec(categoryName: string, rows: seq<LongRow>)
    requires |rows| > 0 || HasDuplicatePair(rows)
    ensures HasDuplicatePair(rows) ==> WideTable(categoryName, rows) == Err(DuplicateEntry)
    ensures !HasDuplicatePair(rows) && categoryName in SeriesOf(rows) ==> WideTable(categoryName, rows) == Err(NameClash)
    ensures !HasDuplicatePair(rows) && categoryName !in SeriesOf(rows) ==>
      var p := PivotTable(rows).value;
      && WideTable(categoryName, rows).Ok?
      && WideTable(categoryName, rows).value.columns == [categoryName] + p.series
      && WideTable(categoryName, rows).value.rows == SortByFirstSeries(PivotRows(p))
      && multiset(WideTable(categoryName, rows).value.rows) == multiset(PivotRows(p))
  {
    SeriesPresent(rows);
  }

  // ----------------------------------------------------- axes and bar text

  /** A `px.bar` axis argument: one column name, or a list of them. */
  datatype AxisRef = Single(column: string) | Multi(columns: seq<string>)

  datatype Axes = Axes(x: AxisRef, y: AxisRef)

  /** The two-column branch: vertical bars put the category on x; horizontal ones put the value on x. */
  function PairAxes(categoryName: string, valueName: string, isVertical: bool): (a: Axes)
    ensures isVertical ==> a == Axes(Single(categoryName), Single(valueName))
    ensures !isVertical ==> a == Axes(Single(valueName), Single(categoryName))
  {
    if isVertical then Axes(Single(categoryName), Single(valueName))
    else Axes(Single(valueName), Single(categoryName))
  }

  /** The wide branch: the series columns take the value role. */
  function WideAxes(columns: seq<string>, isVertical: bool): (a: Axes)
    requires |columns| > 0
    ensures isVertical ==> a == Axes(Single(columns[0]), Multi(columns[1..]))
    ensures !isVertical ==> a == Axes(Multi(columns[1..]), Single(columns[0]))
  {
    if isVertical then Axes(Single(columns[0]), Multi(columns[1..]))
    else Axes(Multi(columns[1..]), Single(columns[0]))
  }

  /** Bar texts: one column for the single trace, or each trace named c labelled by column c. */
  datatype BarText = AllTraces(column: string) | PerTrace(columns: seq<string>)

  /** `for c in ...`: a list yields its names, a string its characters. */
  function Iterated(a: AxisRef): (names: seq<string>)
    ensures a.Multi? ==> names == a.columns
    ensures a.Single? ==> |names| == |a.column| && forall k :: 0 <= k < |names| ==> names[k] == [a.column[k]]
  {
    match a
    case Multi(cs) => cs
    case Single(c) => seq(|c|, k requires 0 <= k < |c| => [c[k]])
  }

  /** The texts `bar_rank` gives the bars: the value column of a single trace, or each series' own column. */
  function TextColumns(axes: Axes, isVertical: bool): BarText
  {
    if axes.x.Single? && axes.y.Single? then AllTraces(if isVertical then axes.y.column else axes.x.column)
    else PerTrace(Iterated(if isVertical then axes.y else axes.x))
  }

  datatype BarMode = Relative | Group
  datatype TextPosition = Inside | Outside

  /** The text position `bar_rank` chooses from the bar mode. */
  function TextPositionOf(mode: BarMode): (pos: TextPosition)
    ensures pos == Inside <==> mode == Relative
  {
    if mode == Relative then Inside else Outside
  }

  /** In both orientations the bars are labelled with the values: the value column, or each series its own. */
  lemma TextFollowsValues(categoryName: string, valueName: string, columns: seq<string>, isVertical: bool)
    requires |columns| > 0
    ensures TextColumns(PairAxes(categoryName, valueName, isVertical), isVertical) == AllTraces(valueName)
    ensures TextColumns(WideAxes(columns, isVertical), isVertical) == PerTrace(columns[1..])
  {
  }

  // ---------------------------------------------------------------- page

  /** The uploaded table seen through the chosen columns, by its width. */
  datatype Upload =
    | Narrow                        // fewer than two columns
    | Pairs(pairs: seq<RankRow>)    // exactly two columns: category and value
    | Long(records: seq<LongRow>)   // more than two: category, colour (series) and value

  /** The data the chart receives. */
  datatype RankData = PairData(rows: seq<RankRow>) | WideData(frame: RankFrame)

  datatype RankChart = RankChart(data: RankData, axes: Axes, text: BarText, position: TextPosition)

  /** The page's drawing condition: category and value chosen, and a colour too when the table is wider than two columns. */
  predicate Gate(upload: Upload, x: seq<string>, y: seq<string>, color: seq<string>)
  {
    |x| > 0 && |y| > 0 && (!upload.Long? || |color| > 0)
  }

  /** The ranking page: the chart's data, axes and texts, or the error the page raises; `None` draws nothing. */
  function RankPage(upload: Upload, x: seq<string>, y: seq<string>, color: seq<string>, isVertical: bool, mode: BarMode)
    : (r: Option<Result<RankChart, RankError>>)
    ensures r.Some? <==> Gate(upload, x, y, color)
  {
    if !Gate(upload, x, y, color) then None
    else
      match upload
      case Narrow => Some(Err(UnboundAxes))
      case Pairs(rows) =>
        var axes := PairAxes(x[0], y[0], isVertical);
        Some(Ok(RankChart(PairData(SortRank(rows)), axes, TextColumns(axes, isVertical), TextPositionOf(mode))))
      case Long(rows) =>
        match WideTable(x[0], rows)
        case Err(e) => Some(Err(e))
        case Ok(frame) =>
          var axes := WideAxes(frame.columns, isVertical);
          Some(Ok(RankChart(WideData(frame), axes, TextColumns(axes, isVertical), TextPositionOf(mode))))
  }

  /**
   * A drawn two-column ranking: the rows sorted ascending by value, the
   * value on x for horizontal bars and on y for vertical ones, every bar
   * labelled with its value, the text inside exactly in relative mode.
   */
  lemma PairPage(rows: seq<RankRow>, x: seq<string>, y: seq<string>, color: seq<string>, isVertical: bool, mode: BarMode)
    requires |x| > 0 && |y| > 0
    ensures var r := RankPage(Pairs(rows), x, y, color, isVertical, mode);
      && r.Some? && r.value.Ok? && r.value.value.data.PairData?
      && multiset(r.value.value.data.rows) == multiset(rows)
      && (forall p, q :: 0 <= p < q < |r.value.value.data.rows| ==> r.value.value.data.rows[p].value <= r.value.value.data.rows[q].value)
      && (if isVertical then r.value.value.axes.y else r.value.value.axes.x) == Single(y[0])
      && (if isVertical then r.value.value.axes.x else r.value.value.axes.y) == Single(x[0])
      && r.value.value.text == AllTraces(y[0])
      && (r.value.value.position == Inside <==> mode == Relative)
  {
    TextFollowsValues(x[0], y[0], [x[0]], isVertical);
  }

  /**
   * A drawn wide ranking labels each series trace with its own column and
   * gives the series the value role; it fails only on a duplicated pair, a
   * category header that is also a series label, or an empty table.
   */
  lemma LongPage(rows: seq<LongRow>, x: seq<string>, y: seq<string>, color: seq<string>, isVertical: bool, mode: BarMode)
    requires |x| > 0 && |y| > 0 && |color| > 0
    ensures var r := RankPage(Long(rows), x, y, color, isVertical, mode);
      && r.Some?
      && (r.value.Err? <==> HasDuplicatePair(rows) || |rows| == 0 || x[0] in SeriesOf(rows))
      && (r.value.Ok? ==>
            var frame := WideTable(x[0], rows).value;
            && frame.rows == SortByFirstSeries(PivotRows(PivotTable(rows).value))
            && r.value.value.data == WideData(frame)
            && (if isVertical then r.value.value.axes.y else r.value.value.axes.x) == Multi(frame.columns[1..])
            && (if isVertical then r.value.value.axes.x else r.value.value.axes.y) == Single(x[0])
            && r.value.value.text == PerTrace(frame.columns[1..]))
  {
    if WideTable(x[0], rows).Ok? {
      WideTableSpec(x[0], rows);
      TextFollowsValues(x[0], y[0], WideTable(x[0], rows).value.columns, isVertical);
    }
  }
}
