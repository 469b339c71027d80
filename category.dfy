/**
 * The data shaping of the composition page (pages/2_Category.py): the
 * waterfall's signed values and measures, the dual bar's split of the rows
 * into two mirrored groups, and the treemap/sunburst `textinfo` string.
 */
module Category {
  import opened Wrappers
  import opened Seqs
  import opened Strings
  import opened Ordering

  /** `[x] * k`, which is empty for k <= 0. */
  function Repeat<T>(x: T, k: int): (r: seq<T>)
    ensures |r| == if k < 0 then 0 else k
    ensures forall i :: 0 <= i < |r| ==> r[i] == x
  {
    seq(if k < 0 then 0 else k, _ => x)
  }

  /** Element-wise negation, pandas' unary minus on a column. */
  function Negated(s: seq<int>): (r: seq<int>)
    ensures |r| == |s|
  {
    seq(|s|, i requires 0 <= i < |s| => -s[i])
  }

  lemma {:induction false} SumNegated(s: seq<int>)
    ensures Sum(Negated(s)) == -Sum(s)
  {
    if |s| > 0 {
      assert Negated(s)[1..] == Negated(s[1..]);
      SumNegated(s[1..]);
    }
  }

  // ---------------------------------------------------------------- waterfall

  datatype Measure = Absolute | Relative

  /** `[v if i == 0 else -v for i, v in enumerate(values)]`. */
  function WaterfallY(values: seq<int>): (y: seq<int>)
    ensures |y| == |values|
    ensures |values| > 0 ==> y == [values[0]] + Negated(values[1..])
  {
    seq(|values|, i requires 0 <= i < |values| => if i == 0 then values[i] else -values[i])
  }

  /** `['absolute'] + ['relative'] * (n - 1)`. */
  function WaterfallMeasures(n: nat): (ms: seq<Measure>)
    ensures |ms| == if n == 0 then 1 else n
    ensures ms[0] == Absolute
    ensures forall i :: 0 < i < |ms| ==> ms[i] == Relative
  {
    [Absolute] + Repeat(Relative, n - 1)
  }

  /** The waterfall trace: categories, signed values, measures, and labels from the unsigned values. */
  datatype WaterfallTrace = WaterfallTrace(x: seq<string>, y: seq<int>, measure: seq<Measure>, text: seq<int>)

  function Waterfall(xs: seq<string>, values: seq<int>): (w: WaterfallTrace)
    ensures w.x == xs
    ensures |w.y| == |w.text| == |values|
    ensures |values| > 0 ==> |w.measure| == |w.y|
    ensures |values| == 0 ==> w.measure == [Absolute]
    ensures forall i :: 0 <= i < |values| ==> w.text[i] == values[i] && w.y[i] == (if i == 0 then values[i] else -values[i])
  {
    WaterfallTrace(xs, WaterfallY(values), WaterfallMeasures(|values|), values)
  }

  /**
   * The first row is the total and the others its parts: the parts add up
   * to the total exactly when the signed values sum to zero, so the chart
   * closes at zero.
   */
  lemma WaterfallBalanced(values: seq<int>)
    requires |values| > 0
    ensures Sum(WaterfallY(values)) == 0 <==> Sum(values[1..]) == values[0]
  {
    var y := WaterfallY(values);
    assert y[1..] == Negated(values[1..]);
    SumNegated(values[1..]);
  }

  // ----------------------------------------------------------------- dual bar

  /** One uploaded row: the bar length `x`, the bar label `y`, and the category `cat`. */
  datatype DualRow = DualRow(x: int, y: string, cat: string)

  function Cats(rows: seq<DualRow>): (cs: seq<string>)
    ensures |cs| == |rows| && forall i :: 0 <= i < |rows| ==> cs[i] == rows[i].cat
  {
    seq(|rows|, i requires 0 <= i < |rows| => rows[i].cat)
  }

  function Xs(rows: seq<DualRow>): (xs: seq<int>)
    ensures |xs| == |rows| && forall i :: 0 <= i < |rows| ==> xs[i] == rows[i].x
  {
    seq(|rows|, i requires 0 <= i < |rows| => rows[i].x)
  }

  function Ys(rows: seq<DualRow>): (ys: seq<string>)
    ensures |ys| == |rows| && forall i :: 0 <= i < |rows| ==> ys[i] == rows[i].y
  {
    seq(|rows|, i requires 0 <= i < |rows| => rows[i].y)
  }

  /** `df.loc[df[cat] == c, :]`: the rows of category c, in their original order. */
  function Select(rows: seq<DualRow>, c: string): (r: seq<DualRow>)
    ensures forall row :: row in r <==> row in rows && row.cat == c
    ensures |r| == multiset(Cats(rows))[c]
  {
    if |rows| == 0 then []
    else
      assert Cats(rows) == [rows[0].cat] + Cats(rows[1..]);
      (if rows[0].cat == c then [rows[0]] else []) + Select(rows[1..], c)
  }

  /** Selecting by a mask keeps the row order: it distributes over concatenation. */
  lemma {:induction false} SelectAppend(a: seq<DualRow>, b: seq<DualRow>, c: string)
    ensures Select(a + b, c) == Select(a, c) + Select(b, c)
  {
    if |a| == 0 {
      assert a + b == b;
    } else {
      assert (a + b)[1..] == a[1..] + b;
      SelectAppend(a[1..], b, c);
    }
  }

  /** Every row has category c1 or c2. */
  predicate OnlyTwo(rows: seq<DualRow>, c1: string, c2: string)
  {
    forall i :: 0 <= i < |rows| ==> rows[i].cat == c1 || rows[i].cat == c2
  }

  /** The number of rows of neither category. */
  function OtherCount(rows: seq<DualRow>, c1: string, c2: string): nat
  {
    if |rows| == 0 then 0
    else (if rows[0].cat == c1 || rows[0].cat == c2 then 0 else 1) + OtherCount(rows[1..], c1, c2)
  }

  lemma {:induction false} OtherCountZero(rows: seq<DualRow>, c1: string, c2: string)
    ensures OtherCount(rows, c1, c2) == 0 <==> OnlyTwo(rows, c1, c2)
  {
    if |rows| > 0 {
      var t := rows[1..];
      OtherCountZero(t, c1, c2);
      assert forall i :: 0 < i < |rows| ==> rows[i] == t[i - 1];
      assert forall i :: 0 <= i < |t| ==> t[i] == rows[i + 1];
    }
  }

  lemma {:induction false} SelectCount(rows: seq<DualRow>, c1: string, c2: string)
    requires c1 != c2
    ensures |Select(rows, c1)| + |Select(rows, c2)| + OtherCount(rows, c1, c2) == |rows|
  {
    if |rows| > 0 {
      SelectCount(rows[1..], c1, c2);
    }
  }

  /** Two different categories take disjoint groups, together at most all rows, all rows when no third category occurs. */
  lemma SelectTwo(rows: seq<DualRow>, c1: string, c2: string)
    requires c1 != c2
    ensures forall row :: !(row in Select(rows, c1) && row in Select(rows, c2))
    ensures |Select(rows, c1)| + |Select(rows, c2)| <= |rows|
    ensures |Select(rows, c1)| + |Select(rows, c2)| == |rows| <==> OnlyTwo(rows, c1, c2)
  {
    SelectCount(rows, c1, c2);
    OtherCountZero(rows, c1, c2);
  }

  /** A bar trace: its legend name, lengths, labels, base offsets and texts. */
  datatype Bar = Bar(name: string, x: seq<int>, y: seq<string>, base: seq<int>, text: seq<int>)

  /** The text-only scatter that writes the labels in the gap. */
  datatype LabelTrace = LabelTrace(x: seq<int>, y: seq<string>, text: seq<string>)

  datatype DualBarChart = DualBarChart(left: Bar, right: Bar, labels: LabelTrace)

  /** `cat_data[1]` on fewer than two distinct categories raises an IndexError. */
  datatype DualBarError = TooFewCategories

  /**
   * `dualbar(df, x, y, cat, space)`: the left group is the smallest category
   * of the sorted distinct values, the right group the next; the right bars
   * point the other way; both bases have the left group's length.
   */
  function DualBar(rows: seq<DualRow>, space: int): (r: Result<DualBarChart, DualBarError>)
    ensures r.Err? <==> |Unique(Cats(rows))| < 2
  {
    var cats := Unique(Cats(rows));
    if |cats| < 2 then Err(TooFewCategories)
    else
      var left, right := Select(rows, cats[0]), Select(rows, cats[1]);
      var size := |left|;
      Ok(DualBarChart(
        Bar(cats[0], Xs(left), Ys(left), Repeat(space, size), Xs(left)),
        Bar(cats[1], Negated(Xs(right)), Ys(right), Repeat(-space, size), Xs(right)),
        LabelTrace(Repeat(0, size), Ys(left), Ys(left))))
  }

  /** The dual bar fails exactly when all rows share one category (or there are none). */
  lemma DualBarFails(rows: seq<DualRow>, space: int)
    ensures DualBar(rows, space).Err? <==> forall i, j :: 0 <= i < |rows| && 0 <= j < |rows| ==> rows[i].cat == rows[j].cat
  {
    UniqueHasTwo(Cats(rows));
  }

  /** Two rows of different categories are enough for a chart. */
  lemma TwoCategories(rows: seq<DualRow>, space: int, i: int, j: int)
    requires 0 <= i < |rows| && 0 <= j < |rows| && rows[i].cat != rows[j].cat
    ensures DualBar(rows, space).Ok? && |Unique(Cats(rows))| >= 2
  {
    DualBarFails(rows, space);
  }

  /** The bars of a group are exactly the (length, label) pairs of the rows of its category. */
  lemma GroupBars(rows: seq<DualRow>, c: string)
    ensures var g := Select(rows, c);
      && (forall k :: 0 <= k < |g| ==> DualRow(Xs(g)[k], Ys(g)[k], c) in rows)
      && (forall row :: row in rows && row.cat == c ==> exists k :: 0 <= k < |g| && Xs(g)[k] == row.x && Ys(g)[k] == row.y)
  {
    var g := Select(rows, c);
    forall row | row in rows && row.cat == c
      ensures exists k :: 0 <= k < |g| && Xs(g)[k] == row.x && Ys(g)[k] == row.y
    {
      RowHasBar(rows, c, row);
    }
    BarHasRow(rows, c);
  }

  lemma RowHasBar(rows: seq<DualRow>, c: string, row: DualRow)
    requires row in rows && row.cat == c
    ensures exists k :: 0 <= k < |Select(rows, c)| && Xs(Select(rows, c))[k] == row.x && Ys(Select(rows, c))[k] == row.y
  {
    var g := Select(rows, c);
    assert row in g;
    var k :| 0 <= k < |g| && g[k] == row;
    assert Xs(g)[k] == row.x && Ys(g)[k] == row.y;
  }

  lemma BarHasRow(rows: seq<DualRow>, c: string)
    ensures forall k :: 0 <= k < |Select(rows, c)| ==> DualRow(Xs(Select(rows, c))[k], Ys(Select(rows, c))[k], c) in rows
  {
    var g := Select(rows, c);
    forall k | 0 <= k < |g| ensures DualRow(Xs(g)[k], Ys(g)[k], c) in rows {
      assert g[k] in g;
      assert g[k] == DualRow(Xs(g)[k], Ys(g)[k], c);
    }
  }

  /**
   * Left is named by the least category and right by the next; every other
   * row has a larger category than both.
   */
  lemma DualBarNames(rows: seq<DualRow>, space: int, i: int, j: int)
    requires 0 <= i < |rows| && 0 <= j < |rows| && rows[i].cat != rows[j].cat
    ensures DualBar(rows, space).Ok? && var c := DualBar(rows, space).value;
      && StrLt(c.left.name, c.right.name)
      && (exists k :: 0 <= k < |rows| && rows[k].cat == c.left.name)
      && (exists k :: 0 <= k < |rows| && rows[k].cat == c.right.name)
      && (forall row :: row in rows ==> row.cat == c.left.name || row.cat == c.right.name || StrLt(c.right.name, row.cat))
  {
    TwoCategories(rows, space, i, j);
    var cats := Unique(Cats(rows));
    UniqueOrder(Cats(rows));
    assert cats[0] in Cats(rows) && cats[1] in Cats(rows);
    forall row | row in rows ensures row.cat == cats[0] || row.cat == cats[1] || StrLt(cats[1], row.cat) {
      var n :| 0 <= n < |rows| && rows[n] == row;
      assert Cats(rows)[n] == row.cat;
    }
  }

  /**
   * A left bar exists exactly for each row of the left category, with its
   * length and label; a right bar, whose text keeps the unsigned length,
   * exactly for each row of the right category.
   */
  lemma DualBarMembers(rows: seq<DualRow>, space: int, i: int, j: int)
    requires 0 <= i < |rows| && 0 <= j < |rows| && rows[i].cat != rows[j].cat
    ensures DualBar(rows, space).Ok? && var c := DualBar(rows, space).value;
      && |c.left.y| == |c.left.x| && |c.right.y| == |c.right.text|
      && (forall k :: 0 <= k < |c.left.x| ==> DualRow(c.left.x[k], c.left.y[k], c.left.name) in rows)
      && (forall row :: row in rows && row.cat == c.left.name ==>
            exists k :: 0 <= k < |c.left.x| && c.left.x[k] == row.x && c.left.y[k] == row.y)
      && (forall k :: 0 <= k < |c.right.text| ==> DualRow(c.right.text[k], c.right.y[k], c.right.name) in rows)
      && (forall row :: row in rows && row.cat == c.right.name ==>
            exists k :: 0 <= k < |c.right.text| && c.right.text[k] == row.x && c.right.y[k] == row.y)
  {
    TwoCategories(rows, space, i, j);
    var cats := Unique(Cats(rows));
    GroupBars(rows, cats[0]);
    GroupBars(rows, cats[1]);
  }

  /** The rows of a third or later category are drawn in neither group. */
  lemma DualBarSizes(rows: seq<DualRow>, space: int, i: int, j: int)
    requires 0 <= i < |rows| && 0 <= j < |rows| && rows[i].cat != rows[j].cat
    ensures DualBar(rows, space).Ok? && var c := DualBar(rows, space).value;
      && |c.left.x| + |c.right.x| <= |rows|
      && (|c.left.x| + |c.right.x| == |rows| <==> OnlyTwo(rows, c.left.name, c.right.name))
  {
    TwoCategories(rows, space, i, j);
    var cats := Unique(Cats(rows));
    UniqueOrder(Cats(rows));
    StrLtIrreflexive(cats[0]);
    SelectTwo(rows, cats[0], cats[1]);
  }

  /**
   * The mirrored geometry: left bars sit at `+space`, right bars are negated
   * and sit at `-space`, labels are at x = 0, and both base lists have the
   * left group's length whatever the right group's size.
   */
  lemma DualBarGeometry(rows: seq<DualRow>, space: int, i: int, j: int)
    requires 0 <= i < |rows| && 0 <= j < |rows| && rows[i].cat != rows[j].cat
    ensures DualBar(rows, space).Ok? && var c := DualBar(rows, space).value;
      && |c.left.x| == |c.left.y| == |c.left.text| == |c.left.base| == |c.right.base|
      && |c.labels.x| == |c.labels.y| == |c.labels.text| == |c.left.x|
      && |c.right.x| == |c.right.y| == |c.right.text|
      && (forall k :: 0 <= k < |c.left.x| ==> c.left.base[k] == space && c.right.base[k] == -space && c.labels.x[k] == 0)
      && (forall k :: 0 <= k < |c.left.x| ==> c.left.text[k] == c.left.x[k] && c.labels.text[k] == c.labels.y[k] == c.left.y[k])
      && (forall k :: 0 <= k < |c.right.x| ==> c.right.x[k] == -c.right.text[k])
  {
    TwoCategories(rows, space, i, j);
  }

  // --------------------------------------------------------------- text info

  /** The `textinfo` choices offered for treemaps and sunbursts. */
  const LABEL_OPTIONS: seq<string> := ["label", "value", "percent parent", "percent root"]

  /** An empty multiselect falls back to `['label']`. */
  function EffectiveLabels(chosen: seq<string>): (labels: seq<string>)
    ensures |labels| > 0
    ensures chosen != [] ==> labels == chosen
    ensures chosen == [] ==> labels == ["label"]
  {
    if chosen == [] then ["label"] else chosen
  }

  /** `'+'.join(labels)` when labels are given; no `textinfo` update for `None`. */
  function TextInfo(labels: Option<seq<string>>): Option<string>
  {
    match labels
    case None => None
    case Some(ls) => Some(Join(ls, '+'))
  }

  /**
   * On the page the labels are always given: the `textinfo` string is set and
   * lists the chosen options, in order, separated by '+', or just `label`
   * when none was chosen.
   */
  lemma TextInfoLists(chosen: seq<string>)
    requires forall k :: 0 <= k < |chosen| ==> chosen[k] in LABEL_OPTIONS
    ensures TextInfo(Some(EffectiveLabels(chosen))).Some?
    ensures Split(TextInfo(Some(EffectiveLabels(chosen))).value, '+') == EffectiveLabels(chosen)
    ensures chosen == [] ==> TextInfo(Some(EffectiveLabels(chosen))) == Some("label")
  {
    var labels := EffectiveLabels(chosen);
    forall k | 0 <= k < |labels| ensures '+' !in labels[k] {
      assert labels[k] in LABEL_OPTIONS;
    }
    SplitJoin(labels, '+');
  }
}
