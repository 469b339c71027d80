/**
 * The data-shaping half of `sankey` in pages/4_Utilities.py: a wide
 * origin-by-destination matrix becomes a node-label list, (source, target,
 * value) links with zero cells dropped, node colours for the nine largest
 * origins and link colours for the five largest.
 */
module Sankey {
  import opened Wrappers
  import opened Seqs
  import opened Sorting
  import opened Reshape
  import opened HexColor

  /** plotly's qualitative palette `px.colors.qualitative.Plotly`. */
  const PLOTLY: seq<string> :=
    ["#636EFA", "#EF553B", "#00CC96", "#AB63FA", "#FFA15A",
     "#19D3F3", "#FF6692", "#B6E880", "#FF97FF", "#FECB52"]

  /** `px.colors.qualitative.Plotly[-1]`: the colour of every node outside the top nine. */
  const NODE_FALLBACK: string := PLOTLY[|PLOTLY| - 1]

  /** The grey of links whose origin is outside the top five, and of all links when colouring is off. */
  const LINK_GREY: string := "#AFAFAF"

  /** How many origins get a node colour of their own, and how many a link colour. */
  const NODE_TOP: nat := 9
  const LINK_TOP: nat := 5

  /**
   * The uploaded table: the first column holds the origin labels (one per row),
   * the remaining column headers are the destination labels, and the cells the flows.
   */
  datatype FlowMatrix = FlowMatrix(sources: seq<string>, destinations: seq<string>, cells: seq<seq<int>>)

  predicate WellShaped(m: FlowMatrix)
  {
    |m.cells| == |m.sources| && forall i :: 0 <= i < |m.cells| ==> |m.cells[i]| == |m.destinations|
  }

  /** A link: `id` is the source node, `variable` the target node, `value` the flow. */
  type Edge = MeltRow<int, int, int>

  /** `list(data.index) + list(data.columns)`: origins in row order, then destinations in column order. */
  function NodeLabels(m: FlowMatrix): (labels: seq<string>)
    ensures |labels| == |m.sources| + |m.destinations|
    ensures forall i :: 0 <= i < |m.sources| ==> labels[i] == m.sources[i]
    ensures forall j :: 0 <= j < |m.destinations| ==> labels[|m.sources| + j] == m.destinations[j]
  {
    m.sources + m.destinations
  }

  /** `data.index = range(row_num)`. */
  function SourceIds(n: nat): (ids: seq<int>)
    ensures |ids| == n && forall i :: 0 <= i < n ==> ids[i] == i
  {
    seq(n, i => i)
  }

  /** The value columns after `data.columns = range(row_num, row_num + col_num)`. */
  function TargetColumns(m: FlowMatrix): (cols: seq<Column<int, int>>)
    requires WellShaped(m)
    ensures |cols| == |m.destinations| && Rectangular(SourceIds(|m.sources|), cols)
    ensures forall j :: 0 <= j < |cols| ==> cols[j].name == |m.sources| + j
    ensures forall j, i :: 0 <= j < |cols| && 0 <= i < |m.sources| ==> cols[j].cells[i] == m.cells[i][j]
  {
    seq(|m.destinations|, j requires 0 <= j < |m.destinations| =>
      Column(|m.sources| + j, seq(|m.sources|, i requires 0 <= i < |m.sources| => m.cells[i][j])))
  }

  /** `query('value != 0')`: the rows with a nonzero value, in their order. */
  function Prune(s: seq<Edge>): (r: seq<Edge>)
    ensures forall e :: e in r <==> e in s && e.value != 0
  {
    if |s| == 0 then [] else (if s[0].value != 0 then [s[0]] else []) + Prune(s[1..])
  }

  lemma {:induction false} PruneAppend(a: seq<Edge>, b: seq<Edge>)
    ensures Prune(a + b) == Prune(a) + Prune(b)
  {
    if |a| == 0 {
      assert a + b == b;
    } else {
      assert (a + b)[1..] == a[1..] + b;
      PruneAppend(a[1..], b);
    }
  }

  /** The links: the relabelled matrix melted column by column, zero flows dropped. */
  function Edges(m: FlowMatrix): seq<Edge>
    requires WellShaped(m)
  {
    Prune(Melt(SourceIds(|m.sources|), TargetColumns(m)))
  }

  /** Link `e` is nonzero cell (i, j), drawn from node i to node R + j. */
  predicate CellLink(m: FlowMatrix, i: int, j: int, e: Edge)
    requires WellShaped(m)
  {
    && 0 <= i < |m.sources| && 0 <= j < |m.destinations|
    && m.cells[i][j] != 0 && e == MeltRow(i, |m.sources| + j, m.cells[i][j])
  }

  /** The melted row for origin i and destination column j. */
  lemma TargetCell(m: FlowMatrix, i: int, j: int)
    requires WellShaped(m) && 0 <= i < |m.sources| && 0 <= j < |m.destinations|
    ensures var ids, cols := SourceIds(|m.sources|), TargetColumns(m);
      MeltRow(ids[i], cols[j].name, cols[j].cells[i]) == MeltRow(i, |m.sources| + j, m.cells[i][j])
  {
  }

  /** Each link is a nonzero cell. */
  lemma EdgeIsNonzeroCell(m: FlowMatrix, e: Edge)
    requires WellShaped(m)
    requires e in Edges(m)
    ensures exists i, j :: CellLink(m, i, j, e)
  {
    var ids, cols := SourceIds(|m.sources|), TargetColumns(m);
    assert e in Melt(ids, cols) && e.value != 0;
    MeltMember(ids, cols, e);
    var j, i :| 0 <= j < |cols| && 0 <= i < |ids| && e == MeltRow(ids[i], cols[j].name, cols[j].cells[i]);
    TargetCell(m, i, j);
    assert CellLink(m, i, j, e);
  }

  /** Each nonzero cell, negative flows included, is a link. */
  lemma NonzeroCellIsEdge(m: FlowMatrix, i: int, j: int)
    requires WellShaped(m)
    requires 0 <= i < |m.sources| && 0 <= j < |m.destinations| && m.cells[i][j] != 0
    ensures MeltRow(i, |m.sources| + j, m.cells[i][j]) in Edges(m)
  {
    var ids, cols := SourceIds(|m.sources|), TargetColumns(m);
    var e := MeltRow(i, |m.sources| + j, m.cells[i][j]);
    assert e == MeltRow(ids[i], cols[j].name, cols[j].cells[i]);
    MeltMember(ids, cols, e);
  }

  /** Every link leaves an origin node, enters a destination node and carries its cell's nonzero value. */
  lemma EdgeBounds(m: FlowMatrix)
    requires WellShaped(m)
    ensures forall e :: e in Edges(m) ==>
      && 0 <= e.id < |m.sources|
      && |m.sources| <= e.variable < |m.sources| + |m.destinations|
      && e.value == m.cells[e.id][e.variable - |m.sources|]
      && e.value != 0
  {
    forall e | e in Edges(m)
      ensures 0 <= e.id < |m.sources| && |m.sources| <= e.variable < |m.sources| + |m.destinations|
      ensures e.value == m.cells[e.id][e.variable - |m.sources|] && e.value != 0
    {
      EdgeIsNonzeroCell(m, e);
    }
  }

  /** Melt order: by target column first, then by source row. */
  predicate MeltOrderLt(a: Edge, b: Edge)
  {
    a.variable < b.variable || (a.variable == b.variable && a.id < b.id)
  }

  predicate InMeltOrder(s: seq<Edge>)
  {
    forall p, q :: 0 <= p < q < |s| ==> MeltOrderLt(s[p], s[q])
  }

  lemma {:induction false} MeltIsOrdered(ids: seq<int>, cols: seq<Column<int, int>>)
    requires Rectangular(ids, cols)
    requires forall a, b :: 0 <= a < b < |ids| ==> ids[a] < ids[b]
    requires forall a, b :: 0 <= a < b < |cols| ==> cols[a].name < cols[b].name
    ensures InMeltOrder(Melt(ids, cols))
  {
    if |cols| > 0 {
      var head, tail := MeltColumn(ids, cols[0]), Melt(ids, cols[1..]);
      MeltIsOrdered(ids, cols[1..]);
      forall q | 0 <= q < |tail| ensures cols[0].name < tail[q].variable {
        MeltMember(ids, cols[1..], tail[q]);
        var j, i :| 0 <= j < |cols[1..]| && 0 <= i < |ids| && tail[q] == MeltRow(ids[i], cols[1..][j].name, cols[1..][j].cells[i]);
        assert cols[1..][j] == cols[j + 1];
      }
      var s := head + tail;
      forall p, q | 0 <= p < q < |s| ensures MeltOrderLt(s[p], s[q]) {
        if q >= |head| && p >= |head| {
          assert s[p] == tail[p - |head|] && s[q] == tail[q - |head|];
        } else if q >= |head| {
          assert s[q] == tail[q - |head|];
        }
      }
    }
  }

  lemma {:induction false} PruneKeepsOrder(s: seq<Edge>)
    requires InMeltOrder(s)
    ensures InMeltOrder(Prune(s))
  {
    if |s| > 0 {
      assert InMeltOrder(s[1..]) by {
        forall p, q | 0 <= p < q < |s[1..]| ensures MeltOrderLt(s[1..][p], s[1..][q]) {
          assert s[1..][p] == s[p + 1] && s[1..][q] == s[q + 1];
        }
      }
      PruneKeepsOrder(s[1..]);
      var t := Prune(s[1..]);
      forall q | 0 <= q < |t| ensures MeltOrderLt(s[0], t[q]) {
        assert t[q] in s[1..];
        var k :| 0 <= k < |s[1..]| && s[1..][k] == t[q];
        assert s[k + 1] == t[q];
      }
      var r := (if s[0].value != 0 then [s[0]] else []) + t;
      forall p, q | 0 <= p < q < |r| ensures MeltOrderLt(r[p], r[q]) {
        if s[0].value != 0 {
          assert r[q] == t[q - 1];
          if p > 0 {
            assert r[p] == t[p - 1];
          }
        }
      }
    }
  }

  /**
   * Links come in melt order, column by column and by row within a column, so
   * no cell yields two links.
   */
  lemma EdgesInMeltOrder(m: FlowMatrix)
    requires WellShaped(m)
    ensures InMeltOrder(Edges(m))
    ensures forall p, q :: 0 <= p < q < |Edges(m)| ==>
      (Edges(m)[p].id, Edges(m)[p].variable) != (Edges(m)[q].id, Edges(m)[q].variable)
  {
    MeltIsOrdered(SourceIds(|m.sources|), TargetColumns(m));
    PruneKeepsOrder(Melt(SourceIds(|m.sources|), TargetColumns(m)));
  }

  /** One origin with its row total, `data.sum(axis=1)`. */
  datatype SourceTotal = SourceTotal(origin: string, total: int)

  function SourceTotals(m: FlowMatrix): (t: seq<SourceTotal>)
    requires WellShaped(m)
    ensures |t| == |m.sources|
  {
    seq(|m.sources|, i requires 0 <= i < |m.sources| => SourceTotal(m.sources[i], Sum(m.cells[i])))
  }

  function Descending(t: SourceTotal): int
  {
    -t.total
  }

  /**
   * `data.sum(axis=1).sort_values(ascending=False)`: the origins ordered by
   * decreasing row total. The order among equal totals is not promised.
   */
  function Ranking(m: FlowMatrix): (r: seq<SourceTotal>)
    requires WellShaped(m)
    ensures multiset(r) == multiset(SourceTotals(m))
    ensures forall p, q :: 0 <= p < q < |r| ==> r[p].total >= r[q].total
  {
    var r := SortBy(SourceTotals(m), Descending);
    assert forall p, q :: 0 <= p < q < |r| ==> Descending(r[p]) <= Descending(r[q]);
    r
  }

  /** `.index[:n]` of the ranking: the labels of the n largest origins. */
  function TopLabels(m: FlowMatrix, n: nat): (top: seq<string>)
    requires WellShaped(m)
    ensures |top| == Min(n, |m.sources|)
    ensures forall k :: 0 <= k < |top| ==> top[k] == Ranking(m)[k].origin
  {
    var r := Ranking(m);
    assert |r| == |multiset(r)| == |multiset(SourceTotals(m))| == |m.sources|;
    seq(Min(n, |r|), k requires 0 <= k < Min(n, |r|) => r[k].origin)
  }

  /** `dict(zip(keys, vals))`: zip stops at the shorter list, and a repeated key keeps its last value. */
  function ZipDict<V>(keys: seq<string>, vals: seq<V>): (d: map<string, V>)
    ensures forall x :: x in d <==> x in keys[..Min(|keys|, |vals|)]
    ensures forall x :: x in d ==> d[x] in vals
    decreases |keys|
  {
    var n := Min(|keys|, |vals|);
    if n == 0 then
      map[]
    else
      var d := ZipDict(keys[..n - 1], vals[..n - 1]);
      assert keys[..n - 1][..Min(n - 1, n - 1)] == keys[..n - 1];
      assert keys[..n] == keys[..n - 1] + [keys[n - 1]];
      assert forall x :: x in d ==> d[x] in vals by {
        forall x | x in d ensures d[x] in vals {
          var k :| 0 <= k < n - 1 && vals[..n - 1][k] == d[x];
        }
      }
      d[keys[n - 1] := vals[n - 1]]
  }

  /** Through the zip dictionary a key gets the value paired with its last occurrence. */
  lemma {:induction false} ZipDictAt<V>(keys: seq<string>, vals: seq<V>, k: int)
    requires 0 <= k < Min(|keys|, |vals|)
    requires forall k' :: k < k' < Min(|keys|, |vals|) ==> keys[k'] != keys[k]
    ensures keys[k] in ZipDict(keys, vals) && ZipDict(keys, vals)[keys[k]] == vals[k]
    decreases |keys|
  {
    var n := Min(|keys|, |vals|);
    if k < n - 1 {
      ZipDictAt(keys[..n - 1], vals[..n - 1], k);
    }
  }

  /** `d.get(x, default)`. */
  function Get<K, V>(d: map<K, V>, x: K, default: V): V
  {
    if x in d then d[x] else default
  }

  /**
   * `[colormap.get(x, Plotly[-1]) for x in label]`: colours looked up by label
   * string, so equal labels, origin or destination, get equal colours.
   */
  function NodeColours(m: FlowMatrix, palette: seq<string>): (colours: seq<string>)
    requires WellShaped(m)
    ensures |colours| == |NodeLabels(m)|
    ensures forall k1, k2 ::
      0 <= k1 < |colours| && 0 <= k2 < |colours| && NodeLabels(m)[k1] == NodeLabels(m)[k2] ==> colours[k1] == colours[k2]
  {
    var colourOf := ZipDict(TopLabels(m, NODE_TOP), palette);
    var labels := NodeLabels(m);
    seq(|labels|, k requires 0 <= k < |labels| => Get(colourOf, labels[k], NODE_FALLBACK))
  }

  /**
   * A label that is the t-th of the top nine origins (its last place there)
   * gets the t-th palette colour, when the palette is that long.
   */
  lemma NodeColourRanked(m: FlowMatrix, palette: seq<string>, k: int, t: int)
    requires WellShaped(m)
    requires 0 <= k < |NodeLabels(m)|
    requires 0 <= t < Min(|TopLabels(m, NODE_TOP)|, |palette|)
    requires TopLabels(m, NODE_TOP)[t] == NodeLabels(m)[k]
    requires forall t' :: t < t' < Min(|TopLabels(m, NODE_TOP)|, |palette|) ==>
      TopLabels(m, NODE_TOP)[t'] != TopLabels(m, NODE_TOP)[t]
    ensures NodeColours(m, palette)[k] == palette[t]
  {
    ZipDictAt(TopLabels(m, NODE_TOP), palette, t);
  }

  /** A label outside the coloured top origins gets the last palette colour. */
  lemma NodeColourFallback(m: FlowMatrix, palette: seq<string>, k: int)
    requires WellShaped(m)
    requires 0 <= k < |NodeLabels(m)|
    requires NodeLabels(m)[k] !in TopLabels(m, NODE_TOP)[..Min(|TopLabels(m, NODE_TOP)|, |palette|)]
    ensures NodeColours(m, palette)[k] == NODE_FALLBACK
  {
  }

  /** `colormap1.get(label[i], '#AFAFAF')` for a link leaving node i. */
  function LinkHex(m: FlowMatrix, source: int): (hex: string)
    requires WellShaped(m) && 0 <= source < |m.sources|
    ensures hex in PLOTLY || hex == LINK_GREY
  {
    var top := TopLabels(m, NODE_TOP);
    var colourOf := ZipDict(top[..Min(LINK_TOP, |top|)], PLOTLY);
    Get(colourOf, NodeLabels(m)[source], LINK_GREY)
  }

  lemma LinkHexParses(hex: string)
    requires hex in PLOTLY || hex == LINK_GREY
    ensures WellFormedHex(hex)
    ensures Hex2Rgba(hex, DEFAULT_ALPHA) == Some(FormatRgba(Rgb(ChannelValue(hex, 1), ChannelValue(hex, 3), ChannelValue(hex, 5)), DEFAULT_ALPHA))
  {
    WellFormedChannels(hex);
  }

  /** `[hex2rgba(colormap1.get(label[i], '#AFAFAF')) for i in source]`, one colour per link. */
  function LinkColours(m: FlowMatrix): (colours: seq<string>)
    requires WellShaped(m)
    ensures |colours| == |Edges(m)|
  {
    var edges := Edges(m);
    EdgeBounds(m);
    seq(|edges|, k requires 0 <= k < |edges| =>
      LinkHexParses(LinkHex(m, edges[k].id));
      Hex2Rgba(LinkHex(m, edges[k].id), DEFAULT_ALPHA).value)
  }

  /**
   * A link whose origin label has its last top-five place at t is coloured
   * with palette colour t at alpha 0.5; any other link is the grey at alpha 0.5.
   */
  lemma LinkColourSpec(m: FlowMatrix, k: int)
    requires WellShaped(m)
    requires 0 <= k < |Edges(m)|
    ensures 0 <= Edges(m)[k].id < |m.sources|
    ensures var top5 := TopLabels(m, NODE_TOP)[..Min(LINK_TOP, |TopLabels(m, NODE_TOP)|)];
      var name := NodeLabels(m)[Edges(m)[k].id];
      && (forall t :: 0 <= t < |top5| && top5[t] == name && (forall t' :: t < t' < |top5| ==> top5[t'] != name)
           ==> Hex2Rgba(PLOTLY[t], DEFAULT_ALPHA) == Some(LinkColours(m)[k]))
      && (name !in top5 ==> Hex2Rgba(LINK_GREY, DEFAULT_ALPHA) == Some(LinkColours(m)[k]))
  {
    EdgeBounds(m);
    var e := Edges(m)[k];
    assert e in Edges(m);
    var top := TopLabels(m, NODE_TOP);
    var top5 := top[..Min(LINK_TOP, |top|)];
    var name := NodeLabels(m)[e.id];
    LinkHexParses(LinkHex(m, e.id));
    forall t | 0 <= t < |top5| && top5[t] == name && (forall t' :: t < t' < |top5| ==> top5[t'] != name)
      ensures Hex2Rgba(PLOTLY[t], DEFAULT_ALPHA) == Some(LinkColours(m)[k])
    {
      ZipDictAt(top5, PLOTLY, t);
    }
  }

  /** What `sankey` hands to the renderer: link colours are a list, or one colour for all. */
  datatype LinkColouring = Uniform(colour: string) | PerLink(colours: seq<string>)

  datatype SankeyData = SankeyData(
    labels: seq<string>,
    nodeColours: seq<string>,
    edges: seq<Edge>,
    linkColouring: LinkColouring)

  function Diagram(m: FlowMatrix, palette: seq<string>, showLinkColour: bool): SankeyData
    requires WellShaped(m)
  {
    SankeyData(
      NodeLabels(m),
      NodeColours(m, palette),
      Edges(m),
      if showLinkColour then PerLink(LinkColours(m)) else Uniform(LINK_GREY))
  }

  /** The melted rows of destination column j, before pruning. */
  function CellColumn(m: FlowMatrix, j: int): (column: seq<Edge>)
    requires WellShaped(m) && 0 <= j < |m.destinations|
    ensures |column| == |m.sources|
    ensures forall i :: 0 <= i < |m.sources| ==> column[i] == MeltRow(i, |m.sources| + j, m.cells[i][j])
  {
    MeltColumn(SourceIds(|m.sources|), TargetColumns(m)[j])
  }

  lemma CellStep(m: FlowMatrix, j: int, i: int)
    requires WellShaped(m) && 0 <= j < |m.destinations| && 0 <= i < |m.sources|
    ensures Prune(CellColumn(m, j)[..i + 1]) == Prune(CellColumn(m, j)[..i])
      + (if m.cells[i][j] != 0 then [MeltRow(i, |m.sources| + j, m.cells[i][j])] else [])
  {
    var column := CellColumn(m, j);
    assert column[..i + 1] == column[..i] + [column[i]];
    PruneAppend(column[..i], [column[i]]);
    assert [column[i]][1..] == [];
    assert column[i] == MeltRow(i, |m.sources| + j, m.cells[i][j]);
  }

  lemma ColumnStep(m: FlowMatrix, j: int)
    requires WellShaped(m) && 0 <= j < |m.destinations|
    ensures Prune(Melt(SourceIds(|m.sources|), TargetColumns(m)[..j + 1]))
      == Prune(Melt(SourceIds(|m.sources|), TargetColumns(m)[..j])) + Prune(CellColumn(m, j)[..|m.sources|])
  {
    var ids, cols := SourceIds(|m.sources|), TargetColumns(m);
    var column := CellColumn(m, j);
    assert column[..|m.sources|] == column;
    assert cols[..j + 1] == cols[..j] + [cols[j]];
    MeltAppend(ids, cols[..j], [cols[j]]);
    assert Melt(ids, [cols[j]]) == column by {
      assert [cols[j]][1..] == [];
    }
    PruneAppend(Melt(ids, cols[..j]), column);
  }

  /** The nonzero links of destination column j, row by row. */
  method CollectColumn(m: FlowMatrix, j: int) returns (links: seq<Edge>)
    requires WellShaped(m) && 0 <= j < |m.destinations|
    ensures links == Prune(CellColumn(m, j)[..|m.sources|])
  {
    links := [];
    var i := 0;
    while i < |m.sources|
      invariant 0 <= i <= |m.sources|
      invariant links == Prune(CellColumn(m, j)[..i])
    {
      var v := m.cells[i][j];
      CellStep(m, j, i);
      if v != 0 {
        links := links + [MeltRow(i, |m.sources| + j, v)];
      }
      i := i + 1;
    }
  }

  /**
   * `sankey(data, colors, showlinkcolor)`: the links are collected in melt
   * order, column by column and row by row, skipping zero cells.
   */
  method BuildSankey(m: FlowMatrix, palette: seq<string>, showLinkColour: bool) returns (d: SankeyData)
    requires WellShaped(m)
    ensures d == Diagram(m, palette, showLinkColour)
  {
    var edges: seq<Edge> := [];
    var j := 0;
    while j < |m.destinations|
      invariant 0 <= j <= |m.destinations|
      invariant edges == Prune(Melt(SourceIds(|m.sources|), TargetColumns(m)[..j]))
    {
      var links := CollectColumn(m, j);
      ColumnStep(m, j);
      edges := edges + links;
      j := j + 1;
    }
    assert TargetColumns(m)[..|m.destinations|] == TargetColumns(m);
    var links := if showLinkColour then PerLink(LinkColours(m)) else Uniform(LINK_GREY);
    d := SankeyData(NodeLabels(m), NodeColours(m, palette), edges, links);
  }
}
