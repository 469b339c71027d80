/**
 * The reshaping behind the bubble chart in pages/4_Utilities.py: the chosen
 * value columns of a wide table are melted against the chosen x column into
 * (x, column name, cell) rows, which the chart reads as x, y and size.
 */
module Bubble {
  import opened Reshape

  /** A table read from CSV: distinct column names, every column `height` cells long. */
  datatype Frame = Frame(names: seq<string>, columns: seq<seq<int>>, height: nat)

  predicate WellFormed(f: Frame)
  {
    && |f.names| == |f.columns|
    && (forall k :: 0 <= k < |f.columns| ==> |f.columns[k]| == f.height)
    && (forall k, l :: 0 <= k < l < |f.names| ==> f.names[k] != f.names[l])
  }

  /** `data[name]`: the cells of the column with that header. */
  function ColumnOf(f: Frame, name: string): (cells: seq<int>)
    requires WellFormed(f) && name in f.names
    ensures |cells| == f.height
    ensures forall k :: 0 <= k < |f.names| && f.names[k] == name ==> cells == f.columns[k]
  {
    var k :| 0 <= k < |f.names| && f.names[k] == name;
    f.columns[k]
  }

  predicate AllPresent(f: Frame, ys: seq<string>)
  {
    forall j :: 0 <= j < |ys| ==> ys[j] in f.names
  }

  /** The column under `name`, with no cells when there is none. */
  function ColumnCalled(f: Frame, name: string): Column<string, int>
    requires WellFormed(f)
  {
    Column(name, if name in f.names then ColumnOf(f, name) else [])
  }

  /** `[g(y) for y in s]`. */
  function MapSeq<A, B>(g: A -> B, s: seq<A>): (r: seq<B>)
    ensures |r| == |s|
  {
    if |s| == 0 then [] else [g(s[0])] + MapSeq(g, s[1..])
  }

  lemma {:induction false} MapSeqAt<A, B>(g: A -> B, s: seq<A>)
    ensures forall j :: 0 <= j < |s| ==> MapSeq(g, s)[j] == g(s[j])
  {
    if |s| > 0 {
      MapSeqAt(g, s[1..]);
    }
  }

  lemma MapCons<A, B>(g: A -> B, x: A, s: seq<A>)
    ensures MapSeq(g, [x] + s) == [g(x)] + MapSeq(g, s)
  {
    assert ([x] + s)[1..] == s;
  }

  lemma DropShift<A>(zs: seq<A>, k: nat)
    requires 0 < k < |zs|
    ensures zs[..k] + zs[k + 1..] == [zs[0]] + (zs[1..][..k - 1] + zs[1..][k..])
  {
  }

  /** The step of `MapRemove`: removal from the tail, with the head kept in front. */
  lemma MapRemoveStep<A, B>(g: A -> B, zs: seq<A>, k: nat)
    requires 0 < k < |zs|
    requires multiset(MapSeq(g, zs[1..])) ==
             multiset(MapSeq(g, zs[1..][..k - 1] + zs[1..][k..])) + multiset{g(zs[k])}
    ensures multiset(MapSeq(g, zs)) == multiset(MapSeq(g, zs[..k] + zs[k + 1..])) + multiset{g(zs[k])}
  {
    var rest := zs[1..][..k - 1] + zs[1..][k..];
    DropShift(zs, k);
    MapCons(g, zs[0], rest);
  }

  /** Taking element `k` out of a list takes its image out of the mapped list. */
  lemma {:induction false} MapRemove<A, B>(g: A -> B, zs: seq<A>, k: nat)
    requires k < |zs|
    ensures multiset(MapSeq(g, zs)) == multiset(MapSeq(g, zs[..k] + zs[k + 1..])) + multiset{g(zs[k])}
  {
    if k == 0 {
      assert zs[..0] + zs[1..] == zs[1..];
    } else {
      MapRemove(g, zs[1..], k - 1);
      assert zs[1..][k - 1] == zs[k];
      MapRemoveStep(g, zs, k);
    }
  }

  /** Mapping permuted lists gives permuted results. */
  lemma {:induction false} MapPermutation<A, B>(g: A -> B, ys: seq<A>, zs: seq<A>)
    requires multiset(ys) == multiset(zs)
    ensures multiset(MapSeq(g, ys)) == multiset(MapSeq(g, zs))
    decreases |ys|
  {
    if |ys| == 0 {
      assert |zs| == |multiset(zs)| == 0;
    } else {
      assert ys[0] in multiset(zs);
      var k :| 0 <= k < |zs| && zs[k] == ys[0];
      RemoveOne(ys, zs, k);
      MapPermutation(g, ys[1..], zs[..k] + zs[k + 1..]);
      MapRemove(g, zs, k);
    }
  }

  /** The value columns `value_vars=ys`, in the order chosen, each under its header. */
  function Chosen(f: Frame, ys: seq<string>): (cols: seq<Column<string, int>>)
    requires WellFormed(f)
    ensures |cols| == |ys|
    ensures forall j :: 0 <= j < |ys| ==> cols[j] == ColumnCalled(f, ys[j])
  {
    MapSeqAt(name => ColumnCalled(f, name), ys);
    MapSeq(name => ColumnCalled(f, name), ys)
  }

  lemma ChosenRectangular(f: Frame, ys: seq<string>)
    requires WellFormed(f) && AllPresent(f, ys)
    ensures forall j :: 0 <= j < |ys| ==> Chosen(f, ys)[j] == Column(ys[j], ColumnOf(f, ys[j]))
    ensures Rectangular(seq(f.height, i => i), Chosen(f, ys))
  {
  }

  /** `data.melt(id_vars=x, value_vars=ys)`. */
  function BubbleData(f: Frame, x: string, ys: seq<string>): seq<MeltRow<int, string, int>>
    requires WellFormed(f) && x in f.names && AllPresent(f, ys)
  {
    ChosenRectangular(f, ys);
    Melt(ColumnOf(f, x), Chosen(f, ys))
  }

  /**
   * One output row per (chosen column, table row), column by column: row
   * j * height + i holds row i's x value, the j-th chosen header, and that cell.
   */
  lemma BubbleShape(f: Frame, x: string, ys: seq<string>, j: int, i: int)
    requires WellFormed(f) && x in f.names && AllPresent(f, ys)
    requires 0 <= j < |ys| && 0 <= i < f.height
    ensures |BubbleData(f, x, ys)| == |ys| * f.height
    ensures 0 <= j * f.height + i < |BubbleData(f, x, ys)|
    ensures BubbleData(f, x, ys)[j * f.height + i] == MeltRow(ColumnOf(f, x)[i], ys[j], ColumnOf(f, ys[j])[i])
  {
    ChosenRectangular(f, ys);
    MeltAt(ColumnOf(f, x), Chosen(f, ys), j, i);
  }

  /** Reordering the chosen columns permutes the bubble rows and nothing more. */
  lemma BubbleReorder(f: Frame, x: string, ys: seq<string>, zs: seq<string>)
    requires WellFormed(f) && x in f.names && AllPresent(f, ys) && AllPresent(f, zs)
    requires multiset(ys) == multiset(zs)
    ensures multiset(BubbleData(f, x, ys)) == multiset(BubbleData(f, x, zs))
  {
    ChosenRectangular(f, ys);
    ChosenRectangular(f, zs);
    ColumnsPermuted(f, ys, zs);
    MeltPermutation(ColumnOf(f, x), Chosen(f, ys), Chosen(f, zs));
  }

  lemma ColumnsPermuted(f: Frame, ys: seq<string>, zs: seq<string>)
    requires WellFormed(f)
    requires multiset(ys) == multiset(zs)
    ensures multiset(Chosen(f, ys)) == multiset(Chosen(f, zs))
  {
    MapPermutation(name => ColumnCalled(f, name), ys, zs);
  }
}
