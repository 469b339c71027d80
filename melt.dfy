/**
 * pandas `DataFrame.melt(id_vars=..., value_vars=...)`: a wide table becomes a
 * long one with one row (id, variable, value) per pair of an original row and a
 * value column, the value columns taken in order and the rows in order within
 * each column.
 */
module Reshape {

  /** A named column of a table. */
  datatype Column<K, V> = Column(name: K, cells: seq<V>)

  /** One row of a melted table. */
  datatype MeltRow<X, K, V> = MeltRow(id: X, variable: K, value: V)

  /** Every value column has one cell per identifier (a table is rectangular). */
  predicate Rectangular<X, K, V>(ids: seq<X>, cols: seq<Column<K, V>>)
  {
    forall j :: 0 <= j < |cols| ==> |cols[j].cells| == |ids|
  }

  function MeltColumn<X, K, V>(ids: seq<X>, col: Column<K, V>): seq<MeltRow<X, K, V>>
    requires |col.cells| == |ids|
  {
    seq(|ids|, i requires 0 <= i < |ids| => MeltRow(ids[i], col.name, col.cells[i]))
  }

  function Melt<X, K, V>(ids: seq<X>, cols: seq<Column<K, V>>): seq<MeltRow<X, K, V>>
    requires Rectangular(ids, cols)
  {
    if |cols| == 0 then [] else MeltColumn(ids, cols[0]) + Melt(ids, cols[1..])
  }

  lemma {:induction false} MeltAppend<X, K, V>(ids: seq<X>, a: seq<Column<K, V>>, b: seq<Column<K, V>>)
    requires Rectangular(ids, a) && Rectangular(ids, b)
    ensures Rectangular(ids, a + b)
    ensures Melt(ids, a + b) == Melt(ids, a) + Melt(ids, b)
  {
    if |a| > 0 {
      assert (a + b)[1..] == a[1..] + b;
      MeltAppend(ids, a[1..], b);
    } else {
      assert a + b == b;
    }
  }

  lemma {:induction false} MeltLength<X, K, V>(ids: seq<X>, cols: seq<Column<K, V>>)
    requires Rectangular(ids, cols)
    ensures |Melt(ids, cols)| == |cols| * |ids|
  {
    if |cols| > 0 {
      MeltLength(ids, cols[1..]);
      assert |cols| * |ids| == |ids| + (|cols| - 1) * |ids|;
    }
  }

  /**
   * The melted table has |cols| * |ids| rows, and row j * |ids| + i is the cell
   * of value column j in original row i.
   */
  lemma {:induction false} MeltAt<X, K, V>(ids: seq<X>, cols: seq<Column<K, V>>, j: int, i: int)
    requires Rectangular(ids, cols)
    requires 0 <= j < |cols| && 0 <= i < |ids|
    ensures |Melt(ids, cols)| == |cols| * |ids|
    ensures 0 <= j * |ids| + i < |Melt(ids, cols)|
    ensures Melt(ids, cols)[j * |ids| + i] == MeltRow(ids[i], cols[j].name, cols[j].cells[i])
  {
    MeltLength(ids, cols);
    var n := |ids|;
    IndexBound(j, i, |cols|, n);
    var head, tail := MeltColumn(ids, cols[0]), Melt(ids, cols[1..]);
    assert Melt(ids, cols) == head + tail;
    if j == 0 {
      assert j * n + i == i;
      assert head[i] == MeltRow(ids[i], cols[0].name, cols[0].cells[i]);
    } else {
      MeltAt(ids, cols[1..], j - 1, i);
      IndexShift(j, i, n);
      assert cols[1..][j - 1] == cols[j];
      assert (head + tail)[n + ((j - 1) * n + i)] == tail[(j - 1) * n + i];
    }
  }

  lemma IndexBound(j: int, i: int, c: int, n: int)
    requires 0 <= j < c && 0 <= i < n
    ensures 0 <= j * n + i < c * n
  {
    assert j * n <= (c - 1) * n;
  }

  lemma IndexShift(j: int, i: int, n: int)
    ensures j * n + i == n + ((j - 1) * n + i)
  {
  }

  /** A row is in the melted table exactly when it pairs some original row with some value column. */
  lemma {:induction false} MeltMember<X, K, V>(ids: seq<X>, cols: seq<Column<K, V>>, r: MeltRow<X, K, V>)
    requires Rectangular(ids, cols)
    ensures r in Melt(ids, cols) <==>
      exists j, i :: 0 <= j < |cols| && 0 <= i < |ids| && r == MeltRow(ids[i], cols[j].name, cols[j].cells[i])
  {
    if |cols| > 0 {
      MeltMember(ids, cols[1..], r);
      if r in MeltColumn(ids, cols[0]) {
        var i :| 0 <= i < |ids| && MeltColumn(ids, cols[0])[i] == r;
        assert r == MeltRow(ids[i], cols[0].name, cols[0].cells[i]);
      }
      if exists j, i :: 0 <= j < |cols| && 0 <= i < |ids| && r == MeltRow(ids[i], cols[j].name, cols[j].cells[i]) {
        var j, i :| 0 <= j < |cols| && 0 <= i < |ids| && r == MeltRow(ids[i], cols[j].name, cols[j].cells[i]);
        if j == 0 {
          assert MeltColumn(ids, cols[0])[i] == r;
        } else {
          assert cols[1..][j - 1] == cols[j];
        }
      }
    }
  }

  lemma MeltSplitAt<X, K, V>(ids: seq<X>, b: seq<Column<K, V>>, k: int)
    requires Rectangular(ids, b) && 0 <= k < |b|
    ensures Rectangular(ids, b[..k]) && Rectangular(ids, b[k + 1..]) && Rectangular(ids, b[..k] + b[k + 1..])
    ensures Melt(ids, b) == Melt(ids, b[..k]) + MeltColumn(ids, b[k]) + Melt(ids, b[k + 1..])
    ensures Melt(ids, b[..k] + b[k + 1..]) == Melt(ids, b[..k]) + Melt(ids, b[k + 1..])
  {
    var p, c, q := b[..k], b[k], b[k + 1..];
    assert b == p + ([c] + q);
    MeltAppend(ids, p, [c] + q);
    assert ([c] + q)[1..] == q;
    MeltAppend(ids, p, q);
  }

  lemma RemoveOne<T>(a: seq<T>, b: seq<T>, k: int)
    requires |a| > 0 && multiset(a) == multiset(b) && 0 <= k < |b| && b[k] == a[0]
    ensures multiset(a[1..]) == multiset(b[..k] + b[k + 1..])
  {
    assert a == [a[0]] + a[1..];
    assert b == b[..k] + [b[k]] + b[k + 1..];
    assert multiset(a[1..]) == multiset(a) - multiset{a[0]};
    assert multiset(b[..k] + b[k + 1..]) == multiset(b) - multiset{b[k]};
  }

  /**
   * Reordering the value columns permutes the melted rows: the multiset of
   * (id, variable, value) rows depends only on which columns were chosen.
   */
  lemma {:induction false} MeltPermutation<X, K, V>(ids: seq<X>, a: seq<Column<K, V>>, b: seq<Column<K, V>>)
    requires Rectangular(ids, a) && Rectangular(ids, b)
    requires multiset(a) == multiset(b)
    ensures multiset(Melt(ids, a)) == multiset(Melt(ids, b))
  {
    if |a| == 0 {
      assert |b| == |multiset(b)| == 0;
    } else {
      assert a[0] in multiset(b);
      var k :| 0 <= k < |b| && b[k] == a[0];
      RemoveOne(a, b, k);
      MeltSplitAt(ids, b, k);
      MeltPermutation(ids, a[1..], b[..k] + b[k + 1..]);
      var m1, m2, mc := Melt(ids, b[..k]), Melt(ids, b[k + 1..]), MeltColumn(ids, a[0]);
      assert multiset(Melt(ids, a)) == multiset(mc) + multiset(m1 + m2);
      assert multiset(Melt(ids, b)) == multiset(m1) + multiset(mc) + multiset(m2);
    }
  }
}
