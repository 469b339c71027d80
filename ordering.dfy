/**
 * Python's ordering of `str` values (lexicographic by code point) and
 * `np.unique` on a column of strings: its distinct values in increasing order.
 */
module Ordering {

  predicate StrLt(a: string, b: string)
    decreases |a|
  {
    if |a| == 0 then |b| > 0
    else if |b| == 0 then false
    else if a[0] != b[0] then a[0] < b[0]
    else StrLt(a[1..], b[1..])
  }

  lemma {:induction false} StrLtIrreflexive(a: string)
    ensures !StrLt(a, a)
  {
    if |a| > 0 {
      StrLtIrreflexive(a[1..]);
    }
  }

  lemma {:induction false} StrLtTransitive(a: string, b: string, c: string)
    requires StrLt(a, b) && StrLt(b, c)
    ensures StrLt(a, c)
  {
    if |a| > 0 && |b| > 0 && |c| > 0 && a[0] == b[0] && b[0] == c[0] {
      StrLtTransitive(a[1..], b[1..], c[1..]);
    }
  }

  lemma {:induction false} StrLtTotal(a: string, b: string)
    ensures a == b || StrLt(a, b) || StrLt(b, a)
  {
    if |a| > 0 && |b| > 0 && a[0] == b[0] {
      StrLtTotal(a[1..], b[1..]);
      if a[1..] == b[1..] {
        assert a == [a[0]] + a[1..] && b == [b[0]] + b[1..];
      }
    }
  }

  predicate StrictlyIncreasing(s: seq<string>)
  {
    forall i, j :: 0 <= i < j < |s| ==> StrLt(s[i], s[j])
  }

  lemma ConsIncreasing(h: string, s: seq<string>)
    requires StrictlyIncreasing(s)
    requires forall y :: y in s ==> StrLt(h, y)
    ensures StrictlyIncreasing([h] + s)
  {
    var r := [h] + s;
    forall i, j | 0 <= i < j < |r| ensures StrLt(r[i], r[j]) {
      if i == 0 {
        assert r[j] == s[j - 1];
      } else {
        assert r[i] == s[i - 1] && r[j] == s[j - 1];
      }
    }
  }

  /** Inserts `x` into an increasing sequence unless it is already there. */
  function InsertDistinct(s: seq<string>, x: string): (r: seq<string>)
    requires StrictlyIncreasing(s)
    ensures StrictlyIncreasing(r)
    ensures forall y :: y in r <==> y in s || y == x
  {
    if |s| == 0 then
      [x]
    else if x == s[0] then
      s
    else if StrLt(x, s[0]) then
      LessThanHead(x, s);
      ConsIncreasing(x, s);
      [x] + s
    else
      StrLtTotal(x, s[0]);
      var t := InsertDistinct(s[1..], x);
      assert forall y :: y in s[1..] ==> StrLt(s[0], y) by {
        forall y | y in s[1..] ensures StrLt(s[0], y) {
          var k :| 0 <= k < |s[1..]| && s[1..][k] == y;
          assert s[k + 1] == y;
        }
      }
      ConsIncreasing(s[0], t);
      assert s == [s[0]] + s[1..];
      [s[0]] + t
  }

  lemma LessThanHead(x: string, s: seq<string>)
    requires StrictlyIncreasing(s) && |s| > 0 && StrLt(x, s[0])
    ensures forall y :: y in s ==> StrLt(x, y)
  {
    forall y | y in s ensures StrLt(x, y) {
      var k :| 0 <= k < |s| && s[k] == y;
      if k > 0 {
        StrLtTransitive(x, s[0], y);
      }
    }
  }

  /** `np.unique` on strings: the distinct values, in increasing order. */
  function Unique(s: seq<string>): (r: seq<string>)
    ensures StrictlyIncreasing(r)
    ensures forall y :: y in r <==> y in s
  {
    if |s| == 0 then []
    else
      var u := Unique(s[..|s| - 1]);
      assert s == s[..|s| - 1] + [s[|s| - 1]];
      InsertDistinct(u, s[|s| - 1])
  }

  /** The first unique value is the least value of `s`, the second the next least. */
  lemma {:induction false} UniqueOrder(s: seq<string>)
    ensures |Unique(s)| > 0 ==> forall y :: y in s && y != Unique(s)[0] ==> StrLt(Unique(s)[0], y)
    ensures |Unique(s)| > 1 ==> StrLt(Unique(s)[0], Unique(s)[1])
    ensures |Unique(s)| > 1 ==>
      forall y :: y in s && y != Unique(s)[0] && y != Unique(s)[1] ==> StrLt(Unique(s)[1], y)
  {
    var u := Unique(s);
    forall y | y in s ensures exists k :: 0 <= k < |u| && u[k] == y {
      assert y in u;
    }
  }

  /** `np.unique` has at least two entries exactly when two values of `s` differ. */
  lemma UniqueHasTwo(s: seq<string>)
    ensures |Unique(s)| >= 2 <==> exists i, j :: 0 <= i < |s| && 0 <= j < |s| && s[i] != s[j]
  {
    var u := Unique(s);
    if |u| >= 2 {
      StrLtIrreflexive(u[0]);
      assert u[0] != u[1];
      assert u[0] in s && u[1] in s;
      var i :| 0 <= i < |s| && s[i] == u[0];
      var j :| 0 <= j < |s| && s[j] == u[1];
      assert s[i] != s[j];
    }
    if exists i, j :: 0 <= i < |s| && 0 <= j < |s| && s[i] != s[j] {
      var i, j :| 0 <= i < |s| && 0 <= j < |s| && s[i] != s[j];
      assert s[i] in u && s[j] in u;
    }
  }
}
