/**
  Piecewise-linear interpolation over a table of (x, y) nodes, as used for
  the chainage <-> geometric distance conversions of a reach. The table is
  given as two parallel sequences; exact arithmetic on `real` stands for
  the double-precision arithmetic of the original.
*/
module Interpolation {
  import opened RunFolding

  /** Two columns of equal length, each nondecreasing. */
  predicate Ascending(xs: seq<real>, ys: seq<real>) {
    |xs| == |ys| && Nondecreasing(xs) && Nondecreasing(ys)
  }

  /** Ascending, and equal x values carry equal y values. */
  predicate Monotone(xs: seq<real>, ys: seq<real>) {
    && Ascending(xs, ys)
    && (forall i, j :: 0 <= i < j < |xs| && xs[i] == xs[j] ==> ys[i] == ys[j])
  }

  /** Monotone in both directions: x values are equal exactly where y values are. */
  predicate Aligned(xs: seq<real>, ys: seq<real>) {
    && Monotone(xs, ys)
    && (forall i, j :: 0 <= i < j < |xs| && ys[i] == ys[j] ==> xs[i] == xs[j])
  }

  /** Dropping the first node keeps a table ascending, monotone or aligned. */
  lemma TableTail(xs: seq<real>, ys: seq<real>)
    requires |xs| == |ys| > 0
    ensures Nondecreasing(xs) ==> Nondecreasing(xs[1..])
    ensures Ascending(xs, ys) ==> Ascending(xs[1..], ys[1..])
    ensures Monotone(xs, ys) ==> Monotone(xs[1..], ys[1..])
    ensures Aligned(xs, ys) ==> Aligned(xs[1..], ys[1..])
  {
    var xt, yt := xs[1..], ys[1..];
    assert forall i :: 0 <= i < |xt| ==> xt[i] == xs[i + 1] && yt[i] == ys[i + 1];
  }

  /** The straight line through (x0, y0) and (x1, y1), evaluated at q. */
  function Lerp(x0: real, x1: real, y0: real, y1: real, q: real): real
    requires x0 < x1
  {
    y0 + (y1 - y0) / (x1 - x0) * (q - x0)
  }

  /**
    The value at q of the polyline through the table nodes. A query equal to
    a node's x gives that node's y; between two nodes the bracketing segment
    is used. Queries outside [xs[0], xs[|xs| - 1]] are excluded.
  */
  function Interp(xs: seq<real>, ys: seq<real>, q: real): (r: real)
    requires |xs| == |ys| > 0
    requires xs[0] <= q <= xs[|xs| - 1]
    ensures Ascending(xs, ys) ==> ys[0] <= r <= ys[|ys| - 1]
    decreases |xs|
  {
    if q == xs[0] then ys[0]
    else if q <= xs[1] then
      LerpBetween(xs[0], xs[1], ys[0], ys[1], q);
      Lerp(xs[0], xs[1], ys[0], ys[1], q)
    else
      Interp(xs[1..], ys[1..], q)
  }

  lemma LerpBetween(x0: real, x1: real, y0: real, y1: real, q: real)
    requires x0 < q <= x1
    ensures y0 <= y1 ==> y0 <= Lerp(x0, x1, y0, y1, q) <= y1
    ensures y0 < y1 ==> y0 < Lerp(x0, x1, y0, y1, q)
    ensures q == x1 ==> Lerp(x0, x1, y0, y1, q) == y1
  {
    var slope := (y1 - y0) / (x1 - x0);
    assert slope * (x1 - x0) == y1 - y0;
    if y0 <= y1 {
      assert slope >= 0.0;
      assert slope * (q - x0) <= slope * (x1 - x0);
    }
    if y0 < y1 {
      assert slope > 0.0;
      assert slope * (q - x0) > 0.0;
    }
  }

  lemma LerpMonotone(x0: real, x1: real, y0: real, y1: real, q1: real, q2: real)
    requires x0 < x1 && y0 <= y1 && q1 <= q2
    ensures Lerp(x0, x1, y0, y1, q1) <= Lerp(x0, x1, y0, y1, q2)
  {
    var slope := (y1 - y0) / (x1 - x0);
    assert slope >= 0.0;
    assert slope * (q2 - x0) - slope * (q1 - x0) == slope * (q2 - q1);
  }

  lemma LerpInverse(x0: real, x1: real, y0: real, y1: real, q: real)
    requires x0 < x1 && y0 < y1
    ensures Lerp(y0, y1, x0, x1, Lerp(x0, x1, y0, y1, q)) == q
  {
    var s := (y1 - y0) / (x1 - x0);
    var t := (x1 - x0) / (y1 - y0);
    assert s * t == 1.0;
    var r := Lerp(x0, x1, y0, y1, q);
    assert r - y0 == s * (q - x0);
    assert t * (r - y0) == (t * s) * (q - x0);
  }

  /** At a node's x the interpolation returns exactly that node's y. */
  lemma {:induction false} InterpAtNode(xs: seq<real>, ys: seq<real>, k: nat)
    requires Monotone(xs, ys) && k < |xs|
    ensures xs[0] <= xs[k] <= xs[|xs| - 1]
    ensures Interp(xs, ys, xs[k]) == ys[k]
  {
    var q := xs[k];
    assert xs[0] <= q <= xs[|xs| - 1] by {
      assert Nondecreasing(xs);
    }
    if q == xs[0] {
      assert ys[k] == ys[0] by {
        if k > 0 {
          assert xs[0] == xs[k];
        }
      }
    } else if q <= xs[1] {
      assert k > 0 && xs[1] == q by {
        assert Nondecreasing(xs);
      }
      LerpBetween(xs[0], xs[1], ys[0], ys[1], q);
      assert ys[k] == ys[1] by {
        if k > 1 {
          assert xs[1] == xs[k];
        }
      }
    } else {
      assert k > 1 && xs[1..][k - 1] == q by {
        assert Nondecreasing(xs);
      }
      TableTail(xs, ys);
      InterpAtNode(xs[1..], ys[1..], k - 1);
    }
  }

  /** Interpolating an ascending table is monotone in the query. */
  lemma {:induction false} InterpMonotone(xs: seq<real>, ys: seq<real>, q1: real, q2: real)
    requires Ascending(xs, ys) && |xs| > 0
    requires xs[0] <= q1 <= q2 <= xs[|xs| - 1]
    ensures Interp(xs, ys, q1) <= Interp(xs, ys, q2)
  {
    if q1 == xs[0] {
    } else if q1 <= xs[1] {
      if q2 <= xs[1] {
        LerpMonotone(xs[0], xs[1], ys[0], ys[1], q1, q2);
      } else {
        LerpBetween(xs[0], xs[1], ys[0], ys[1], q1);
        assert Interp(xs[1..], ys[1..], q2) >= ys[1];
      }
    } else {
      TableTail(xs, ys);
      InterpMonotone(xs[1..], ys[1..], q1, q2);
    }
  }

  /** Between the x values of nodes i and i + 1, where they differ, the
      interpolation is the straight line through those two nodes. */
  lemma {:induction false} InterpOnSegment(xs: seq<real>, ys: seq<real>, i: nat, q: real)
    requires |xs| == |ys| && Nondecreasing(xs)
    requires i + 1 < |xs| && xs[i] < q <= xs[i + 1]
    ensures xs[0] <= q <= xs[|xs| - 1]
    ensures Interp(xs, ys, q) == Lerp(xs[i], xs[i + 1], ys[i], ys[i + 1], q)
  {
    if i > 0 {
      assert xs[0] <= xs[1] <= xs[i] && xs[i + 1] <= xs[|xs| - 1];
      TableTail(xs, ys);
      InterpOnSegment(xs[1..], ys[1..], i - 1, q);
    } else {
      assert xs[1] <= xs[|xs| - 1];
    }
  }

  /** On an aligned table, a query past the first node lands past the first node's y. */
  lemma {:induction false} InterpStrictlyAbove(xs: seq<real>, ys: seq<real>, q: real)
    requires Aligned(xs, ys) && |xs| > 0
    requires xs[0] < q <= xs[|xs| - 1]
    ensures Interp(xs, ys, q) > ys[0]
  {
    if q <= xs[1] {
      LerpBetween(xs[0], xs[1], ys[0], ys[1], q);
    } else {
      TableTail(xs, ys);
      InterpStrictlyAbove(xs[1..], ys[1..], q);
    }
  }

  /** On an aligned table the two directions of interpolation undo each other. */
  lemma {:induction false} InterpRoundTrip(xs: seq<real>, ys: seq<real>, q: real)
    requires Aligned(xs, ys) && |xs| > 0
    requires xs[0] <= q <= xs[|xs| - 1]
    ensures ys[0] <= Interp(xs, ys, q) <= ys[|ys| - 1]
    ensures Interp(ys, xs, Interp(xs, ys, q)) == q
  {
    var r := Interp(xs, ys, q);
    if q == xs[0] {
    } else if q <= xs[1] {
      assert ys[0] < ys[1];
      LerpBetween(xs[0], xs[1], ys[0], ys[1], q);
      LerpInverse(xs[0], xs[1], ys[0], ys[1], q);
    } else {
      TableTail(xs, ys);
      InterpStrictlyAbove(xs[1..], ys[1..], q);
      InterpRoundTrip(xs[1..], ys[1..], q);
      assert r > ys[1] >= ys[0];
    }
  }
}
