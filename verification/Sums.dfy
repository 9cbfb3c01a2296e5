/**
 Sums of a valuation over the rows of a table: what `SELECT SUM(...)` with a filter
 computes.  A filter is a valuation that is zero on the rows it leaves out.
 */
module Sums {

  function Sum<T>(xs: seq<T>, f: T -> int): int {
    if xs == [] then 0 else Sum(xs[..|xs| - 1], f) + f(xs[|xs| - 1])
  }

  lemma SumAppend<T>(xs: seq<T>, x: T, f: T -> int)
    ensures Sum(xs + [x], f) == Sum(xs, f) + f(x)
  {
    assert (xs + [x])[..|xs|] == xs;
  }

  lemma {:induction false} SumConcat<T>(xs: seq<T>, ys: seq<T>, f: T -> int)
    ensures Sum(xs + ys, f) == Sum(xs, f) + Sum(ys, f)
  {
    if ys == [] {
      assert xs + ys == xs;
    } else {
      var front := ys[..|ys| - 1];
      SumConcat(xs, front, f);
      assert (xs + ys)[..|xs + ys| - 1] == xs + front;
    }
  }

  /** Two tables of the same length whose rows have the same value, row by row. */
  lemma {:induction false} SumMapped<S, T>(xs: seq<S>, ys: seq<T>, f: S -> int, g: T -> int)
    requires |xs| == |ys|
    requires forall i :: 0 <= i < |xs| ==> f(xs[i]) == g(ys[i])
    ensures Sum(xs, f) == Sum(ys, g)
  {
    if xs != [] {
      var n := |xs| - 1;
      SumMapped(xs[..n], ys[..n], f, g);
    }
  }

  lemma SumAgree<T>(xs: seq<T>, f: T -> int, g: T -> int)
    requires forall i :: 0 <= i < |xs| ==> f(xs[i]) == g(xs[i])
    ensures Sum(xs, f) == Sum(xs, g)
  {
    SumMapped(xs, xs, f, g);
  }

  /** The same two tables, where `h` says by how much each row's value falls. */
  lemma {:induction false} SumLowered<T>(xs: seq<T>, ys: seq<T>, f: T -> int, g: T -> int, h: T -> int)
    requires |xs| == |ys|
    requires forall i :: 0 <= i < |xs| ==> g(ys[i]) == f(xs[i]) - h(xs[i])
    ensures Sum(ys, g) == Sum(xs, f) - Sum(xs, h)
  {
    if xs != [] {
      var n := |xs| - 1;
      SumLowered(xs[..n], ys[..n], f, g, h);
    }
  }

  lemma {:induction false} SumZero<T>(xs: seq<T>, f: T -> int)
    requires forall i :: 0 <= i < |xs| ==> f(xs[i]) == 0
    ensures Sum(xs, f) == 0
  {
    if xs != [] {
      SumZero(xs[..|xs| - 1], f);
    }
  }

  lemma {:induction false} SumMonotone<T>(xs: seq<T>, f: T -> int, g: T -> int)
    requires forall i :: 0 <= i < |xs| ==> f(xs[i]) <= g(xs[i])
    ensures Sum(xs, f) <= Sum(xs, g)
  {
    if xs != [] {
      SumMonotone(xs[..|xs| - 1], f, g);
    }
  }

  lemma {:induction false} SumNonNegative<T>(xs: seq<T>, f: T -> int)
    requires forall i :: 0 <= i < |xs| ==> 0 <= f(xs[i])
    ensures 0 <= Sum(xs, f)
  {
    if xs != [] {
      SumNonNegative(xs[..|xs| - 1], f);
    }
  }

  /** A row of a non-negative table never exceeds the total. */
  lemma {:induction false} SumMember<T>(xs: seq<T>, k: nat, f: T -> int)
    requires k < |xs|
    requires forall i :: 0 <= i < |xs| ==> 0 <= f(xs[i])
    ensures f(xs[k]) <= Sum(xs, f)
  {
    var n := |xs| - 1;
    if k < n {
      SumMember(xs[..n], k, f);
    } else {
      SumNonNegative(xs[..n], f);
    }
  }

  /** Only row `k` counts. */
  lemma {:induction false} SumSingle<T>(xs: seq<T>, k: nat, f: T -> int)
    requires k < |xs|
    requires forall i :: 0 <= i < |xs| && i != k ==> f(xs[i]) == 0
    ensures Sum(xs, f) == f(xs[k])
  {
    var n := |xs| - 1;
    if k < n {
      SumSingle(xs[..n], k, f);
    } else {
      SumZero(xs[..n], f);
    }
  }

  /** `h` is the sum of `f` and `g` on every row. */
  lemma {:induction false} SumPlus<T>(xs: seq<T>, f: T -> int, g: T -> int, h: T -> int)
    requires forall i :: 0 <= i < |xs| ==> h(xs[i]) == f(xs[i]) + g(xs[i])
    ensures Sum(xs, h) == Sum(xs, f) + Sum(xs, g)
  {
    if xs != [] {
      SumPlus(xs[..|xs| - 1], f, g, h);
    }
  }

  /** What each group takes of row `y`. */
  function Column<X(!new), Y>(part: (X, Y) -> int, y: Y): (f: X -> int)
    ensures forall x :: f(x) == part(x, y)
  {
    (x: X) => part(x, y)
  }

  /** What group `x` takes of each row. */
  function Row<X, Y(!new)>(part: (X, Y) -> int, x: X): (f: Y -> int)
    ensures forall y :: f(y) == part(x, y)
  {
    (y: Y) => part(x, y)
  }

  /** What each group takes of all rows. */
  function RowTotals<X, Y(!new)>(part: (X, Y) -> int, ys: seq<Y>): X -> int {
    (x: X) => Sum(ys, Row(part, x))
  }

  /**
   Grouping: when the groups `xs` together take of every row exactly its value under
   `total`, summing by group and summing by row give the same number.
   */
  lemma {:induction false} SumGrouped<X(!new), Y(!new)>(xs: seq<X>, ys: seq<Y>, part: (X, Y) -> int, total: Y -> int)
    requires forall j :: 0 <= j < |ys| ==> Sum(xs, Column(part, ys[j])) == total(ys[j])
    ensures Sum(xs, RowTotals(part, ys)) == Sum(ys, total)
  {
    if ys == [] {
      SumZero(xs, RowTotals(part, ys));
    } else {
      var front := ys[..|ys| - 1];
      SumGrouped(xs, front, part, total);
      SumPlus(xs, RowTotals(part, front), Column(part, ys[|ys| - 1]), RowTotals(part, ys));
    }
  }
}
