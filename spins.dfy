/** A spin configuration as a value: an N-by-N grid of integers, row-major,
    with the sums the rest of the model is specified by. */
module Spins {

  type Grid = seq<seq<int>>

  /** Sum of a row, accumulated left to right as the source's loops do. */
  function Sum(s: seq<int>): int
  {
    if s == [] then 0 else Sum(s[..|s| - 1]) + s[|s| - 1]
  }

  /** Sum of every entry of a grid, row by row. */
  function Total(t: Grid): int
  {
    if t == [] then 0 else Total(t[..|t| - 1]) + Sum(t[|t| - 1])
  }

  ghost predicate IsSquare(g: Grid, n: nat)
  {
    |g| == n && forall i | 0 <= i < n :: |g[i]| == n
  }

  predicate IsSpin(v: int)
  {
    v == 1 || v == -1
  }

  /** Every cell of the grid holds exactly +1 or -1. */
  ghost predicate IsSpinGrid(g: Grid)
  {
    forall i, j | 0 <= i < |g| && 0 <= j < |g[i]| :: IsSpin(g[i][j])
  }

  /** The n-by-n grid whose every cell is v. */
  function Uniform(n: nat, v: int): (g: Grid)
    ensures IsSquare(g, n)
    ensures forall i, j | 0 <= i < n && 0 <= j < n :: g[i][j] == v
  {
    seq(n, _ => seq(n, _ => v))
  }

  /** Replacing one entry changes the row sum by new minus old. */
  lemma {:induction false} SumUpdate(s: seq<int>, k: nat, v: int)
    requires k < |s|
    ensures Sum(s[k := v]) == Sum(s) - s[k] + v
  {
    var last := |s| - 1;
    if k == last {
      assert s[k := v][..last] == s[..last];
    } else {
      SumUpdate(s[..last], k, v);
      assert s[k := v][..last] == s[..last][k := v];
    }
  }

  /** Replacing one cell changes the grid total by new minus old. */
  lemma {:induction false} TotalUpdate(t: Grid, i: nat, j: nat, v: int)
    requires i < |t| && j < |t[i]|
    ensures Total(t[i := t[i][j := v]]) == Total(t) - t[i][j] + v
  {
    var last := |t| - 1;
    var u := t[i := t[i][j := v]];
    if i == last {
      assert u[..last] == t[..last];
      SumUpdate(t[i], j, v);
    } else {
      TotalUpdate(t[..last], i, j, v);
      assert u[..last] == t[..last][i := t[i][j := v]];
    }
  }

  /** Replacing three distinct cells, (x, y), (a, y) and (x, b), changes the total by the sum
      of the three differences. */
  lemma TotalThreeUpdates(t: Grid, x: nat, y: nat, a: nat, b: nat, u: int, v: int, w: int)
    requires x < |t| && a < |t| && x != a
    requires y < |t[x]| && b < |t[x]| && y != b && y < |t[a]|
    ensures Total(t[x := t[x][y := u]][a := t[a][y := v]][x := t[x][y := u][b := w]])
            == Total(t) + (u - t[x][y]) + (v - t[a][y]) + (w - t[x][b])
  {
    var t1 := t[x := t[x][y := u]];
    var t2 := t1[a := t1[a][y := v]];
    TotalUpdate(t, x, y, u);
    TotalUpdate(t1, a, y, v);
    TotalUpdate(t2, x, b, w);
    assert t1[a] == t[a];
    assert t2[x] == t[x][y := u];
  }

  /** A row of k spins sums to a value in [-k, k]. */
  lemma {:induction false} SumBound(s: seq<int>)
    requires forall k | 0 <= k < |s| :: IsSpin(s[k])
    ensures -|s| <= Sum(s) <= |s|
  {
    if s != [] {
      SumBound(s[..|s| - 1]);
    }
  }

  /** The first k rows of a spin grid with rows of length n sum to a value in [-k*n, k*n]. */
  lemma {:induction false} TotalBound(t: Grid, n: nat)
    requires forall i | 0 <= i < |t| :: |t[i]| == n
    requires IsSpinGrid(t)
    ensures -|t| * n <= Total(t) <= |t| * n
  {
    if t != [] {
      var last := |t| - 1;
      TotalBound(t[..last], n);
      SumBound(t[last]);
      assert |t| * n == last * n + n;
    }
  }

  /** A row of n copies of v sums to n*v. */
  lemma {:induction false} SumConstant(s: seq<int>, v: int)
    requires forall k | 0 <= k < |s| :: s[k] == v
    ensures Sum(s) == |s| * v
  {
    if s != [] {
      SumConstant(s[..|s| - 1], v);
    }
  }

  /** A grid of rows of n copies of v sums to (rows * n) * v. */
  lemma {:induction false} TotalConstant(t: Grid, n: nat, v: int)
    requires forall i | 0 <= i < |t| :: |t[i]| == n
    requires forall i, j | 0 <= i < |t| && 0 <= j < n :: t[i][j] == v
    ensures Total(t) == |t| * n * v
  {
    if t != [] {
      var last := |t| - 1;
      TotalConstant(t[..last], n, v);
      SumConstant(t[last], v);
      assert |t| * n * v == last * n * v + n * v;
    }
  }
}
