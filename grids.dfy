/** Rectangular grids of real samples, the error kinds the transforms raise, and
    the bridge from a two-dimensional array to the grid value it holds. */
module Grids {

  /** A grid is a sequence of rows; row i, column j is g[i][j]. */
  type Grid = seq<seq<real>>

  /** Every row as long as the first one (vacuous for no rows). */
  predicate Rectangular(g: Grid) {
    forall i :: 0 <= i < |g| ==> |g[i]| == |g[0]|
  }

  /** A grid the transforms accept: at least one row (they all read row 0), all rows alike. */
  predicate IsGrid(g: Grid) {
    |g| >= 1 && Rectangular(g)
  }

  /** Number of columns; a grid without rows has none. */
  function Width(g: Grid): nat {
    if |g| == 0 then 0 else |g[0]|
  }

  /** True when (r, c) names a cell of g. */
  predicate InBounds(g: Grid, r: int, c: int) {
    0 <= r < |g| && 0 <= c < |g[r]|
  }

  /** The two exceptions the source throws: IllegalArgumentException in its several
      messages, and the ArrayIndexOutOfBoundsException of an unchecked read. */
  datatype Error =
    | InputSmallerThanFilter
    | ArrayTooSmall(minimum: nat)
    | UnsupportedInterpolation
    | IndexOutOfBounds

  datatype Outcome<T> = Ok(value: T) | Err(error: Error)

  datatype Option<T> = None | Some(value: T)

  /** The grid value held by a two-dimensional array. */
  function Cells(a: array2<real>): (g: Grid)
    reads a
    ensures |g| == a.Length0 && Rectangular(g) && Width(g) == (if a.Length0 == 0 then 0 else a.Length1)
    ensures forall i :: 0 <= i < a.Length0 ==> |g[i]| == a.Length1
    ensures forall i, j :: 0 <= i < a.Length0 && 0 <= j < a.Length1 ==> g[i][j] == a[i, j]
  {
    seq(a.Length0, i requires 0 <= i < a.Length0 reads a =>
      seq(a.Length1, j requires 0 <= j < a.Length1 reads a => a[i, j]))
  }

  /** An array holds g when it has g's shape and agrees with it cell by cell. */
  lemma CellsEq(a: array2<real>, g: Grid)
    requires |g| == a.Length0
    requires forall i :: 0 <= i < |g| ==> |g[i]| == a.Length1
    requires forall i, j :: 0 <= i < a.Length0 && 0 <= j < a.Length1 ==> a[i, j] == g[i][j]
    ensures Cells(a) == g
  {
    var c := Cells(a);
    forall i | 0 <= i < |g|
      ensures c[i] == g[i]
    {
      assert |c[i]| == |g[i]|;
    }
  }
}
