/** Scale arithmetic and the scatter pass that both resize2d variants
    (src/image/resizing/ResizeArray.java and src/image_transforms/ResizeArray.java) run
    before filling: source cell (i, j) is copied to target cell
    (round(i * scale), round(j * scale)) of a zero grid of round(H * scale) rows and
    round(W * scale) columns. */
module Scaling {
  import opened Grids

  /** Math.round on an exact real: the nearest integer, ties rounded up. */
  function Round(v: real): (r: int)
    ensures r as real <= v + 0.5 < r as real + 1.0
  {
    (v + 0.5).Floor
  }

  /** (int) Math.round(n * scale): the target extent for n source rows (or columns). */
  function TargetSize(n: nat, scale: real): (r: nat)
    requires scale >= 1.0
    ensures r >= n
  {
    Round(n as real * scale)
  }

  /** (int) Math.round(i * scale): where source index i lands in the target. */
  function Scaled(i: int, scale: real): int {
    Round(i as real * scale)
  }

  lemma RoundMonotone(u: real, v: real)
    requires u <= v
    ensures Round(u) <= Round(v)
  {
  }

  lemma RoundShift(v: real)
    ensures Round(v + 1.0) == Round(v) + 1
  {
  }

  /** For scale >= 1 consecutive source indices land at least one target cell apart. */
  lemma ScaledStep(i: int, scale: real)
    requires scale >= 1.0
    ensures Scaled(i, scale) + 1 <= Scaled(i + 1, scale)
  {
    assert (i + 1) as real * scale == i as real * scale + scale;
    RoundShift(i as real * scale);
    RoundMonotone(i as real * scale + 1.0, (i + 1) as real * scale);
  }

  /** For scale >= 1 distinct source indices land on distinct target indices, in order. */
  lemma {:induction false} ScaledStrictlyIncreasing(i: int, k: int, scale: real)
    requires scale >= 1.0 && i < k
    ensures Scaled(i, scale) < Scaled(k, scale)
    decreases k - i
  {
    ScaledStep(i, scale);
    if i + 1 < k {
      ScaledStrictlyIncreasing(i + 1, k, scale);
    }
  }

  /** For scale >= 1 every scatter index of an n-long axis lies in [0, TargetSize(n)). */
  lemma ScaledInRange(i: nat, n: nat, scale: real)
    requires scale >= 1.0 && i < n
    ensures 0 <= Scaled(i, scale) < TargetSize(n, scale)
  {
    ScaledStrictlyIncreasing(i, n, scale);
    assert 0.0 <= i as real * scale;
  }

  /** An integer scale k sends index i to k * i exactly. */
  lemma ScaledByInteger(i: int, k: int)
    ensures Scaled(i, k as real) == k * i
  {
    assert i as real * k as real == (k * i) as real;
  }

  /** The largest source index below n that lands on target index t, or -1: the source
      cell whose write to t comes last in the scatter loop. */
  function LastSource(t: int, scale: real, n: nat): (k: int)
    ensures -1 <= k < n
    ensures k >= 0 ==> Scaled(k, scale) == t
    ensures forall i :: k < i < n ==> Scaled(i, scale) != t
  {
    if n == 0 then -1
    else if Scaled(n - 1, scale) == t then n - 1
    else LastSource(t, scale, n - 1)
  }

  /** For scale >= 1 the source index that lands on Scaled(i) is i itself. */
  lemma LastSourceOfScaled(i: nat, scale: real, n: nat)
    requires scale >= 1.0 && i < n
    ensures LastSource(Scaled(i, scale), scale, n) == i
  {
    var k := LastSource(Scaled(i, scale), scale, n);
    if k > i {
      ScaledStrictlyIncreasing(i, k, scale);
    }
  }

  /** True when (r, c) is a cell of the scattered grid, and so of either resampler's output. */
  predicate InTarget(g: Grid, scale: real, r: int, c: int)
    requires IsGrid(g) && scale >= 1.0
  {
    0 <= r < TargetSize(|g|, scale) && 0 <= c < TargetSize(Width(g), scale)
  }

  /** The grid after the scatter pass: target cell (r, c) holds the source cell that is
      written there last, and 0 when no source cell lands there. */
  function Scattered(g: Grid, scale: real): (r: Grid)
    requires IsGrid(g) && scale >= 1.0
    ensures IsGrid(r) && |r| == TargetSize(|g|, scale) && Width(r) == TargetSize(Width(g), scale)
  {
    var h, w := TargetSize(|g|, scale), TargetSize(Width(g), scale);
    ScaledInRange(0, |g|, scale);
    var r := seq(h, t =>
      seq(w, u =>
        var i, j := LastSource(t, scale, |g|), LastSource(u, scale, Width(g));
        if i >= 0 && j >= 0 then g[i][j] else 0.0));
    assert forall t :: 0 <= t < h ==> |r[t]| == w;
    r
  }

  // ----- properties of the scatter -----

  /** For scale >= 1 every source cell survives the scatter at its scaled position. */
  lemma ScatteredKeepsSamples(g: Grid, scale: real, i: nat, j: nat)
    requires IsGrid(g) && scale >= 1.0 && i < |g| && j < Width(g)
    ensures 0 <= Scaled(i, scale) < TargetSize(|g|, scale) && 0 <= Scaled(j, scale) < TargetSize(Width(g), scale)
    ensures Scattered(g, scale)[Scaled(i, scale)][Scaled(j, scale)] == g[i][j]
  {
    ScaledInRange(i, |g|, scale);
    ScaledInRange(j, Width(g), scale);
    LastSourceOfScaled(i, scale, |g|);
    LastSourceOfScaled(j, scale, Width(g));
  }

  /** A target row (or column) that no source index lands on stays 0. */
  lemma ScatteredGapsAreZero(g: Grid, scale: real, t: nat, u: nat)
    requires IsGrid(g) && scale >= 1.0
    requires t < TargetSize(|g|, scale) && u < TargetSize(Width(g), scale)
    requires (forall i :: 0 <= i < |g| ==> Scaled(i, scale) != t) ||
             (forall j :: 0 <= j < Width(g) ==> Scaled(j, scale) != u)
    ensures Scattered(g, scale)[t][u] == 0.0
  {
    var i, j := LastSource(t, scale, |g|), LastSource(u, scale, Width(g));
    assert i == -1 || j == -1;
  }

  /** At scale 1 the scatter copies the grid. */
  lemma ScatteredUnitScale(g: Grid)
    requires IsGrid(g)
    ensures Scattered(g, 1.0) == g
  {
    var r := Scattered(g, 1.0);
    assert TargetSize(|g|, 1.0) == |g| && TargetSize(Width(g), 1.0) == Width(g);
    forall t | 0 <= t < |g|
      ensures r[t] == g[t]
    {
      forall u | 0 <= u < Width(g)
        ensures r[t][u] == g[t][u]
      {
        assert Scaled(t, 1.0) == t && Scaled(u, 1.0) == u;
        ScatteredKeepsSamples(g, 1.0, t, u);
      }
    }
  }

  // ----- the scatter loop -----

  /** Target cell (t, u) after the scatter loop has copied rows 0 .. i-1 and the first j
      cells of row i. */
  function Written(g: Grid, scale: real, i: nat, j: nat, t: int, u: int): real
    requires IsGrid(g) && i <= |g| && j <= Width(g)
  {
    var sj := LastSource(u, scale, j);
    if i < |g| && t == Scaled(i, scale) && sj >= 0 then g[i][sj]
    else
      var si, sj' := LastSource(t, scale, i), LastSource(u, scale, Width(g));
      if si >= 0 && sj' >= 0 then g[si][sj'] else 0.0
  }

  /** Copying cell (i, j) changes target cell (Scaled(i), Scaled(j)) only. */
  lemma WrittenStep(g: Grid, scale: real, i: nat, j: nat, t: int, u: int)
    requires IsGrid(g) && i < |g| && j < Width(g)
    ensures Written(g, scale, i, j + 1, t, u) ==
      if t == Scaled(i, scale) && u == Scaled(j, scale) then g[i][j] else Written(g, scale, i, j, t, u)
  {
  }

  /** A finished row is the same state as the start of the next one. */
  lemma WrittenNextRow(g: Grid, scale: real, i: nat, t: int, u: int)
    requires IsGrid(g) && i < |g|
    ensures Written(g, scale, i, Width(g), t, u) == Written(g, scale, i + 1, 0, t, u)
  {
  }

  /** One pass of the outer scatter loop: copies source row i to target row Scaled(i). */
  method ScatterRow(arr: array2<real>, newArr: array2<real>, ghost g: Grid, scale: real, i: nat)
    requires arr != newArr && Cells(arr) == g && scale >= 1.0 && i < arr.Length0
    requires newArr.Length0 == TargetSize(|g|, scale) && newArr.Length1 == TargetSize(Width(g), scale)
    requires forall t, u :: 0 <= t < newArr.Length0 && 0 <= u < newArr.Length1 ==>
      newArr[t, u] == Written(g, scale, i, 0, t, u)
    modifies newArr
    ensures forall t, u :: 0 <= t < newArr.Length0 && 0 <= u < newArr.Length1 ==>
      newArr[t, u] == Written(g, scale, i + 1, 0, t, u)
  {
    ScaledInRange(i, |g|, scale);
    for j := 0 to arr.Length1
      invariant forall t, u :: 0 <= t < newArr.Length0 && 0 <= u < newArr.Length1 ==>
        newArr[t, u] == Written(g, scale, i, j, t, u)
    {
      ScaledInRange(j, Width(g), scale);
      forall t, u | 0 <= t < newArr.Length0 && 0 <= u < newArr.Length1 {
        WrittenStep(g, scale, i, j, t, u);
      }
      newArr[Round(i as real * scale), Round(j as real * scale)] := arr[i, j];
    }
    forall t, u | 0 <= t < newArr.Length0 && 0 <= u < newArr.Length1 {
      WrittenNextRow(g, scale, i, t, u);
    }
  }

  /** Allocates the round(H * scale) x round(W * scale) zero array and copies every source
      cell to its rounded position, row by row; the source array is only read. */
  method Scatter(arr: array2<real>, scale: real) returns (newArr: array2<real>)
    requires arr.Length0 >= 1 && scale >= 1.0
    ensures fresh(newArr)
    ensures Cells(newArr) == Scattered(Cells(arr), scale)
  {
    ghost var g := Cells(arr);
    var h, w := arr.Length0, arr.Length1;
    var newH, newW := Round(h as real * scale), Round(w as real * scale);
    ScaledInRange(0, h, scale);
    newArr := new real[newH, newW]((_, _) => 0.0);
    for i := 0 to h
      invariant Cells(arr) == g
      invariant forall t, u :: 0 <= t < newH && 0 <= u < newW ==>
        newArr[t, u] == Written(g, scale, i, 0, t, u)
    {
      ScatterRow(arr, newArr, g, scale, i);
    }
    CellsEq(newArr, Scattered(g, scale));
  }
}
