/** The stateful resampler of src/image_transforms/ResizeArray.java. An instance stores one
    scale factor. resize2d scatters the source into a zero grid, pads that grid by 2,
    walks the interior in row-major order and replaces every cell that is 0 at the time
    it is visited by BicubicInterpolator.getValue applied to a 4 x 4 window cut from
    padded rows 0 to 3, and finally copies the interior back out. The window is read
    from the grid being filled, so earlier fills feed later ones: the specification is
    a fold over the cells in visiting order. getValue belongs to a class outside this
    model and is a parameter here. */
module Transforms {
  import opened Grids
  import opened Scaling
  import Utils

  /** A padded working grid: at least four rows and four columns, all rows alike. */
  predicate Padded(st: Grid) {
    |st| >= 4 && Rectangular(st) && Width(st) >= 4
  }

  /** The window copied for column j: Arrays.copyOfRange(row, j - 2, j + 2) of each of
      rows 0 to 3. */
  function Window(st: Grid, j: int): (w: Grid)
    requires Padded(st) && 2 <= j && j + 2 <= Width(st)
    ensures |w| == 4 && forall ii :: 0 <= ii < 4 ==> |w[ii]| == 4
  {
    seq(4, ii requires 0 <= ii < 4 => st[ii][j - 2 .. j + 2])
  }

  /** The visit of interior cell (i, j): a cell that holds 0 is replaced by getValue of
      its window at coordinates (i, j); any other cell is kept. */
  function Step(st: Grid, i: int, j: int, getValue: (Grid, real, real) -> real): (r: Grid)
    requires Padded(st) && 2 <= i < |st| - 2 && 2 <= j < Width(st) - 2
    ensures Padded(r) && |r| == |st| && Width(r) == Width(st)
  {
    if st[i][j] == 0.0 then
      var r := st[i := st[i][j := getValue(Window(st, j), i as real, j as real)]];
      assert |r[i]| == |st[i]|;
      assert forall k :: 0 <= k < |r| ==> |r[k]| == |st[k]|;
      r
    else st
  }

  /** The grid after visiting columns 2 .. n-1 of row i, starting from st. */
  function FillCols(st: Grid, i: int, n: int, getValue: (Grid, real, real) -> real): (r: Grid)
    requires Padded(st) && 2 <= i < |st| - 2 && 2 <= n <= Width(st) - 2
    ensures Padded(r) && |r| == |st| && Width(r) == Width(st)
    decreases n
  {
    if n == 2 then st else Step(FillCols(st, i, n - 1, getValue), i, n - 1, getValue)
  }

  /** The grid after visiting every interior cell of rows 2 .. m-1, starting from st. */
  function FillRows(st: Grid, m: int, getValue: (Grid, real, real) -> real): (r: Grid)
    requires Padded(st) && 2 <= m <= |st| - 2
    ensures Padded(r) && |r| == |st| && Width(r) == Width(st)
    decreases m
  {
    if m == 2 then st
    else FillCols(FillRows(st, m - 1, getValue), m - 1, Width(st) - 2, getValue)
  }

  /** resize2d: scatter, pad by 2, fill the interior in row-major order, unpad. */
  function Transformed(g: Grid, scale: real, getValue: (Grid, real, real) -> real): (out: Grid)
    requires IsGrid(g) && scale >= 1.0
    ensures |out| == TargetSize(|g|, scale)
    ensures forall r :: 0 <= r < |out| ==> |out[r]| == TargetSize(Width(g), scale)
  {
    var sc := Scattered(g, scale);
    var p := Utils.Pad(sc, 2);
    Utils.Crop(FillRows(p, |p| - 2, getValue), 2, |sc|, Width(sc))
  }

  /** Transformed spelled out stage by stage. */
  lemma TransformedSteps(g: Grid, scale: real, getValue: (Grid, real, real) -> real, sc: Grid, gp: Grid, filled: Grid)
    requires IsGrid(g) && scale >= 1.0
    requires sc == Scattered(g, scale) && gp == Utils.Pad(sc, 2) && filled == FillRows(gp, |gp| - 2, getValue)
    ensures Transformed(g, scale, getValue) == Utils.Crop(filled, 2, |sc|, Width(sc))
  {
    assert Padded(filled) && |filled| == |sc| + 4 && Width(filled) == Width(sc) + 4;
    assert Transformed(g, scale, getValue) == Utils.Crop(FillRows(gp, |gp| - 2, getValue), 2, |sc|, Width(sc));
  }

  // ----- frame lemmas of the fold -----

  /** Visiting the first cells of row i changes nothing but cells of row i among the
      visited columns that held 0 before. */
  lemma {:induction false} FillColsFrame(st: Grid, i: int, n: int, getValue: (Grid, real, real) -> real, r: int, c: int)
    requires Padded(st) && 2 <= i < |st| - 2 && 2 <= n <= Width(st) - 2
    requires 0 <= r < |st| && 0 <= c < Width(st)
    ensures FillCols(st, i, n, getValue)[r][c] == st[r][c] ||
      (r == i && 2 <= c < n && st[r][c] == 0.0)
    decreases n
  {
    if n > 2 {
      FillColsFrame(st, i, n - 1, getValue, r, c);
      FillColsFrame(st, i, n - 1, getValue, i, n - 1);
    }
  }

  /** The whole fill changes only interior cells of the visited rows that held 0 before. */
  lemma {:induction false} FillRowsFrame(st: Grid, m: int, getValue: (Grid, real, real) -> real, r: int, c: int)
    requires Padded(st) && 2 <= m <= |st| - 2
    requires 0 <= r < |st| && 0 <= c < Width(st)
    ensures FillRows(st, m, getValue)[r][c] == st[r][c] ||
      (2 <= r < m && 2 <= c < Width(st) - 2 && st[r][c] == 0.0)
    decreases m
  {
    if m > 2 {
      var prev := FillRows(st, m - 1, getValue);
      FillRowsFrame(st, m - 1, getValue, r, c);
      FillColsFrame(prev, m - 1, Width(st) - 2, getValue, r, c);
      if r == m - 1 {
        FillRowsFrame(st, m - 1, getValue, r, c);
      }
    }
  }

  /** From padded row 4 on, visiting a row leaves rows 0 to 3 alone, so every window taken
      there is cut from the same four rows as after the first two interior rows. */
  lemma {:induction false} WindowsSettle(st: Grid, m: int, getValue: (Grid, real, real) -> real, j: int)
    requires Padded(st) && 4 <= m <= |st| - 2 && 2 <= j < Width(st) - 2
    ensures Window(FillRows(st, m, getValue), j) == Window(FillRows(st, 4, getValue), j)
    decreases m
  {
    if m > 4 {
      var prev := FillRows(st, m - 1, getValue);
      WindowsSettle(st, m - 1, getValue, j);
      forall ii, c | 0 <= ii < 4 && 0 <= c < Width(st)
        ensures FillRows(st, m, getValue)[ii][c] == prev[ii][c]
      {
        FillColsFrame(prev, m - 1, Width(st) - 2, getValue, ii, c);
      }
      var a, b := Window(FillRows(st, m, getValue), j), Window(prev, j);
      forall ii | 0 <= ii < 4
        ensures a[ii] == b[ii]
      {
        assert forall k :: 0 <= k < 4 ==> a[ii][k] == b[ii][k];
      }
    }
  }

  // ----- properties of the resize -----

  /** The fill writes only cells that are 0 after the scatter: every other cell of the
      result holds its scattered value. */
  lemma TransformedKeepsNonZero(g: Grid, scale: real, getValue: (Grid, real, real) -> real, r: int, c: int)
    requires IsGrid(g) && scale >= 1.0 && InTarget(g, scale, r, c)
    requires Scattered(g, scale)[r][c] != 0.0
    ensures Transformed(g, scale, getValue)[r][c] == Scattered(g, scale)[r][c]
  {
    var sc := Scattered(g, scale);
    var p := Utils.Pad(sc, 2);
    Utils.PadInterior(sc, 2, r, c);
    FillRowsFrame(p, |p| - 2, getValue, r + 2, c + 2);
  }

  /** The padding never changes: every cell outside the interior of the working grid is
      0 after the fill. */
  lemma PaddingStaysZero(g: Grid, scale: real, getValue: (Grid, real, real) -> real, r: int, c: int)
    requires IsGrid(g) && scale >= 1.0
    requires var p := Utils.Pad(Scattered(g, scale), 2); 0 <= r < |p| && 0 <= c < Width(p)
    requires var sc := Scattered(g, scale); !(2 <= r < |sc| + 2 && 2 <= c < Width(sc) + 2)
    ensures var p := Utils.Pad(Scattered(g, scale), 2); FillRows(p, |p| - 2, getValue)[r][c] == 0.0
  {
    var sc := Scattered(g, scale);
    var p := Utils.Pad(sc, 2);
    Utils.PadBorder(sc, 2, r, c);
    FillRowsFrame(p, |p| - 2, getValue, r, c);
  }

  /** For scale >= 1 every non-zero source cell is found at its scaled position. */
  lemma TransformedKeepsSamples(g: Grid, scale: real, getValue: (Grid, real, real) -> real, i: nat, j: nat)
    requires IsGrid(g) && scale >= 1.0 && i < |g| && j < Width(g) && g[i][j] != 0.0
    ensures InTarget(g, scale, Scaled(i, scale), Scaled(j, scale))
    ensures Transformed(g, scale, getValue)[Scaled(i, scale)][Scaled(j, scale)] == g[i][j]
  {
    ScatteredKeepsSamples(g, scale, i, j);
    TransformedKeepsNonZero(g, scale, getValue, Scaled(i, scale), Scaled(j, scale));
  }

  /** At scale 1 a grid without zero samples comes back unchanged, whatever getValue is. */
  lemma TransformedUnitScale(g: Grid, getValue: (Grid, real, real) -> real)
    requires IsGrid(g)
    requires forall i, j :: 0 <= i < |g| && 0 <= j < Width(g) ==> g[i][j] != 0.0
    ensures Transformed(g, 1.0, getValue) == g
  {
    ScatteredUnitScale(g);
    var out := Transformed(g, 1.0, getValue);
    forall r | 0 <= r < |g|
      ensures out[r] == g[r]
    {
      forall c | 0 <= c < |g[r]|
        ensures out[r][c] == g[r][c]
      {
        TransformedKeepsNonZero(g, 1.0, getValue, r, c);
      }
    }
  }

  // ----- the imperative code -----

  /** The window copy of resize2d: a fresh 4 x 4 array holding columns j - 2 .. j + 1 of
      rows 0 to 3 of a. */
  method CopyWindow(a: array2<real>, j: int) returns (neighbors: array2<real>)
    requires a.Length0 >= 4 && a.Length1 >= 4 && 2 <= j && j + 2 <= a.Length1
    ensures fresh(neighbors)
    ensures Cells(neighbors) == Window(Cells(a), j)
  {
    neighbors := new real[4, 4]((_, _) => 0.0);
    for ii := 0 to 4
      invariant forall r, c :: 0 <= r < 4 && 0 <= c < 4 ==>
        neighbors[r, c] == if r < ii then a[r, j - 2 + c] else 0.0
    {
      for k := 0 to 4
        invariant forall r, c :: 0 <= r < 4 && 0 <= c < 4 ==>
          neighbors[r, c] == if r < ii || (r == ii && c < k) then a[r, j - 2 + c] else 0.0
      {
        neighbors[ii, k] := a[ii, j - 2 + k];
      }
    }
    CellsEq(neighbors, Window(Cells(a), j));
  }

  /** The fill loop of resize2d over a padded working array: visits the interior in
      row-major order and replaces each cell that holds 0 by getValue of its window. */
  method FillInterior(a: array2<real>, ghost gp: Grid, getValue: (Grid, real, real) -> real)
    requires a.Length0 >= 4 && a.Length1 >= 4 && Cells(a) == gp
    modifies a
    ensures Padded(gp) && Cells(a) == FillRows(gp, |gp| - 2, getValue)
  {
    for i := 2 to a.Length0 - 2
      invariant forall r, c :: 0 <= r < a.Length0 && 0 <= c < a.Length1 ==>
        a[r, c] == FillRows(gp, i, getValue)[r][c]
    {
      for j := 2 to a.Length1 - 2
        invariant forall r, c :: 0 <= r < a.Length0 && 0 <= c < a.Length1 ==>
          a[r, c] == FillCols(FillRows(gp, i, getValue), i, j, getValue)[r][c]
      {
        ghost var st := FillCols(FillRows(gp, i, getValue), i, j, getValue);
        CellsEq(a, st);
        var value := a[i, j];
        if value == 0.0 {
          var neighbors := CopyWindow(a, j);
          var interpolateValue := getValue(Cells(neighbors), i as real, j as real);
          a[i, j] := interpolateValue;
        }
      }
    }
    CellsEq(a, FillRows(gp, a.Length0 - 2, getValue));
  }

  /** The unpad loop of resize2d: a fresh h x w array holding the window of a whose
      top-left cell is (p, p). */
  method Unpad(a: array2<real>, p: nat, h: nat, w: nat) returns (b: array2<real>)
    requires p + h <= a.Length0 && p + w <= a.Length1
    ensures fresh(b)
    ensures Cells(b) == Utils.Crop(Cells(a), p, h, w)
  {
    b := new real[h, w]((_, _) => 0.0);
    for i := 0 to h
      invariant forall r, c :: 0 <= r < h && 0 <= c < w ==>
        b[r, c] == if r < i then a[r + p, c + p] else 0.0
    {
      for j := 0 to w
        invariant forall r, c :: 0 <= r < h && 0 <= c < w ==>
          b[r, c] == if r < i || (r == i && c < j) then a[r + p, c + p] else 0.0
      {
        b[i, j] := a[i + p, j + p];
      }
    }
    CellsEq(b, Utils.Crop(Cells(a), p, h, w));
  }

  /** ResizeArray: a resampler bound to one scale factor. */
  class ResizeArray {
    var scale: real

    constructor (scale: real)
      ensures this.scale == scale
    {
      this.scale := scale;
    }

    /** padding2d: a fresh copy of arr surrounded by paddingSize rows and columns of 0. */
    method Padding2d(arr: array2<real>, paddingSize: nat) returns (newArr: array2<real>)
      requires arr.Length0 >= 1
      ensures fresh(newArr)
      ensures Cells(newArr) == Utils.Pad(Cells(arr), paddingSize)
    {
      newArr := Utils.Padding2d(arr, paddingSize);
    }

    /** resize2d: the scaled grid with its zero cells filled by getValue; neither the
        source array nor the scale field is changed. */
    method Resize2d(arr: array2<real>, getValue: (Grid, real, real) -> real) returns (finalArray: array2<real>)
      requires arr.Length0 >= 1 && scale >= 1.0
      ensures fresh(finalArray)
      ensures Cells(finalArray) == Transformed(Cells(arr), scale, getValue)
    {
      ghost var g := Cells(arr);
      var paddingSize := 2;
      var newArr := Scatter(arr, scale);
      ghost var sc := Cells(newArr);
      assert sc == Scattered(g, scale);
      var newH, newW := newArr.Length0, newArr.Length1;
      newArr := Padding2d(newArr, paddingSize);
      ghost var gp := Cells(newArr);
      assert gp == Utils.Pad(sc, 2);
      FillInterior(newArr, gp, getValue);
      ghost var filled := Cells(newArr);
      finalArray := Unpad(newArr, paddingSize, newH, newW);
      TransformedSteps(g, scale, getValue, sc, gp, filled);
      assert Cells(arr) == g;
    }
  }
}
