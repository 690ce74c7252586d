/** Two-dimensional convolution of src/image/filters/Convolution.java. The filter is slid
    without flipping it (a cross-correlation); every read outside the input counts as 0. */
module Convolution {
  import opened Grids
  import Utils

  /** The value the source reads at (r, c): the cell when it exists, and 0 when the read
      raises IndexOutOfBoundsException and is caught. */
  function Sample(g: Grid, r: int, c: int): real {
    if InBounds(g, r, c) then g[r][c] else 0.0
  }

  /** f[a][0] * Sample(g, x + a, y) + ... + f[a][n - 1] * Sample(g, x + a, y + n - 1):
      the first n terms of filter row a. */
  function RowSum(g: Grid, f: Grid, x: int, y: int, a: nat, n: nat): real
    requires a < |f| && n <= |f[a]|
  {
    if n == 0 then 0.0
    else RowSum(g, f, x, y, a, n - 1) + f[a][n - 1] * Sample(g, x + a, y + n - 1)
  }

  /** The weighted sum over filter rows 0 .. m - 1 with the window's top-left at (x, y). */
  function WindowSum(g: Grid, f: Grid, x: int, y: int, m: nat): real
    requires Rectangular(f) && m <= |f|
  {
    if m == 0 then 0.0
    else WindowSum(g, f, x, y, m - 1) + RowSum(g, f, x, y, m - 1, Width(f))
  }

  /** The grid actually convolved: padded by exactly 1 for "same", untouched otherwise. */
  function PaddedInput(g: Grid, padding: string): (r: Grid)
    requires IsGrid(g)
    ensures IsGrid(r)
    ensures var e := if padding == "same" then 2 else 0;
      |r| == |g| + e && Width(r) == Width(g) + e
  {
    if padding == "same" then Utils.Pad(g, 1) else g
  }

  /** The inputs apply2DConvolution handles without an unguarded read: rectangular grids
      where the input or the filter has a row, so that either the size check rejects an
      empty input or input[0] exists. */
  predicate Convolvable(g: Grid, f: Grid) {
    (|g| >= 1 || |f| >= 1) && Rectangular(g) && Rectangular(f)
  }

  /** apply2DConvolution as a value: rejects an input with fewer rows, or fewer columns,
      than the filter has rows; otherwise one window sum per output cell. */
  function Convolve(g: Grid, f: Grid, padding: string): Outcome<Grid>
    requires Convolvable(g, f)
  {
    if |g| < |f| || Width(g) < |f| then Err(InputSmallerThanFilter)
    else
      var input := PaddedInput(g, padding);
      Ok(seq(|input| - |f| + 1, i =>
        seq(Width(input) - |f| + 1, j => WindowSum(input, f, i, j, |f|))))
  }

  // ----- properties -----

  /** The only failure is an input smaller than the filter, with both input dimensions
      compared against the filter's row count. Otherwise the output has one row per
      window position over the (padded) rows and one column per position over the
      (padded) columns; both window extents are the filter's row count. */
  lemma ConvolveShape(g: Grid, f: Grid, padding: string)
    requires Convolvable(g, f)
    ensures Convolve(g, f, padding).Err? <==> |g| < |f| || Width(g) < |f|
    ensures Convolve(g, f, padding).Err? ==> Convolve(g, f, padding).error == InputSmallerThanFilter
    ensures Convolve(g, f, padding).Ok? ==>
      var e := if padding == "same" then 2 else 0;
      var out := Convolve(g, f, padding).value;
      |out| == |g| + e - |f| + 1 &&
      forall i :: 0 <= i < |out| ==> |out[i]| == Width(g) + e - |f| + 1
  {
  }

  /** With "same" padding a 3x3 filter yields an output exactly as large as the input. */
  lemma SameWithThreeByThreeKeepsShape(g: Grid, f: Grid)
    requires IsGrid(g) && Rectangular(f) && |f| == 3 && |g| >= 3 && Width(g) >= 3
    ensures Convolve(g, f, "same").Ok?
    ensures |Convolve(g, f, "same").value| == |g|
    ensures forall i :: 0 <= i < |g| ==> |Convolve(g, f, "same").value[i]| == Width(g)
  {
  }

  /** An all-zero filter row contributes nothing. */
  lemma {:induction false} RowSumZero(g: Grid, f: Grid, x: int, y: int, a: nat, n: nat)
    requires a < |f| && n <= |f[a]|
    requires forall b :: 0 <= b < |f[a]| ==> f[a][b] == 0.0
    ensures RowSum(g, f, x, y, a, n) == 0.0
  {
    if n > 0 {
      RowSumZero(g, f, x, y, a, n - 1);
    }
  }

  /** An all-zero filter gives 0 at every window position. */
  lemma {:induction false} WindowSumZero(g: Grid, f: Grid, x: int, y: int, m: nat)
    requires Rectangular(f) && m <= |f|
    requires forall a, b :: 0 <= a < |f| && 0 <= b < |f[a]| ==> f[a][b] == 0.0
    ensures WindowSum(g, f, x, y, m) == 0.0
  {
    if m > 0 {
      WindowSumZero(g, f, x, y, m - 1);
      RowSumZero(g, f, x, y, m - 1, Width(f));
    }
  }

  /** An all-zero filter yields an all-zero output of the stated shape. */
  lemma ConvolveZeroFilter(g: Grid, f: Grid, padding: string)
    requires IsGrid(g) && Rectangular(f) && |g| >= |f| && Width(g) >= |f|
    requires forall a, b :: 0 <= a < |f| && 0 <= b < |f[a]| ==> f[a][b] == 0.0
    ensures Convolve(g, f, padding).Ok?
    ensures forall i, j :: 0 <= i < |Convolve(g, f, padding).value| &&
                           0 <= j < |Convolve(g, f, padding).value[i]| ==>
                           Convolve(g, f, padding).value[i][j] == 0.0
  {
    var input := PaddedInput(g, padding);
    forall i, j | 0 <= i && 0 <= j
      ensures WindowSum(input, f, i, j, |f|) == 0.0
    {
      WindowSumZero(input, f, i, j, |f|);
    }
  }

  /** A filter that is 1 at (a0, b0) and 0 elsewhere.  */
  predicate IsUnitImpulse(f: Grid, a0: nat, b0: nat) {
    Rectangular(f) && a0 < |f| && b0 < Width(f) &&
    forall a, b :: 0 <= a < |f| && 0 <= b < |f[a]| ==> f[a][b] == (if a == a0 && b == b0 then 1.0 else 0.0)
  }

  lemma {:induction false} RowSumImpulse(g: Grid, f: Grid, x: int, y: int, a0: nat, b0: nat, a: nat, n: nat)
    requires IsUnitImpulse(f, a0, b0) && a < |f| && n <= |f[a]|
    ensures RowSum(g, f, x, y, a, n) == if a == a0 && b0 < n then Sample(g, x + a0, y + b0) else 0.0
  {
    if n > 0 {
      RowSumImpulse(g, f, x, y, a0, b0, a, n - 1);
    }
  }

  lemma {:induction false} WindowSumImpulse(g: Grid, f: Grid, x: int, y: int, a0: nat, b0: nat, m: nat)
    requires IsUnitImpulse(f, a0, b0) && m <= |f|
    ensures WindowSum(g, f, x, y, m) == if a0 < m then Sample(g, x + a0, y + b0) else 0.0
  {
    if m > 0 {
      WindowSumImpulse(g, f, x, y, a0, b0, m - 1);
      RowSumImpulse(g, f, x, y, a0, b0, m - 1, Width(f));
    }
  }

  /** No kernel flip: a filter whose only non-zero entry is a 1 at (a0, b0) moves the
      sample at (i + a0, j + b0) to output cell (i, j); a true convolution would read
      (i - a0, j - b0) instead. */
  lemma ConvolveImpulse(g: Grid, f: Grid, padding: string, a0: nat, b0: nat, i: nat, j: nat)
    requires IsGrid(g) && IsUnitImpulse(f, a0, b0) && |g| >= |f| && Width(g) >= |f|
    requires i < |Convolve(g, f, padding).value| && j < |Convolve(g, f, padding).value[i]|
    ensures Convolve(g, f, padding).value[i][j] == Sample(PaddedInput(g, padding), i + a0, j + b0)
  {
    WindowSumImpulse(PaddedInput(g, padding), f, i, j, a0, b0, |f|);
  }

  /** The filter [[1]] without "same" padding returns the input unchanged. */
  lemma ConvolveIdentity(g: Grid, padding: string)
    requires IsGrid(g) && Width(g) >= 1 && padding != "same"
    ensures Convolve(g, [[1.0]], padding) == Ok(g)
  {
    var f: Grid := [[1.0]];
    assert IsUnitImpulse(f, 0, 0);
    var out := Convolve(g, f, padding).value;
    assert |out| == |g| && forall i :: 0 <= i < |g| ==> |out[i]| == |g[i]|;
    forall i | 0 <= i < |g|
      ensures out[i] == g[i]
    {
      forall j | 0 <= j < |g[i]|
        ensures out[i][j] == g[i][j]
      {
        ConvolveImpulse(g, f, padding, 0, 0, i, j);
      }
    }
    assert out == g;
    assert Convolve(g, f, padding) == Ok(out);
  }

  /** With a square filter every read of every window lies inside the (padded) input, so
      the zero fallback is never taken. */
  lemma SquareFilterReadsInBounds(g: Grid, f: Grid, padding: string, i: nat, j: nat, a: nat, b: nat)
    requires IsGrid(g) && Rectangular(f) && Width(f) == |f|
    requires Convolve(g, f, padding).Ok?
    requires i < |Convolve(g, f, padding).value| && j < |Convolve(g, f, padding).value[i]|
    requires a < |f| && b < |f[a]|
    ensures InBounds(PaddedInput(g, padding), i + a, j + b)
  {
  }

  /** A filter row longer than the filter is tall does reach outside the input: the
      fallback value 0 is used for the column past the right edge. */
  lemma WideFilterReadsZero()
    ensures Convolve([[5.0]], [[1.0, 7.0]], "valid") == Ok([[5.0]])
  {
    var g: Grid, f: Grid := [[5.0]], [[1.0, 7.0]];
    assert !InBounds(g, 0, 1);
    assert RowSum(g, f, 0, 0, 0, 1) == 5.0;
    assert WindowSum(g, f, 0, 0, 1) == 5.0;
    var out := Convolve(g, f, "valid").value;
    assert |out| == 1 && |out[0]| == 1 && out[0][0] == 5.0;
    assert out[0] == [5.0];
    assert out == [[5.0]];
  }

  // ----- the imperative routines -----

  /** applyOneConvOperation: accumulates filter[i][j] * input[x + i][y + j] over the filter,
      row by row, reading 0 outside the input. */
  method ApplyOneConvOperation(input: array2<real>, x: int, y: int, filter: array2<real>) returns (result: real)
    ensures result == WindowSum(Cells(input), Cells(filter), x, y, filter.Length0)
  {
    ghost var g, f := Cells(input), Cells(filter);
    result := 0.0;
    for i := 0 to filter.Length0
      invariant result == WindowSum(g, f, x, y, i)
    {
      for j := 0 to filter.Length1
        invariant result == WindowSum(g, f, x, y, i) + RowSum(g, f, x, y, i, j)
      {
        var inputValue := 0.0;
        if 0 <= x + i < input.Length0 && 0 <= y + j < input.Length1 {
          inputValue := input[x + i, y + j];
        }
        result := result + filter[i, j] * inputValue;
      }
    }
  }

  /** The output loops of apply2DConvolution: one ApplyOneConvOperation per output cell,
      row by row, with the window's top-left corner at the cell's own position. */
  method FillOutput(source: array2<real>, filter: array2<real>, outputRows: nat, outputCols: nat)
    returns (output: array2<real>)
    ensures fresh(output) && output.Length0 == outputRows && output.Length1 == outputCols
    ensures forall r, c :: 0 <= r < outputRows && 0 <= c < outputCols ==>
      output[r, c] == WindowSum(Cells(source), Cells(filter), r, c, filter.Length0)
  {
    ghost var g, f := Cells(source), Cells(filter);
    output := new real[outputRows, outputCols]((_, _) => 0.0);
    for i := 0 to outputRows
      modifies output
      invariant forall r, c {:trigger output[r, c]} :: 0 <= r < i && 0 <= c < outputCols ==>
        output[r, c] == WindowSum(g, f, r, c, |f|)
    {
      for j := 0 to outputCols
        modifies output
        invariant forall r, c {:trigger output[r, c]} ::
          0 <= r < outputRows && 0 <= c < outputCols && (r < i || (r == i && c < j)) ==>
          output[r, c] == WindowSum(g, f, r, c, |f|)
      {
        assert Cells(source) == g && Cells(filter) == f;
        var value := ApplyOneConvOperation(source, i, j, filter);
        output[i, j] := value;
      }
    }
  }

  /** apply2DConvolution: checks the sizes, pads by 1 for "same", then fills the output
      cell by cell. The caller's input array is never written. */
  method Apply2DConvolution(input: array2<real>, filter: array2<real>, padding: string)
    returns (res: Outcome<array2<real>>)
    requires input.Length0 >= 1 || filter.Length0 >= 1
    ensures match Convolve(Cells(input), Cells(filter), padding)
      case Err(e) => res == Err(e)
      case Ok(out) => res.Ok? && fresh(res.value) && Cells(res.value) == out
  {
    if input.Length0 < filter.Length0 || input.Length1 < filter.Length0 {
      return Err(InputSmallerThanFilter);
    }
    var source := input;
    if padding == "same" {
      source := Utils.Padding2d(input, 1);
    }
    assert Cells(source) == PaddedInput(Cells(input), padding);
    var outputRows := source.Length0 - filter.Length0 + 1;
    var outputCols := source.Length1 - filter.Length0 + 1;
    var output := FillOutput(source, filter, outputRows, outputCols);
    CellsEq(output, Convolve(Cells(input), Cells(filter), padding).value);
    return Ok(output);
  }
}
