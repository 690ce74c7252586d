/** The resampler of src/image/resizing/ResizeArray.java: scatter the source grid into a
    larger zero grid, then give every cell that is still exactly 0 a bilinear or bicubic
    value computed from a window of the ORIGINAL grid. The window locators take the
    target row as their x and the target column as their y, check x against the row
    count and y against the column count, and then read originalImage[y][x]; the model
    keeps this axis arrangement as written. */
module Resizing {
  import opened Grids
  import opened Interpolation
  import opened Scaling

  /** NeighborResult: the two relative positions and the 4 x 4 neighbour window. */
  datatype NeighborResult = NeighborResult(xDistance: real, yDistance: real, neighbors: Grid)

  /** (v - floor v) / ((floor v + 1) - floor v): where v sits between its two grid lines. */
  function Distance(v: real): (d: real)
    ensures d == v - v.Floor as real
    ensures 0.0 <= d < 1.0
  {
    (v - v.Floor as real) / ((v.Floor + 1) as real - v.Floor as real)
  }

  /** (double) t / scale, the source coordinate of target coordinate t. */
  function SourceCoordinate(t: int, scale: int): real
    requires scale != 0
  {
    t as real / scale as real
  }

  // ----- find4Neighbors -----

  /** The zero-fill test of find4Neighbors for entry (i, j): x = lx + i against the row
      count, y = ly + j against the column count. */
  predicate Skip4(g: Grid, lx: int, ly: int, i: int, j: int) {
    lx + i > |g| - 1 || ly + j > Width(g) - 1
  }

  /** Entry (i, j) passes the test but originalImage[ly + j][lx + i] does not exist. */
  predicate Faults4(g: Grid, lx: int, ly: int, i: int, j: int) {
    !Skip4(g, lx, ly, i, j) && !InBounds(g, ly + j, lx + i)
  }

  function Entry4(g: Grid, lx: int, ly: int, i: int, j: int): real
    requires !Faults4(g, lx, ly, i, j)
  {
    if Skip4(g, lx, ly, i, j) then 0.0 else g[ly + j][lx + i]
  }

  /** The 4 x 4 window of find4Neighbors: the entries in the top-left 2 x 2 corner, 0
      elsewhere. */
  function Window4(g: Grid, lx: int, ly: int): (w: Grid)
    requires forall i, j :: 0 <= i < 2 && 0 <= j < 2 ==> !Faults4(g, lx, ly, i, j)
    ensures |w| == 4 && forall i :: 0 <= i < 4 ==> |w[i]| == 4
  {
    var w := seq(4, i requires 0 <= i < 4 => seq(4, j requires 0 <= j < 4 =>
      if i < 2 && j < 2 then Entry4(g, lx, ly, i, j) else 0.0));
    assert forall i :: 0 <= i < 4 ==> |w[i]| == 4;
    w
  }

  /** find4Neighbors(originalImage, newX, newY, scale): rejects a grid with fewer than 2
      rows or columns, fails when an unguarded read is out of range, and otherwise
      returns both distances and the 4 x 4 window whose top-left 2 x 2 corner holds the
      entries and whose other cells are 0. */
  function Neighbors4(g: Grid, newX: int, newY: int, scale: int): (r: Outcome<NeighborResult>)
    requires Rectangular(g) && scale != 0
    ensures r.Ok? ==> |r.value.neighbors| == 4 && forall i :: 0 <= i < 4 ==> |r.value.neighbors[i]| == 4
  {
    if |g| < 2 || Width(g) < 2 then Err(ArrayTooSmall(2))
    else
      var oldX, oldY := SourceCoordinate(newX, scale), SourceCoordinate(newY, scale);
      var lx, ly := oldX.Floor, oldY.Floor;
      if exists i, j | 0 <= i < 2 && 0 <= j < 2 :: Faults4(g, lx, ly, i, j) then Err(IndexOutOfBounds)
      else Ok(NeighborResult(Distance(oldX), Distance(oldY), Window4(g, lx, ly)))
  }

  /** The inner loop of find4Neighbors for window row i: reads entries (i, 0) and (i, 1),
      and reports false at the first read that is out of range. */
  method ReadRow4(originalImage: array2<real>, neighbors: array2<real>, ghost g: Grid, lx: int, ly: int, i: int)
    returns (ok: bool)
    requires originalImage != neighbors && Cells(originalImage) == g && 0 <= i < 2
    requires originalImage.Length0 >= 2 && originalImage.Length1 >= 2
    requires neighbors.Length0 == 4 && neighbors.Length1 == 4
    modifies neighbors
    ensures ok ==> forall c :: 0 <= c < 2 ==> !Faults4(g, lx, ly, i, c)
    ensures !ok ==> exists c :: 0 <= c < 2 && Faults4(g, lx, ly, i, c)
    ensures ok ==> forall r, c :: 0 <= r < 4 && 0 <= c < 4 ==>
      neighbors[r, c] == if r == i && c < 2 then Entry4(g, lx, ly, r, c) else old(neighbors[r, c])
  {
    for j := 0 to 2
      invariant forall c :: 0 <= c < j ==> !Faults4(g, lx, ly, i, c)
      invariant forall r, c :: 0 <= r < 4 && 0 <= c < 4 ==>
        neighbors[r, c] == if r == i && c < j then Entry4(g, lx, ly, r, c) else old(neighbors[r, c])
    {
      if lx + i > originalImage.Length0 - 1 || ly + j > originalImage.Length1 - 1 {
        neighbors[i, j] := 0.0;
      } else {
        var x, y := lx + i, ly + j;
        if !(0 <= y < originalImage.Length0 && 0 <= x < originalImage.Length1) {
          assert Faults4(g, lx, ly, i, j);
          return false;
        }
        neighbors[i, j] := originalImage[y, x];
      }
    }
    return true;
  }

  /** find4Neighbors over the source array; the array is only read. */
  method Find4Neighbors(originalImage: array2<real>, newX: int, newY: int, scale: int)
    returns (res: Outcome<NeighborResult>)
    requires scale != 0
    ensures res == Neighbors4(Cells(originalImage), newX, newY, scale)
  {
    ghost var g := Cells(originalImage);
    if originalImage.Length0 < 2 || originalImage.Length1 < 2 {
      return Err(ArrayTooSmall(2));
    }
    var oldX := newX as real / scale as real;
    var oldY := newY as real / scale as real;
    var lowerBoundX, lowerBoundY := oldX.Floor, oldY.Floor;
    var upperBoundX, upperBoundY := lowerBoundX + 1, lowerBoundY + 1;
    var xDistance := (oldX - lowerBoundX as real) / (upperBoundX as real - lowerBoundX as real);
    var yDistance := (oldY - lowerBoundY as real) / (upperBoundY as real - lowerBoundY as real);
    var neighbors := new real[4, 4]((_, _) => 0.0);
    for i := 0 to 2
      invariant Cells(originalImage) == g
      invariant forall r, c :: 0 <= r < i && 0 <= c < 2 ==> !Faults4(g, lowerBoundX, lowerBoundY, r, c)
      invariant forall r, c :: 0 <= r < 4 && 0 <= c < 4 ==>
        neighbors[r, c] == if r < i && c < 2 then Entry4(g, lowerBoundX, lowerBoundY, r, c) else 0.0
    {
      var ok := ReadRow4(originalImage, neighbors, g, lowerBoundX, lowerBoundY, i);
      if !ok {
        return Err(IndexOutOfBounds);
      }
    }
    CellsEq(neighbors, Window4(g, lowerBoundX, lowerBoundY));
    return Ok(NeighborResult(xDistance, yDistance, Cells(neighbors)));
  }

  // ----- find16Neighbors -----

  /** The zero-fill test of find16Neighbors for entry (i, j): x = lx + i - 1 must lie in
      [0, rows - 1] and y = ly + j - 1 in [0, columns - 1]. */
  predicate Skip16(g: Grid, lx: int, ly: int, i: int, j: int) {
    lx + i - 1 > |g| - 1 || ly + j - 1 > Width(g) - 1 || lx + i - 1 < 0 || ly + j - 1 < 0
  }

  /** Entry (i, j) passes the test but originalImage[ly + j - 1][lx + i - 1] does not exist. */
  predicate Faults16(g: Grid, lx: int, ly: int, i: int, j: int) {
    !Skip16(g, lx, ly, i, j) && !InBounds(g, ly + j - 1, lx + i - 1)
  }

  function Entry16(g: Grid, lx: int, ly: int, i: int, j: int): real
    requires !Faults16(g, lx, ly, i, j)
  {
    if Skip16(g, lx, ly, i, j) then 0.0 else g[ly + j - 1][lx + i - 1]
  }

  /** The 4 x 4 window of find16Neighbors. */
  function Window16(g: Grid, lx: int, ly: int): (w: Grid)
    requires forall i, j :: 0 <= i < 4 && 0 <= j < 4 ==> !Faults16(g, lx, ly, i, j)
    ensures |w| == 4 && forall i :: 0 <= i < 4 ==> |w[i]| == 4
  {
    var w := seq(4, i requires 0 <= i < 4 => seq(4, j requires 0 <= j < 4 => Entry16(g, lx, ly, i, j)));
    assert forall i :: 0 <= i < 4 ==> |w[i]| == 4;
    w
  }

  /** find16Neighbors(originalImage, newX, newY, scale): rejects a grid with fewer than 4
      rows or columns, fails when an unguarded read is out of range, and otherwise
      returns both distances and the 4 x 4 window around (floor oldX, floor oldY). */
  function Neighbors16(g: Grid, newX: int, newY: int, scale: int): (r: Outcome<NeighborResult>)
    requires Rectangular(g) && scale != 0
    ensures r.Ok? ==> |r.value.neighbors| == 4 && forall i :: 0 <= i < 4 ==> |r.value.neighbors[i]| == 4
  {
    if |g| < 4 || Width(g) < 4 then Err(ArrayTooSmall(4))
    else
      var oldX, oldY := SourceCoordinate(newX, scale), SourceCoordinate(newY, scale);
      var lx, ly := oldX.Floor, oldY.Floor;
      if exists i, j | 0 <= i < 4 && 0 <= j < 4 :: Faults16(g, lx, ly, i, j) then Err(IndexOutOfBounds)
      else Ok(NeighborResult(Distance(oldX), Distance(oldY), Window16(g, lx, ly)))
  }

  /** The inner loop of find16Neighbors for window row i: reads entries (i, 0) to (i, 3),
      and reports false at the first read that is out of range. */
  method ReadRow16(originalImage: array2<real>, neighbors: array2<real>, ghost g: Grid, lx: int, ly: int, i: int)
    returns (ok: bool)
    requires originalImage != neighbors && Cells(originalImage) == g && 0 <= i < 4
    requires originalImage.Length0 >= 4 && originalImage.Length1 >= 4
    requires neighbors.Length0 == 4 && neighbors.Length1 == 4
    modifies neighbors
    ensures ok ==> forall c :: 0 <= c < 4 ==> !Faults16(g, lx, ly, i, c)
    ensures !ok ==> exists c :: 0 <= c < 4 && Faults16(g, lx, ly, i, c)
    ensures ok ==> forall r, c :: 0 <= r < 4 && 0 <= c < 4 ==>
      neighbors[r, c] == if r == i then Entry16(g, lx, ly, r, c) else old(neighbors[r, c])
  {
    for j := 0 to 4
      invariant forall c :: 0 <= c < j ==> !Faults16(g, lx, ly, i, c)
      invariant forall r, c :: 0 <= r < 4 && 0 <= c < 4 ==>
        neighbors[r, c] == if r == i && c < j then Entry16(g, lx, ly, r, c) else old(neighbors[r, c])
    {
      if lx + i - 1 > originalImage.Length0 - 1 || ly + j - 1 > originalImage.Length1 - 1
        || lx + i - 1 < 0 || ly + j - 1 < 0
      {
        neighbors[i, j] := 0.0;
      } else {
        var x, y := lx + i - 1, ly + j - 1;
        if !(0 <= y < originalImage.Length0 && 0 <= x < originalImage.Length1) {
          assert Faults16(g, lx, ly, i, j);
          return false;
        }
        neighbors[i, j] := originalImage[y, x];
      }
    }
    return true;
  }

  /** find16Neighbors over the source array; the array is only read. */
  method Find16Neighbors(originalImage: array2<real>, newX: int, newY: int, scale: int)
    returns (res: Outcome<NeighborResult>)
    requires scale != 0
    ensures res == Neighbors16(Cells(originalImage), newX, newY, scale)
  {
    ghost var g := Cells(originalImage);
    if originalImage.Length0 < 4 || originalImage.Length1 < 4 {
      return Err(ArrayTooSmall(4));
    }
    var oldX := newX as real / scale as real;
    var oldY := newY as real / scale as real;
    var lowerBoundX, lowerBoundY := oldX.Floor, oldY.Floor;
    var upperBoundX, upperBoundY := lowerBoundX + 1, lowerBoundY + 1;
    var xDistance := (oldX - lowerBoundX as real) / (upperBoundX as real - lowerBoundX as real);
    var yDistance := (oldY - lowerBoundY as real) / (upperBoundY as real - lowerBoundY as real);
    var neighbors := new real[4, 4]((_, _) => 0.0);
    for i := 0 to 4
      invariant Cells(originalImage) == g
      invariant forall r, c :: 0 <= r < i && 0 <= c < 4 ==> !Faults16(g, lowerBoundX, lowerBoundY, r, c)
      invariant forall r, c :: 0 <= r < 4 && 0 <= c < 4 ==>
        neighbors[r, c] == if r < i then Entry16(g, lowerBoundX, lowerBoundY, r, c) else 0.0
    {
      var ok := ReadRow16(originalImage, neighbors, g, lowerBoundX, lowerBoundY, i);
      if !ok {
        return Err(IndexOutOfBounds);
      }
    }
    CellsEq(neighbors, Window16(g, lowerBoundX, lowerBoundY));
    return Ok(NeighborResult(xDistance, yDistance, Cells(neighbors)));
  }

  // ----- one filled cell -----

  /** The value the fill pass computes for target cell (i, j) with integer scale k: the
      bilinear or bicubic value over the window located at (newX, newY) = (i, j), or a
      failure (too small a grid, an out-of-range read, or an unknown mode). */
  function FillValue(g: Grid, i: int, j: int, k: int, mode: string): Outcome<real>
    requires Rectangular(g) && k != 0
  {
    if mode == "bilinear" then
      match Neighbors4(g, i, j, k)
      case Err(e) => Err(e)
      case Ok(n) => Ok(Bilinear(n.neighbors, n.xDistance, n.yDistance))
    else if mode == "bicubic" then
      match Neighbors16(g, i, j, k)
      case Err(e) => Err(e)
      case Ok(n) => Bicubic(n.neighbors, n.xDistance, n.yDistance)
    else Err(UnsupportedInterpolation)
  }

  /** The body of the fill for one zero cell; it reads only the source array. */
  method FillValueAt(arr: array2<real>, i: int, j: int, k: int, interpolation: string)
    returns (res: Outcome<real>)
    requires k != 0
    ensures res == FillValue(Cells(arr), i, j, k, interpolation)
  {
    if interpolation == "bilinear" {
      var result := Find4Neighbors(arr, i, j, k);
      if result.Err? {
        return Err(result.error);
      }
      var n := result.value;
      return Ok(Bilinear(n.neighbors, n.xDistance, n.yDistance));
    } else if interpolation == "bicubic" {
      var result := Find16Neighbors(arr, i, j, k);
      if result.Err? {
        return Err(result.error);
      }
      var n := result.value;
      return Bicubic(n.neighbors, n.xDistance, n.yDistance);
    } else {
      return Err(UnsupportedInterpolation);
    }
  }

  // ----- the whole resize -----

  /** Final content of target cell (r, c): its scattered value when that is not 0, and
      otherwise the filled value, computed with (int) scale. */
  function Cell(g: Grid, scale: real, mode: string, r: int, c: int): Outcome<real>
    requires IsGrid(g) && scale >= 1.0 && InTarget(g, scale, r, c)
  {
    var v := Scattered(g, scale)[r][c];
    if v != 0.0 then Ok(v) else FillValue(g, r, c, scale.Floor, mode)
  }

  /** Every cell before (r, c) in row-major order has a value. */
  predicate OkBefore(g: Grid, scale: real, mode: string, r: int, c: int)
    requires IsGrid(g) && scale >= 1.0 && 0 <= r < TargetSize(|g|, scale)
  {
    (forall r', c' :: 0 <= r' < r && 0 <= c' < TargetSize(Width(g), scale) ==> Cell(g, scale, mode, r', c').Ok?) &&
    (forall c' :: 0 <= c' < c && c' < TargetSize(Width(g), scale) ==> Cell(g, scale, mode, r, c').Ok?)
  }

  /** The outcome of every target cell, row by row. */
  function Outcomes(g: Grid, scale: real, mode: string): (os: seq<seq<Outcome<real>>>)
    requires IsGrid(g) && scale >= 1.0
    ensures |os| == TargetSize(|g|, scale)
    ensures forall r :: 0 <= r < |os| ==> |os[r]| == TargetSize(Width(g), scale)
  {
    var h, w := TargetSize(|g|, scale), TargetSize(Width(g), scale);
    seq(h, r requires 0 <= r < h => seq(w, c requires 0 <= c < w && InTarget(g, scale, r, c) =>
      Cell(g, scale, mode, r, c)))
  }

  /** The first error among the first n outcomes of a row. */
  function RowFailure(row: seq<Outcome<real>>, n: nat): Option<Error>
    requires n <= |row|
  {
    if n == 0 then None
    else match RowFailure(row, n - 1)
      case Some(e) => Some(e)
      case None => if row[n - 1].Err? then Some(row[n - 1].error) else None
  }

  /** RowFailure finds nothing exactly when the first n outcomes are values, and what it
      finds is the error of the first failing one. */
  lemma {:induction false} RowFailureIsFirst(row: seq<Outcome<real>>, n: nat)
    requires n <= |row|
    ensures RowFailure(row, n) == None <==> forall c :: 0 <= c < n ==> row[c].Ok?
    ensures RowFailure(row, n).Some? ==>
      exists c :: 0 <= c < n && row[c] == Err(RowFailure(row, n).value) && forall c' :: 0 <= c' < c ==> row[c'].Ok?
  {
    if n > 0 {
      RowFailureIsFirst(row, n - 1);
    }
  }

  /** The first error, in row-major order, among the first m rows of outcomes. */
  function Failure(os: seq<seq<Outcome<real>>>, m: nat): Option<Error>
    requires m <= |os|
  {
    if m == 0 then None
    else match Failure(os, m - 1)
      case Some(e) => Some(e)
      case None => RowFailure(os[m - 1], |os[m - 1]|)
  }

  /** Failure finds nothing exactly when every outcome of the first m rows is a value, and
      what it finds is the error of a failing outcome whose predecessors are all values. */
  lemma {:induction false} FailureIsFirst(os: seq<seq<Outcome<real>>>, m: nat)
    requires m <= |os|
    ensures Failure(os, m) == None <==> forall r, c :: 0 <= r < m && 0 <= c < |os[r]| ==> os[r][c].Ok?
    ensures Failure(os, m).Some? ==>
      exists r, c :: 0 <= r < m && 0 <= c < |os[r]| && os[r][c] == Err(Failure(os, m).value) &&
        (forall r', c' :: 0 <= r' < r && 0 <= c' < |os[r']| ==> os[r'][c'].Ok?) &&
        (forall c' :: 0 <= c' < c ==> os[r][c'].Ok?)
  {
    if m > 0 {
      FailureIsFirst(os, m - 1);
      RowFailureIsFirst(os[m - 1], |os[m - 1]|);
    }
  }

  /** resize2d(arr, scale, interpolation): the grid of cell values when no cell fails,
      and otherwise the first failure in row-major order. */
  function Resize(g: Grid, scale: real, mode: string): Outcome<Grid>
    requires IsGrid(g) && scale >= 1.0
  {
    var os := Outcomes(g, scale, mode);
    match Failure(os, |os|)
    case Some(e) => Err(e)
    case None =>
      FailureIsFirst(os, |os|);
      Ok(seq(|os|, r requires 0 <= r < |os| => seq(|os[r]|, c requires 0 <= c < |os[r]| => os[r][c].value)))
  }

  // ----- the resize2d loops -----

  /** A failing cell whose predecessors in row-major order all have values is the
      failure resize2d reports. */
  lemma FirstFailureIsReported(g: Grid, scale: real, mode: string, r: int, c: int, e: Error)
    requires IsGrid(g) && scale >= 1.0 && InTarget(g, scale, r, c)
    requires OkBefore(g, scale, mode, r, c) && Cell(g, scale, mode, r, c) == Err(e)
    ensures Resize(g, scale, mode) == Err(e)
  {
    var os := Outcomes(g, scale, mode);
    FailureIsFirst(os, |os|);
    assert os[r][c] == Err(e);
    var f := Failure(os, |os|);
    var r', c' :| 0 <= r' < |os| && 0 <= c' < |os[r']| && os[r'][c'] == Err(f.value) &&
      (forall r'', c'' :: 0 <= r'' < r' && 0 <= c'' < |os[r'']| ==> os[r''][c''].Ok?) &&
      (forall c'' :: 0 <= c'' < c' ==> os[r'][c''].Ok?);
    assert r' == r && c' == c;
  }

  /** resize2d: scatter, then fill every cell that is 0 after the scatter, row by row,
      from the source array; the source array is only read. */
  method Resize2d(arr: array2<real>, scale: real, interpolation: string) returns (res: Outcome<array2<real>>)
    requires arr.Length0 >= 1 && scale >= 1.0
    ensures match Resize(Cells(arr), scale, interpolation)
      case Err(e) => res == Err(e)
      case Ok(out) => res.Ok? && fresh(res.value) && Cells(res.value) == out
  {
    ghost var g := Cells(arr);
    var newArr := Scatter(arr, scale);
    ghost var sc := Cells(newArr);
    var newH, newW := newArr.Length0, newArr.Length1;
    var k := scale.Floor;
    for i := 0 to newH
      invariant forall r, c :: 0 <= r < newH && 0 <= c < newW ==>
        if r < i then Cell(g, scale, interpolation, r, c) == Ok(newArr[r, c]) else newArr[r, c] == sc[r][c]
    {
      for j := 0 to newW
        invariant forall r, c :: 0 <= r < newH && 0 <= c < newW ==>
          if r < i || (r == i && c < j) then Cell(g, scale, interpolation, r, c) == Ok(newArr[r, c])
          else newArr[r, c] == sc[r][c]
      {
        var value := newArr[i, j];
        if value == 0.0 {
          assert Cells(arr) == g;
          var interpolatedValue := FillValueAt(arr, i, j, k, interpolation);
          if interpolatedValue.Err? {
            FirstFailureIsReported(g, scale, interpolation, i, j, interpolatedValue.error);
            return Err(interpolatedValue.error);
          }
          newArr[i, j] := interpolatedValue.value;
        }
      }
    }
    ghost var os := Outcomes(g, scale, interpolation);
    assert forall r, c :: 0 <= r < newH && 0 <= c < newW ==> os[r][c] == Ok(newArr[r, c]);
    FailureIsFirst(os, |os|);
    CellsEq(newArr, Resize(g, scale, interpolation).value);
    return Ok(newArr);
  }

  // ----- properties of the resize -----

  /** A successful resize has round(H * scale) rows of round(W * scale) cells; a cell that
      is not 0 after the scatter keeps its value, and every other cell holds the value
      interpolated from the source grid at (i, j) with (int) scale, which depends on no
      other target cell, so the fill order does not matter. */
  lemma ResizeCells(g: Grid, scale: real, mode: string)
    requires IsGrid(g) && scale >= 1.0 && Resize(g, scale, mode).Ok?
    ensures var out := Resize(g, scale, mode).value;
      |out| == TargetSize(|g|, scale) &&
      (forall r :: 0 <= r < |out| ==> |out[r]| == TargetSize(Width(g), scale)) &&
      forall r, c :: InTarget(g, scale, r, c) ==>
        if Scattered(g, scale)[r][c] != 0.0 then out[r][c] == Scattered(g, scale)[r][c]
        else FillValue(g, r, c, scale.Floor, mode) == Ok(out[r][c])
  {
    FailureIsFirst(Outcomes(g, scale, mode), TargetSize(|g|, scale));
  }

  /** One cell of a successful resize. */
  lemma ResizeAt(g: Grid, scale: real, mode: string, r: int, c: int)
    requires IsGrid(g) && scale >= 1.0 && Resize(g, scale, mode).Ok? && InTarget(g, scale, r, c)
    ensures r < |Resize(g, scale, mode).value| && c < |Resize(g, scale, mode).value[r]|
    ensures Cell(g, scale, mode, r, c) == Ok(Resize(g, scale, mode).value[r][c])
  {
    FailureIsFirst(Outcomes(g, scale, mode), TargetSize(|g|, scale));
  }

  /** For scale >= 1 every non-zero source cell is found at its scaled position. */
  lemma ResizeKeepsSamples(g: Grid, scale: real, mode: string, i: nat, j: nat)
    requires IsGrid(g) && scale >= 1.0 && Resize(g, scale, mode).Ok?
    requires i < |g| && j < Width(g) && g[i][j] != 0.0
    ensures InTarget(g, scale, Scaled(i, scale), Scaled(j, scale))
    ensures Resize(g, scale, mode).value[Scaled(i, scale)][Scaled(j, scale)] == g[i][j]
  {
    ScatteredKeepsSamples(g, scale, i, j);
    ResizeAt(g, scale, mode, Scaled(i, scale), Scaled(j, scale));
  }

  /** With a mode other than "bilinear" and "bicubic" the resize succeeds exactly when no
      cell is 0 after the scatter, and otherwise reports the unsupported mode. */
  lemma ResizeUnknownMode(g: Grid, scale: real, mode: string)
    requires IsGrid(g) && scale >= 1.0 && mode != "bilinear" && mode != "bicubic"
    ensures Resize(g, scale, mode).Ok? <==>
      forall r, c :: InTarget(g, scale, r, c) ==> Scattered(g, scale)[r][c] != 0.0
    ensures Resize(g, scale, mode).Err? ==> Resize(g, scale, mode).error == UnsupportedInterpolation
  {
    var h := TargetSize(|g|, scale);
    var os := Outcomes(g, scale, mode);
    FailureIsFirst(os, h);
    var f := Failure(os, h);
    if f.Some? {
      var r, c :| 0 <= r < h && 0 <= c < |os[r]| && os[r][c] == Err(f.value);
      assert Scattered(g, scale)[r][c] == 0.0;
    } else {
      forall r, c | InTarget(g, scale, r, c)
        ensures Scattered(g, scale)[r][c] != 0.0
      {
        assert os[r][c].Ok?;
      }
    }
  }

  /** At scale 1 a grid without zero samples comes back unchanged, in any mode. */
  lemma ResizeUnitScale(g: Grid, mode: string)
    requires IsGrid(g)
    requires forall i, j :: 0 <= i < |g| && 0 <= j < Width(g) ==> g[i][j] != 0.0
    ensures Resize(g, 1.0, mode) == Ok(g)
  {
    ScatteredUnitScale(g);
    assert TargetSize(|g|, 1.0) == |g| && TargetSize(Width(g), 1.0) == Width(g);
    forall r, c | InTarget(g, 1.0, r, c)
      ensures Cell(g, 1.0, mode, r, c) == Ok(g[r][c])
    {
    }
    var os := Outcomes(g, 1.0, mode);
    assert forall r, c :: 0 <= r < |os| && 0 <= c < |os[r]| ==> os[r][c] == Ok(g[r][c]);
    FailureIsFirst(os, |g|);
    var out := Resize(g, 1.0, mode).value;
    forall r | 0 <= r < |g|
      ensures out[r] == g[r]
    {
      assert |out[r]| == |g[r]|;
      forall c | 0 <= c < |g[r]|
        ensures out[r][c] == g[r][c]
      {
        assert Cell(g, 1.0, mode, r, c) == Ok(g[r][c]);
      }
    }
    assert out == g;
  }

  /** (double) t / scale is never negative for t >= 0, so its floor is a valid index base. */
  lemma SourceCoordinateNonNegative(t: int, scale: int)
    requires t >= 0 && scale >= 1
    ensures SourceCoordinate(t, scale).Floor >= 0
  {
    assert t as real / scale as real >= 0.0;
  }

  /** On a square grid no window read faults when the target coordinates are not negative:
      the guard's row test on x and column test on y coincide with the read's column and
      row bounds. */
  lemma NeighborsOnSquare(g: Grid, newX: int, newY: int, scale: int)
    requires IsGrid(g) && |g| == Width(g) && newX >= 0 && newY >= 0 && scale >= 1
    ensures |g| >= 2 ==> Neighbors4(g, newX, newY, scale).Ok?
    ensures |g| >= 4 ==> Neighbors16(g, newX, newY, scale).Ok?
  {
    SourceCoordinateNonNegative(newX, scale);
    SourceCoordinateNonNegative(newY, scale);
  }

  /** On a square grid of at least 2 x 2 (bilinear) or 4 x 4 (bicubic) samples every
      resize succeeds. */
  lemma SquareResizeSucceeds(g: Grid, scale: real, mode: string)
    requires IsGrid(g) && |g| == Width(g) && scale >= 1.0
    requires (mode == "bilinear" && |g| >= 2) || (mode == "bicubic" && |g| >= 4)
    ensures Resize(g, scale, mode).Ok?
  {
    forall r, c | InTarget(g, scale, r, c)
      ensures Cell(g, scale, mode, r, c).Ok?
    {
      NeighborsOnSquare(g, r, c, scale.Floor);
    }
    FailureIsFirst(Outcomes(g, scale, mode), TargetSize(|g|, scale));
  }

  /** The window of find4Neighbors holds its entries in the top-left 2 x 2 corner and 0
      elsewhere; entry (i, j) is row ly + j, column lx + i of the source, or 0 when the
      guard skips it. */
  lemma Neighbors4Window(g: Grid, newX: int, newY: int, scale: int, i: int, j: int)
    requires Rectangular(g) && scale != 0 && Neighbors4(g, newX, newY, scale).Ok?
    requires 0 <= i < 4 && 0 <= j < 4
    ensures var lx, ly := SourceCoordinate(newX, scale).Floor, SourceCoordinate(newY, scale).Floor;
      var n := Neighbors4(g, newX, newY, scale).value.neighbors;
      if i >= 2 || j >= 2 || Skip4(g, lx, ly, i, j) then n[i][j] == 0.0
      else InBounds(g, ly + j, lx + i) && n[i][j] == g[ly + j][lx + i]
  {
    var lx, ly := SourceCoordinate(newX, scale).Floor, SourceCoordinate(newY, scale).Floor;
    if i < 2 && j < 2 {
      assert !Faults4(g, lx, ly, i, j);
    }
  }

  /** The window of find16Neighbors: entry (i, j) is row ly + j - 1, column lx + i - 1 of
      the source, or 0 when the guard skips it. */
  lemma Neighbors16Window(g: Grid, newX: int, newY: int, scale: int, i: int, j: int)
    requires Rectangular(g) && scale != 0 && Neighbors16(g, newX, newY, scale).Ok?
    requires 0 <= i < 4 && 0 <= j < 4
    ensures var lx, ly := SourceCoordinate(newX, scale).Floor, SourceCoordinate(newY, scale).Floor;
      var n := Neighbors16(g, newX, newY, scale).value.neighbors;
      if Skip16(g, lx, ly, i, j) then n[i][j] == 0.0
      else InBounds(g, ly + j - 1, lx + i - 1) && n[i][j] == g[ly + j - 1][lx + i - 1]
  {
    var lx, ly := SourceCoordinate(newX, scale).Floor, SourceCoordinate(newY, scale).Floor;
    assert !Faults16(g, lx, ly, i, j);
  }

  /** Target coordinate k * a maps back exactly onto source coordinate a. */
  lemma SourceOfMultiple(k: int, a: int)
    requires k >= 1
    ensures SourceCoordinate(k * a, k) == a as real
  {
    assert (k * a) as real == k as real * a as real;
  }

  /** Bilinear fill at a target cell whose source coordinates are the node (a, b). */
  lemma Fill4AtNode(g: Grid, x: int, y: int, k: int, a: nat, b: nat)
    requires IsGrid(g) && |g| == Width(g) && |g| >= 2 && k >= 1 && a < |g| && b < |g| && x >= 0 && y >= 0
    requires SourceCoordinate(x, k) == a as real && SourceCoordinate(y, k) == b as real
    ensures FillValue(g, x, y, k, "bilinear") == Ok(g[b][a])
  {
    NeighborsOnSquare(g, x, y, k);
    var n := Neighbors4(g, x, y, k).value;
    Neighbors4Window(g, x, y, k, 0, 0);
    assert n.xDistance == 0.0 && n.yDistance == 0.0;
    BilinearCorners(n.neighbors);
  }

  /** Bicubic fill at a target cell whose source coordinates are the node (a, b). */
  lemma Fill16AtNode(g: Grid, x: int, y: int, k: int, a: nat, b: nat)
    requires IsGrid(g) && |g| == Width(g) && |g| >= 4 && k >= 1 && a < |g| && b < |g| && x >= 0 && y >= 0
    requires SourceCoordinate(x, k) == a as real && SourceCoordinate(y, k) == b as real
    ensures FillValue(g, x, y, k, "bicubic") == Ok(g[b][a])
  {
    NeighborsOnSquare(g, x, y, k);
    var n := Neighbors16(g, x, y, k).value;
    Neighbors16Window(g, x, y, k, 1, 1);
    assert n.xDistance == 0.0 && n.yDistance == 0.0;
    BicubicNodes(n.neighbors);
  }

  /** At a target cell that maps exactly onto source node (a, b) of a square grid both
      modes return the source sample at row b, column a: the row index of the target
      selects the source column. */
  lemma FillAtNode(g: Grid, k: int, a: nat, b: nat, mode: string)
    requires IsGrid(g) && |g| == Width(g) && k >= 1 && a < |g| && b < |g|
    requires (mode == "bilinear" && |g| >= 2) || (mode == "bicubic" && |g| >= 4)
    ensures FillValue(g, k * a, k * b, k, mode) == Ok(g[b][a])
  {
    SourceOfMultiple(k, a);
    SourceOfMultiple(k, b);
    if mode == "bilinear" {
      Fill4AtNode(g, k * a, k * b, k, a, b);
    } else {
      Fill16AtNode(g, k * a, k * b, k, a, b);
    }
  }

  /** With an integer scale k, a source sample that is exactly 0 is taken for an empty
      cell and refilled: on a square grid the resized grid holds g[b][a] where g[a][b]
      was scattered. */
  lemma ResizeRefillsZeroSample(g: Grid, k: int, a: nat, b: nat, mode: string)
    requires IsGrid(g) && |g| == Width(g) && k >= 1 && a < |g| && b < |g| && g[a][b] == 0.0
    requires (mode == "bilinear" && |g| >= 2) || (mode == "bicubic" && |g| >= 4)
    ensures Resize(g, k as real, mode).Ok?
    ensures InTarget(g, k as real, k * a, k * b)
    ensures Resize(g, k as real, mode).value[k * a][k * b] == g[b][a]
  {
    ScaledByInteger(a, k);
    ScaledByInteger(b, k);
    FillAtNode(g, k, a, b, mode);
    RefillAt(g, k, a, b, k * a, k * b, mode);
  }

  /** The refill of a zero sample at target cell (x, y) = (Scaled(a), Scaled(b)), given
      the value the fill computes there. */
  lemma RefillAt(g: Grid, k: int, a: nat, b: nat, x: int, y: int, mode: string)
    requires IsGrid(g) && |g| == Width(g) && k >= 1 && a < |g| && b < |g| && g[a][b] == 0.0
    requires (mode == "bilinear" && |g| >= 2) || (mode == "bicubic" && |g| >= 4)
    requires x == Scaled(a, k as real) && y == Scaled(b, k as real)
    requires FillValue(g, x, y, k, mode) == Ok(g[b][a])
    ensures Resize(g, k as real, mode).Ok? && InTarget(g, k as real, x, y)
    ensures Resize(g, k as real, mode).value[x][y] == g[b][a]
  {
    var scale := k as real;
    assert scale.Floor == k;
    SquareResizeSucceeds(g, scale, mode);
    ScatteredKeepsSamples(g, scale, a, b);
    assert Cell(g, scale, mode, x, y) == Ok(g[b][a]);
    ResizeAt(g, scale, mode, x, y);
  }

  /** The 2 x 3 grid of the non-square example below, resized by 2 to 4 x 6. */
  const NonSquare: Grid := [[1.0, 2.0, 3.0], [4.0, 5.0, 6.0]]

  lemma NonSquareShape()
    ensures IsGrid(NonSquare) && Width(NonSquare) == 3
    ensures TargetSize(|NonSquare|, 2.0) == 4 && TargetSize(Width(NonSquare), 2.0) == 6
  {
    ScaledByInteger(2, 2);
    ScaledByInteger(3, 2);
  }

  /** Cells (0, 0) and (0, 2) hold the scattered samples 1 and 2; cell (0, 1) reads
      rows 0..1, columns 0..1 of the source. */
  lemma NonSquareRowStartOk()
    ensures IsGrid(NonSquare) && InTarget(NonSquare, 2.0, 0, 3)
    ensures OkBefore(NonSquare, 2.0, "bilinear", 0, 3)
  {
    var g := NonSquare;
    NonSquareShape();
    forall c | 0 <= c < 3
      ensures Cell(g, 2.0, "bilinear", 0, c).Ok?
    {
      if c == 1 {
        assert SourceCoordinate(0, 2).Floor == 0 && SourceCoordinate(1, 2).Floor == 0;
        assert forall i, j :: 0 <= i < 2 && 0 <= j < 2 ==> !Faults4(g, 0, 0, i, j);
        assert Neighbors4(g, 0, 1, 2).Ok?;
      } else {
        ScaledByInteger(0, 2);
        ScaledByInteger(c / 2, 2);
        ScatteredKeepsSamples(g, 2.0, 0, c / 2);
      }
    }
  }

  /** No source column lands on target column 3, so cell (0, 3) is filled; its window
      entry (0, 1) passes the guard and reads row 2, which does not exist. */
  lemma NonSquareCellFails()
    ensures IsGrid(NonSquare) && InTarget(NonSquare, 2.0, 0, 3)
    ensures Cell(NonSquare, 2.0, "bilinear", 0, 3) == Err(IndexOutOfBounds)
  {
    var g := NonSquare;
    NonSquareShape();
    forall j | 0 <= j < Width(g)
      ensures Scaled(j, 2.0) != 3
    {
      ScaledByInteger(j, 2);
    }
    ScatteredGapsAreZero(g, 2.0, 0, 3);
    assert SourceCoordinate(0, 2).Floor == 0 && SourceCoordinate(3, 2).Floor == 1;
    assert Faults4(g, 0, 1, 0, 1);
    assert Neighbors4(g, 0, 3, 2) == Err(IndexOutOfBounds);
  }

  /** On a grid that is not square the guard does not protect the read: resizing the
      2 x 3 grid [[1, 2, 3], [4, 5, 6]] by 2 with "bilinear" fails at target cell (0, 3),
      whose window starts at column 0, row 1 and reaches row 2. */
  lemma NonSquareReadFails()
    ensures Resize([[1.0, 2.0, 3.0], [4.0, 5.0, 6.0]], 2.0, "bilinear") == Err(IndexOutOfBounds)
  {
    NonSquareRowStartOk();
    NonSquareCellFails();
    FirstFailureIsReported(NonSquare, 2.0, "bilinear", 0, 3, IndexOutOfBounds);
  }
}
