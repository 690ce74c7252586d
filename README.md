# Image transforms in Dafny

A Dafny model of the array-processing core of a small Java image-transform library.
It covers five pieces:

- **Zero padding** (`padding2d`): copies an H x W grid into the middle of an (H+2p) x (W+2p) grid of zeros.
- **Two-dimensional convolution** (`apply2DConvolution`, `applyOneConvOperation`).
  - It optionally pads by 1 (`"same"`).
  - It slides the filter without flipping it.
  - A read outside the input counts as 0.
- **Interpolation kernels** (`getLinearValue`, `getBilinearValue`, `getCubicValue`, `getBicubicValue`).
- **The stateless resampler** (`image.resizing.ResizeArray`).
  - It scatters the source cells to their rounded scaled positions in a zero grid.
  - It then fills every cell that is still exactly 0.
  - The fill uses a bilinear or bicubic value over a window that `find4Neighbors` or `find16Neighbors` gathers from the source grid.
- **The stateful resampler** (`image_transforms.ResizeArray`).
  - An instance keeps its `scale` in a field.
  - It scatters, pads by 2, and fills each interior zero cell with `BicubicInterpolator.getValue` of a 4 x 4 window cut from padded rows 0 to 3.
  - It then unpads.

How the model is built:

- **Samples** are exact `real`s.
- **Java arrays** are `array2<real>` in the methods. Each method is proved against a specification function over `Grid = seq<seq<real>>`, with `Grids.Cells` giving the grid an array holds.
- **Exceptions** become an `Outcome` value: `InputSmallerThanFilter`, `ArrayTooSmall(n)`, `UnsupportedInterpolation`, or `IndexOutOfBounds` for an unguarded read past the array.
- **`Math.round(v)`** is `floor(v + 1/2)`, and `(int) scale` is `floor(scale)`.
- **Module layout:**
  - `Convolution`, `Interpolation`, `Resizing` and `Transforms` each follow one source file: `image/filters/Convolution.java`, `image_transforms/Interpolation.java`, `image/resizing/ResizeArray.java` and `image_transforms/ResizeArray.java`.
  - `Utils` holds the zero padding of `image/utils/Utils.java`. It also holds `Crop`, the unpad loop at `image_transforms/ResizeArray.java:66-73`, next to the padding it undoes.
  - `Scaling` holds the scale arithmetic and the scatter pass that both `ResizeArray` files run. It follows no single file.
  - `Grids` holds what every module shares: the grid type, the error kinds, and the bridge from arrays to grids. It follows no source file.

Both neighbour locators mix up the two axes:

- **The reads.** The target row is passed as `newX`. `x` is checked against the row count and `y` against the column count, but the read is `originalImage[y][x]`.
- **The model keeps this as written.** On a square grid the guard still keeps every read in range (`Resizing.NeighborsOnSquare`). At a target cell that sits exactly on a source node, both modes then return the source sample with row and column swapped (`Resizing.FillAtNode`).
- **The fill test is "equals 0".** So at an integer scale, a source sample that is exactly 0 is refilled with its transposed neighbour (`Resizing.ResizeRefillsZeroSample`). At a non-integer scale s, the zero lands on target cell (round(a·s), round(b·s)). The locators then place the window at source coordinate (round(a·s)/⌊s⌋, round(b·s)/⌊s⌋), which in general is not node (a, b). For s between 1 and 2, ⌊s⌋ is 1, so the window sits on node (round(a·s), round(b·s)). The refill is then the transposed sample at that node, or 0 where the guard skips it. At larger scales it is a blend of neighbouring samples.
- **Non-square grids.** The guard does not protect the read. Resizing `[[1,2,3],[4,5,6]]` by 2 with `"bilinear"` fails with an out-of-range read (`Resizing.NonSquareReadFails`).

## Model

| member | source | states |
|---|---|---|
| Utils.Pad | src/image/utils/Utils.java:13-22 | the padded grid is rectangular with H+2p rows and W+2p columns |
| Utils.PadInterior | src/image/utils/Utils.java:18-22 | cell (i+p, j+p) of the padded grid is input cell (i, j) |
| Utils.PadBorder | src/image/utils/Utils.java:16-22 | every cell outside the window [p, p+H) x [p, p+W) is 0 |
| Utils.PadZero | src/image/utils/Utils.java:16-22 | padding by 0 gives back the input grid |
| Utils.PadPad | src/image/utils/Utils.java:12-27 | padding by p and then by q is padding by p+q |
| Utils.Crop | src/image_transforms/ResizeArray.java:66-73 | the unpadded grid has h rows of w cells |
| Utils.CropPad | src/image_transforms/ResizeArray.java:64-73 | unpadding a grid padded by p at offset p gives back the original grid |
| Utils.Padding2d | src/image/utils/Utils.java:12-27 | returns a fresh array holding the padded grid of the input; the input array is not modified |
| Convolution.PaddedInput | src/image/filters/Convolution.java:24-30 | the grid convolved is rectangular with e more rows and e more columns than the input, e = 2 for "same" and 0 for any other string; (definition) it is the input padded by 1 for "same" and the input itself otherwise |
| Convolution.Sample | src/image/filters/Convolution.java:64-72 | (definition) the value one read yields: the cell when it exists, and 0 when the read throws and the catch supplies 0 |
| Convolution.RowSum | src/image/filters/Convolution.java:63-76 | (definition) the inner loop's accumulation: the first n products of filter row a with the samples under it |
| Convolution.WindowSum | src/image/filters/Convolution.java:58-79 | (definition) applyOneConvOperation as a value: the sum of the row sums over filter rows 0 to m-1 with the window's top-left at (x, y) |
| Convolution.Convolve | src/image/filters/Convolution.java:17-47 | (definition) apply2DConvolution as a value: InputSmallerThanFilter when the size check fails, otherwise one window sum per output cell of the padded input; its shape is stated by ConvolveShape |
| Convolution.ConvolveShape | src/image/filters/Convolution.java:19-37 | fails with InputSmallerThanFilter exactly when the input has fewer rows or fewer columns than the filter has rows; otherwise (rows+e-k+1) x (cols+e-k+1) with e = 2 for "same" and 0 otherwise |
| Convolution.SameWithThreeByThreeKeepsShape | src/image/filters/Convolution.java:24-37 | a 3-row filter with "same" padding gives an output exactly the input's size |
| Convolution.RowSumZero | src/image/filters/Convolution.java:63-76 | a filter row of zeros adds nothing to the sum |
| Convolution.WindowSumZero | src/image/filters/Convolution.java:60-78 | an all-zero filter gives a window sum of 0 at every position |
| Convolution.ConvolveZeroFilter | src/image/filters/Convolution.java:40-44 | an all-zero filter gives an all-zero output |
| Convolution.RowSumImpulse | src/image/filters/Convolution.java:63-76 | with a unit-impulse filter, a filter row's sum is the one sample the impulse selects |
| Convolution.WindowSumImpulse | src/image/filters/Convolution.java:60-78 | with a unit-impulse filter, the window sum is the sample under the impulse |
| Convolution.ConvolveImpulse | src/image/filters/Convolution.java:40-44 | no kernel flip: an impulse at (a0, b0) puts sample (i+a0, j+b0) into output cell (i, j) |
| Convolution.ConvolveIdentity | src/image/filters/Convolution.java:33-44 | filter [[1]] without "same" padding returns the input |
| Convolution.SquareFilterReadsInBounds | src/image/filters/Convolution.java:33-72 | with a square filter every read lies inside the (padded) input, so the zero fallback is never used |
| Convolution.WideFilterReadsZero | src/image/filters/Convolution.java:64-72 | a filter row wider than the filter is tall reads past the right edge and takes 0 there |
| Convolution.ApplyOneConvOperation | src/image/filters/Convolution.java:58-79 | the accumulated result is the filter-weighted sum of the window, with out-of-range reads taken as 0 |
| Convolution.FillOutput | src/image/filters/Convolution.java:36-44 | fresh array whose cell (i, j) is the window sum at (i, j) |
| Convolution.Apply2DConvolution | src/image/filters/Convolution.java:17-47 | returns the size error, or a fresh array holding the convolution; the input array is not modified |
| Interpolation.Linear | src/image_transforms/Interpolation.java:51-54 | getLinearValue: two equal samples give that sample at every x; (definition) p[0]·(1-x) + x·p[1] |
| Interpolation.Bilinear | src/image_transforms/Interpolation.java:64-72 | getBilinearValue: four equal corners give that value at every (x, y); (definition) rows 0 and 1 at x, then the two results at y |
| Interpolation.Cubic | src/image_transforms/Interpolation.java:15-18 | getCubicValue: four equal samples give that sample at every x; (definition) the Horner form of the Catmull-Rom segment |
| Interpolation.Bicubic | src/image_transforms/Interpolation.java:28-42 | getBicubicValue: fails with ArrayTooSmall(4) exactly when there are fewer than 4 rows or row 0 is shorter than 4; a constant 4 x 4 patch gives that constant; (definition) rows 0 to 3 at y, then the four results at x |
| Interpolation.LinearEnds | src/image_transforms/Interpolation.java:51-54 | the linear value is p[0] at 0 and p[1] at 1 |
| Interpolation.LinearMidpoint | src/image_transforms/Interpolation.java:51-54 | the linear value at 1/2 is the mean of p[0] and p[1] |
| Interpolation.LinearBetween | src/image_transforms/Interpolation.java:51-54 | for x in [0, 1] the linear value lies between p[0] and p[1] |
| Interpolation.BilinearCorners | src/image_transforms/Interpolation.java:64-72 | the bilinear value reproduces the four corner samples |
| Interpolation.BilinearClosedForm | src/image_transforms/Interpolation.java:64-72 | the bilinear value equals the standard four-weight closed form |
| Interpolation.BilinearColumnsFirst | src/image_transforms/Interpolation.java:64-72 | interpolating columns first gives the same value as rows first |
| Interpolation.BilinearBounded | src/image_transforms/Interpolation.java:64-72 | inside the unit square the bilinear value lies between the smallest and largest corner |
| Interpolation.CubicEnds | src/image_transforms/Interpolation.java:15-18 | the cubic value is p[1] at 0 and p[2] at 1 |
| Interpolation.CubicArithmetic | src/image_transforms/Interpolation.java:15-18 | on an arithmetic progression a, a+d, a+2d, a+3d the cubic value is a+d+d*x |
| Interpolation.CubicIsCatmullRom | src/image_transforms/Interpolation.java:15-18 | the cubic equals the Hermite segment from p[1] to p[2] with central-difference slopes |
| Interpolation.CubicReversed | src/image_transforms/Interpolation.java:15-18 | reversing the four samples and mirroring x gives the same value |
| Interpolation.CubicWeights | src/image_transforms/Interpolation.java:15-18 | the cubic value is a weighted sum of the four samples with weights depending only on x |
| Interpolation.BicubicRejectsSmall | src/image_transforms/Interpolation.java:28-32 | fails with ArrayTooSmall(4) exactly when there are fewer than 4 rows or the first row has fewer than 4 entries |
| Interpolation.BicubicNodes | src/image_transforms/Interpolation.java:28-42 | at the four unit-square corners the bicubic value is p[1][1], p[1][2], p[2][1], p[2][2] |
| Interpolation.BicubicColumnsFirst | src/image_transforms/Interpolation.java:34-41 | interpolating columns at x first, then across at y, gives the same value as rows first |
| Interpolation.BicubicReproducesPlanes | src/image_transforms/Interpolation.java:28-42 | a patch sampled from a plane is interpolated exactly |
| Scaling.TargetSize | src/image/resizing/ResizeArray.java:25-26 | for scale >= 1 the target extent round(n·scale) is at least n |
| Scaling.Scaled | src/image/resizing/ResizeArray.java:35 | (definition) the target index round(i·scale) that source index i is written to |
| Scaling.Round | src/image/resizing/ResizeArray.java:25-26 | Math.round is the integer within 1/2 of v, ties rounded up |
| Scaling.ScaledStrictlyIncreasing | src/image/resizing/ResizeArray.java:32-37 | for scale >= 1 distinct source indices land on distinct, ordered target indices |
| Scaling.ScaledInRange | src/image/resizing/ResizeArray.java:25-35 | for scale >= 1 every scatter index is inside the new grid |
| Scaling.LastSource | src/image/resizing/ResizeArray.java:32-37 | the source index written last to a target index is the largest one landing there, or none |
| Scaling.LastSourceOfScaled | src/image/resizing/ResizeArray.java:32-37 | for scale >= 1 the source index written last to round(i*scale) is i |
| Scaling.Scattered | src/image/resizing/ResizeArray.java:24-37 | the scattered grid has round(H*scale) rows of round(W*scale) cells |
| Scaling.ScatteredKeepsSamples | src/image/resizing/ResizeArray.java:32-37 | for scale >= 1 source cell (i, j) is found at (round(i*scale), round(j*scale)) |
| Scaling.ScatteredGapsAreZero | src/image/resizing/ResizeArray.java:29-37 | a target row or column that no source index lands on stays 0 |
| Scaling.ScatteredUnitScale | src/image/resizing/ResizeArray.java:25-37 | at scale 1 the scatter copies the grid |
| Scaling.ScatterRow | src/image/resizing/ResizeArray.java:33-36 | copying source row i moves the state of the scatter from "rows before i" to "rows before i + 1" |
| Scaling.Scatter | src/image/resizing/ResizeArray.java:19-37 | returns a fresh array holding the scattered grid; the source array is not modified |
| Resizing.Distance | src/image/resizing/ResizeArray.java:117-124 | each relative position is the fractional part of the source coordinate, in [0, 1) |
| Resizing.Skip4 | src/image/resizing/ResizeArray.java:133-137 | (definition) the guard of find4Neighbors: entry (i, j) is set to 0 when lx+i passes the last row index or ly+j passes the last column index |
| Resizing.Window4 | src/image/resizing/ResizeArray.java:130-147 | the window of find4Neighbors is 4 x 4; (definition) its top-left 2 x 2 corner holds the guarded reads originalImage[ly+j][lx+i], and the rest is 0 |
| Resizing.Neighbors4 | src/image/resizing/ResizeArray.java:106-152 | a successful lookup returns a 4 x 4 window |
| Resizing.ReadRow4 | src/image/resizing/ResizeArray.java:134-146 | window row i: stores the guarded entries (i, 0) and (i, 1), or reports the out-of-range read of an entry that passes the guard but lies outside the array |
| Resizing.Find4Neighbors | src/image/resizing/ResizeArray.java:106-152 | the loop result is the value of Neighbors4, including its ArrayTooSmall(2) and out-of-range failures |
| Resizing.Neighbors4Window | src/image/resizing/ResizeArray.java:130-147 | entries outside the 2 x 2 corner are 0; corner entry (i, j) is 0 when skipped, else source row ly+j, column lx+i |
| Resizing.Skip16 | src/image/resizing/ResizeArray.java:190-195 | (definition) the guard of find16Neighbors: entry (i, j) is set to 0 when lx+i-1 or ly+j-1 is negative or past the last row or column index |
| Resizing.Window16 | src/image/resizing/ResizeArray.java:186-207 | the window of find16Neighbors is 4 x 4; (definition) entry (i, j) is the guarded read originalImage[ly+j-1][lx+i-1] |
| Resizing.Neighbors16 | src/image/resizing/ResizeArray.java:164-212 | a successful lookup returns a 4 x 4 window |
| Resizing.ReadRow16 | src/image/resizing/ResizeArray.java:189-206 | window row i: stores the guarded entries (i, 0) to (i, 3), or reports the out-of-range read of an entry that passes the guard but lies outside the array |
| Resizing.Find16Neighbors | src/image/resizing/ResizeArray.java:164-212 | the loop result is the value of Neighbors16, including its ArrayTooSmall(4) and out-of-range failures |
| Resizing.Neighbors16Window | src/image/resizing/ResizeArray.java:186-207 | entry (i, j) is 0 when skipped, else source row ly+j-1, column lx+i-1 |
| Resizing.NeighborsOnSquare | src/image/resizing/ResizeArray.java:133-147 | on a square grid of at least 2 (4) rows the 4- (16-) neighbour lookup never fails for non-negative coordinates |
| Resizing.FillValue | src/image/resizing/ResizeArray.java:46-62 | (definition) the value for one zero cell: bilinear over Neighbors4 or bicubic over Neighbors16 at (i, j) with (int) scale, the locator's failure, or UnsupportedInterpolation for any other mode |
| Resizing.FillValueAt | src/image/resizing/ResizeArray.java:46-62 | the value computed for one zero cell is the bilinear or bicubic value of its window, or the unsupported-mode failure |
| Resizing.Fill4AtNode | src/image/resizing/ResizeArray.java:48-53 | on a square grid the bilinear fill at a target cell whose source coordinates are the node (a, b) is source sample [b][a] |
| Resizing.Fill16AtNode | src/image/resizing/ResizeArray.java:54-59 | on a square grid the bicubic fill at a target cell whose source coordinates are the node (a, b) is source sample [b][a] |
| Resizing.FillAtNode | src/image/resizing/ResizeArray.java:48-59 | on a square grid the fill at target (k*a, k*b) with integer scale k is source sample [b][a] in both modes |
| Resizing.Cell | src/image/resizing/ResizeArray.java:40-66 | (definition) the final outcome of target cell (r, c): its scattered value when that is not 0, and otherwise FillValue with ⌊scale⌋ |
| Resizing.Resize | src/image/resizing/ResizeArray.java:17-70 | (definition) resize2d as a value: the first failing cell's error in row-major order, or the grid of cell values; its properties are ResizeCells, ResizeAt and the lemmas below |
| Resizing.RowFailureIsFirst | src/image/resizing/ResizeArray.java:41-66 | a row prefix has no failure exactly when every outcome there is a value; otherwise the failure is the error of its first failing cell |
| Resizing.FailureIsFirst | src/image/resizing/ResizeArray.java:40-67 | the first rows have no failure exactly when every outcome there is a value; otherwise the failure is the error of a failing cell whose predecessors in row-major order all have values |
| Resizing.FirstFailureIsReported | src/image/resizing/ResizeArray.java:40-62 | the failure of the first failing cell in row-major order is what resize2d raises |
| Resizing.Resize2d | src/image/resizing/ResizeArray.java:17-70 | returns the first failure, or a fresh array holding the resized grid; the source array is not modified |
| Resizing.ResizeCells | src/image/resizing/ResizeArray.java:25-66 | round(H*scale) x round(W*scale); non-zero scattered cells are unchanged and each zero cell holds the fill computed from arr, i, j, (int) scale and the mode alone |
| Resizing.ResizeAt | src/image/resizing/ResizeArray.java:40-66 | each cell of a successful resize is that cell's outcome: its scattered value when not 0, otherwise its fill |
| Resizing.ResizeKeepsSamples | src/image/resizing/ResizeArray.java:32-44 | for scale >= 1 every non-zero source cell appears at its scaled position |
| Resizing.ResizeUnknownMode | src/image/resizing/ResizeArray.java:44-62 | with another mode string the resize succeeds exactly when no cell is 0 after the scatter, and otherwise fails with UnsupportedInterpolation |
| Resizing.ResizeUnitScale | src/image/resizing/ResizeArray.java:25-66 | at scale 1 a grid with no zero samples comes back unchanged |
| Resizing.SquareResizeSucceeds | src/image/resizing/ResizeArray.java:40-62 | a square grid with at least 2 rows (bilinear) or 4 rows (bicubic) always resizes without failure |
| Resizing.ResizeRefillsZeroSample | src/image/resizing/ResizeArray.java:42-64 | with integer scale k, a source sample g[a][b] = 0 on a square grid is replaced by g[b][a] at (k*a, k*b) |
| Resizing.NonSquareRowStartOk | src/image/resizing/ResizeArray.java:40-62 | in the 2 x 3 example of NonSquareReadFails, cells (0, 0) to (0, 2) all get values |
| Resizing.NonSquareCellFails | src/image/resizing/ResizeArray.java:133-146 | in the 2 x 3 example of NonSquareReadFails, cell (0, 3) is filled, and its window entry (0, 1) passes the guard but reads row 2, which does not exist |
| Resizing.NonSquareReadFails | src/image/resizing/ResizeArray.java:137-144 | resizing [[1,2,3],[4,5,6]] by 2 with "bilinear" fails with an out-of-range read |
| Transforms.Window | src/image_transforms/ResizeArray.java:45-53 | each of the four window rows is in range and has length 4 |
| Transforms.Step | src/image_transforms/ResizeArray.java:38-56 | visiting one cell keeps the grid's shape |
| Transforms.FillCols | src/image_transforms/ResizeArray.java:37-61 | visiting a row prefix keeps the grid's shape |
| Transforms.FillRows | src/image_transforms/ResizeArray.java:36-62 | visiting whole rows keeps the grid's shape |
| Transforms.Transformed | src/image_transforms/ResizeArray.java:15-76 | the result has round(H*scale) rows of round(W*scale) cells |
| Transforms.FillColsFrame | src/image_transforms/ResizeArray.java:37-57 | visiting a row prefix changes only visited cells of that row that held 0 |
| Transforms.FillRowsFrame | src/image_transforms/ResizeArray.java:36-57 | the fill changes only interior cells [2, newH+2) x [2, newW+2) that held 0 |
| Transforms.WindowsSettle | src/image_transforms/ResizeArray.java:45-53 | from padded row 4 on, the window for column j never changes: it is always cut from the same rows 0 to 3 |
| Transforms.TransformedKeepsNonZero | src/image_transforms/ResizeArray.java:36-73 | a cell that is not 0 after the scatter keeps its scattered value |
| Transforms.PaddingStaysZero | src/image_transforms/ResizeArray.java:32-57 | every padding cell of the working grid is still 0 after the fill |
| Transforms.TransformedKeepsSamples | src/image_transforms/ResizeArray.java:26-73 | for scale >= 1 every non-zero source cell appears at its scaled position |
| Transforms.TransformedUnitScale | src/image_transforms/ResizeArray.java:21-75 | at scale 1 a grid with no zero samples comes back unchanged whatever getValue is |
| Transforms.CopyWindow | src/image_transforms/ResizeArray.java:45-53 | fresh 4 x 4 array holding columns j-2 .. j+1 of rows 0 to 3 |
| Transforms.FillInterior | src/image_transforms/ResizeArray.java:36-62 | the working array ends as the row-major fold of the cell visits over its starting content |
| Transforms.Unpad | src/image_transforms/ResizeArray.java:66-73 | fresh array whose cell (i, j) is cell (i+p, j+p) of the working array |
| Transforms.ResizeArray.constructor | src/image_transforms/ResizeArray.java:10-13 | the new instance stores the given scale |
| Transforms.ResizeArray.Padding2d | src/image_transforms/ResizeArray.java:78-93 | the same padding as the shared utility: a fresh array holding the padded grid |
| Transforms.ResizeArray.Resize2d | src/image_transforms/ResizeArray.java:15-76 | fresh array holding scatter, pad by 2, row-major fill, unpad; has no modifies clause, so neither the source array nor the scale field changes |

## Left out

- Floating point: samples, positions and scales are exact reals. Identities such as the linear midpoint hold only in exact arithmetic, and IEEE rounding, NaN and infinities are not modelled.
- Scaling.Scatter: requires scale >= 1. Below 1, a rounded scatter index can land past the end of the target array. For example, H = 2 at scale 0.7 gives a target of round(1.4) = 1 row, but source row 1 is written to row round(0.7) = 1. At scale 0 or below the target size is 0 or negative. Those exceptions are not modelled.
- Transforms.ResizeArray.Resize2d: requires scale >= 1, because its scatter pass is the one above and has the same out-of-range write below 1.
- Resizing.Resize2d: requires scale >= 1. Below 1 its scatter pass has the same out-of-range write. Also, for a scale in (0, 1), `(int) scale` is 0 and the fill passes that 0 to the neighbour locators, where it gives the infinite or NaN coordinate described next.
- Resizing.FillValue, Resizing.FillValueAt, Resizing.Neighbors4, Resizing.Neighbors16, Resizing.Find4Neighbors, Resizing.Find16Neighbors: require an integer scale other than 0. At 0 the source computes `(double) newX / 0`, which is infinite or NaN in floating point and has no exact-real counterpart. A negative scale is modelled.
- Utils.Padding2d, Transforms.ResizeArray.Padding2d, Resizing.Resize2d, Transforms.ResizeArray.Resize2d: require at least one row. With no rows the source fails at its read of `arr[0]`, and that failure is not modelled.
- Convolution.Apply2DConvolution: requires that the input or the filter has at least one row. An empty input with a non-empty filter is modelled: the size check rejects it with InputSmallerThanFilter before `input[0]` is read. When both are empty the source fails at its read of `input[0]`, and that failure is not modelled.
- Interpolation.Linear, Interpolation.Bilinear, Interpolation.Cubic, Interpolation.Bicubic: require arrays long enough for every read. These are 2 samples, a 2 x 2 patch, 4 samples, and rows 1 to 3 of length 4 once row 0 passes the size check. On shorter arrays the source throws ArrayIndexOutOfBoundsException, and that exception is not modelled. Every call in the resamplers passes a 4 x 4 window, so no reachable behaviour is lost.
- Jagged Java arrays: every grid is rectangular (`array2`). A negative padding size is not modelled either.
- The image/resizing copy of padding2d (src/image/resizing/ResizeArray.java:80-95) is the same code as the shared utility and is modelled by Utils.Padding2d. The resize2d in that file never calls it.
- The class BicubicInterpolator extends CubicInterpolator, which is not part of this model. Its `getValue` is the `getValue` function parameter of Transforms.ResizeArray.Resize2d. Its shared static scratch array is not modelled.
- Console output in the image_transforms resize2d is left out. So are the demo driver src/image/filters/Main.java and its Sobel filter, which is not part of this model.
- Integer overflow of `(int) Math.round(...)` on huge grids is not modelled.
