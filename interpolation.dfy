/** The interpolation kernels of src/image_transforms/Interpolation.java, over exact reals.
    A one-dimensional kernel reads the first two (linear) or four (cubic) entries of its
    argument; the two-dimensional ones apply it along each row at one coordinate and then
    across the row results at the other. */
module Interpolation {
  import opened Grids

  /** getLinearValue: the point at fraction x of the way from p[0] to p[1]. */
  function Linear(p: seq<real>, x: real): (r: real)
    requires |p| >= 2
    ensures p[0] == p[1] ==> r == p[0]
  {
    p[0] * (1.0 - x) + x * p[1]
  }

  /** getBilinearValue: each of the first two rows at x, then those two values at y. */
  function Bilinear(p: Grid, x: real, y: real): (r: real)
    requires |p| >= 2 && |p[0]| >= 2 && |p[1]| >= 2
    ensures p[0][0] == p[0][1] == p[1][0] == p[1][1] ==> r == p[0][0]
  {
    Linear([Linear(p[0], x), Linear(p[1], x)], y)
  }

  /** getCubicValue: the Catmull-Rom segment between p[1] (x = 0) and p[2] (x = 1). */
  function Cubic(p: seq<real>, x: real): (r: real)
    requires |p| >= 4
    ensures p[0] == p[1] == p[2] == p[3] ==> r == p[1]
  {
    p[1] + 0.5 * x * (p[2] - p[0] + x * (2.0 * p[0] - 5.0 * p[1] + 4.0 * p[2] - p[3]
      + x * (3.0 * (p[1] - p[2]) + p[3] - p[0])))
  }

  /** The shape getBicubicValue needs so that every read it makes is in range: once the
      first row passes its size check, rows 1 to 3 must be as long. */
  predicate BicubicReadable(p: Grid) {
    |p| >= 4 && |p[0]| >= 4 ==> |p[1]| >= 4 && |p[2]| >= 4 && |p[3]| >= 4
  }

  /** getBicubicValue: rejects a patch with fewer than 4 rows or a first row shorter than 4;
      otherwise each of rows 0..3 at y, then those four values at x. */
  function Bicubic(p: Grid, x: real, y: real): (r: Outcome<real>)
    requires BicubicReadable(p)
    ensures r.Err? <==> |p| < 4 || |p[0]| < 4
    ensures r.Err? ==> r.error == ArrayTooSmall(4)
    ensures r.Ok? && (forall i, j :: 0 <= i < 4 && 0 <= j < 4 ==> p[i][j] == p[0][0]) ==> r.value == p[0][0]
  {
    if |p| < 4 || |p[0]| < 4 then Err(ArrayTooSmall(4))
    else Ok(Cubic([Cubic(p[0], y), Cubic(p[1], y), Cubic(p[2], y), Cubic(p[3], y)], x))
  }

  /** Independent reference: the cubic Hermite segment from y0 to y1 with end slopes m0, m1. */
  function Hermite(y0: real, y1: real, m0: real, m1: real, t: real): real {
    (2.0 * t * t * t - 3.0 * t * t + 1.0) * y0
    + (t * t * t - 2.0 * t * t + t) * m0
    + (-2.0 * t * t * t + 3.0 * t * t) * y1
    + (t * t * t - t * t) * m1
  }

  function Min(a: real, b: real): real { if a <= b then a else b }
  function Max(a: real, b: real): real { if a <= b then b else a }

  // ----- linear and bilinear -----

  /** Linear interpolation passes through both samples. */
  lemma LinearEnds(p: seq<real>)
    requires |p| >= 2
    ensures Linear(p, 0.0) == p[0] && Linear(p, 1.0) == p[1]
  {
  }

  /** Halfway between the samples is their mean. */
  lemma LinearMidpoint(p: seq<real>)
    requires |p| >= 2
    ensures Linear(p, 0.5) == (p[0] + p[1]) / 2.0
  {
  }

  /** For x in [0, 1] the result lies between the two samples. */
  lemma LinearBetween(p: seq<real>, x: real)
    requires |p| >= 2 && 0.0 <= x <= 1.0
    ensures Min(p[0], p[1]) <= Linear(p, x) <= Max(p[0], p[1])
  {
    var d := p[1] - p[0];
    assert Linear(p, x) == p[0] + x * d;
    if d >= 0.0 {
      assert 0.0 <= x * d <= d;
    } else {
      assert d <= x * d <= 0.0;
    }
  }

  /** Bilinear interpolation takes the four corner samples at the corners of the unit
      square: x runs along a row, y across the two rows. */
  lemma BilinearCorners(p: Grid)
    requires |p| >= 2 && |p[0]| >= 2 && |p[1]| >= 2
    ensures Bilinear(p, 0.0, 0.0) == p[0][0] && Bilinear(p, 1.0, 0.0) == p[0][1]
    ensures Bilinear(p, 0.0, 1.0) == p[1][0] && Bilinear(p, 1.0, 1.0) == p[1][1]
  {
  }

  /** The row-then-column composition equals the symmetric tensor-product formula. */
  lemma BilinearClosedForm(p: Grid, x: real, y: real)
    requires |p| >= 2 && |p[0]| >= 2 && |p[1]| >= 2
    ensures Bilinear(p, x, y) ==
      (1.0 - x) * (1.0 - y) * p[0][0] + x * (1.0 - y) * p[0][1]
      + (1.0 - x) * y * p[1][0] + x * y * p[1][1]
  {
    var a, b := Linear(p[0], x), Linear(p[1], x);
    calc {
      Bilinear(p, x, y);
      a * (1.0 - y) + y * b;
      (p[0][0] * (1.0 - x) + x * p[0][1]) * (1.0 - y) + y * (p[1][0] * (1.0 - x) + x * p[1][1]);
    }
  }

  /** Interpolating the two columns at y first and then across them at x gives the same. */
  lemma BilinearColumnsFirst(p: Grid, x: real, y: real)
    requires |p| >= 2 && |p[0]| >= 2 && |p[1]| >= 2
    ensures Bilinear(p, x, y) ==
      Linear([Linear([p[0][0], p[1][0]], y), Linear([p[0][1], p[1][1]], y)], x)
  {
    BilinearClosedForm(p, x, y);
  }

  /** Inside the unit square the result lies between the smallest and largest corner. */
  lemma BilinearBounded(p: Grid, x: real, y: real)
    requires |p| >= 2 && |p[0]| >= 2 && |p[1]| >= 2
    requires 0.0 <= x <= 1.0 && 0.0 <= y <= 1.0
    ensures Min(Min(p[0][0], p[0][1]), Min(p[1][0], p[1][1])) <= Bilinear(p, x, y)
    ensures Bilinear(p, x, y) <= Max(Max(p[0][0], p[0][1]), Max(p[1][0], p[1][1]))
  {
    LinearBetween(p[0], x);
    LinearBetween(p[1], x);
    LinearBetween([Linear(p[0], x), Linear(p[1], x)], y);
  }

  // ----- cubic and bicubic -----

  /** The cubic passes through p[1] at 0 and p[2] at 1. */
  lemma CubicEnds(p: seq<real>)
    requires |p| >= 4
    ensures Cubic(p, 0.0) == p[1] && Cubic(p, 1.0) == p[2]
  {
  }

  /** Samples in arithmetic progression are interpolated exactly by the line through them;
      a constant patch (d = 0) stays constant. */
  lemma CubicArithmetic(p: seq<real>, a: real, d: real, x: real)
    requires |p| >= 4
    requires p[0] == a && p[1] == a + d && p[2] == a + 2.0 * d && p[3] == a + 3.0 * d
    ensures Cubic(p, x) == a + d + d * x
  {
    assert 2.0 * p[0] - 5.0 * p[1] + 4.0 * p[2] - p[3] == 0.0;
    assert 3.0 * (p[1] - p[2]) + p[3] - p[0] == 0.0;
  }

  /** The formula is the Catmull-Rom spline: the Hermite segment from p[1] to p[2] whose
      end slopes are the central differences (p[2] - p[0]) / 2 and (p[3] - p[1]) / 2. */
  lemma CubicIsCatmullRom(p: seq<real>, x: real)
    requires |p| >= 4
    ensures Cubic(p, x) == Hermite(p[1], p[2], (p[2] - p[0]) / 2.0, (p[3] - p[1]) / 2.0, x)
  {
    CubicWeights(p, x);
  }

  /** Reading the samples backwards and the position from the other end changes nothing. */
  lemma CubicReversed(p: seq<real>, x: real)
    requires |p| >= 4
    ensures Cubic([p[3], p[2], p[1], p[0]], 1.0 - x) == Cubic(p, x)
  {
    var q := [p[3], p[2], p[1], p[0]];
    CubicWeights(p, x);
    CubicWeights(q, 1.0 - x);
  }

  /** Weight of sample k in Cubic at x. */
  function CubicWeight(k: nat, x: real): real
    requires k < 4
  {
    match k
    case 0 => 0.5 * (-x + 2.0 * x * x - x * x * x)
    case 1 => 1.0 - 2.5 * x * x + 1.5 * x * x * x
    case 2 => 0.5 * (x + 4.0 * x * x - 3.0 * x * x * x)
    case 3 => 0.5 * (x * x * x - x * x)
  }

  /** Cubic is a weighted sum of the four samples, the weights depending on x only. */
  lemma CubicWeights(p: seq<real>, x: real)
    requires |p| >= 4
    ensures Cubic(p, x) == CubicWeight(0, x) * p[0] + CubicWeight(1, x) * p[1]
                           + CubicWeight(2, x) * p[2] + CubicWeight(3, x) * p[3]
  {
  }

  /** At the four central nodes of the patch the result is the sample there: the first
      coordinate x selects the row, the second y the column. */
  lemma BicubicNodes(p: Grid)
    requires |p| >= 4 && forall k :: 0 <= k < 4 ==> |p[k]| >= 4
    ensures Bicubic(p, 0.0, 0.0) == Ok(p[1][1]) && Bicubic(p, 0.0, 1.0) == Ok(p[1][2])
    ensures Bicubic(p, 1.0, 0.0) == Ok(p[2][1]) && Bicubic(p, 1.0, 1.0) == Ok(p[2][2])
  {
    forall k | 0 <= k < 4
      ensures Cubic(p[k], 0.0) == p[k][1] && Cubic(p[k], 1.0) == p[k][2]
    {
      CubicEnds(p[k]);
    }
  }

  /** A patch too small in either direction is rejected, whatever the position. */
  lemma BicubicRejectsSmall(p: Grid, x: real, y: real)
    requires BicubicReadable(p)
    ensures Bicubic(p, x, y).Err? <==> |p| < 4 || |p[0]| < 4
    ensures Bicubic(p, x, y).Err? ==> Bicubic(p, x, y).error == ArrayTooSmall(4)
  {
  }

  /** Column k of the first four rows. */
  function Column(p: Grid, k: nat): seq<real>
    requires |p| >= 4 && forall i :: 0 <= i < 4 ==> |p[i]| > k
  {
    [p[0][k], p[1][k], p[2][k], p[3][k]]
  }

  /** w[0] * v[0] + ... + w[3] * v[3]. */
  function Dot4(w: seq<real>, v: seq<real>): real
    requires |w| >= 4 && |v| >= 4
  {
    w[0] * v[0] + w[1] * v[1] + w[2] * v[2] + w[3] * v[3]
  }

  /** The four weights of Cubic at x. */
  function CubicWeights4(x: real): (w: seq<real>)
    ensures |w| == 4
  {
    [CubicWeight(0, x), CubicWeight(1, x), CubicWeight(2, x), CubicWeight(3, x)]
  }

  /** x * (y0 z0 + ... + y3 z3) spread over the four terms, x kept in front. */
  lemma DistributeFront(x: real, y0: real, y1: real, y2: real, y3: real, z0: real, z1: real, z2: real, z3: real)
    ensures x * (y0 * z0 + y1 * z1 + y2 * z2 + y3 * z3) == x * y0 * z0 + x * y1 * z1 + x * y2 * z2 + x * y3 * z3
  {
  }

  /** x * (y0 z0 + ... + y3 z3) spread over the four terms, x moved to second place. */
  lemma DistributeMiddle(x: real, y0: real, y1: real, y2: real, y3: real, z0: real, z1: real, z2: real, z3: real)
    ensures x * (y0 * z0 + y1 * z1 + y2 * z2 + y3 * z3) == y0 * x * z0 + y1 * x * z1 + y2 * x * z2 + y3 * x * z3
  {
  }

  /** Summing a 4x4 patch with weights a along the rows and b along the columns does not
      depend on which direction is summed first. */
  lemma Dot4Swap(a: seq<real>, b: seq<real>, p: Grid)
    requires |a| >= 4 && |b| >= 4 && |p| >= 4 && forall k :: 0 <= k < 4 ==> |p[k]| >= 4
    ensures Dot4(a, [Dot4(b, p[0]), Dot4(b, p[1]), Dot4(b, p[2]), Dot4(b, p[3])])
         == Dot4(b, [Dot4(a, Column(p, 0)), Dot4(a, Column(p, 1)), Dot4(a, Column(p, 2)), Dot4(a, Column(p, 3))])
  {
    // both sides are the sum of the sixteen terms a[k] * b[l] * p[k][l]
    DistributeFront(a[0], b[0], b[1], b[2], b[3], p[0][0], p[0][1], p[0][2], p[0][3]);
    DistributeFront(a[1], b[0], b[1], b[2], b[3], p[1][0], p[1][1], p[1][2], p[1][3]);
    DistributeFront(a[2], b[0], b[1], b[2], b[3], p[2][0], p[2][1], p[2][2], p[2][3]);
    DistributeFront(a[3], b[0], b[1], b[2], b[3], p[3][0], p[3][1], p[3][2], p[3][3]);
    DistributeMiddle(b[0], a[0], a[1], a[2], a[3], p[0][0], p[1][0], p[2][0], p[3][0]);
    DistributeMiddle(b[1], a[0], a[1], a[2], a[3], p[0][1], p[1][1], p[2][1], p[3][1]);
    DistributeMiddle(b[2], a[0], a[1], a[2], a[3], p[0][2], p[1][2], p[2][2], p[3][2]);
    DistributeMiddle(b[3], a[0], a[1], a[2], a[3], p[0][3], p[1][3], p[2][3], p[3][3]);
  }

  /** Cubic at x is the dot product of its weights at x with the samples. */
  lemma CubicAsDot(p: seq<real>, x: real)
    requires |p| >= 4
    ensures Cubic(p, x) == Dot4(CubicWeights4(x), p)
  {
    CubicWeights(p, x);
  }

  /** Bicubic interpolation is a tensor product: interpolating the four columns at x first
      and then across them at y gives the same value. */
  lemma BicubicColumnsFirst(p: Grid, x: real, y: real)
    requires |p| >= 4 && forall k :: 0 <= k < 4 ==> |p[k]| >= 4
    ensures Bicubic(p, x, y) ==
      Ok(Cubic([Cubic(Column(p, 0), x), Cubic(Column(p, 1), x), Cubic(Column(p, 2), x), Cubic(Column(p, 3), x)], y))
  {
    var wx, wy := CubicWeights4(x), CubicWeights4(y);
    var rows := [Dot4(wy, p[0]), Dot4(wy, p[1]), Dot4(wy, p[2]), Dot4(wy, p[3])];
    var cols := [Dot4(wx, Column(p, 0)), Dot4(wx, Column(p, 1)), Dot4(wx, Column(p, 2)), Dot4(wx, Column(p, 3))];
    CubicAsDot(p[0], y); CubicAsDot(p[1], y); CubicAsDot(p[2], y); CubicAsDot(p[3], y);
    CubicAsDot(Column(p, 0), x); CubicAsDot(Column(p, 1), x);
    CubicAsDot(Column(p, 2), x); CubicAsDot(Column(p, 3), x);
    CubicAsDot(rows, x);
    CubicAsDot(cols, y);
    Dot4Swap(wx, wy, p);
  }

  /** Samples lying on a plane, p[k][l] == a + b * k + c * l, are reproduced exactly:
      the value at (x, y) is the plane at (1 + x, 1 + y). */
  lemma BicubicReproducesPlanes(p: Grid, a: real, b: real, c: real, x: real, y: real)
    requires |p| >= 4 && forall k :: 0 <= k < 4 ==> |p[k]| >= 4
    requires forall k, l :: 0 <= k < 4 && 0 <= l < 4 ==> p[k][l] == a + b * k as real + c * l as real
    ensures Bicubic(p, x, y) == Ok(a + b * (1.0 + x) + c * (1.0 + y))
  {
    var rows := [Cubic(p[0], y), Cubic(p[1], y), Cubic(p[2], y), Cubic(p[3], y)];
    forall k | 0 <= k < 4
      ensures rows[k] == (a + b * k as real) + c + c * y
    {
      CubicArithmetic(p[k], a + b * k as real, c, y);
    }
    CubicArithmetic(rows, a + c + c * y, b, x);
  }
}
