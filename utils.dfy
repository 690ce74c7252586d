/** Zero padding (src/image/utils/Utils.java). The same routine appears verbatim in both
    ResizeArray classes; all three are this one. */
module Utils {
  import opened Grids

  /** g surrounded on every side by p rows and p columns of zeros. */
  function Pad(g: Grid, p: nat): (r: Grid)
    requires IsGrid(g)
    ensures IsGrid(r) && |r| == |g| + 2 * p && Width(r) == Width(g) + 2 * p
  {
    var w := Width(g) + 2 * p;
    var r := seq(|g| + 2 * p, i =>
      seq(w, j =>
        if p <= i < p + |g| && p <= j < p + Width(g) then g[i - p][j - p] else 0.0));
    assert forall i :: 0 <= i < |r| ==> |r[i]| == w;
    r
  }

  /** The h-by-w window of g whose top-left cell is (p, p): the inverse of Pad. */
  function Crop(g: Grid, p: nat, h: nat, w: nat): (r: Grid)
    requires |g| >= p + h
    requires forall i :: p <= i < p + h ==> |g[i]| >= p + w
    ensures |r| == h && forall i :: 0 <= i < h ==> |r[i]| == w
  {
    seq(h, i requires 0 <= i < h => seq(w, j requires 0 <= j < w => g[i + p][j + p]))
  }

  /** Every input cell reappears shifted by (p, p). */
  lemma PadInterior(g: Grid, p: nat, i: nat, j: nat)
    requires IsGrid(g) && i < |g| && j < Width(g)
    ensures Pad(g, p)[i + p][j + p] == g[i][j]
  {
  }

  /** Every cell outside the copied window is zero. */
  lemma PadBorder(g: Grid, p: nat, i: nat, j: nat)
    requires IsGrid(g) && i < |g| + 2 * p && j < Width(g) + 2 * p
    requires !(p <= i < p + |g| && p <= j < p + Width(g))
    ensures Pad(g, p)[i][j] == 0.0
  {
  }

  /** Padding by zero copies the grid. */
  lemma PadZero(g: Grid)
    requires IsGrid(g)
    ensures Pad(g, 0) == g
  {
    var r := Pad(g, 0);
    forall i | 0 <= i < |g|
      ensures r[i] == g[i]
    {
      assert |r[i]| == |g[i]|;
    }
  }

  /** Cropping the padded grid at (p, p) gives back the original. */
  lemma CropPad(g: Grid, p: nat)
    requires IsGrid(g)
    ensures Crop(Pad(g, p), p, |g|, Width(g)) == g
  {
    var r := Crop(Pad(g, p), p, |g|, Width(g));
    forall i | 0 <= i < |g|
      ensures r[i] == g[i]
    {
      assert |r[i]| == |g[i]|;
    }
  }

  /** Padding twice is padding once by the total thickness. */
  lemma PadPad(g: Grid, p: nat, q: nat)
    requires IsGrid(g)
    ensures Pad(Pad(g, p), q) == Pad(g, p + q)
  {
    var a, b := Pad(Pad(g, p), q), Pad(g, p + q);
    forall i | 0 <= i < |b|
      ensures a[i] == b[i]
    {
      assert |a[i]| == |b[i]|;
    }
  }

  /** Allocates the padded array and copies the input into it row by row; the input
      array is only read. */
  method Padding2d(arr: array2<real>, paddingSize: nat) returns (newArr: array2<real>)
    requires arr.Length0 >= 1
    ensures fresh(newArr)
    ensures Cells(newArr) == Pad(Cells(arr), paddingSize)
  {
    var h, w, p := arr.Length0, arr.Length1, paddingSize;
    newArr := new real[h + 2 * p, w + 2 * p]((_, _) => 0.0);
    for i := 0 to h
      invariant forall r, c :: 0 <= r < newArr.Length0 && 0 <= c < newArr.Length1 ==>
        newArr[r, c] == if p <= r < p + i && p <= c < p + w then arr[r - p, c - p] else 0.0
    {
      for j := 0 to w
        invariant forall r, c :: 0 <= r < newArr.Length0 && 0 <= c < newArr.Length1 ==>
          newArr[r, c] ==
            if (p <= r < p + i && p <= c < p + w) || (r == p + i && p <= c < p + j)
            then arr[r - p, c - p] else 0.0
      {
        newArr[i + p, j + p] := arr[i, j];
      }
    }
    CellsEq(newArr, Pad(Cells(arr), p));
  }
}
