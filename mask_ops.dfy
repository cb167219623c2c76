// Element-wise operations on masks and images shared by the two mask-crop
// views: cv2.bitwise_or of two masks, sub-images, and the NumPy masked
// assignments `a[m] = v` and `a[m] = b[m]` performed in place.

module MaskOps {
  import opened Pixels

  /** The three mask check boxes of the mask-crop dialogs: healthy, mild damage, severe damage. */
  datatype Checks = Checks(healthy: bool, mild: bool, severe: bool)

  /** An all-zero mask (np.zeros_like). */
  function EmptyMask(height: nat, width: nat): (m: Grid<bool>)
    ensures IsGrid(m, height, width)
    ensures !AnySet(m)
  {
    seq(height, r => seq(width, c => false))
  }

  /** cv2.bitwise_or of two masks of one shape. */
  function OrGrid(a: Grid<bool>, b: Grid<bool>, height: nat, width: nat): (m: Grid<bool>)
    requires IsGrid(a, height, width) && IsGrid(b, height, width)
    ensures IsGrid(m, height, width)
    ensures forall r, c :: 0 <= r < height && 0 <= c < width ==> (m[r][c] <==> a[r][c] || b[r][c])
  {
    seq(height, r requires 0 <= r < height => seq(width, c requires 0 <= c < width => a[r][c] || b[r][c]))
  }

  /** The complement of a mask (`mask == 0`). */
  function NotGrid(a: Grid<bool>, height: nat, width: nat): (m: Grid<bool>)
    requires IsGrid(a, height, width)
    ensures IsGrid(m, height, width)
    ensures forall r, c :: 0 <= r < height && 0 <= c < width ==> (m[r][c] <==> !a[r][c])
  {
    seq(height, r requires 0 <= r < height => seq(width, c requires 0 <= c < width => !a[r][c]))
  }

  /** A `height` by `width` array holding the grid `g` (ndarray.copy). */
  method ArrayOf<T>(g: Grid<T>, height: nat, width: nat) returns (a: array2<T>)
    requires IsGrid(g, height, width)
    ensures fresh(a)
    ensures a.Length0 == height && a.Length1 == width
    ensures GridOf(a) == g
  {
    a := new T[height, width]((r, c) requires 0 <= r < height && 0 <= c < width => g[r][c]);
    assert forall r :: 0 <= r < height ==> GridOf(a)[r] == g[r];
  }

  /** `a[m] = v`: every entry under the mask becomes `v`, the others are kept. */
  method PaintWhere<T>(a: array2<T>, m: Grid<bool>, v: T)
    requires IsGrid(m, a.Length0, a.Length1)
    modifies a
    ensures forall r, c :: 0 <= r < a.Length0 && 0 <= c < a.Length1 ==> a[r, c] == if m[r][c] then v else old(a[r, c])
  {
    for r := 0 to a.Length0
      invariant forall i, j :: 0 <= i < a.Length0 && 0 <= j < a.Length1 ==>
        a[i, j] == if i < r && m[i][j] then v else old(a[i, j])
    {
      for c := 0 to a.Length1
        invariant forall i, j :: 0 <= i < a.Length0 && 0 <= j < a.Length1 ==>
          a[i, j] == if (i < r || (i == r && j < c)) && m[i][j] then v else old(a[i, j])
      {
        if m[r][c] {
          a[r, c] := v;
        }
      }
    }
  }

  /** `a[m] = src[m]`: every entry under the mask is taken from `src`, the others are kept. */
  method CopyWhere<T>(a: array2<T>, m: Grid<bool>, src: Grid<T>)
    requires IsGrid(m, a.Length0, a.Length1) && IsGrid(src, a.Length0, a.Length1)
    modifies a
    ensures forall r, c :: 0 <= r < a.Length0 && 0 <= c < a.Length1 ==> a[r, c] == if m[r][c] then src[r][c] else old(a[r, c])
  {
    for r := 0 to a.Length0
      invariant forall i, j :: 0 <= i < a.Length0 && 0 <= j < a.Length1 ==>
        a[i, j] == if i < r && m[i][j] then src[i][j] else old(a[i, j])
    {
      for c := 0 to a.Length1
        invariant forall i, j :: 0 <= i < a.Length0 && 0 <= j < a.Length1 ==>
          a[i, j] == if (i < r || (i == r && j < c)) && m[i][j] then src[i][j] else old(a[i, j])
      {
        if m[r][c] {
          a[r, c] := src[r][c];
        }
      }
    }
  }
}
