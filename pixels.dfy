/**
 * Pixels and pixel grids as 8-bit OpenCV / NumPy images store them.
 * The channel order of a three-channel pixel is part of its type, so an RGB
 * buffer cannot be handed where a BGR one is expected.
 */
module Pixels {

  /** One 8-bit channel value (numpy uint8). */
  type Byte = x: int | 0 <= x < 256

  /** A pixel after cv2's 8-bit HSV conversion: hue in [0,179], saturation and value in [0,255]. */
  datatype Hsv = Hsv(h: Byte, s: Byte, v: Byte)

  /** A pixel as cv2.imread stores it. */
  datatype Bgr = Bgr(b: Byte, g: Byte, r: Byte)

  /** A pixel after cv2.cvtColor(..., COLOR_BGR2RGB), as the Qt views display it. */
  datatype Rgb = Rgb(r: Byte, g: Byte, b: Byte)

  /** A two-dimensional image or mask, row by row. */
  type Grid<T> = seq<seq<T>>

  /** `g` has `height` rows of `width` entries each. */
  predicate IsGrid<T>(g: Grid<T>, height: nat, width: nat) {
    |g| == height && forall r :: 0 <= r < |g| ==> |g[r]| == width
  }

  /** The contents of a two-dimensional array as a grid value. */
  function GridOf<T>(a: array2<T>): (g: Grid<T>)
    reads a
    ensures IsGrid(g, a.Length0, a.Length1)
    ensures forall r, c :: 0 <= r < a.Length0 && 0 <= c < a.Length1 ==> g[r][c] == a[r, c]
  {
    seq(a.Length0, r requires 0 <= r < a.Length0 reads a =>
      seq(a.Length1, c requires 0 <= c < a.Length1 reads a => a[r, c]))
  }

  /** The number of set entries of a mask (cv2.countNonZero). */
  function Count(m: seq<bool>): (n: nat)
    ensures n <= |m|
    ensures n == 0 <==> forall i :: 0 <= i < |m| ==> !m[i]
  {
    if m == [] then 0 else (if m[0] then 1 else 0) + Count(m[1..])
  }

  /** Some entry of the grid mask is set (np.sum(mask > 0) > 0). */
  predicate AnySet(m: Grid<bool>) {
    exists r, c :: 0 <= r < |m| && 0 <= c < |m[r]| && m[r][c]
  }
}
