/**
 * The HSV range test every call site performs with cv2.inRange, and the
 * three-state range table it is driven by. The table is a parameter: each
 * call site of the program supplies its own literal table.
 */
module HsvRanges {
  import opened Pixels

  /** An inclusive per-channel range [lower, upper]. */
  datatype Bound = Bound(lower: Hsv, upper: Hsv)

  /** The three health states, in the order the analyzer's table lists them. */
  datatype State = Sano | Afectado | Severo

  /** A range per state: healthy (green), affected (yellow), severe (brown or necrotic). */
  datatype RangeTable = RangeTable(sano: Bound, afectado: Bound, severo: Bound)

  /** The states in table order. */
  const States: seq<State> := [Sano, Afectado, Severo]

  function RangeOf(t: RangeTable, s: State): Bound {
    match s
    case Sano => t.sano
    case Afectado => t.afectado
    case Severo => t.severo
  }

  /** cv2.inRange on one pixel: every channel lies within its inclusive bounds. */
  predicate InRange(p: Hsv, b: Bound) {
    && b.lower.h <= p.h <= b.upper.h
    && b.lower.s <= p.s <= b.upper.s
    && b.lower.v <= p.v <= b.upper.v
  }

  /** cv2.inRange on a flat image: one mask entry per pixel. */
  function Mask(img: seq<Hsv>, b: Bound): seq<bool> {
    seq(|img|, i requires 0 <= i < |img| => InRange(img[i], b))
  }

  /** cv2.inRange on an image grid: the mask has the image's shape. */
  function MaskGrid(img: Grid<Hsv>, b: Bound): (m: Grid<bool>)
    ensures |m| == |img|
    ensures forall r :: 0 <= r < |img| ==> |m[r]| == |img[r]|
    ensures forall r, c :: 0 <= r < |img| && 0 <= c < |img[r]| ==> (m[r][c] <==> InRange(img[r][c], b))
  {
    seq(|img|, r requires 0 <= r < |img| => Mask(img[r], b))
  }

  /** The number of pixels of `img` that `b` matches (cv2.countNonZero of the mask). */
  function Matches(img: seq<Hsv>, b: Bound): nat {
    Count(Mask(img, b))
  }

  /** No pixel lies in two of the table's ranges. */
  ghost predicate Disjoint(t: RangeTable) {
    forall p: Hsv :: !(InRange(p, t.sano) && InRange(p, t.afectado))
                  && !(InRange(p, t.sano) && InRange(p, t.severo))
                  && !(InRange(p, t.afectado) && InRange(p, t.severo))
  }

  /**
   * With pairwise disjoint ranges no pixel is counted twice: the three match
   * counts together never exceed the number of pixels.
   */
  lemma {:induction false} DisjointCountsBounded(img: seq<Hsv>, t: RangeTable)
    requires Disjoint(t)
    ensures Matches(img, t.sano) + Matches(img, t.afectado) + Matches(img, t.severo) <= |img|
  {
    if img != [] {
      DisjointCountsBounded(img[1..], t);
      var p := img[0];
      assert Mask(img, t.sano)[1..] == Mask(img[1..], t.sano);
      assert Mask(img, t.afectado)[1..] == Mask(img[1..], t.afectado);
      assert Mask(img, t.severo)[1..] == Mask(img[1..], t.severo);
    }
  }

  /** Two of the table's ranges share a pixel. */
  ghost predicate Overlap(a: Bound, b: Bound) {
    exists p: Hsv :: InRange(p, a) && InRange(p, b)
  }
}
