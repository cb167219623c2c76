// The analysis tab: severity bands and the distribution over them, the row
// colour of the summary table, the mask-crop of the zoom window
// (ImageDisplayWidget.apply_masks), the precedence label map of the colour
// analysis, and the zoom window's comparison toggle.

module AnalysisTab {
  import opened Wrappers
  import opened Pixels
  import opened HsvRanges
  import opened MaskOps

  // ---------------------------------------------------------------- range tables

  /** The table of apply_masks: healthy [40,40,40]-[80,255,255], mild [15,40,40]-[35,255,255], severe [0,0,0]-[15,255,100]. */
  const ApplyMasksRanges: RangeTable := RangeTable(
    Bound(Hsv(40, 40, 40), Hsv(80, 255, 255)),
    Bound(Hsv(15, 40, 40), Hsv(35, 255, 255)),
    Bound(Hsv(0, 0, 0), Hsv(15, 255, 100)))

  /** The table of perform_color_analysis: healthy [35,40,40]-[80,255,255], mild [15,40,40]-[35,255,255], severe [0,0,0]-[19,255,200]. */
  const ColorAnalysisRanges: RangeTable := RangeTable(
    Bound(Hsv(35, 40, 40), Hsv(80, 255, 255)),
    Bound(Hsv(15, 40, 40), Hsv(35, 255, 255)),
    Bound(Hsv(0, 0, 0), Hsv(19, 255, 200)))

  /**
   * In the apply_masks table the mild and severe ranges share hue 15, so one
   * pixel can be selected by both check boxes: exactly the pixels of hue 15,
   * saturation at least 40 and value 40 to 100.
   */
  lemma ApplyMasksRangesOverlap()
    ensures Overlap(ApplyMasksRanges.afectado, ApplyMasksRanges.severo)
    ensures forall p: Hsv :: (InRange(p, ApplyMasksRanges.afectado) && InRange(p, ApplyMasksRanges.severo)
      <==> p.h == 15 && 40 <= p.s && 40 <= p.v <= 100)
    ensures InRange(Hsv(15, 40, 40), ApplyMasksRanges.afectado) && InRange(Hsv(15, 40, 40), ApplyMasksRanges.severo)
  {
    assert InRange(Hsv(15, 40, 40), ApplyMasksRanges.afectado) && InRange(Hsv(15, 40, 40), ApplyMasksRanges.severo);
  }

  /**
   * In the colour-analysis table healthy and mild share hue 35 and mild and
   * severe share hues 15 to 19: the label map's precedence decides those
   * pixels.
   */
  lemma ColorAnalysisRangesOverlap()
    ensures Overlap(ColorAnalysisRanges.sano, ColorAnalysisRanges.afectado)
    ensures forall p: Hsv :: (InRange(p, ColorAnalysisRanges.sano) && InRange(p, ColorAnalysisRanges.afectado)
      <==> p.h == 35 && 40 <= p.s && 40 <= p.v)
    ensures forall p: Hsv :: (InRange(p, ColorAnalysisRanges.afectado) && InRange(p, ColorAnalysisRanges.severo)
      <==> 15 <= p.h <= 19 && 40 <= p.s && 40 <= p.v <= 200)
    ensures Overlap(ColorAnalysisRanges.afectado, ColorAnalysisRanges.severo)
    ensures !Disjoint(ColorAnalysisRanges)
  {
    var p := Hsv(35, 40, 40);
    var q := Hsv(19, 40, 40);
    assert InRange(p, ColorAnalysisRanges.sano) && InRange(p, ColorAnalysisRanges.afectado);
    assert InRange(q, ColorAnalysisRanges.afectado) && InRange(q, ColorAnalysisRanges.severo);
  }

  // ---------------------------------------------------------------- severity bands

  /** The four affectation bands of the statistics views. */
  datatype Band = PracticallyHealthy | MildDamage | ModerateDamage | SevereDamage

  /** Each band's own test, as the counting comprehensions write it. */
  predicate InBand(b: Band, x: real) {
    match b
    case PracticallyHealthy => x < 10.0
    case MildDamage => 10.0 <= x < 30.0
    case ModerateDamage => 30.0 <= x < 70.0
    case SevereDamage => x >= 70.0
  }

  /** The band of a total-affectation value: the one band whose test it passes. */
  function BandOf(x: real): (b: Band)
    ensures InBand(b, x)
    ensures forall b' :: InBand(b', x) ==> b' == b
  {
    if x < 10.0 then PracticallyHealthy
    else if x < 30.0 then MildDamage
    else if x < 70.0 then ModerateDamage
    else SevereDamage
  }

  /** `sum(1 for x in all_totals if <band test>)`. */
  function CountIn(xs: seq<real>, b: Band): (n: nat)
    ensures n <= |xs|
  {
    if xs == [] then 0
    else CountIn(xs[..|xs| - 1], b) + (if InBand(b, xs[|xs| - 1]) then 1 else 0)
  }

  /** The four band counts add up to the number of values: the bands partition the values. */
  lemma {:induction false} BandCountsPartition(xs: seq<real>)
    ensures CountIn(xs, PracticallyHealthy) + CountIn(xs, MildDamage) + CountIn(xs, ModerateDamage) + CountIn(xs, SevereDamage) == |xs|
  {
    if xs != [] {
      BandCountsPartition(xs[..|xs| - 1]);
      var b := BandOf(xs[|xs| - 1]);
    }
  }

  /** The counts of a severity distribution; `total` is len(all_totals). */
  datatype Distribution = Distribution(total: nat, healthy: nat, mild: nat, moderate: nat, severe: nat)
  {
    function CountOf(b: Band): nat {
      match b
      case PracticallyHealthy => healthy
      case MildDamage => mild
      case ModerateDamage => moderate
      case SevereDamage => severe
    }
  }

  datatype StatsError = NoSamples

  /**
   * The distribution block of create_general_stats_tab and
   * create_severity_distribution_tab: computed only for a non-empty list.
   */
  function DistributionOf(xs: seq<real>): (r: Result<Distribution, StatsError>)
    ensures r.Err? <==> xs == []
    ensures r.Ok? ==> r.value.total == |xs| > 0
    ensures r.Ok? ==> forall b :: r.value.CountOf(b) == CountIn(xs, b)
  {
    if xs == [] then Err(NoSamples)
    else Ok(Distribution(|xs|, CountIn(xs, PracticallyHealthy), CountIn(xs, MildDamage),
                         CountIn(xs, ModerateDamage), CountIn(xs, SevereDamage)))
  }

  /** `count / total * 100`. */
  function Share(count: nat, total: nat): real
    requires total > 0
  {
    count as real / total as real * 100.0
  }

  /** The four shares printed next to the counts add up to 100. */
  lemma DistributionSharesAddUp(xs: seq<real>)
    requires xs != []
    ensures var d := DistributionOf(xs).value;
      Share(d.healthy, d.total) + Share(d.mild, d.total) + Share(d.moderate, d.total) + Share(d.severe, d.total) == 100.0
  {
    var d := DistributionOf(xs).value;
    BandCountsPartition(xs);
    SharesAddUp(d.healthy, d.mild, d.moderate, d.severe, d.total);
  }

  lemma SharesAddUp(a: nat, b: nat, c: nat, d: nat, total: nat)
    requires a + b + c + d == total > 0
    ensures Share(a, total) + Share(b, total) + Share(c, total) + Share(d, total) == 100.0
  {
    var k := 100.0 / total as real;
    ShareScale(a, total);
    ShareScale(b, total);
    ShareScale(c, total);
    ShareScale(d, total);
    assert a as real * k + b as real * k + c as real * k + d as real * k == (a + b + c + d) as real * k;
    assert total as real * k == 100.0;
  }

  lemma ShareScale(count: nat, total: nat)
    requires total > 0
    ensures Share(count, total) == count as real * (100.0 / total as real)
  {
  }

  // ---------------------------------------------------------------- row colour

  /** The background of a summary-table row. */
  datatype RowColour = LightRed | LightOrange | LightGreen

  function Hex(c: RowColour): string {
    match c
    case LightRed => "#ffcdd2"
    case LightOrange => "#fff3e0"
    case LightGreen => "#e8f5e8"
  }

  /** display_results: strictly above 70 is red, strictly above 30 orange, anything else green. */
  function RowColourOf(afectacion: real): (c: RowColour)
    ensures c == LightRed <==> afectacion > 70.0
    ensures c == LightOrange <==> 30.0 < afectacion <= 70.0
    ensures c == LightGreen <==> afectacion <= 30.0
  {
    if afectacion > 70.0 then LightRed
    else if afectacion > 30.0 then LightOrange
    else LightGreen
  }

  /**
   * Row colours and bands agree except on the two boundaries: 70 is in the
   * severe band but coloured orange, and 30 is in the moderate band but
   * coloured green.
   */
  lemma RowColourVersusBands(x: real)
    ensures x != 30.0 && x != 70.0 ==>
      && (RowColourOf(x) == LightRed <==> BandOf(x) == SevereDamage)
      && (RowColourOf(x) == LightOrange <==> BandOf(x) == ModerateDamage)
      && (RowColourOf(x) == LightGreen <==> BandOf(x) in {PracticallyHealthy, MildDamage})
    ensures BandOf(70.0) == SevereDamage && RowColourOf(70.0) == LightOrange
    ensures BandOf(30.0) == ModerateDamage && RowColourOf(30.0) == LightGreen
  {
  }

  // ---------------------------------------------------------------- apply_masks

  /** The combined mask: set where some checked range matches the pixel. */
  function CheckedMask(hsv: Grid<Hsv>, height: nat, width: nat, t: RangeTable, checks: Checks): (m: Grid<bool>)
    requires IsGrid(hsv, height, width)
    ensures IsGrid(m, height, width)
  {
    seq(height, r requires 0 <= r < height => seq(width, c requires 0 <= c < width =>
      (checks.healthy && InRange(hsv[r][c], t.sano)) ||
      (checks.mild && InRange(hsv[r][c], t.afectado)) ||
      (checks.severe && InRange(hsv[r][c], t.severo))))
  }

  /** `combined_mask` starts empty and is OR-ed with each checked mask in turn. */
  method CombineChecked(hsv: Grid<Hsv>, height: nat, width: nat, t: RangeTable, checks: Checks) returns (m: Grid<bool>)
    requires IsGrid(hsv, height, width)
    ensures m == CheckedMask(hsv, height, width, t, checks)
    ensures checks == Checks(false, false, false) ==> !AnySet(m)
  {
    m := EmptyMask(height, width);
    if checks.healthy {
      m := OrGrid(m, MaskGrid(hsv, t.sano), height, width);
    }
    if checks.mild {
      m := OrGrid(m, MaskGrid(hsv, t.afectado), height, width);
    }
    if checks.severe {
      m := OrGrid(m, MaskGrid(hsv, t.severo), height, width);
    }
    var spec := CheckedMask(hsv, height, width, t, checks);
    forall r | 0 <= r < height
      ensures m[r] == spec[r]
    {
      assert forall c :: 0 <= c < width ==> m[r][c] == spec[r][c];
    }
  }

  /** An axis-aligned rectangle: left column x, top row y, width w, height h. */
  datatype Box = Box(x: nat, y: nat, w: nat, h: nat)

  predicate Inside(b: Box, height: nat, width: nat) {
    b.x + b.w <= width && b.y + b.h <= height
  }

  predicate Covers(b: Box, r: int, c: int) {
    b.y <= r < b.y + b.h && b.x <= c < b.x + b.w
  }

  predicate RowSet(m: Grid<bool>, r: nat)
    requires r < |m|
  {
    exists c :: 0 <= c < |m[r]| && m[r][c]
  }

  predicate ColSet(m: Grid<bool>, c: nat) {
    exists r :: 0 <= r < |m| && c < |m[r]| && m[r][c]
  }

  /** The first row at or after `from` holding a set pixel. */
  function FirstRow(m: Grid<bool>, from: nat): (r: nat)
    requires from <= |m| && exists k :: from <= k < |m| && RowSet(m, k)
    ensures from <= r < |m| && RowSet(m, r)
    ensures forall k :: from <= k < r ==> !RowSet(m, k)
    decreases |m| - from
  {
    if RowSet(m, from) then from else FirstRow(m, from + 1)
  }

  /** The last row before `upto` holding a set pixel. */
  function LastRow(m: Grid<bool>, upto: nat): (r: nat)
    requires upto <= |m| && exists k :: 0 <= k < upto && RowSet(m, k)
    ensures r < upto && RowSet(m, r)
    ensures forall k :: r < k < upto ==> !RowSet(m, k)
  {
    if RowSet(m, upto - 1) then upto - 1 else LastRow(m, upto - 1)
  }

  /** The first column at or after `from` holding a set pixel. */
  function FirstCol(m: Grid<bool>, width: nat, from: nat): (c: nat)
    requires from <= width && exists k :: from <= k < width && ColSet(m, k)
    ensures from <= c < width && ColSet(m, c)
    ensures forall k :: from <= k < c ==> !ColSet(m, k)
    decreases width - from
  {
    if ColSet(m, from) then from else FirstCol(m, width, from + 1)
  }

  /** The last column before `upto` holding a set pixel. */
  function LastCol(m: Grid<bool>, upto: nat): (c: nat)
    requires exists k :: 0 <= k < upto && ColSet(m, k)
    ensures c < upto && ColSet(m, c)
    ensures forall k :: c < k < upto ==> !ColSet(m, k)
  {
    if ColSet(m, upto - 1) then upto - 1 else LastCol(m, upto - 1)
  }

  /**
   * cv2.boundingRect of all external contours of a non-empty mask: the
   * rectangle whose four edges each pass through a set pixel.
   */
  function BoundingRect(m: Grid<bool>, height: nat, width: nat): (b: Box)
    requires IsGrid(m, height, width) && AnySet(m)
    ensures Inside(b, height, width) && b.w >= 1 && b.h >= 1
    ensures RowSet(m, b.y) && RowSet(m, b.y + b.h - 1) && ColSet(m, b.x) && ColSet(m, b.x + b.w - 1)
  {
    SetRowAndCol(m);
    var top := FirstRow(m, 0);
    var bottom := LastRow(m, height);
    var left := FirstCol(m, width, 0);
    var right := LastCol(m, width);
    Box(left, top, right - left + 1, bottom - top + 1)
  }

  lemma SetRowAndCol(m: Grid<bool>)
    requires AnySet(m) && forall r :: 0 <= r < |m| ==> |m[r]| == (if |m| == 0 then 0 else |m[0]|)
    ensures exists k :: 0 <= k < |m| && RowSet(m, k)
    ensures exists k :: 0 <= k < |m[0]| && ColSet(m, k)
  {
    var r0, c0 :| 0 <= r0 < |m| && 0 <= c0 < |m[r0]| && m[r0][c0];
    assert RowSet(m, r0);
    assert ColSet(m, c0);
  }

  /** Every set pixel of the mask lies inside its bounding rectangle. */
  lemma BoundingRectContains(m: Grid<bool>, height: nat, width: nat, r: nat, c: nat)
    requires IsGrid(m, height, width) && AnySet(m)
    requires r < height && c < width && m[r][c]
    ensures Covers(BoundingRect(m, height, width), r, c)
  {
    SetRowAndCol(m);
    assert RowSet(m, r) && ColSet(m, c);
  }

  /** The 20-pixel margin of apply_masks. */
  const Margin: nat := 20

  function Max(a: int, b: int): int { if a >= b then a else b }
  function Min(a: int, b: int): int { if a <= b then a else b }

  /** The box grown by the margin on every side and clamped to the image: it stays inside the image and contains the original box. */
  function MarginCrop(b: Box, height: nat, width: nat): (g: Box)
    requires Inside(b, height, width)
    ensures Inside(g, height, width)
    ensures g.x <= b.x && g.y <= b.y && b.x + b.w <= g.x + g.w && b.y + b.h <= g.y + g.h
    ensures g.x == Max(0, b.x - Margin) && g.y == Max(0, b.y - Margin)
  {
    var x := Max(0, b.x - Margin);
    var y := Max(0, b.y - Margin);
    Box(x, y, Min(width - x, b.w + 2 * Margin), Min(height - y, b.h + 2 * Margin))
  }

  /** `g[y:y+h, x:x+w]`. */
  function SubGrid<T>(g: Grid<T>, b: Box, height: nat, width: nat): (s: Grid<T>)
    requires IsGrid(g, height, width) && Inside(b, height, width)
    ensures IsGrid(s, b.h, b.w)
    ensures forall i, j :: 0 <= i < b.h && 0 <= j < b.w ==> s[i][j] == g[b.y + i][b.x + j]
  {
    seq(b.h, i requires 0 <= i < b.h => seq(b.w, j requires 0 <= j < b.w => g[b.y + i][b.x + j]))
  }

  /** The crop of `rgb` to `b` where pixels under the mask keep their colour and the rest show the background. */
  function MaskedCrop(rgb: Grid<Rgb>, mask: Grid<bool>, b: Box, height: nat, width: nat, bg: Rgb): (res: Grid<Rgb>)
    requires IsGrid(rgb, height, width) && IsGrid(mask, height, width) && Inside(b, height, width)
    ensures IsGrid(res, b.h, b.w)
  {
    seq(b.h, i requires 0 <= i < b.h => seq(b.w, j requires 0 <= j < b.w =>
      if mask[b.y + i][b.x + j] then rgb[b.y + i][b.x + j] else bg))
  }

  /** `result_image` is filled with the background, then the masked pixels of the crop are copied over it. */
  method CropWithBackground(rgb: Grid<Rgb>, mask: Grid<bool>, b: Box, height: nat, width: nat, bg: Rgb) returns (res: Grid<Rgb>)
    requires IsGrid(rgb, height, width) && IsGrid(mask, height, width) && Inside(b, height, width)
    ensures res == MaskedCrop(rgb, mask, b, height, width, bg)
  {
    var cropped := SubGrid(rgb, b, height, width);
    var croppedMask := SubGrid(mask, b, height, width);
    var a := new Rgb[b.h, b.w]((i, j) => bg);
    CopyWhere(a, croppedMask, cropped);
    res := GridOf(a);
    var spec := MaskedCrop(rgb, mask, b, height, width, bg);
    forall i | 0 <= i < b.h
      ensures res[i] == spec[i]
    {
      assert forall j :: 0 <= j < b.w ==> res[i][j] == spec[i][j];
    }
  }

  /** A decoded image: its RGB pixels and their HSV conversion, of one shape. */
  datatype Loaded = Loaded(rgb: Grid<Rgb>, hsv: Grid<Hsv>, height: nat, width: nat)
  {
    predicate Valid() {
      IsGrid(rgb, height, width) && IsGrid(hsv, height, width)
    }
  }

  datatype MaskOutcome =
    | LoadError                                  // cv2.imread returned None
    | NoResults                                  // no contour: nothing matched the checked masks
    | Cropped(image: Grid<Rgb>, title: string)   // the crop shown, and the window title

  function MaskNames(checks: Checks): seq<string> {
    (if checks.healthy then ["Saludable"] else []) +
    (if checks.mild then ["Leve"] else []) +
    (if checks.severe then ["Severa"] else [])
  }

  /** `sep.join(xs)`. */
  function Join(xs: seq<string>, sep: string): string {
    if xs == [] then "" else if |xs| == 1 then xs[0] else Join(xs[..|xs| - 1], sep) + sep + xs[|xs| - 1]
  }

  function CropTitle(checks: Checks, white: bool): (title: string)
    ensures "Recorte de máscaras: " <= title
    ensures white ==> |title| >= 6 && title[|title| - 6..] == "Blanco"
    ensures !white ==> |title| >= 5 && title[|title| - 5..] == "Negro"
  {
    "Recorte de máscaras: " + Join(MaskNames(checks), ", ") + " - Fondo " + (if white then "Blanco" else "Negro")
  }

  function Background(white: bool): Rgb {
    if white then Rgb(255, 255, 255) else Rgb(0, 0, 0)
  }

  /** What apply_masks shows for a loaded (or unreadable) image, check-box state and background choice. */
  function MaskCropOf(img: Option<Loaded>, checks: Checks, white: bool): (o: MaskOutcome)
    requires img.Some? ==> img.value.Valid()
    ensures o == LoadError <==> img.None?
    ensures o == NoResults <==> img.Some? && !AnySet(CheckedMask(img.value.hsv, img.value.height, img.value.width, ApplyMasksRanges, checks))
    ensures o.Cropped? ==> o.title == CropTitle(checks, white)
  {
    match img
    case None => LoadError
    case Some(l) =>
      var m := CheckedMask(l.hsv, l.height, l.width, ApplyMasksRanges, checks);
      if !AnySet(m) then NoResults
      else
        var b := MarginCrop(BoundingRect(m, l.height, l.width), l.height, l.width);
        Cropped(MaskedCrop(l.rgb, m, b, l.height, l.width, Background(white)), CropTitle(checks, white))
  }

  /** The computation of apply_masks: combine, find the box, crop onto the background. */
  method ComputeMaskCrop(img: Option<Loaded>, checks: Checks, white: bool) returns (o: MaskOutcome)
    requires img.Some? ==> img.value.Valid()
    ensures o == MaskCropOf(img, checks, white)
  {
    if img.None? {
      return LoadError;
    }
    var l := img.value;
    var m := CombineChecked(l.hsv, l.height, l.width, ApplyMasksRanges, checks);
    if !AnySet(m) {
      return NoResults;
    }
    var b := MarginCrop(BoundingRect(m, l.height, l.width), l.height, l.width);
    var res := CropWithBackground(l.rgb, m, b, l.height, l.width, Background(white));
    o := Cropped(res, CropTitle(checks, white));
  }

  /** With no box checked nothing can match: a readable image always gives "no results". */
  lemma NothingCheckedNoResults(l: Loaded, white: bool)
    requires l.Valid()
    ensures MaskCropOf(Some(l), Checks(false, false, false), white) == NoResults
  {
    var m := CheckedMask(l.hsv, l.height, l.width, ApplyMasksRanges, Checks(false, false, false));
    assert forall r, c :: 0 <= r < |m| && 0 <= c < |m[r]| ==> !m[r][c];
  }

  /**
   * The crop loses no selected pixel: each pixel of the combined mask
   * appears in the crop, at its offset from the crop's corner, with its
   * original colour; an unselected pixel inside the crop shows the
   * background.
   */
  lemma MaskCropContents(l: Loaded, checks: Checks, white: bool, r: nat, c: nat)
    requires l.Valid() && r < l.height && c < l.width
    requires MaskCropOf(Some(l), checks, white).Cropped?
    ensures var m := CheckedMask(l.hsv, l.height, l.width, ApplyMasksRanges, checks);
      var b := MarginCrop(BoundingRect(m, l.height, l.width), l.height, l.width);
      var img := MaskCropOf(Some(l), checks, white).image;
      && IsGrid(img, b.h, b.w)
      && (m[r][c] ==> Covers(b, r, c) && img[r - b.y][c - b.x] == l.rgb[r][c])
      && (!m[r][c] && Covers(b, r, c) ==> img[r - b.y][c - b.x] == Background(white))
  {
    var m := CheckedMask(l.hsv, l.height, l.width, ApplyMasksRanges, checks);
    var b := MarginCrop(BoundingRect(m, l.height, l.width), l.height, l.width);
    assert MaskCropOf(Some(l), checks, white).image == MaskedCrop(l.rgb, m, b, l.height, l.width, Background(white));
    if m[r][c] {
      BoundingRectContains(m, l.height, l.width, r, c);
    }
    if Covers(b, r, c) {
      MaskedCropPixel(l.rgb, m, b, l.height, l.width, Background(white), r, c);
    }
  }

  /** A pixel inside the box lands at its offset from the box's corner: its own colour where the mask is set, else the background. */
  lemma MaskedCropPixel(rgb: Grid<Rgb>, mask: Grid<bool>, b: Box, height: nat, width: nat, bg: Rgb, r: nat, c: nat)
    requires IsGrid(rgb, height, width) && IsGrid(mask, height, width) && Inside(b, height, width)
    requires Covers(b, r, c)
    ensures var res := MaskedCrop(rgb, mask, b, height, width, bg);
      |res| == b.h && |res[r - b.y]| == b.w
      && res[r - b.y][c - b.x] == (if mask[r][c] then rgb[r][c] else bg)
  {
  }

  // ---------------------------------------------------------------- label map

  /** The intensity label: 3 severe, else 2 mild, else 1 healthy, else 0 background. */
  function Label(healthy: bool, mild: bool, severe: bool): (v: int)
    ensures 0 <= v <= 3
    ensures v == 3 <==> severe
    ensures v == 2 <==> mild && !severe
    ensures v == 1 <==> healthy && !mild && !severe
  {
    if severe then 3 else if mild then 2 else if healthy then 1 else 0
  }

  /** create_heatmap_analysis: the intensity map is zeroed, then 1, 2 and 3 are written under the three masks in that order. */
  method IntensityMap(mh: Grid<bool>, m1: Grid<bool>, m2: Grid<bool>, height: nat, width: nat) returns (labels: Grid<int>)
    requires IsGrid(mh, height, width) && IsGrid(m1, height, width) && IsGrid(m2, height, width)
    ensures IsGrid(labels, height, width)
    ensures forall r, c :: 0 <= r < height && 0 <= c < width ==> labels[r][c] == Label(mh[r][c], m1[r][c], m2[r][c])
  {
    var a := new int[height, width]((r, c) => 0);
    PaintWhere(a, mh, 1);
    PaintWhere(a, m1, 2);
    PaintWhere(a, m2, 3);
    labels := GridOf(a);
  }

  /** The flat colour of the last fallback of create_simple_heatmap for a label. */
  function FlatColour(level: int, original: Rgb): Rgb {
    if level == 3 then Rgb(255, 0, 0)
    else if level == 2 then Rgb(255, 255, 0)
    else if level == 1 then Rgb(0, 255, 0)
    else original
  }

  /** The flat-colour fallback: a copy of the image painted green, yellow and red under the three masks in that order. */
  method FlatColourFallback(img: Grid<Rgb>, mh: Grid<bool>, m1: Grid<bool>, m2: Grid<bool>, height: nat, width: nat) returns (res: Grid<Rgb>)
    requires IsGrid(img, height, width)
    requires IsGrid(mh, height, width) && IsGrid(m1, height, width) && IsGrid(m2, height, width)
    ensures IsGrid(res, height, width)
    ensures forall r, c :: 0 <= r < height && 0 <= c < width ==> res[r][c] == FlatColour(Label(mh[r][c], m1[r][c], m2[r][c]), img[r][c])
  {
    var a := ArrayOf(img, height, width);
    PaintWhere(a, mh, Rgb(0, 255, 0));
    PaintWhere(a, m1, Rgb(255, 255, 0));
    PaintWhere(a, m2, Rgb(255, 0, 0));
    res := GridOf(a);
  }

  // ---------------------------------------------------------------- zoom window

  /** The fields of the zoom window that toggle_comparison_image reads and writes. */
  datatype ZoomView = ZoomView(currentPath: string, currentTitle: string, comparisonPath: Option<string>, comparisonTitle: string, zoom: int)

  /** Python truthiness of `comparison_image_path`: set and non-empty. */
  predicate Truthy(p: Option<string>) {
    p.Some? && p.value != ""
  }

  /** toggle_comparison_image on the fields: with a comparison image, swap the two paths and titles and reset the zoom to 100; otherwise nothing. */
  function Toggle(v: ZoomView): (w: ZoomView)
    ensures !Truthy(v.comparisonPath) ==> w == v
    ensures Truthy(v.comparisonPath) ==>
      && w.currentPath == v.comparisonPath.value && w.comparisonPath == Some(v.currentPath)
      && w.currentTitle == v.comparisonTitle && w.comparisonTitle == v.currentTitle
      && w.zoom == 100
  {
    if Truthy(v.comparisonPath) then
      ZoomView(v.comparisonPath.value, v.comparisonTitle, Some(v.currentPath), v.currentTitle, 100)
    else v
  }

  /** Toggling twice restores the paths and titles (the zoom stays reset), whenever the shown path is non-empty. */
  lemma ToggleTwiceRestores(v: ZoomView)
    requires v.currentPath != ""
    ensures Truthy(v.comparisonPath) ==> Toggle(Toggle(v)) == v.(zoom := 100)
    ensures !Truthy(v.comparisonPath) ==> Toggle(Toggle(v)) == v
  {
  }

  /** The compare button's tooltip when there is no comparison image. */
  const NoComparisonTooltip: string := "No hay imagen de comparación disponible"

  /** The image display widget while its zoom window is open. */
  class ImageDisplayWidget {
    var zoomCurrentPath: string
    var zoomCurrentTitle: string
    var comparisonImagePath: Option<string>
    var comparisonTitle: string
    var originalImagePath: Option<string>
    var zoom: int
    var windowTitle: string
    var compareEnabled: bool
    var compareTooltip: string
    /** The mask crop displayed in place of the file at zoomCurrentPath, if any. */
    var shown: Option<Grid<Rgb>>

    function View(): ZoomView
      reads this
    {
      ZoomView(zoomCurrentPath, zoomCurrentTitle, comparisonImagePath, comparisonTitle, zoom)
    }

    /** The zoom slider stays within its range 25..300. */
    predicate Valid()
      reads this
    {
      25 <= zoom <= 300
    }

    /**
     * open_simple_zoom_window: the window shows the file at the widget's
     * current path (no crop), titled after it, at zoom 100; the compare button
     * is enabled whenever a comparison path is set, and its tooltip names the
     * comparison image only when that path is truthy.
     */
    constructor (currentPath: string, currentTitle: string, comparisonPath: Option<string>, compTitle: string, originalPath: Option<string>)
      ensures Valid()
      ensures View() == ZoomView(currentPath, currentTitle, comparisonPath, compTitle, 100)
      ensures originalImagePath == originalPath && shown == None
      ensures windowTitle == "Vista detallada - " + currentTitle
      ensures compareEnabled <==> comparisonPath.Some?
      ensures compareTooltip == if Truthy(comparisonPath) then "Alternar con: " + compTitle else NoComparisonTooltip
    {
      zoomCurrentPath := currentPath;
      zoomCurrentTitle := currentTitle;
      comparisonImagePath := comparisonPath;
      comparisonTitle := compTitle;
      originalImagePath := originalPath;
      zoom := 100;
      windowTitle := "Vista detallada - " + currentTitle;
      compareEnabled := comparisonPath.Some?;
      if comparisonPath.Some? && comparisonPath.value != "" {
        compareTooltip := "Alternar con: " + compTitle;
      } else {
        compareTooltip := NoComparisonTooltip;
      }
      shown := None;
    }

    /**
     * toggle_comparison_image: swaps the shown and comparison images, reloads
     * the file at the new current path (dropping any crop), retitles the
     * window and resets the zoom.
     */
    method ToggleComparisonImage()
      requires Valid()
      modifies this
      ensures Valid()
      ensures View() == Toggle(old(View()))
      ensures Truthy(old(comparisonImagePath)) ==>
        windowTitle == "Vista detallada - " + zoomCurrentTitle && compareTooltip == "Alternar con: " + comparisonTitle
        && shown == None
      ensures !Truthy(old(comparisonImagePath)) ==>
        windowTitle == old(windowTitle) && compareTooltip == old(compareTooltip) && shown == old(shown)
      ensures originalImagePath == old(originalImagePath) && compareEnabled == old(compareEnabled)
    {
      if comparisonImagePath.Some? && comparisonImagePath.value != "" {
        var tempPath := zoomCurrentPath;
        var tempTitle := zoomCurrentTitle;
        zoomCurrentPath := comparisonImagePath.value;
        zoomCurrentTitle := comparisonTitle;
        comparisonImagePath := Some(tempPath);
        comparisonTitle := tempTitle;
        shown := None;
        windowTitle := "Vista detallada - " + zoomCurrentTitle;
        compareTooltip := "Alternar con: " + comparisonTitle;
        zoom := 100;
      }
    }

    /** The image apply_masks reads: the original image path when set, otherwise the one shown. */
    function SourcePath(): string
      reads this
    {
      if Truthy(originalImagePath) then originalImagePath.value else zoomCurrentPath
    }

    /**
     * apply_masks with `read` standing for cv2.imread and the two colour
     * conversions: a crop is shown, retitles the window and resets the zoom;
     * a load error or an empty selection leaves the window as it was.
     */
    method ApplyMasks(read: string -> Option<Loaded>, checks: Checks, white: bool) returns (o: MaskOutcome)
      requires Valid()
      requires read(SourcePath()).Some? ==> read(SourcePath()).value.Valid()
      modifies this
      ensures Valid()
      ensures o == MaskCropOf(read(old(SourcePath())), checks, white)
      ensures o.Cropped? ==> shown == Some(o.image) && windowTitle == o.title && zoom == 100
      ensures !o.Cropped? ==> shown == old(shown) && windowTitle == old(windowTitle) && zoom == old(zoom)
      ensures View() == old(View()).(zoom := zoom) && originalImagePath == old(originalImagePath)
      ensures compareEnabled == old(compareEnabled) && compareTooltip == old(compareTooltip)
    {
      o := ComputeMaskCrop(read(SourcePath()), checks, white);
      if o.Cropped? {
        shown := Some(o.image);
        windowTitle := o.title;
        zoom := 100;
      }
    }
  }
}
