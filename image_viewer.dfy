// The advanced image viewer: the HSV mask crop of apply_mask_crop and
// create_mask_crop, and the viewer's own state (comparison toggle, zoom,
// the image shown and the histogram source).

module ImageViewer {
  import opened Wrappers
  import opened Pixels
  import opened HsvRanges
  import opened MaskOps

  /**
   * The table of apply_mask_crop, kept apart from the identical table of
   * the analysis tab: healthy [40,40,40]-[80,255,255], disease1
   * [15,40,40]-[35,255,255], disease2 [0,0,0]-[15,255,100].
   */
  const ViewerRanges: RangeTable := RangeTable(
    Bound(Hsv(40, 40, 40), Hsv(80, 255, 255)),
    Bound(Hsv(15, 40, 40), Hsv(35, 255, 255)),
    Bound(Hsv(0, 0, 0), Hsv(15, 255, 100)))

  /** The entries of `masks_selected`: 'healthy', 'disease1', 'disease2'. */
  datatype MaskKind = Healthy | Disease1 | Disease2

  function BoundOf(k: MaskKind): Bound {
    match k
    case Healthy => ViewerRanges.sano
    case Disease1 => ViewerRanges.afectado
    case Disease2 => ViewerRanges.severo
  }

  /** The grey of the transparent option. */
  const Gray128: Rgb := Rgb(128, 128, 128)

  /** The combined mask of a set of mask kinds: set where the pixel is in the range of one of them. */
  function SelectedMask(hsv: Grid<Hsv>, height: nat, width: nat, kinds: set<MaskKind>): (m: Grid<bool>)
    requires IsGrid(hsv, height, width)
    ensures IsGrid(m, height, width)
    ensures forall r, c :: 0 <= r < height && 0 <= c < width ==>
      (m[r][c] <==> exists k :: k in kinds && InRange(hsv[r][c], BoundOf(k)))
  {
    seq(height, r requires 0 <= r < height => seq(width, c requires 0 <= c < width =>
      exists k :: k in kinds && InRange(hsv[r][c], BoundOf(k))))
  }

  function KindsOf(selected: seq<MaskKind>): set<MaskKind> {
    set k | k in selected
  }

  /**
   * What apply_mask_crop returns: None when no pixel is selected;
   * otherwise the image where selected pixels keep their colour and the
   * others show the background, grey 128 for the transparent option.
   */
  function MaskCropOf(image: Grid<Rgb>, hsv: Grid<Hsv>, height: nat, width: nat, kinds: set<MaskKind>, bg: Option<Rgb>): (r: Option<Grid<Rgb>>)
    requires IsGrid(image, height, width) && IsGrid(hsv, height, width)
    ensures r.None? <==> !AnySet(SelectedMask(hsv, height, width, kinds))
    ensures r.Some? ==> IsGrid(r.value, height, width)
  {
    var m := SelectedMask(hsv, height, width, kinds);
    if !AnySet(m) then None
    else Some(seq(height, r requires 0 <= r < height => seq(width, c requires 0 <= c < width =>
      if m[r][c] then image[r][c] else if bg.None? then Gray128 else bg.value)))
  }

  /** apply_mask_crop: the selected masks are OR-ed one by one, then the background is laid outside the mask in place. */
  method ApplyMaskCrop(image: Grid<Rgb>, hsv: Grid<Hsv>, height: nat, width: nat, selected: seq<MaskKind>, bg: Option<Rgb>)
    returns (result: Option<Grid<Rgb>>)
    requires IsGrid(image, height, width) && IsGrid(hsv, height, width)
    ensures result == MaskCropOf(image, hsv, height, width, KindsOf(selected), bg)
  {
    var combined := EmptyMask(height, width);
    ghost var none := SelectedMask(hsv, height, width, KindsOf(selected[..0]));
    forall r | 0 <= r < height
      ensures combined[r] == none[r]
    {
      assert forall c :: 0 <= c < width ==> combined[r][c] == none[r][c];
    }
    for i := 0 to |selected|
      invariant combined == SelectedMask(hsv, height, width, KindsOf(selected[..i]))
    {
      combined := OrGrid(combined, MaskGrid(hsv, BoundOf(selected[i])), height, width);
      SelectedMaskStep(hsv, height, width, selected, i, combined);
    }
    assert selected[..|selected|] == selected;
    assert combined == SelectedMask(hsv, height, width, KindsOf(selected));
    var a: array2<Rgb>;
    if bg.None? {
      a := ArrayOf(image, height, width);
      PaintWhere(a, NotGrid(combined, height, width), Gray128);
    } else {
      a := new Rgb[height, width]((r, c) => bg.value);
      CopyWhere(a, combined, image);
    }
    if !AnySet(combined) {
      assert MaskCropOf(image, hsv, height, width, KindsOf(selected), bg) == None;
      return None;
    }
    var res := GridOf(a);
    var spec := MaskCropOf(image, hsv, height, width, KindsOf(selected), bg).value;
    forall r | 0 <= r < height
      ensures res[r] == spec[r]
    {
      forall c | 0 <= c < width
        ensures res[r][c] == spec[r][c]
      {
        assert res[r][c] == a[r, c];
      }
    }
    assert res == spec;
    result := Some(res);
  }

  lemma SelectedMaskStep(hsv: Grid<Hsv>, height: nat, width: nat, selected: seq<MaskKind>, i: nat, combined: Grid<bool>)
    requires IsGrid(hsv, height, width) && i < |selected|
    requires IsGrid(combined, height, width)
    requires forall r, c :: 0 <= r < height && 0 <= c < width ==>
      (combined[r][c] <==> SelectedMask(hsv, height, width, KindsOf(selected[..i]))[r][c] || InRange(hsv[r][c], BoundOf(selected[i])))
    ensures combined == SelectedMask(hsv, height, width, KindsOf(selected[..i + 1]))
  {
    var spec := SelectedMask(hsv, height, width, KindsOf(selected[..i + 1]));
    assert KindsOf(selected[..i + 1]) == KindsOf(selected[..i]) + {selected[i]} by {
      assert selected[..i + 1] == selected[..i] + [selected[i]];
    }
    forall r | 0 <= r < height
      ensures combined[r] == spec[r]
    {
      assert forall c :: 0 <= c < width ==> combined[r][c] == spec[r][c];
    }
  }

  /** The crop depends only on which masks are selected, not on their order or repetition. */
  lemma SelectionOrderIrrelevant(image: Grid<Rgb>, hsv: Grid<Hsv>, height: nat, width: nat, a: seq<MaskKind>, b: seq<MaskKind>, bg: Option<Rgb>)
    requires IsGrid(image, height, width) && IsGrid(hsv, height, width)
    requires forall k :: k in a <==> k in b
    ensures MaskCropOf(image, hsv, height, width, KindsOf(a), bg) == MaskCropOf(image, hsv, height, width, KindsOf(b), bg)
  {
    assert KindsOf(a) == KindsOf(b);
  }

  /** The crop exists exactly when some selected range matches some pixel. */
  lemma MaskCropExists(image: Grid<Rgb>, hsv: Grid<Hsv>, height: nat, width: nat, kinds: set<MaskKind>, bg: Option<Rgb>)
    requires IsGrid(image, height, width) && IsGrid(hsv, height, width)
    ensures MaskCropOf(image, hsv, height, width, kinds, bg).Some? <==>
      exists r, c, k :: 0 <= r < height && 0 <= c < width && k in kinds && InRange(hsv[r][c], BoundOf(k))
  {
    var m := SelectedMask(hsv, height, width, kinds);
    if AnySet(m) {
      var r0, c0 :| 0 <= r0 < |m| && 0 <= c0 < |m[r0]| && m[r0][c0];
      var k0 :| k0 in kinds && InRange(hsv[r0][c0], BoundOf(k0));
    } else {
      forall r, c, k | 0 <= r < height && 0 <= c < width && k in kinds
        ensures !InRange(hsv[r][c], BoundOf(k))
      {
        assert !m[r][c];
      }
    }
  }

  /**
   * In the crop a selected pixel keeps its colour, and an unselected one
   * becomes the background colour, or grey 128 with the transparent option.
   */
  lemma MaskCropPixel(image: Grid<Rgb>, hsv: Grid<Hsv>, height: nat, width: nat, kinds: set<MaskKind>, bg: Option<Rgb>, r: nat, c: nat)
    requires IsGrid(image, height, width) && IsGrid(hsv, height, width)
    requires r < height && c < width
    requires MaskCropOf(image, hsv, height, width, kinds, bg).Some?
    ensures var crop := MaskCropOf(image, hsv, height, width, kinds, bg).value;
      && IsGrid(crop, height, width)
      && crop[r][c] == if exists k :: k in kinds && InRange(hsv[r][c], BoundOf(k)) then image[r][c]
                       else if bg.None? then Gray128 else bg.value
  {
  }

  /** The three check boxes in the order create_mask_crop appends them. */
  function SelectionOf(checks: Checks): (s: seq<MaskKind>)
    ensures s == [] <==> checks == Checks(false, false, false)
    ensures Healthy in s <==> checks.healthy
    ensures Disease1 in s <==> checks.mild
    ensures Disease2 in s <==> checks.severe
  {
    (if checks.healthy then [Healthy] else []) +
    (if checks.mild then [Disease1] else []) +
    (if checks.severe then [Disease2] else [])
  }

  /** The background radio buttons. */
  datatype BackgroundChoice = White | Black | Transparent

  /** White gives [255,255,255], black [0,0,0], transparent no colour. */
  function BackgroundOf(choice: BackgroundChoice): (bg: Option<Rgb>)
    ensures bg.None? <==> choice == Transparent
  {
    match choice
    case White => Some(Rgb(255, 255, 255))
    case Black => Some(Rgb(0, 0, 0))
    case Transparent => None
  }

  /** `max(lo, min(hi, v))`. */
  function Clamp(v: int, lo: int, hi: int): (r: int)
    requires lo <= hi
    ensures lo <= r <= hi
    ensures lo <= v <= hi ==> r == v
    ensures v < lo ==> r == lo
    ensures v > hi ==> r == hi
  {
    if v < lo then lo else if v > hi then hi else v
  }

  const ZoomMin: int := 25
  const ZoomMax: int := 300

  /** How create_mask_crop ended. */
  datatype CropOutcome = NoSelection | CropFailed | CropShown

  /** The viewer window on one image; `histogramSource` is the image the histogram tab last drew. */
  class AdvancedImageViewer {
    const currentImage: Grid<Rgb>
    const height: nat
    const width: nat
    var filteredImage: Option<Grid<Rgb>>
    var croppedImage: Option<Grid<Rgb>>
    var isComparing: bool
    var showingColorAnalysis: bool
    var zoom: int
    var tabIndex: int
    var displayed: Grid<Rgb>
    var histogramSource: Grid<Rgb>
    var compareText: string
    var compareEnabled: bool

    predicate Valid()
      reads this
    {
      ZoomMin <= zoom <= ZoomMax && 0 <= tabIndex < 2 && IsGrid(currentImage, height, width)
    }

    /** The image a comparison returns to: the crop if one was made, else the filtered image. */
    function Processed(): Option<Grid<Rgb>>
      reads this
    {
      if croppedImage.Some? then croppedImage else filteredImage
    }

    /** The button text while comparing: what pressing it again will show. */
    function EnterComparisonText(): string
      reads this
    {
      if croppedImage.Some? then "🎭 Ver Recorte" else if filteredImage.Some? then "🔄 Ver Filtrada" else "🔄 Ver Procesada"
    }

    /** The viewer opened on a loaded image: nothing filtered or cropped, not comparing, zoom 100, the image shown. */
    constructor (image: Grid<Rgb>, h: nat, w: nat)
      requires IsGrid(image, h, w)
      ensures Valid()
      ensures currentImage == image && height == h && width == w
      ensures filteredImage == None && croppedImage == None
      ensures !isComparing && !showingColorAnalysis && zoom == 100 && tabIndex == 0
      ensures displayed == image && histogramSource == image
      ensures compareText == "⚖️ Comparar Original" && !compareEnabled
    {
      currentImage := image;
      height := h;
      width := w;
      filteredImage := None;
      croppedImage := None;
      isComparing := false;
      showingColorAnalysis := false;
      zoom := 100;
      tabIndex := 0;
      displayed := image;
      histogramSource := image;
      compareText := "⚖️ Comparar Original";
      compareEnabled := false;
    }

    /** The user switches between the image tab (0) and the histogram tab (1). */
    method SelectTab(i: int)
      requires Valid() && 0 <= i < 2
      modifies this
      ensures Valid()
      ensures tabIndex == i
      ensures displayed == old(displayed) && histogramSource == old(histogramSource) && isComparing == old(isComparing)
      ensures filteredImage == old(filteredImage) && croppedImage == old(croppedImage) && zoom == old(zoom)
      ensures compareText == old(compareText) && compareEnabled == old(compareEnabled)
      ensures showingColorAnalysis == old(showingColorAnalysis)
    {
      tabIndex := i;
    }

    /** on_filter_applied: the filtered image is kept, shown, and comparison is enabled. */
    method OnFilterApplied(filtered: Grid<Rgb>)
      requires Valid()
      modifies this
      ensures Valid()
      ensures filteredImage == Some(filtered) && displayed == filtered && compareEnabled
      ensures histogramSource == if tabIndex == 1 then filtered else old(histogramSource)
      ensures croppedImage == old(croppedImage) && isComparing == old(isComparing) && compareText == old(compareText)
      ensures zoom == old(zoom) && tabIndex == old(tabIndex) && showingColorAnalysis == old(showingColorAnalysis)
    {
      filteredImage := Some(filtered);
      displayed := filtered;
      compareEnabled := true;
      if tabIndex == 1 {
        histogramSource := filtered;
      }
    }

    /** show_original: leaves both comparison modes and shows the original. */
    method ShowOriginal()
      requires Valid()
      modifies this
      ensures Valid()
      ensures !isComparing && !showingColorAnalysis
      ensures displayed == currentImage && compareText == "⚖️ Comparar Original"
      ensures histogramSource == if tabIndex == 1 then currentImage else old(histogramSource)
      ensures filteredImage == old(filteredImage) && croppedImage == old(croppedImage)
      ensures zoom == old(zoom) && tabIndex == old(tabIndex) && compareEnabled == old(compareEnabled)
    {
      isComparing := false;
      showingColorAnalysis := false;
      displayed := currentImage;
      compareText := "⚖️ Comparar Original";
      if tabIndex == 1 {
        histogramSource := currentImage;
      }
    }

    /**
     * toggle_comparison: flips `isComparing`. Entering shows the original;
     * leaving shows the crop in preference to the filtered image, or keeps
     * the current view when there is neither.
     */
    method ToggleComparison()
      requires Valid()
      modifies this
      ensures Valid()
      ensures isComparing == !old(isComparing)
      ensures !old(isComparing) ==> displayed == currentImage
      ensures !old(isComparing) ==> compareText == EnterComparisonText()
      ensures old(isComparing) ==> displayed == if Processed().Some? then Processed().value else old(displayed)
      ensures old(isComparing) ==> compareText == "⚖️ Ver Original"
      ensures histogramSource == (if tabIndex == 1 && (!old(isComparing) || Processed().Some?) then displayed else old(histogramSource))
      ensures filteredImage == old(filteredImage) && croppedImage == old(croppedImage)
      ensures showingColorAnalysis == old(showingColorAnalysis) && zoom == old(zoom) && tabIndex == old(tabIndex)
      ensures compareEnabled == old(compareEnabled)
    {
      if !isComparing {
        displayed := currentImage;
        if tabIndex == 1 {
          histogramSource := currentImage;
        }
        if croppedImage.Some? {
          compareText := "🎭 Ver Recorte";
        } else if filteredImage.Some? {
          compareText := "🔄 Ver Filtrada";
        } else {
          compareText := "🔄 Ver Procesada";
        }
        isComparing := true;
      } else {
        var processed := if croppedImage.Some? then croppedImage else filteredImage;
        if processed.Some? {
          displayed := processed.value;
          if tabIndex == 1 {
            histogramSource := processed.value;
          }
        }
        compareText := "⚖️ Ver Original";
        isComparing := false;
      }
    }

    /** change_zoom: the slider moves by `delta`, clamped to 25..300. */
    method ChangeZoom(delta: int)
      requires Valid()
      modifies this
      ensures Valid()
      ensures zoom == Clamp(old(zoom) + delta, ZoomMin, ZoomMax)
      ensures isComparing == old(isComparing) && displayed == old(displayed) && croppedImage == old(croppedImage)
      ensures filteredImage == old(filteredImage) && histogramSource == old(histogramSource) && tabIndex == old(tabIndex)
      ensures compareText == old(compareText) && compareEnabled == old(compareEnabled)
      ensures showingColorAnalysis == old(showingColorAnalysis)
    {
      zoom := Clamp(zoom + delta, ZoomMin, ZoomMax);
    }

    /**
     * create_mask_crop with `toHsv` standing for the RGB-to-BGR-to-HSV
     * conversion: no checked mask aborts; otherwise the crop of the
     * current image, when there is one, is shown and kept for comparison.
     */
    method CreateMaskCrop(checks: Checks, choice: BackgroundChoice, toHsv: Grid<Rgb> -> Grid<Hsv>) returns (outcome: CropOutcome)
      requires Valid()
      requires IsGrid(toHsv(currentImage), height, width)
      modifies this
      ensures Valid()
      ensures outcome == NoSelection <==> checks == Checks(false, false, false)
      ensures var crop := MaskCropOf(currentImage, toHsv(currentImage), height, width, KindsOf(SelectionOf(checks)), BackgroundOf(choice));
        && (outcome == CropShown <==> outcome != NoSelection && crop.Some?)
        && (outcome == CropShown ==>
              croppedImage == crop && displayed == crop.value && compareEnabled && compareText == "⚖️ Ver Original"
              && histogramSource == (if old(tabIndex) == 1 then crop.value else old(histogramSource)))
      ensures outcome != CropShown ==>
        croppedImage == old(croppedImage) && displayed == old(displayed) && compareText == old(compareText)
        && histogramSource == old(histogramSource) && compareEnabled == old(compareEnabled)
      ensures isComparing == old(isComparing) && filteredImage == old(filteredImage) && zoom == old(zoom)
      ensures tabIndex == old(tabIndex) && showingColorAnalysis == old(showingColorAnalysis)
    {
      var selected := SelectionOf(checks);
      if selected == [] {
        return NoSelection;
      }
      var bg := BackgroundOf(choice);
      var crop := ApplyMaskCrop(currentImage, toHsv(currentImage), height, width, selected, bg);
      if crop.None? {
        return CropFailed;
      }
      displayed := crop.value;
      if tabIndex == 1 {
        histogramSource := crop.value;
      }
      compareEnabled := true;
      compareText := "⚖️ Ver Original";
      croppedImage := crop;
      outcome := CropShown;
    }
  }
}
