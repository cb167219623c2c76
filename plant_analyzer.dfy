/**
 * The leaf-damage analyzer: classifies the pixels of a leaf crop into the
 * healthy, affected and severe states, turns the match counts into
 * percentages, paints the visualisation overlay, groups the crops of a run by
 * image number and detector category, and averages each group.
 */
module PlantAnalyzer {
  import opened Wrappers
  import opened Pixels
  import opened HsvRanges
  import opened PathNames

  /** The analyzer's own range table. */
  const AnalyzerRanges: RangeTable := RangeTable(
    Bound(Hsv(35, 50, 50), Hsv(85, 255, 255)),
    Bound(Hsv(20, 50, 50), Hsv(34, 255, 255)),
    Bound(Hsv(5, 30, 20), Hsv(19, 255, 200)))

  const Black: Bgr := Bgr(0, 0, 0)

  /** The overlay colour of each state (BGR). */
  function VisualizationColor(s: State): Bgr {
    match s
    case Sano => Bgr(0, 255, 0)
    case Afectado => Bgr(0, 255, 255)
    case Severo => Bgr(0, 0, 128)
  }

  /** The analyzer's ranges are pairwise disjoint: their hue intervals [35,85], [20,34] and [5,19] do not meet. */
  lemma AnalyzerRangesDisjoint()
    ensures Disjoint(AnalyzerRanges)
  {
    forall p: Hsv ensures !(InRange(p, AnalyzerRanges.sano) && InRange(p, AnalyzerRanges.afectado))
                       && !(InRange(p, AnalyzerRanges.sano) && InRange(p, AnalyzerRanges.severo))
                       && !(InRange(p, AnalyzerRanges.afectado) && InRange(p, AnalyzerRanges.severo))
    {
    }
  }

  // ---------------------------------------------------------------- percentages

  /** Matched-pixel counts per state (pixel_counts). */
  datatype Counts = Counts(sano: nat, afectado: nat, severo: nat) {
    function Total(): nat { sano + afectado + severo }
  }

  datatype Percentages = Percentages(sano: real, afectado: real, severo: real, afectacionTotal: real)

  const ZeroPercentages: Percentages := Percentages(0.0, 0.0, 0.0, 0.0)

  /** The share of `count` in `total`, in percent. */
  function Percent(count: nat, total: nat): real
    requires total > 0
  {
    (count as real / total as real) * 100.0
  }

  lemma PercentBounds(count: nat, total: nat)
    requires 0 < total && count <= total
    ensures 0.0 <= Percent(count, total) <= 100.0
  {
    assert count as real / total as real <= 1.0;
  }

  /**
   * The percentages of a classification: all zero when nothing matched;
   * otherwise each state's share of the matched pixels, the three adding up
   * to exactly 100, and the total affectation the affected plus the severe
   * share, which is what the healthy share leaves.
   */
  function PercentagesOf(c: Counts): (p: Percentages)
    ensures c.Total() == 0 ==> p == ZeroPercentages
    ensures c.Total() > 0 ==>
      && p.sano * c.Total() as real == 100.0 * c.sano as real
      && p.afectado * c.Total() as real == 100.0 * c.afectado as real
      && p.severo * c.Total() as real == 100.0 * c.severo as real
      && 0.0 <= p.sano <= 100.0 && 0.0 <= p.afectado <= 100.0 && 0.0 <= p.severo <= 100.0
      && p.sano + p.afectado + p.severo == 100.0
      && p.afectacionTotal == p.afectado + p.severo
      && p.afectacionTotal == 100.0 - p.sano
  {
    if c.Total() == 0 then ZeroPercentages
    else
      var t := c.Total();
      var p := Percentages(Percent(c.sano, t), Percent(c.afectado, t), Percent(c.severo, t),
                           Percent(c.afectado, t) + Percent(c.severo, t));
      PercentBounds(c.sano, t);
      PercentBounds(c.afectado, t);
      PercentBounds(c.severo, t);
      PercentsAddUp(c);
      p
  }

  lemma PercentsAddUp(c: Counts)
    requires c.Total() > 0
    ensures Percent(c.sano, c.Total()) + Percent(c.afectado, c.Total()) + Percent(c.severo, c.Total()) == 100.0
  {
    SharesAddUp(c.sano as real, c.afectado as real, c.severo as real, c.Total() as real);
  }

  /** Three parts of a positive whole, each taken as a share of it, make up one whole. */
  lemma SharesAddUp(a: real, b: real, d: real, t: real)
    requires t > 0.0 && a + b + d == t
    ensures (a / t) * 100.0 + (b / t) * 100.0 + (d / t) * 100.0 == 100.0
  {
    var x, y, z := a / t, b / t, d / t;
    assert x * t == a && y * t == b && z * t == d;
    assert (x + y + z) * t == x * t + y * t + z * t;
    CancelFactor(x + y + z, 1.0, t);
  }

  /** A positive factor common to both sides of an equation can be dropped. */
  lemma CancelFactor(u: real, v: real, t: real)
    requires t > 0.0 && u * t == v * t
    ensures u == v
  {
    assert (u - v) * t == u * t - v * t;
  }

  // ---------------------------------------------------------------- overlay

  /** The overlay colour of a pixel once the first `k` states, in table order, have painted their matches. */
  function PaintedUpTo(p: Hsv, t: RangeTable, k: nat): (c: Bgr)
    requires k <= |States|
    ensures c == Black || c == VisualizationColor(Sano) || c == VisualizationColor(Afectado) || c == VisualizationColor(Severo)
  {
    if k == 0 then Black
    else if InRange(p, RangeOf(t, States[k - 1])) then VisualizationColor(States[k - 1])
    else PaintedUpTo(p, t, k - 1)
  }

  lemma PaintStep(p: Hsv, t: RangeTable, k: nat)
    requires k < |States|
    ensures PaintedUpTo(p, t, k + 1) ==
      if InRange(p, RangeOf(t, States[k])) then VisualizationColor(States[k]) else PaintedUpTo(p, t, k)
  {
  }

  /** The overlay colour of a pixel after all three states have painted. */
  function OverlayColor(p: Hsv, t: RangeTable): (c: Bgr)
    ensures c == Black || c == VisualizationColor(Sano) || c == VisualizationColor(Afectado) || c == VisualizationColor(Severo)
  {
    PaintedUpTo(p, t, |States|)
  }

  /**
   * The last matching state in the order healthy, affected, severe wins the
   * overlay pixel; a pixel no range matches stays black.
   */
  lemma OverlayPrecedence(p: Hsv, t: RangeTable)
    ensures OverlayColor(p, t) ==
      if InRange(p, t.severo) then VisualizationColor(Severo)
      else if InRange(p, t.afectado) then VisualizationColor(Afectado)
      else if InRange(p, t.sano) then VisualizationColor(Sano)
      else Black
  {
    assert States == [Sano, Afectado, Severo];
    assert PaintedUpTo(p, t, 1) == if InRange(p, t.sano) then VisualizationColor(Sano) else Black;
    assert PaintedUpTo(p, t, 2) == if InRange(p, t.afectado) then VisualizationColor(Afectado) else PaintedUpTo(p, t, 1);
  }

  /** With the analyzer's disjoint ranges the overlay colour names the one state that matched. */
  lemma OverlayIdentifiesState(p: Hsv, s: State)
    ensures OverlayColor(p, AnalyzerRanges) == VisualizationColor(s) <==> InRange(p, RangeOf(AnalyzerRanges, s))
    ensures OverlayColor(p, AnalyzerRanges) == Black <==>
      !InRange(p, AnalyzerRanges.sano) && !InRange(p, AnalyzerRanges.afectado) && !InRange(p, AnalyzerRanges.severo)
  {
    OverlayPrecedence(p, AnalyzerRanges);
    AnalyzerRangesDisjoint();
  }

  /** np.zeros_like(img) then `overlay_mask[mask > 0] = color` for each state in table order. */
  method PaintOverlay(px: seq<Hsv>, t: RangeTable, masks: map<State, seq<bool>>) returns (overlay: seq<Bgr>)
    requires forall s :: s in masks && masks[s] == Mask(px, RangeOf(t, s))
    ensures |overlay| == |px|
    ensures forall i :: 0 <= i < |px| ==> overlay[i] == OverlayColor(px[i], t)
  {
    var a := new Bgr[|px|](_ => Black);
    for k := 0 to |States|
      invariant a.Length == |px|
      invariant forall i :: 0 <= i < a.Length ==> a[i] == PaintedUpTo(px[i], t, k)
    {
      var s := States[k];
      PaintState(a, px, t, k, masks[s]);
    }
    overlay := a[..];
  }

  /** `overlay_mask[mask > 0] = color` for the `k`-th state. */
  method PaintState(a: array<Bgr>, px: seq<Hsv>, t: RangeTable, k: nat, mask: seq<bool>)
    requires k < |States| && a.Length == |px| == |mask|
    requires forall i :: 0 <= i < |px| ==> (mask[i] <==> InRange(px[i], RangeOf(t, States[k])))
    requires forall i :: 0 <= i < a.Length ==> a[i] == PaintedUpTo(px[i], t, k)
    modifies a
    ensures forall i :: 0 <= i < a.Length ==> a[i] == PaintedUpTo(px[i], t, k + 1)
  {
    var color := VisualizationColor(States[k]);
    for i := 0 to a.Length
      invariant forall j :: 0 <= j < i ==> a[j] == PaintedUpTo(px[j], t, k + 1)
      invariant forall j :: i <= j < a.Length ==> a[j] == PaintedUpTo(px[j], t, k)
    {
      PaintStep(px[i], t, k);
      if mask[i] {
        a[i] := color;
      }
    }
  }

  // ---------------------------------------------------------------- one crop

  /** What analyze_leaf_damage returns for a readable image (the original image itself is left out). */
  datatype Analysis = Analysis(
    pct: Percentages,
    totalPixels: nat,
    pixelCounts: Option<Counts>,      // absent when no pixel matched
    masks: map<State, seq<bool>>,
    overlay: Option<seq<Bgr>>)        // absent when no pixel matched

  /** The masks of every state, keyed by state. */
  function MasksOf(px: seq<Hsv>, t: RangeTable): (m: map<State, seq<bool>>)
    ensures forall s :: s in m && m[s] == Mask(px, RangeOf(t, s))
  {
    var m := map s: State | s in {Sano, Afectado, Severo} :: Mask(px, RangeOf(t, s));
    forall s: State ensures s in m {
      if s.Sano? {} else if s.Afectado? {} else {}
    }
    m
  }

  function CountsOf(px: seq<Hsv>, t: RangeTable): (c: Counts)
    ensures c.sano <= |px| && c.afectado <= |px| && c.severo <= |px|
  {
    Counts(Matches(px, t.sano), Matches(px, t.afectado), Matches(px, t.severo))
  }

  /**
   * The analysis of one crop. `img` is the decoded crop already converted to
   * HSV, or None when the file could not be read: that yields None, never
   * zeroed statistics.
   */
  function Analyze(img: Option<seq<Hsv>>, t: RangeTable): (r: Option<Analysis>)
    ensures r.None? <==> img.None?
  {
    match img
    case None => None
    case Some(px) =>
      var c := CountsOf(px, t);
      if c.Total() == 0 then Some(Analysis(ZeroPercentages, 0, None, MasksOf(px, t), None))
      else Some(Analysis(PercentagesOf(c), c.Total(), Some(c), MasksOf(px, t),
                         Some(seq(|px|, i requires 0 <= i < |px| => OverlayColor(px[i], t)))))
  }

  /** Each state's mask has one entry per pixel, set exactly where the pixel lies in that state's range. */
  lemma AnalyzeMasks(px: seq<Hsv>, t: RangeTable, s: State, i: int)
    requires 0 <= i < |px|
    ensures var a := Analyze(Some(px), t).value;
      s in a.masks && |a.masks[s]| == |px| && (a.masks[s][i] <==> InRange(px[i], RangeOf(t, s)))
  {
  }

  /**
   * The matched total is the sum of the three counts. When it is zero, every
   * percentage is 0.0 and there are no counts and no overlay.
   */
  lemma AnalyzeNoMatch(px: seq<Hsv>, t: RangeTable)
    ensures var a := Analyze(Some(px), t).value;
      && a.totalPixels == Matches(px, t.sano) + Matches(px, t.afectado) + Matches(px, t.severo)
      && (a.totalPixels == 0 ==> a.pct == ZeroPercentages && a.pixelCounts.None? && a.overlay.None?)
  {
  }

  /**
   * When some pixel matched, the percentages are those of the match counts
   * (each its state's share of the matched pixels, see PercentagesOf): each
   * lies in [0,100], the three add up to 100, and the total
   * affectation is the affected plus the severe share, so 100 minus the
   * healthy share.
   */
  lemma AnalyzePercentages(px: seq<Hsv>, t: RangeTable)
    requires CountsOf(px, t).Total() > 0
    ensures var a := Analyze(Some(px), t).value;
      && a.pixelCounts == Some(CountsOf(px, t))
      && a.pct == PercentagesOf(CountsOf(px, t))
      && 0.0 <= a.pct.sano <= 100.0 && 0.0 <= a.pct.afectado <= 100.0 && 0.0 <= a.pct.severo <= 100.0
      && a.pct.sano + a.pct.afectado + a.pct.severo == 100.0
      && a.pct.afectacionTotal == a.pct.afectado + a.pct.severo
      && a.pct.afectacionTotal == 100.0 - a.pct.sano
  {
    var c := CountsOf(px, t);
    var a := Analyze(Some(px), t).value;
    assert a.pct == PercentagesOf(c) && a.totalPixels == c.Total();
    assert c.sano == Matches(px, t.sano) && c.afectado == Matches(px, t.afectado) && c.severo == Matches(px, t.severo);
  }

  /** When some pixel matched, the overlay has one pixel per image pixel, painted as OverlayColor says. */
  lemma AnalyzeOverlay(px: seq<Hsv>, t: RangeTable, i: int)
    requires CountsOf(px, t).Total() > 0 && 0 <= i < |px|
    ensures var a := Analyze(Some(px), t).value;
      a.overlay.Some? && |a.overlay.value| == |px| && a.overlay.value[i] == OverlayColor(px[i], t)
  {
  }

  /** analyze_leaf_damage: the per-state masks and counts are filled state by state, then the overlay is painted. */
  method AnalyzeLeafDamage(img: Option<seq<Hsv>>, t: RangeTable) returns (r: Option<Analysis>)
    ensures r == Analyze(img, t)
  {
    if img.None? {
      return None;
    }
    var px := img.value;
    var masks, c := ClassifyStates(px, t);
    if c.Total() == 0 {
      return Some(Analysis(ZeroPercentages, 0, None, masks, None));
    }
    var overlay := PaintOverlay(px, t, masks);
    assert overlay == seq(|px|, i requires 0 <= i < |px| => OverlayColor(px[i], t));
    r := Some(Analysis(PercentagesOf(c), c.Total(), Some(c), masks, Some(overlay)));
  }

  /** The loop over the range table that fills `masks` and `pixel_counts`. */
  method ClassifyStates(px: seq<Hsv>, t: RangeTable) returns (masks: map<State, seq<bool>>, c: Counts)
    ensures masks == MasksOf(px, t)
    ensures c == CountsOf(px, t)
  {
    masks := map[];
    var counts: map<State, nat> := map[];
    for k := 0 to |States|
      invariant masks.Keys == counts.Keys
      invariant forall j :: 0 <= j < k ==> States[j] in masks
      invariant forall s :: s in masks ==> masks[s] == Mask(px, RangeOf(t, s)) && counts[s] == Count(masks[s])
    {
      var s := States[k];
      var mask := Mask(px, RangeOf(t, s));
      masks := masks[s := mask];
      counts := counts[s := Count(mask)];
    }
    assert States[0] in masks && States[1] in masks && States[2] in masks;
    AllStatesMasks(masks, px, t);
    c := Counts(counts[Sano], counts[Afectado], counts[Severo]);
  }

  lemma AllStatesMasks(masks: map<State, seq<bool>>, px: seq<Hsv>, t: RangeTable)
    requires Sano in masks && Afectado in masks && Severo in masks
    requires forall s :: s in masks ==> masks[s] == Mask(px, RangeOf(t, s))
    ensures masks == MasksOf(px, t)
  {
    ghost var m := MasksOf(px, t);
    forall s: State ensures s in masks && masks[s] == m[s] {
      if s.Sano? {} else if s.Afectado? {} else {}
    }
    assert masks.Keys == m.Keys;
  }

  /** Under the analyzer's table no pixel is counted twice, so the matched total never exceeds the pixel count. */
  lemma TotalPixelsBounded(px: seq<Hsv>)
    ensures Analyze(Some(px), AnalyzerRanges).value.totalPixels <= |px|
  {
    AnalyzerRangesDisjoint();
    DisjointCountsBounded(px, AnalyzerRanges);
  }

  /**
   * A two-by-two crop holding one green, one yellow, one dark brown and one
   * black pixel: one pixel per state, three matched in all, a third each, and
   * two thirds affected.
   */
  lemma FourPixelScenario()
    ensures
      var a := Analyze(Some([Hsv(60, 200, 200), Hsv(25, 200, 200), Hsv(10, 100, 50), Hsv(0, 0, 0)]), AnalyzerRanges).value;
      && a.pixelCounts == Some(Counts(1, 1, 1)) && a.totalPixels == 3
      && a.pct.sano == a.pct.afectado == a.pct.severo == 100.0 / 3.0
      && a.pct.afectacionTotal == 200.0 / 3.0
  {
    var px := [Hsv(60, 200, 200), Hsv(25, 200, 200), Hsv(10, 100, 50), Hsv(0, 0, 0)];
    ScenarioCounts(px);
    assert Percent(1, 3) == 100.0 / 3.0;
  }

  lemma ScenarioCounts(px: seq<Hsv>)
    requires px == [Hsv(60, 200, 200), Hsv(25, 200, 200), Hsv(10, 100, 50), Hsv(0, 0, 0)]
    ensures CountsOf(px, AnalyzerRanges) == Counts(1, 1, 1)
  {
    var t := AnalyzerRanges;
    assert Mask(px, t.sano) == [true, false, false, false];
    assert Mask(px, t.afectado) == [false, true, false, false];
    assert Mask(px, t.severo) == [false, false, true, false];
    CountOneAt(4, 0);
    CountOneAt(4, 1);
    CountOneAt(4, 2);
    assert [true, false, false, false] == seq(4, i => i == 0);
    assert [false, true, false, false] == seq(4, i => i == 1);
    assert [false, false, true, false] == seq(4, i => i == 2);
  }

  /** A mask with exactly one set entry counts one. */
  lemma {:induction false} CountOneAt(n: nat, k: nat)
    requires k < n
    ensures Count(seq(n, i => i == k)) == 1
  {
    var m := seq(n, i => i == k);
    if k == 0 {
      assert m[1..] == seq(n - 1, i => false);
      assert Count(m[1..]) == 0;
    } else {
      CountOneAt(n - 1, k - 1);
      assert m[1..] == seq(n - 1, i => i == k - 1);
    }
  }

  /** A crop of only white or black pixels matches no range: zero percentages, not an unreadable image. */
  lemma WhiteAndBlackMatchNothing(px: seq<Hsv>)
    requires forall i :: 0 <= i < |px| ==> px[i] == Hsv(0, 0, 255) || px[i] == Hsv(0, 0, 0)
    ensures Analyze(Some(px), AnalyzerRanges).Some?
    ensures Analyze(Some(px), AnalyzerRanges).value.totalPixels == 0
    ensures Analyze(Some(px), AnalyzerRanges).value.pct == ZeroPercentages
  {
    var t := AnalyzerRanges;
    forall s: State ensures Matches(px, RangeOf(t, s)) == 0 {
      assert forall i :: 0 <= i < |px| ==> !Mask(px, RangeOf(t, s))[i];
    }
    assert RangeOf(t, Sano) == t.sano && RangeOf(t, Afectado) == t.afectado && RangeOf(t, Severo) == t.severo;
  }

  // ---------------------------------------------------------------- summary statistics

  /** The four percentage fields a summary averages. */
  datatype Field = FSano | FAfectado | FSevero | FAfectacionTotal

  function Get(p: Percentages, f: Field): real {
    match f
    case FSano => p.sano
    case FAfectado => p.afectado
    case FSevero => p.severo
    case FAfectacionTotal => p.afectacionTotal
  }

  /** `[r[f] for r in results_list]`. */
  function Column(rs: seq<Analysis>, f: Field): (col: seq<real>)
    ensures |col| == |rs|
    ensures forall i :: 0 <= i < |rs| ==> col[i] == Get(rs[i].pct, f)
  {
    seq(|rs|, i requires 0 <= i < |rs| => Get(rs[i].pct, f))
  }

  function Sum(xs: seq<real>): real {
    if xs == [] then 0.0 else Sum(xs[..|xs| - 1]) + xs[|xs| - 1]
  }

  /** np.mean of a non-empty list. */
  function Mean(xs: seq<real>): (m: real)
    requires |xs| > 0
    ensures m * |xs| as real == Sum(xs)
  {
    Sum(xs) / |xs| as real
  }

  /** A (image, category) summary: the mean of each percentage field and the number of samples. */
  datatype Summary = Summary(sano: real, afectado: real, severo: real, afectacionTotal: real, count: nat)

  function Summarize(rs: seq<Analysis>): (s: Summary)
    requires |rs| > 0
    ensures s.count == |rs|
    ensures s.sano * |rs| as real == Sum(Column(rs, FSano))
    ensures s.afectado * |rs| as real == Sum(Column(rs, FAfectado))
    ensures s.severo * |rs| as real == Sum(Column(rs, FSevero))
    ensures s.afectacionTotal * |rs| as real == Sum(Column(rs, FAfectacionTotal))
  {
    Summary(Mean(Column(rs, FSano)), Mean(Column(rs, FAfectado)), Mean(Column(rs, FSevero)),
            Mean(Column(rs, FAfectacionTotal)), |rs|)
  }

  /**
   * calculate_summary_statistics: every image number of the input keeps its
   * entry; within it, every category with at least one sample gets the
   * summary of its samples and an empty list is skipped.
   */
  function CalculateSummaryStatistics(results: map<int, map<string, seq<Analysis>>>): (summary: map<int, map<string, Summary>>)
    ensures summary.Keys == results.Keys
    ensures forall n :: n in summary ==>
      forall c :: c in summary[n] <==> c in results[n] && |results[n][c]| > 0
    ensures forall n, c :: n in summary && c in summary[n] ==>
      c in results[n] && |results[n][c]| > 0 && summary[n][c] == Summarize(results[n][c])
  {
    map n | n in results ::
      map c | c in results[n] && |results[n][c]| > 0 :: Summarize(results[n][c])
  }

  lemma {:induction false} SumBounds(xs: seq<real>, lo: real, hi: real)
    requires forall i :: 0 <= i < |xs| ==> lo <= xs[i] <= hi
    ensures lo * |xs| as real <= Sum(xs) <= hi * |xs| as real
  {
    if xs != [] {
      SumBounds(xs[..|xs| - 1], lo, hi);
    }
  }

  /** The mean of values within [lo, hi] lies within [lo, hi]. */
  lemma MeanWithin(xs: seq<real>, lo: real, hi: real)
    requires |xs| > 0
    requires forall i :: 0 <= i < |xs| ==> lo <= xs[i] <= hi
    ensures lo <= Mean(xs) <= hi
  {
    SumBounds(xs, lo, hi);
    var n := |xs| as real;
    var m := Mean(xs);
    assert m * n == Sum(xs);
  }

  /** The sum of a pointwise sum is the sum of the sums. */
  lemma {:induction false} SumPointwise(a: seq<real>, b: seq<real>, c: seq<real>)
    requires |a| == |b| == |c|
    requires forall i :: 0 <= i < |c| ==> c[i] == a[i] + b[i]
    ensures Sum(c) == Sum(a) + Sum(b)
  {
    if c != [] {
      SumPointwise(a[..|a| - 1], b[..|b| - 1], c[..|c| - 1]);
    }
  }

  lemma {:induction false} SumConstant(a: seq<real>, k: real)
    requires forall i :: 0 <= i < |a| ==> a[i] == k
    ensures Sum(a) == k * |a| as real
  {
    if a != [] {
      SumConstant(a[..|a| - 1], k);
    }
  }

  /** Every analysis, zero or not, has total affectation equal to affected plus severe. */
  lemma AnalysisAffectation(px: seq<Hsv>, t: RangeTable)
    ensures var p := Analyze(Some(px), t).value.pct; p.afectacionTotal == p.afectado + p.severo
  {
    AnalyzeNoMatch(px, t);
    if CountsOf(px, t).Total() > 0 {
      AnalyzePercentages(px, t);
    }
  }

  /** Averaging keeps total affectation equal to affected plus severe. */
  lemma SummaryAffectation(rs: seq<Analysis>)
    requires |rs| > 0
    requires forall i :: 0 <= i < |rs| ==> rs[i].pct.afectacionTotal == rs[i].pct.afectado + rs[i].pct.severo
    ensures Summarize(rs).afectacionTotal == Summarize(rs).afectado + Summarize(rs).severo
  {
    MeanOfPointwise(Column(rs, FAfectado), Column(rs, FSevero), Column(rs, FAfectacionTotal));
  }

  /** The mean of a pointwise sum is the sum of the means. */
  lemma MeanOfPointwise(a: seq<real>, b: seq<real>, c: seq<real>)
    requires |a| == |b| == |c| > 0
    requires forall i :: 0 <= i < |c| ==> c[i] == a[i] + b[i]
    ensures Mean(c) == Mean(a) + Mean(b)
  {
    SumPointwise(a, b, c);
    var n := |a| as real;
    assert (Mean(a) + Mean(b)) * n == Mean(a) * n + Mean(b) * n;
    CancelFactor(Mean(c), Mean(a) + Mean(b), n);
  }

  /** When every sample matched some pixel, the averaged healthy, affected and severe shares still add up to 100. */
  lemma SummaryClosure(rs: seq<Analysis>)
    requires |rs| > 0
    requires forall i :: 0 <= i < |rs| ==> rs[i].pct.sano + rs[i].pct.afectado + rs[i].pct.severo == 100.0
    ensures Summarize(rs).sano + Summarize(rs).afectado + Summarize(rs).severo == 100.0
  {
    MeansAddUp(Column(rs, FSano), Column(rs, FAfectado), Column(rs, FSevero), 100.0);
  }

  /** Columns that add up to `k` everywhere have means that add up to `k`. */
  lemma MeansAddUp(a: seq<real>, b: seq<real>, c: seq<real>, k: real)
    requires |a| == |b| == |c| > 0
    requires forall i :: 0 <= i < |a| ==> a[i] + b[i] + c[i] == k
    ensures Mean(a) + Mean(b) + Mean(c) == k
  {
    var ab := seq(|a|, i requires 0 <= i < |a| => a[i] + b[i]);
    var abc := seq(|a|, i requires 0 <= i < |a| => ab[i] + c[i]);
    SumPointwise(a, b, ab);
    SumPointwise(ab, c, abc);
    SumConstant(abc, k);
    var n := |a| as real;
    assert Sum(a) + Sum(b) + Sum(c) == k * n;
    assert Mean(a) * n + Mean(b) * n + Mean(c) * n == k * n;
    assert (Mean(a) + Mean(b) + Mean(c)) * n == Mean(a) * n + Mean(b) * n + Mean(c) * n;
    CancelFactor(Mean(a) + Mean(b) + Mean(c), k, n);
  }

  /** Three samples with total affectation 10, 20 and 30 under one key average to 20, with count 3. */
  lemma SummaryOfThree(rs: seq<Analysis>)
    requires |rs| == 3
    requires rs[0].pct.afectacionTotal == 10.0 && rs[1].pct.afectacionTotal == 20.0 && rs[2].pct.afectacionTotal == 30.0
    ensures Summarize(rs).afectacionTotal == 20.0 && Summarize(rs).count == 3
  {
    var col := Column(rs, FAfectacionTotal);
    assert col == [10.0, 20.0, 30.0];
    assert Sum([10.0]) == 10.0 by { assert [10.0][..0] == []; }
    assert Sum([10.0, 20.0]) == 30.0 by { assert [10.0, 20.0][..1] == [10.0]; }
    assert Sum(col) == 60.0 by { assert col[..2] == [10.0, 20.0]; }
  }

  // ---------------------------------------------------------------- the crops of a run

  /** One file found in a category sub-directory of the crops directory; `image` is its decoded HSV pixels, None if unreadable. */
  datatype CropFile = CropFile(category: string, name: string, image: Option<seq<Hsv>>)

  /** The suffixes analyze_crops_directory accepts, compared in lower case. */
  const CropSuffixes: set<string> := {".jpg", ".jpeg", ".png"}

  /** `int(image_file.stem[3:6])`, None where int() raises ValueError. */
  function ImageNumber(name: string): (r: Option<int>)
    ensures r.Some? ==> |Stem(name)| > 3
  {
    ParseInt(Slice(Stem(name), 3, 6))
  }

  /** The (image number, analysis) a file contributes, or None when it is skipped. */
  function SampleOf(f: CropFile, t: RangeTable): (r: Option<(int, Analysis)>)
    ensures r.Some? <==> Lower(Suffix(f.name)) in CropSuffixes && ImageNumber(f.name).Some? && f.image.Some?
    ensures r.Some? ==> r.value.0 == ImageNumber(f.name).value && Some(r.value.1) == Analyze(f.image, t)
  {
    if Lower(Suffix(f.name)) !in CropSuffixes then None
    else match ImageNumber(f.name)
      case None => None
      case Some(n) =>
        match Analyze(f.image, t)
        case None => None
        case Some(a) => Some((n, a))
  }

  /** The analyses, in walk order, of the files of category `c` whose image number is `n`. */
  function Grouped(files: seq<CropFile>, n: int, c: string, t: RangeTable): (g: seq<Analysis>)
    ensures |g| <= |files|
    ensures (forall i :: 0 <= i < |files| ==> files[i].category != c) ==> g == []
  {
    if files == [] then []
    else Grouped(files[..|files| - 1], n, c, t) + Contribution(files[|files| - 1], n, c, t)
  }

  /** What file `f` adds to the list of key (n, c): its analysis, or nothing. */
  function Contribution(f: CropFile, n: int, c: string, t: RangeTable): seq<Analysis> {
    var s := SampleOf(f, t);
    if f.category == c && s.Some? && s.value.0 == n then [s.value.1] else []
  }

  /** The list stored under (n, c), or [] when there is none. */
  function Lookup(results: map<int, map<string, seq<Analysis>>>, n: int, c: string): seq<Analysis> {
    if n in results && c in results[n] then results[n][c] else []
  }

  /** The results map holds exactly the non-empty groups of `files`: every stored list and dict is non-empty. */
  ghost predicate GroupsOf(results: map<int, map<string, seq<Analysis>>>, files: seq<CropFile>, t: RangeTable) {
    && (forall n, c :: Lookup(results, n, c) == Grouped(files, n, c, t))
    && (forall n, c :: n in results && c in results[n] ==> results[n][c] != [])
    && (forall n :: n in results ==> results[n] != map[])
  }

  /** `results[n][c].append(a)`, creating the inner dict and list as needed. */
  function AddSample(results: map<int, map<string, seq<Analysis>>>, c: string, s: Option<(int, Analysis)>): map<int, map<string, seq<Analysis>>> {
    match s
    case None => results
    case Some((n, a)) =>
      var inner := if n in results then results[n] else map[];
      results[n := inner[c := Lookup(results, n, c) + [a]]]
  }

  lemma AddSampleLookup(results: map<int, map<string, seq<Analysis>>>, f: CropFile, t: RangeTable, n: int, c: string)
    ensures Lookup(AddSample(results, f.category, SampleOf(f, t)), n, c) == Lookup(results, n, c) + Contribution(f, n, c, t)
    ensures var next := AddSample(results, f.category, SampleOf(f, t));
      n in next && c in next[n] ==> (n in results && c in results[n]) || Contribution(f, n, c, t) != []
    ensures var next := AddSample(results, f.category, SampleOf(f, t));
      n in next ==> (n in results && results[n].Keys <= next[n].Keys) || f.category in next[n]
  {
  }

  lemma GroupsStep(results: map<int, map<string, seq<Analysis>>>, files: seq<CropFile>, k: nat, t: RangeTable)
    requires k < |files|
    requires GroupsOf(results, files[..k], t)
    ensures GroupsOf(AddSample(results, files[k].category, SampleOf(files[k], t)), files[..k + 1], t)
  {
    var f := files[k];
    var next := AddSample(results, f.category, SampleOf(f, t));
    assert files[..k + 1][..k] == files[..k];
    assert files[..k + 1][k] == f;
    forall n, c
      ensures Lookup(next, n, c) == Grouped(files[..k + 1], n, c, t)
      ensures n in next && c in next[n] ==> next[n][c] != []
    {
      AddSampleLookup(results, f, t, n, c);
      assert Grouped(files[..k + 1], n, c, t) == Grouped(files[..k], n, c, t) + Contribution(f, n, c, t);
      if n in results && c in results[n] {
        assert Lookup(results, n, c) != [];
      }
    }
    forall n | n in next
      ensures next[n] != map[]
    {
      AddSampleLookup(results, f, t, n, f.category);
      if n in results {
        var c :| c in results[n];
      }
    }
  }

  /**
   * analyze_crops_directory over the files the directory walk yields, in that
   * order: each accepted, numbered and readable file is appended to the list
   * of its (image number, category) key. A key holds exactly the analyses of
   * its group, and appears only once it has one.
   */
  method AnalyzeCropsDirectory(files: seq<CropFile>, t: RangeTable) returns (results: map<int, map<string, seq<Analysis>>>)
    ensures forall n, c :: Lookup(results, n, c) == Grouped(files, n, c, t)
    ensures forall n, c :: n in results && c in results[n] ==> results[n][c] != []
    ensures forall n :: n in results ==> results[n] != map[]
  {
    results := map[];
    for k := 0 to |files|
      invariant GroupsOf(results, files[..k], t)
    {
      var f := files[k];
      GroupsStep(results, files, k, t);
      if Lower(Suffix(f.name)) !in CropSuffixes {
        continue;
      }
      var num := ImageNumber(f.name);
      if num.None? {
        continue;
      }
      var analysis := AnalyzeLeafDamage(f.image, t);
      if analysis.Some? {
        var n := num.value;
        var inner := if n in results then results[n] else map[];
        var list := if f.category in inner then inner[f.category] else [];
        results := results[n := inner[f.category := list + [analysis.value]]];
      }
    }
    assert files[..|files|] == files;
  }

  lemma {:induction false} ThreeDigitValue(d: string)
    requires |d| == 3 && IsDigit(d[0]) && IsDigit(d[1]) && IsDigit(d[2])
    ensures ParseInt(d) == Some(100 * (d[0] as int - '0' as int) + 10 * (d[1] as int - '0' as int) + (d[2] as int - '0' as int))
  {
    assert Strip(d) == d;
    assert WellFormedDigits(d);
    var one := d[..1];
    var two := d[..2];
    assert two[..1] == one && one[..0] == [];
    assert DigitsValue(one) == d[0] as int - '0' as int;
    assert DigitsValue(two) == 10 * DigitsValue(one) + (d[1] as int - '0' as int);
    assert DigitsValue(d) == 10 * DigitsValue(two) + (d[2] as int - '0' as int);
  }

  /** A stem "imgDDD..." whose characters 3 to 5 are digits names image DDD. */
  lemma ImageNumberOfDigits(name: string)
    requires |Stem(name)| >= 6
    requires IsDigit(Stem(name)[3]) && IsDigit(Stem(name)[4]) && IsDigit(Stem(name)[5])
    ensures var s := Stem(name);
      ImageNumber(name) == Some(100 * (s[3] as int - '0' as int) + 10 * (s[4] as int - '0' as int) + (s[5] as int - '0' as int))
  {
    var s := Stem(name);
    ThreeDigitValue(Slice(s, 3, 6));
  }

  /** A stem of at most three characters leaves nothing to parse: the file is skipped. */
  lemma ShortStemSkipped(name: string)
    requires |Stem(name)| <= 3
    ensures ImageNumber(name) == None
  {
  }
}
