// The results tab: the page navigator of the training-metrics plots and the
// side-by-side comparison of the final metrics of two training runs.

module ResultsTab {
  import opened Wrappers
  import opened PathNames

  /** The four plots of the metrics widget, in page order. */
  datatype Graph = LossGraph | AccuracyGraph | PrecisionRecallGraph | LearningRateGraph

  const TotalGraphs: nat := 4

  function GraphAt(i: nat): Graph
    requires i < TotalGraphs
  {
    [LossGraph, AccuracyGraph, PrecisionRecallGraph, LearningRateGraph][i]
  }

  /** The page label, "Gráfica {index + 1} de {total}". */
  function GraphLabel(i: nat): (s: string)
    ensures |s| >= 5 && s[|s| - 5..] == " de 4"
  {
    "Gráfica " + DecimalString(i + 1) + " de " + DecimalString(TotalGraphs)
  }

  /**
   * The label is "Gráfica ", the one-based page number (reading it back gives
   * `i + 1`), then " de 4".
   */
  lemma GraphLabelNumber(i: nat)
    ensures var s := GraphLabel(i); var k := |DecimalString(i + 1)|;
      && |s| == |"Gráfica "| + k + |" de 4"|
      && s[..|"Gráfica "|] == "Gráfica " && ParseInt(s[|"Gráfica "|..|"Gráfica "| + k]) == Some(i + 1)
      && s[|"Gráfica "| + k..] == " de 4"
  {
    var s := GraphLabel(i);
    var k := |DecimalString(i + 1)|;
    assert DecimalString(TotalGraphs) == "4";
    assert s[|"Gráfica "|..|"Gráfica "| + k] == DecimalString(i + 1);
    DecimalStringRoundTrip(i + 1);
  }

  /**
   * The metrics widget. `drawn` is the plot last drawn; drawing happens only
   * once a results folder has been given.
   */
  class MetricsWidget {
    var currentResultsPath: Option<string>
    var graphIndex: int
    var prevEnabled: bool
    var nextEnabled: bool
    var graphLabel: string
    var drawn: Option<Graph>

    /** The index is a page and the buttons and label show it. */
    predicate Valid()
      reads this
    {
      && 0 <= graphIndex < TotalGraphs
      && prevEnabled == (graphIndex > 0)
      && nextEnabled == (graphIndex < TotalGraphs - 1)
      && graphLabel == GraphLabel(graphIndex)
    }

    /** A new widget: first page, "previous" disabled, "next" enabled, nothing drawn. */
    constructor ()
      ensures Valid()
      ensures graphIndex == 0 && currentResultsPath == None && drawn == None
    {
      currentResultsPath := None;
      graphIndex := 0;
      prevEnabled := false;
      nextEnabled := true;
      graphLabel := "Gráfica 1 de 4";
      drawn := None;
    }

    /** update_navigation_buttons: the buttons and label follow the index. */
    method UpdateNavigationButtons()
      requires 0 <= graphIndex < TotalGraphs
      modifies this
      ensures Valid()
      ensures graphIndex == old(graphIndex) && currentResultsPath == old(currentResultsPath) && drawn == old(drawn)
    {
      prevEnabled := graphIndex > 0;
      nextEnabled := graphIndex < TotalGraphs - 1;
      graphLabel := GraphLabel(graphIndex);
    }

    /** update_graph: with a results folder, the plot of the current page is drawn. */
    method UpdateGraph()
      requires 0 <= graphIndex < TotalGraphs
      modifies this
      ensures graphIndex == old(graphIndex) && currentResultsPath == old(currentResultsPath)
      ensures drawn == if currentResultsPath.Some? then Some(GraphAt(graphIndex)) else old(drawn)
      ensures prevEnabled == old(prevEnabled) && nextEnabled == old(nextEnabled) && graphLabel == old(graphLabel)
    {
      if currentResultsPath.None? {
        return;
      }
      drawn := Some(GraphAt(graphIndex));
    }

    /** show_previous_graph: one page back, nothing at the first page. */
    method ShowPreviousGraph()
      requires Valid()
      modifies this
      ensures Valid()
      ensures graphIndex == if old(graphIndex) > 0 then old(graphIndex) - 1 else old(graphIndex)
      ensures old(graphIndex) > 0 && currentResultsPath.Some? ==> drawn == Some(GraphAt(graphIndex))
      ensures old(graphIndex) == 0 || currentResultsPath.None? ==> drawn == old(drawn)
      ensures currentResultsPath == old(currentResultsPath)
    {
      if graphIndex > 0 {
        graphIndex := graphIndex - 1;
        UpdateGraph();
        UpdateNavigationButtons();
      }
    }

    /** show_next_graph: one page on, nothing at the last page. */
    method ShowNextGraph()
      requires Valid()
      modifies this
      ensures Valid()
      ensures graphIndex == if old(graphIndex) < TotalGraphs - 1 then old(graphIndex) + 1 else old(graphIndex)
      ensures old(graphIndex) < TotalGraphs - 1 && currentResultsPath.Some? ==> drawn == Some(GraphAt(graphIndex))
      ensures old(graphIndex) == TotalGraphs - 1 || currentResultsPath.None? ==> drawn == old(drawn)
      ensures currentResultsPath == old(currentResultsPath)
    {
      if graphIndex < TotalGraphs - 1 {
        graphIndex := graphIndex + 1;
        UpdateGraph();
        UpdateNavigationButtons();
      }
    }

    /** plot_training_metrics: a new results folder starts again at the loss plot. */
    method PlotTrainingMetrics(resultsPath: string)
      requires 0 <= graphIndex < TotalGraphs
      modifies this
      ensures Valid()
      ensures currentResultsPath == Some(resultsPath) && graphIndex == 0 && drawn == Some(LossGraph)
    {
      currentResultsPath := Some(resultsPath);
      graphIndex := 0;
      UpdateGraph();
      UpdateNavigationButtons();
    }
  }

  // ---------------------------------------------------------------------
  // Model comparison

  /** One row of results.csv, column name to value. */
  type Row = map<string, real>

  /** What reading a run's results.csv gives: no file, a file pandas cannot read, or its rows. */
  datatype CsvRead = Missing | Unreadable | Table(rows: seq<Row>)

  /** The data load_model_data keeps: the last row, absent for a table without rows, and the epoch count. */
  datatype ModelData = ModelData(finalMetrics: Option<Row>, epochs: nat)

  /** load_model_data. */
  function LoadModelData(csv: CsvRead): (d: Option<ModelData>)
    ensures d.None? <==> !csv.Table?
    ensures d.Some? ==> d.value.epochs == |csv.rows|
    ensures d.Some? ==> (d.value.finalMetrics.None? <==> csv.rows == [])
    ensures d.Some? && d.value.finalMetrics.Some? ==> d.value.finalMetrics.value == csv.rows[|csv.rows| - 1]
  {
    match csv
    case Missing => None
    case Unreadable => None
    case Table(rows) => Some(ModelData(if |rows| > 0 then Some(rows[|rows| - 1]) else None, |rows|))
  }

  /** The metrics compared, column name and caption, in output order. */
  const MetricsToCompare: seq<(string, string)> := [
    ("train/box_loss", "Pérdida de Caja"),
    ("train/cls_loss", "Pérdida de Clase"),
    ("metrics/mAP50", "mAP@0.5"),
    ("metrics/mAP50-95", "mAP@0.5:0.95"),
    ("metrics/precision", "Precisión"),
    ("metrics/recall", "Recall")]

  /** `sub in s` for strings. */
  predicate Contains(s: string, sub: string) {
    exists i :: 0 <= i <= |s| - |sub| && OccursAt(s, sub, i)
  }

  predicate OccursAt(s: string, sub: string, i: int) {
    0 <= i <= |s| - |sub| && s[i..i + |sub|] == sub
  }

  /** A string none of whose possible starting places holds the first character of `sub` does not contain `sub`. */
  lemma NotContains(s: string, sub: string)
    requires sub != [] && |sub| <= |s|
    requires sub[0] !in s[..|s| - |sub| + 1]
    ensures !Contains(s, sub)
  {
    forall i | 0 <= i <= |s| - |sub|
      ensures !OccursAt(s, sub, i)
    {
      assert s[i] == s[..|s| - |sub| + 1][i];
      assert s[i..i + |sub|][0] == s[i];
    }
  }

  /** The two loss columns are the ones whose name contains "loss". */
  lemma LossColumns()
    ensures Contains(MetricsToCompare[0].0, "loss") && Contains(MetricsToCompare[1].0, "loss")
    ensures forall i :: 2 <= i < |MetricsToCompare| ==> !Contains(MetricsToCompare[i].0, "loss")
  {
    assert OccursAt("train/box_loss", "loss", 10);
    assert OccursAt("train/cls_loss", "loss", 10);
    NotContains("metrics/mAP50", "loss");
    NotContains("metrics/mAP50-95", "loss");
    NotContains("metrics/precision", "loss");
    assert "metrics/recall"[..11] == "metrics/rec";
    NotContains("metrics/recall", "loss");
  }

  /** Model 1 is strictly better: lower for a loss column, higher otherwise. */
  predicate Model1Better(key: string, v1: real, v2: real) {
    if Contains(key, "loss") then v1 < v2 else v1 > v2
  }

  const Green: string := "🟢"
  const Red: string := "🔴"

  /**
   * The marks after the two values, computed as generate_comparison_text
   * does: exactly one model is green, model 1 exactly when strictly better,
   * so a tie goes to model 2.
   */
  function Marks(key: string, v1: real, v2: real): (m: (string, string))
    ensures (m.0 == Green) <==> Model1Better(key, v1, v2)
    ensures (m.1 == Green) <==> !Model1Better(key, v1, v2)
    ensures m.0 in {Green, Red} && m.1 in {Green, Red}
  {
    var loss := Contains(key, "loss");
    var better := if loss then (if v1 < v2 then Green else Red) else (if v1 > v2 then Green else Red);
    var mark1 := if (v1 > v2 && !loss) || (v1 < v2 && loss) then better else Red;
    var mark2 := if better == Red then Green else Red;
    (mark1, mark2)
  }

  /** Exactly one of the two marks is green, whatever the values. */
  lemma OneWinner(key: string, v1: real, v2: real)
    ensures (Marks(key, v1, v2).0 == Green) != (Marks(key, v1, v2).1 == Green)
    ensures v1 == v2 ==> Marks(key, v1, v2) == (Red, Green)
  {
  }

  function Repeat(c: char, n: nat): (s: string)
    ensures |s| == n && forall i :: 0 <= i < n ==> s[i] == c
  {
    seq(n, i => c)
  }

  /** Python's TypeError of `metric_key in None`. */
  datatype PyError = TypeError

  /**
   * The presence test as written: `metric_key in final_metrics` for both
   * runs, which raises when a run's final metrics are None.
   */
  function MetricPresentAsWritten(key: string, d1: ModelData, d2: ModelData): (r: Result<bool, PyError>)
    ensures r.Err? <==> d1.finalMetrics.None? || (key in d1.finalMetrics.value && d2.finalMetrics.None?)
  {
    if d1.finalMetrics.None? then Err(TypeError)
    else if key !in d1.finalMetrics.value then Ok(false)
    else if d2.finalMetrics.None? then Err(TypeError)
    else Ok(key in d2.finalMetrics.value)
  }

  /** A run whose results.csv has a header and no rows loads, and then every metric test raises. */
  lemma EmptyResultsCrash(d2: ModelData, key: string)
    ensures LoadModelData(Table([])) == Some(ModelData(None, 0))
    ensures MetricPresentAsWritten(key, LoadModelData(Table([])).value, d2).Err?
  {
  }

  /** The guarded presence test: a run without final metrics has no metric to compare. */
  function MetricPresent(key: string, d1: ModelData, d2: ModelData): (r: bool)
    ensures r <==> d1.finalMetrics.Some? && d2.finalMetrics.Some? && key in d1.finalMetrics.value && key in d2.finalMetrics.value
    ensures MetricPresentAsWritten(key, d1, d2).Ok? ==> r == MetricPresentAsWritten(key, d1, d2).value
  {
    d1.finalMetrics.Some? && d2.finalMetrics.Some? && key in d1.finalMetrics.value && key in d2.finalMetrics.value
  }

  /** The lines of one compared metric: caption, then each run's value and mark. */
  function MetricBlock(name1: string, name2: string, metric: (string, string), d1: ModelData, d2: ModelData, fmt: real -> string): (r: string)
    requires MetricPresent(metric.0, d1, d2)
    ensures metric.1 + ":\n" <= r
    ensures |r| >= 2 && r[|r| - 2..] == "\n\n"
  {
    var v1 := d1.finalMetrics.value[metric.0];
    var v2 := d2.finalMetrics.value[metric.0];
    var m := Marks(metric.0, v1, v2);
    metric.1 + ":\n"
    + "  " + name1 + ": " + fmt(v1) + " " + m.0 + "\n"
    + "  " + name2 + ": " + fmt(v2) + " " + m.1 + "\n\n"
  }

  /** The blocks of the metrics present in both runs, in list order. */
  function MetricsSection(name1: string, name2: string, metrics: seq<(string, string)>, d1: ModelData, d2: ModelData, fmt: real -> string): (r: string)
    ensures r == "" <==> forall i :: 0 <= i < |metrics| ==> !MetricPresent(metrics[i].0, d1, d2)
  {
    if metrics == [] then ""
    else
      var last := metrics[|metrics| - 1];
      MetricsSection(name1, name2, metrics[..|metrics| - 1], d1, d2, fmt)
      + (if MetricPresent(last.0, d1, d2) then MetricBlock(name1, name2, last, d1, d2, fmt) else "")
  }

  lemma MetricsSectionStep(name1: string, name2: string, metrics: seq<(string, string)>, i: nat, d1: ModelData, d2: ModelData, fmt: real -> string)
    requires i < |metrics|
    ensures MetricsSection(name1, name2, metrics[..i + 1], d1, d2, fmt)
      == MetricsSection(name1, name2, metrics[..i], d1, d2, fmt)
         + (if MetricPresent(metrics[i].0, d1, d2) then MetricBlock(name1, name2, metrics[i], d1, d2, fmt) else "")
  {
    assert metrics[..i + 1][..i] == metrics[..i];
  }

  /** A run without rows contributes no metric block at all. */
  lemma {:induction false} NoRowsNoMetrics(name1: string, name2: string, metrics: seq<(string, string)>, d1: ModelData, d2: ModelData, fmt: real -> string)
    requires d1.finalMetrics.None? || d2.finalMetrics.None?
    ensures MetricsSection(name1, name2, metrics, d1, d2, fmt) == ""
  {
    if metrics != [] {
      NoRowsNoMetrics(name1, name2, metrics[..|metrics| - 1], d1, d2, fmt);
    }
  }

  function Header(name1: string, name2: string): string {
    "COMPARACIÓN DE MODELOS\n" + Repeat('=', 50) + "\n\n"
    + "Modelo 1: " + name1 + "\n" + "Modelo 2: " + name2 + "\n\n"
  }

  const MetricsHeading: string := "MÉTRICAS FINALES:\n" + Repeat('-', 20) + "\n"

  const LoadErrorLine: string := "Error: No se pudieron cargar los datos de uno o ambos modelos.\n"

  function EpochsSection(name1: string, name2: string, d1: ModelData, d2: ModelData): string {
    "INFORMACIÓN ADICIONAL:\n" + Repeat('-', 25) + "\n" + "Épocas entrenadas:\n"
    + "  " + name1 + ": " + DecimalString(d1.epochs) + " épocas\n"
    + "  " + name2 + ": " + DecimalString(d2.epochs) + " épocas\n\n"
  }

  /**
   * The comparison report, `fmt` standing for the `:.4f` formatting: a load
   * error line when a run could not be loaded, else the metric blocks and
   * the epoch counts.
   */
  function ComparisonText(name1: string, data1: Option<ModelData>, name2: string, data2: Option<ModelData>, fmt: real -> string): (t: string)
    ensures data1.None? || data2.None? ==> t == Header(name1, name2) + LoadErrorLine
  {
    if data1.None? || data2.None? then Header(name1, name2) + LoadErrorLine
    else
      Header(name1, name2) + MetricsHeading
      + MetricsSection(name1, name2, MetricsToCompare, data1.value, data2.value, fmt)
      + EpochsSection(name1, name2, data1.value, data2.value)
  }

  /** generate_comparison_text, with the final-metrics guard: the report is built by appending, one metric at a time. */
  method GenerateComparisonText(name1: string, data1: Option<ModelData>, name2: string, data2: Option<ModelData>, fmt: real -> string)
    returns (text: string)
    ensures text == ComparisonText(name1, data1, name2, data2, fmt)
  {
    text := Header(name1, name2);
    if data1.None? || data2.None? {
      text := text + LoadErrorLine;
      return;
    }
    var d1, d2 := data1.value, data2.value;
    text := text + MetricsHeading;
    var section := "";
    var metrics := MetricsToCompare;
    for i := 0 to |metrics|
      invariant section == MetricsSection(name1, name2, metrics[..i], d1, d2, fmt)
    {
      MetricsSectionStep(name1, name2, metrics, i, d1, d2, fmt);
      if MetricPresent(metrics[i].0, d1, d2) {
        section := section + MetricBlock(name1, name2, metrics[i], d1, d2, fmt);
      }
    }
    assert metrics[..|metrics|] == metrics;
    text := text + section;
    text := text + EpochsSection(name1, name2, d1, d2);
  }

  /** The comparison widget: the report area. */
  class ComparisonWidget {
    var resultsText: string

    constructor ()
      ensures resultsText == ""
    {
      resultsText := "";
    }

    /**
     * compare_models, with `load` standing for reading a run's results.csv:
     * an empty name or twice the same run gives a warning and leaves the
     * report alone; otherwise the report compares the two runs.
     */
    method CompareModels(model1: string, model2: string, load: string -> CsvRead, fmt: real -> string) returns (warning: Option<string>)
      modifies this
      ensures warning == if model1 == "" || model2 == "" then Some("Seleccione dos modelos para comparar")
        else if model1 == model2 then Some("Seleccione dos modelos diferentes") else None
      ensures warning.Some? ==> resultsText == old(resultsText)
      ensures warning.None? ==>
        resultsText == ComparisonText(model1, LoadModelData(load(model1)), model2, LoadModelData(load(model2)), fmt)
    {
      if model1 == "" || model2 == "" {
        return Some("Seleccione dos modelos para comparar");
      }
      if model1 == model2 {
        return Some("Seleccione dos modelos diferentes");
      }
      var data1 := LoadModelData(load(model1));
      var data2 := LoadModelData(load(model2));
      resultsText := GenerateComparisonText(model1, data1, model2, data2, fmt);
      warning := None;
    }
  }
}
