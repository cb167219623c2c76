// The input checks of the training, prediction and class-selection forms,
// and the file-name checks applied to images and model weights.

module Validators {
  import opened Wrappers
  import opened PathNames

  // ---------------------------------------------------------------- training parameters

  /** The failure validate_training_params reports; only the first one found is returned. */
  datatype TrainingError = BadEpochs | BadImgsz | BadBatch

  function TrainingMessage(e: TrainingError): string {
    match e
    case BadEpochs => "Las épocas deben estar entre 1 y 1000"
    case BadImgsz => "El tamaño de imagen debe ser múltiplo de 32, entre 320 y 1280"
    case BadBatch => "El batch size debe estar entre 1 y 64"
  }

  predicate EpochsOk(epochs: int) { 1 <= epochs <= 1000 }
  predicate ImgszOk(imgsz: int) { 320 <= imgsz <= 1280 && imgsz % 32 == 0 }
  predicate BatchOk(batch: int) { 1 <= batch <= 64 }

  /**
   * validate_training_params: succeeds exactly when all three parameters
   * are in range, and otherwise names the first failing one in the order
   * epochs, image size, batch.
   */
  function ValidateTrainingParams(epochs: int, imgsz: int, batch: int): (r: Result<(), TrainingError>)
    ensures r.Ok? <==> EpochsOk(epochs) && ImgszOk(imgsz) && BatchOk(batch)
    ensures r == Err(BadEpochs) <==> !EpochsOk(epochs)
    ensures r == Err(BadImgsz) <==> EpochsOk(epochs) && !ImgszOk(imgsz)
    ensures r == Err(BadBatch) <==> EpochsOk(epochs) && ImgszOk(imgsz) && !BatchOk(batch)
  {
    if epochs < 1 || epochs > 1000 then Err(BadEpochs)
    else if imgsz < 320 || imgsz > 1280 || imgsz % 32 != 0 then Err(BadImgsz)
    else if batch < 1 || batch > 64 then Err(BadBatch)
    else Ok(())
  }

  /** The accepted image sizes are exactly the 31 multiples of 32 from 320 to 1280. */
  lemma ImgszValues(imgsz: int)
    ensures ImgszOk(imgsz) <==> exists k :: 10 <= k <= 40 && imgsz == 32 * k
  {
    if ImgszOk(imgsz) {
      var k := imgsz / 32;
      assert 10 <= k <= 40 && imgsz == 32 * k;
    }
  }

  /** A failing batch size never hides a bad epoch count: the reported error does not depend on later parameters. */
  lemma TrainingErrorsOrdered(epochs: int, imgsz: int, batch: int, imgsz2: int, batch2: int)
    ensures !EpochsOk(epochs) ==> ValidateTrainingParams(epochs, imgsz, batch) == ValidateTrainingParams(epochs, imgsz2, batch2)
    ensures EpochsOk(epochs) && !ImgszOk(imgsz) ==> ValidateTrainingParams(epochs, imgsz, batch) == ValidateTrainingParams(epochs, imgsz, batch2)
  {
  }

  /** The training defaults of the configuration (125 epochs, size 640, batch 16, confidence 0.25) pass both checks. */
  lemma DefaultConfigValid()
    ensures ValidateTrainingParams(125, 640, 16).Ok?
    ensures ValidatePredictionParams(0.25).Ok?
  {
  }

  // ---------------------------------------------------------------- prediction parameters

  datatype PredictionError = BadConfidence

  /** validate_prediction_params: the confidence must lie in [0.1, 1.0], both ends included. */
  function ValidatePredictionParams(conf: real): (r: Result<(), PredictionError>)
    ensures r.Ok? <==> 0.1 <= conf <= 1.0
  {
    if conf < 0.1 || conf > 1.0 then Err(BadConfidence) else Ok(())
  }

  // ---------------------------------------------------------------- class selection

  /** The CLASSES table of the configuration. */
  const Classes: map<int, string> := map[0 := "Root", 1 := "Stem", 2 := "healty_leaves", 3 := "rooten_leaf"]

  /** What an accepted selection means: no filter (detect everything), or the listed classes. */
  datatype Selection = AllClasses | OnlyClasses(ids: seq<int>)

  /**
   * validate_class_selection: an empty list means no filter; otherwise the
   * list is accepted when every id is a key of CLASSES, and rejected with
   * the set of unknown ids.
   */
  function ValidateClassSelection(selected: seq<int>): (r: Result<Selection, set<int>>)
    ensures selected == [] ==> r == Ok(AllClasses)
    ensures r.Ok? <==> forall i :: 0 <= i < |selected| ==> selected[i] in Classes
    ensures r.Err? ==> r.error != {} && forall c :: c in r.error <==> c in selected && c !in Classes
    ensures r.Ok? && selected != [] ==> r.value == OnlyClasses(selected)
  {
    if selected == [] then Ok(AllClasses)
    else
      var invalid := (set c | c in selected) - Classes.Keys;
      assert forall i :: 0 <= i < |selected| && selected[i] !in Classes ==> selected[i] in invalid;
      if invalid != {} then Err(invalid) else Ok(OnlyClasses(selected))
  }

  /** The verdict depends only on the set of ids: order and repetition do not matter. */
  lemma ClassSelectionIgnoresOrder(a: seq<int>, b: seq<int>)
    requires a != [] && b != []
    requires forall c :: c in a <==> c in b
    ensures ValidateClassSelection(a).Ok? == ValidateClassSelection(b).Ok?
    ensures ValidateClassSelection(a).Err? ==> ValidateClassSelection(a) == ValidateClassSelection(b)
  {
    var sa := set c | c in a;
    var sb := set c | c in b;
    assert forall x :: x in sa <==> x in sb;
    assert sa == sb;
  }

  // ---------------------------------------------------------------- file names

  const ImageSuffixes: set<string> := {".jpg", ".jpeg", ".png", ".bmp", ".tiff", ".tif"}

  /** validate_image_file for a file named `name` (its last path component): it exists and its lower-cased suffix is an image extension. */
  function ValidateImageFile(name: string, exists_: bool): (ok: bool)
    ensures ok ==> exists_ && Suffix(name) != ""
  {
    exists_ && Lower(Suffix(name)) in ImageSuffixes
  }

  /** validate_model_file: the weights file exists, has suffix exactly ".pt" and is not empty. */
  function ValidateModelFile(name: string, exists_: bool, size: nat): (ok: bool)
    ensures ok ==> exists_ && size > 0 && |Suffix(name)| == 3
  {
    exists_ && Suffix(name) == ".pt" && size > 0
  }

  /** An existing file "stem.EXT" is an accepted image exactly when EXT in lower case is one of the image extensions, whatever its case. */
  lemma ImageSuffixCaseInsensitive(stem: string, ext: string)
    requires stem != [] && 2 <= |ext| && ext[0] == '.' && '.' !in ext[1..]
    ensures ValidateImageFile(stem + ext, true) <==> Lower(ext) in ImageSuffixes
    ensures ValidateImageFile(stem + ext, true) == ValidateImageFile(stem + Lower(ext), true)
  {
    SuffixOfAppended(stem, ext);
    var low := Lower(ext);
    assert low[0] == '.';
    assert forall j :: 1 <= j < |low| ==> low[j] != '.';
    assert '.' !in low[1..] by {
      forall j | 0 <= j < |low[1..]| ensures low[1..][j] != '.' { assert low[1..][j] == low[j + 1]; }
    }
    SuffixOfAppended(stem, low);
    assert Lower(low) == low;
  }

  /** An existing file "stem.EXT" is an accepted model exactly when EXT is ".pt", in that case, and the file is not empty. */
  lemma ModelSuffixExact(stem: string, ext: string, size: nat)
    requires stem != [] && 2 <= |ext| && ext[0] == '.' && '.' !in ext[1..]
    ensures ValidateModelFile(stem + ext, true, size) <==> ext == ".pt" && size > 0
  {
    SuffixOfAppended(stem, ext);
  }

  /** The model check is case-sensitive: "best.PT" is refused where "best.pt" is accepted. */
  lemma ModelSuffixCaseSensitive()
    ensures ValidateModelFile("best.pt", true, 1)
    ensures !ValidateModelFile("best.PT", true, 1)
  {
    SuffixOfAppended("best", ".pt");
    SuffixOfAppended("best", ".PT");
    assert "best.pt" == "best" + ".pt" && "best.PT" == "best" + ".PT";
  }
}
