# Bean-leaf damage analysis: a verified model of its core

This project is a Dafny model of the computational core of the AnalisisAfeccionFrijol desktop application. The application is a PyQt tool that detects bean leaves with YOLO and measures how damaged each leaf is. The model covers these parts:

- **The plant analyzer** (`PlantAnalyzer`).
  - Each HSV pixel is tested against the inclusive per-channel ranges of three states: *sano* (healthy), *afectado* (affected) and *severo* (severe).
  - The matches are counted and turned into percentages, and a BGR overlay is painted.
  - The per-crop results are grouped by (image number, detector category).
  - Each group's percentages are averaged into a summary with a sample count.
- **The range tables** (`HsvRanges`, and named constants in each module that uses one). The table is a parameter of the classifier. Each literal table in the application is its own constant: `AnalyzerRanges`, `AnalysisTab.ApplyMasksRanges`, `AnalysisTab.ColorAnalysisRanges` and `ImageViewer.ViewerRanges`.
- **The filter bank** (`FilterBank`).
  - Filter-name dispatch, with an error for an unknown name.
  - The default parameters, and even kernel sizes rounded up to odd.
  - abs and clip of edge responses, the integer Prewitt kernels, and the grey result copied into three channels.
  - The 256-bin histogram of each channel.
- **The input validators** (`Validators`): the training, prediction and class-selection parameters, and the suffix checks on image and model files.
- **The analysis tab** (`AnalysisTab`).
  - The severity bands and their distribution.
  - The row colours.
  - The mask crop of the zoom window: OR of the checked masks, the bounding box grown by a 20-pixel margin, and the background fill.
  - The precedence label map, its flat-colour fallback, and the zoom window's comparison toggle.
- **The advanced image viewer** (`ImageViewer`): the HSV mask crop with a chosen background, and the viewer's state (comparison toggle, show-original, zoom, the image shown and the histogram's source).
- **The results tab** (`ResultsTab`): the four-page metrics navigator, and the comparison of the final metrics of two training runs.

Dafny `real` models percentages and means, which is exact. Pixels are already-converted HSV or RGB triples. Images are grids (`seq<seq<T>>`). A buffer that the code changes in place is a Dafny array inside the method that fills it, and the method returns the final contents as a value. Calls into OpenCV, file reads and the text formatting of floats are parameters of the members that use them.

`PathNames` holds the pieces of pathlib and `str` the core relies on:

- the suffix and stem of a file name;
- ASCII lower-casing;
- `int()` of a short string;
- `str()` of a natural number.

## Model

| member | source | states |
|---|---|---|
| HsvRanges.MaskGrid | UI/gui/analysis_tab.py:409-411 | cv2.inRange on an image: the mask has the image's shape, and an entry is set iff every channel of that pixel lies in the inclusive bounds |
| HsvRanges.DisjointCountsBounded | UI/utils/plant_analyzer.py:63-69 | under a table whose ranges are pairwise disjoint, the three match counts add up to at most the number of pixels |
| Pixels.Count | UI/utils/plant_analyzer.py:66 | countNonZero: at most the mask length, and zero iff no entry is set |
| PlantAnalyzer.AnalyzerRangesDisjoint | UI/utils/plant_analyzer.py:15-31 | the analyzer's ranges are pairwise disjoint (hues [35,85], [20,34], [5,19]) |
| PlantAnalyzer.PercentBounds | UI/utils/plant_analyzer.py:84-85 | a percentage 100·count/total with count ≤ total lies in [0,100] |
| PlantAnalyzer.PercentagesOf | UI/utils/plant_analyzer.py:71-88 | zero matched pixels give all four fields 0.0; otherwise each field is 100·count/total and afectacion_total is afectado + severo |
| PlantAnalyzer.PercentsAddUp | UI/utils/plant_analyzer.py:83-85 | when some pixel matched, the three percentages sum to exactly 100 |
| PlantAnalyzer.SharesAddUp | UI/utils/plant_analyzer.py:83-85 | three parts that make up a positive whole, each taken as a percentage of it, sum to 100 |
| PlantAnalyzer.PaintStep | UI/utils/plant_analyzer.py:91-94 | painting the next state's matches changes a pixel's overlay colour to that state's colour iff the pixel matches it |
| PlantAnalyzer.OverlayPrecedence | UI/utils/plant_analyzer.py:91-94 | the overlay colour is the colour of the last matching state in the order sano, afectado, severo, and black when none matches |
| PlantAnalyzer.OverlayIdentifiesState | UI/utils/plant_analyzer.py:15-38 | under the analyzer's table a pixel's overlay colour is a state's colour iff it lies in that state's range, and black iff it matches none |
| PlantAnalyzer.PaintOverlay | UI/utils/plant_analyzer.py:91-94 | the overlay, filled in place state by state, has one entry per pixel, equal to OverlayColor |
| PlantAnalyzer.PaintState | UI/utils/plant_analyzer.py:92-94 | `overlay_mask[mask > 0] = color` for one state moves every pixel from the first k states' colour to the first k+1 states' colour |
| PlantAnalyzer.MasksOf | UI/utils/plant_analyzer.py:60-65 | every state has a mask, namely cv2.inRange with that state's bounds |
| PlantAnalyzer.CountsOf | UI/utils/plant_analyzer.py:60-66 | the countNonZero of each state's mask, each at most the number of pixels |
| PlantAnalyzer.PaintedUpTo | UI/utils/plant_analyzer.py:90-94 | after any number of paint steps the overlay pixel is black or one of the three state colours |
| PlantAnalyzer.OverlayColor | UI/utils/plant_analyzer.py:90-94 | the final overlay pixel is black or one of the three state colours |
| PlantAnalyzer.Analyze | UI/utils/plant_analyzer.py:50-110 | an unreadable image gives None, not zero statistics, and a readable one always gives a result |
| PlantAnalyzer.AnalyzeMasks | UI/utils/plant_analyzer.py:63-65 | each state's mask has one entry per pixel, set exactly where the pixel lies in the state's range |
| PlantAnalyzer.AnalyzeNoMatch | UI/utils/plant_analyzer.py:71-80 | total_pixels is the sum of the three match counts; when it is 0, all four percentages are 0.0 and there are no counts and no overlay |
| PlantAnalyzer.AnalyzePercentages | UI/utils/plant_analyzer.py:82-102 | when some pixel matched, the result holds the counts, total_pixels is their sum, each percentage lies in [0,100], the three sum to 100, and afectacion_total = afectado + severo = 100 − sano |
| PlantAnalyzer.AnalyzeOverlay | UI/utils/plant_analyzer.py:90-104 | when some pixel matched, the overlay has one pixel per image pixel, each painted as OverlayColor says |
| PlantAnalyzer.AnalyzeLeafDamage | UI/utils/plant_analyzer.py:40-110 | the loop that fills the masks and counts, followed by the in-place overlay, returns exactly Analyze |
| PlantAnalyzer.ClassifyStates | UI/utils/plant_analyzer.py:60-66 | the loop over the range table fills the masks and counts of all three states |
| PlantAnalyzer.AllStatesMasks | UI/utils/plant_analyzer.py:60-65 | a mask map with every state, each equal to that state's inRange mask, is MasksOf |
| PlantAnalyzer.TotalPixelsBounded | UI/utils/plant_analyzer.py:69 | under the analyzer's table no pixel is counted twice, so total_pixels ≤ the number of pixels |
| PlantAnalyzer.FourPixelScenario | UI/utils/plant_analyzer.py:82-88 | green, yellow, dark-brown and black pixels give one count per state, a total of 3, a third each, and two thirds affected |
| PlantAnalyzer.ScenarioCounts | UI/utils/plant_analyzer.py:63-66 | the counts of that four-pixel image are 1, 1, 1 |
| PlantAnalyzer.CountOneAt | UI/utils/plant_analyzer.py:66 | a mask with exactly one set entry counts one |
| PlantAnalyzer.WhiteAndBlackMatchNothing | UI/utils/plant_analyzer.py:71-80 | a crop of only white or black pixels is readable, matches nothing, and gives zero percentages |
| PlantAnalyzer.Column | UI/utils/plant_analyzer.py:181-184 | `[r[f] for r in results_list]` has one entry per result, equal to that result's field |
| PlantAnalyzer.Mean | UI/utils/plant_analyzer.py:181-184 | the mean of a non-empty list times its length is its sum |
| PlantAnalyzer.Summarize | UI/utils/plant_analyzer.py:180-192 | each of the four summary fields is the mean of that field over the group, and count is the group size |
| PlantAnalyzer.CalculateSummaryStatistics | UI/utils/plant_analyzer.py:171-194 | the summary has the same image numbers, keeps exactly the categories with a non-empty list, and summarises each of them |
| PlantAnalyzer.SumBounds | UI/utils/plant_analyzer.py:181-184 | values within [lo, hi] have a sum within [lo·n, hi·n] |
| PlantAnalyzer.MeanWithin | UI/utils/plant_analyzer.py:181-184 | the mean of values within [lo, hi] lies within [lo, hi], so averaged percentages stay within [0,100] |
| PlantAnalyzer.SumPointwise | UI/utils/plant_analyzer.py:181-184 | the sum of a pointwise sum is the sum of the sums |
| PlantAnalyzer.SumConstant | UI/utils/plant_analyzer.py:181-184 | a list of n copies of k sums to k·n |
| PlantAnalyzer.AnalysisAffectation | UI/utils/plant_analyzer.py:71-88 | every analysis, zero or not, has afectacion_total = afectado + severo |
| PlantAnalyzer.SummaryAffectation | UI/utils/plant_analyzer.py:181-184 | averaging keeps afectacion_total = afectado + severo |
| PlantAnalyzer.SummaryClosure | UI/utils/plant_analyzer.py:181-183 | when every sample's three shares sum to 100, the averaged shares also sum to 100 |
| PlantAnalyzer.MeansAddUp | UI/utils/plant_analyzer.py:181-183 | columns that add up to k on every row have means that add up to k |
| PlantAnalyzer.MeanOfPointwise | UI/utils/plant_analyzer.py:181-184 | the mean of a column that is the row-wise sum of two others is the sum of their means |
| PlantAnalyzer.SummaryOfThree | UI/utils/plant_analyzer.py:184-191 | three samples with afectacion_total 10, 20 and 30 average to 20, with count 3 |
| PlantAnalyzer.AddSampleLookup | UI/utils/plant_analyzer.py:149-157 | adding one file appends its analysis to the list of its own (image, category) key only; a key present afterwards was present before or received this file |
| PlantAnalyzer.GroupsStep | UI/utils/plant_analyzer.py:136-157 | processing one more file keeps the results equal to the grouping of the files seen so far |
| PlantAnalyzer.AnalyzeCropsDirectory | UI/utils/plant_analyzer.py:112-159 | the list under each (image number, category) holds, in walk order, the analyses of exactly that category's files with an accepted suffix, a parsable number and a readable image; no stored list or dict is empty |
| PlantAnalyzer.ImageNumber | UI/utils/plant_analyzer.py:141-145 | `int(stem[3:6])`: a number is found only when the stem is longer than three characters |
| PlantAnalyzer.SampleOf | UI/utils/plant_analyzer.py:136-150 | a file contributes exactly when its lower-cased suffix is .jpg, .jpeg or .png, its image number parses and the image reads; it contributes that number and its Analyze result |
| PlantAnalyzer.Grouped | UI/utils/plant_analyzer.py:131-157 | the list of one (number, category) key holds at most one analysis per file, and is empty when no file has that category |
| PlantAnalyzer.ThreeDigitValue | UI/utils/plant_analyzer.py:143 | int() of three digits is their decimal value |
| PlantAnalyzer.ImageNumberOfDigits | UI/utils/plant_analyzer.py:143 | a stem whose characters 3 to 5 are digits names the image with that three-digit number |
| PlantAnalyzer.ShortStemSkipped | UI/utils/plant_analyzer.py:141-145 | a stem of at most three characters gives an empty slice, int() raises, and the file is skipped |
| PathNames.RFindDot | UI/utils/plant_analyzer.py:137 | the index of the last dot, or -1 when there is none |
| PathNames.Suffix | UI/utils/plant_analyzer.py:137 | PurePath.suffix: empty, or a dot followed by at least one character, and shorter than the name |
| PathNames.Stem | UI/utils/plant_analyzer.py:143 | PurePath.stem: a prefix of the name, non-empty whenever the name is |
| PathNames.ParseInt | UI/utils/plant_analyzer.py:143 | int(): succeeds only on a string with something besides whitespace, and a negative result comes from a leading minus sign; DecimalStringRoundTrip gives int(str(n)) == n |
| PathNames.StemSuffixSplit | UI/utils/plant_analyzer.py:137-143 | stem + suffix is the name, and a suffix is empty or a dot followed by at least one dot-free character |
| PathNames.SuffixOfAppended | UI/utils/validators.py:121-128 | a non-empty stem followed by a one-dot extension has that extension as suffix and that stem as stem |
| PathNames.Lower | UI/utils/validators.py:128 | str.lower keeps the length and lower-cases each ASCII letter |
| PathNames.Strip | UI/utils/plant_analyzer.py:143 | str.strip: no longer than its input, and neither end of a non-empty result is whitespace |
| PathNames.StripIsSlice | UI/utils/plant_analyzer.py:143 | str.strip returns a slice s[i..j] of its input with only whitespace before i and from j on; with Strip's own ensures this pins the result down completely |
| PathNames.DecimalString | UI/gui/results_tab.py:213 | str(n): non-empty, only digits, and no leading zero for n > 0 |
| PathNames.DecimalStringRoundTrip | UI/gui/results_tab.py:213 | int(str(n)) == n for every natural n |
| PathNames.DigitsOfDecimalString | UI/gui/results_tab.py:213 | the digit value of str(n) is n |
| FilterBank.GetParametrosFiltro | UI/filtros_procesamiento.py:24-62 | the defaults of a known filter, and the empty dict exactly for an unknown name |
| FilterBank.OddKernel | UI/filtros_procesamiento.py:74-76 | the kernel size used is odd, an odd size is kept, and an even k becomes k+1 |
| FilterBank.DireccionOf | UI/filtros_procesamiento.py:137-149 | 'x' selects X, 'y' selects Y, and anything else, or no entry, selects both |
| FilterBank.ClipToByte | UI/filtros_procesamiento.py:124 | clip to [0,255] then truncate to uint8: 0 below, 255 above, the integer part in between |
| FilterBank.MapGrid | UI/filtros_procesamiento.py:123-124 | an element-wise operation keeps the shape and applies f to each entry |
| FilterBank.GrayToBgr | UI/filtros_procesamiento.py:127-128 | GRAY2BGR copies each grey value into all three channels |
| FilterBank.PrewittKernels | UI/filtros_procesamiento.py:177-183 | every x-kernel row is [-1,0,1], the y-kernel is its transpose, and each x row sums to 0 |
| FilterBank.AplicarFiltro | UI/filtros_procesamiento.py:33-54 | an unknown name gives UnknownFilter; with OpenCV's primitives taken as total, a known name fails only on an ill-typed parameter |
| FilterBank.Defaults | UI/filtros_procesamiento.py:24-31 | the defaults table: empty exactly for an unknown name; the three blurs get kernel size 5 and Gaussiano sigma 1.0 |
| FilterBank.KernelSize | UI/filtros_procesamiento.py:71 | `params.get('kernel_size', 5)`: 5 when absent, and an error exactly when the value given is not an integer |
| FilterBank.Sigma | UI/filtros_procesamiento.py:72 | `params.get('sigma', 1.0)`: 1.0 when absent, an integer taken as its real value, and an error exactly for a string |
| FilterBank.Gaussiano | UI/filtros_procesamiento.py:66-78 | fails exactly when the kernel size or sigma is ill-typed, naming that key; with neither given it is GaussianBlur with kernel 5 and sigma 1.0 |
| FilterBank.Media | UI/filtros_procesamiento.py:80-91 | fails exactly when the kernel size is ill-typed; with none given it is blur with kernel 5 |
| FilterBank.Mediana | UI/filtros_procesamiento.py:93-104 | fails exactly when the kernel size is ill-typed; with none given it is medianBlur with kernel 5 |
| FilterBank.Laplaciano | UI/filtros_procesamiento.py:108-130 | the result is a colour image exactly when the input is one (converted back with GRAY2BGR) |
| FilterBank.Sobel | UI/filtros_procesamiento.py:132-161 | the result is a colour image exactly when the input is one |
| FilterBank.Prewitt | UI/filtros_procesamiento.py:163-202 | the result is a colour image exactly when the input is one |
| FilterBank.DefaultsFallback | UI/filtros_procesamiento.py:49-51 | with no parameters a known filter succeeds, and the result equals the one with its defaults |
| FilterBank.EvenKernelBumped | UI/filtros_procesamiento.py:75-102 | Gaussiano, Media and Mediana give the same image for an even kernel size k and for k+1 |
| FilterBank.LaplacianIgnoresParams | UI/filtros_procesamiento.py:108-130 | Laplaciano never reads its parameters: it is clip(abs(L)) of the grey image, in the input's shape |
| FilterBank.AbsClipSignSymmetric | UI/filtros_procesamiento.py:195-196 | abs then clip gives the same image for a response and its negation |
| FilterBank.PrewittSignSymmetric | UI/filtros_procesamiento.py:195-196 | a Prewitt output pixel is the same for a response and its negation, and is the integer part of the absolute value, or 255 |
| FilterBank.SobelDropsNegatives | UI/filtros_procesamiento.py:155 | Sobel's plain clip turns a non-positive gradient into 0, where abs then clip would keep its magnitude |
| FilterBank.EdgeFilterShape | UI/filtros_procesamiento.py:127-202 | the edge filters always succeed; a 3-channel input gives a 3-channel output with equal channels, and a grey input gives a grey output |
| FilterBank.Bins | UI/filtros_procesamiento.py:212-218 | a histogram has 256 bins |
| FilterBank.SumIncrement | UI/filtros_procesamiento.py:212-218 | counting one more value adds one to the total of the bins |
| FilterBank.BinsTotal | UI/filtros_procesamiento.py:212-218 | the bins add up to the number of values |
| FilterBank.ZeroSum | UI/filtros_procesamiento.py:212-218 | all-zero bins add up to 0 |
| FilterBank.Histogram | UI/filtros_procesamiento.py:212-219 | the array of 256 counters, incremented once per value, has in bin v the number of values equal to v, and sums to the pixel count |
| FilterBank.CalcularHistogramaRgb | UI/filtros_procesamiento.py:204-220 | a colour image gives the B, G and R channel histograms; a grey image gives its histogram three times |
| Validators.ValidateTrainingParams | UI/utils/validators.py:172-183 | success iff 1 ≤ epochs ≤ 1000, 320 ≤ imgsz ≤ 1280 with imgsz a multiple of 32, and 1 ≤ batch ≤ 64; otherwise the error names the first failing check |
| Validators.ImgszValues | UI/utils/validators.py:177 | the accepted image sizes are exactly 32·k for k in 10..40 |
| Validators.TrainingErrorsOrdered | UI/utils/validators.py:174-181 | a bad epoch count is reported whatever imgsz and batch are, and a bad imgsz whatever batch is |
| Validators.DefaultConfigValid | UI/utils/validators.py:172-191 | the default training values 125/640/16 and the default confidence 0.25 are accepted |
| Validators.ValidatePredictionParams | UI/utils/validators.py:186-191 | success iff 0.1 ≤ conf ≤ 1.0, both ends inclusive |
| Validators.ValidateClassSelection | UI/utils/validators.py:194-205 | an empty list means all classes; otherwise success iff every id is a CLASSES key, and the error carries exactly the non-empty set of invalid ids |
| Validators.ClassSelectionIgnoresOrder | UI/utils/validators.py:199-203 | two non-empty selections with the same elements get the same verdict and the same invalid set |
| Validators.ValidateImageFile | UI/utils/validators.py:124-128 | an accepted image file exists and has a non-empty suffix |
| Validators.ValidateModelFile | UI/utils/validators.py:118-121 | an accepted model file exists, is non-empty and has a three-character suffix (the exact test is ModelSuffixExact) |
| Validators.ModelSuffixExact | UI/utils/validators.py:121 | an existing file "stem.EXT" is accepted exactly when EXT is ".pt", case included, and the file is not empty |
| Validators.ImageSuffixCaseInsensitive | UI/utils/validators.py:127-128 | an existing file is accepted iff its lower-cased extension is one of .jpg .jpeg .png .bmp .tiff .tif, whatever the extension's case |
| Validators.ModelSuffixCaseSensitive | UI/utils/validators.py:121 | "best.pt" is accepted and "best.PT" is refused |
| MaskOps.EmptyMask | UI/gui/analysis_tab.py:414 | np.zeros_like: the right shape with no entry set |
| MaskOps.OrGrid | UI/gui/analysis_tab.py:416-423 | bitwise_or keeps the shape and sets an entry iff either mask sets it |
| MaskOps.NotGrid | UI/gui/advanced_image_viewer.py:928 | `mask == 0` keeps the shape and sets an entry iff the mask does not |
| MaskOps.ArrayOf | UI/gui/advanced_image_viewer.py:927 | image.copy(): a new array holding the grid |
| MaskOps.PaintWhere | UI/gui/advanced_image_viewer.py:928 | `a[m] = v` in place: the masked entries become v and the others keep their old value |
| MaskOps.CopyWhere | UI/gui/analysis_tab.py:455 | `a[m] = src[m]` in place: the masked entries come from src and the others keep their old value |
| AnalysisTab.ApplyMasksRangesOverlap | UI/gui/analysis_tab.py:397-406 | in the zoom window's table the mild and severe ranges share the pixel (15,40,40) |
| AnalysisTab.ColorAnalysisRangesOverlap | UI/gui/analysis_tab.py:1781-1790 | the colour-analysis table is not disjoint: healthy overlaps mild and mild overlaps severe |
| AnalysisTab.BandOf | UI/gui/analysis_tab.py:1042-1049 | every afectacion_total value lies in exactly one of the bands <10, [10,30), [30,70), ≥70 |
| AnalysisTab.CountIn | UI/gui/analysis_tab.py:1041-1048 | the number of samples in a band is at most the number of samples |
| AnalysisTab.BandCountsPartition | UI/gui/analysis_tab.py:1040-1049 | the four band counts add up to the number of samples |
| AnalysisTab.DistributionOf | UI/gui/analysis_tab.py:1004-1049 | an empty sample list gives no distribution; otherwise the total is the list length and each band count is the number of samples in that band |
| AnalysisTab.DistributionSharesAddUp | UI/gui/analysis_tab.py:1051-1054 | the four band percentages count/total·100 sum to 100 |
| AnalysisTab.SharesAddUp | UI/gui/analysis_tab.py:1051-1054 | four counts that add up to the total have shares that add up to 100 |
| AnalysisTab.ShareScale | UI/gui/analysis_tab.py:1051 | count/total·100 equals count·(100/total) |
| AnalysisTab.RowColourOf | UI/gui/analysis_tab.py:986-992 | light red iff afectacion > 70, light orange iff 30 < afectacion ≤ 70, light green iff afectacion ≤ 30 |
| AnalysisTab.RowColourVersusBands | UI/gui/analysis_tab.py:986-1049 | away from 30 and 70 the row colour follows the bands; 70.0 is orange yet in the severe band, and 30.0 is green yet in the moderate band |
| AnalysisTab.CheckedMask | UI/gui/analysis_tab.py:409-423 | the combined mask has the image's shape and is set iff the pixel matches a checked range |
| AnalysisTab.CombineChecked | UI/gui/analysis_tab.py:414-423 | the successive ORs give the combined mask, and with nothing checked it is all zero |
| AnalysisTab.FirstRow | UI/gui/analysis_tab.py:426-431 | the first row from `from` on that holds a set pixel |
| AnalysisTab.LastRow | UI/gui/analysis_tab.py:426-431 | the last row before `upto` that holds a set pixel |
| AnalysisTab.FirstCol | UI/gui/analysis_tab.py:426-431 | the first column from `from` on that holds a set pixel |
| AnalysisTab.LastCol | UI/gui/analysis_tab.py:426-431 | the last column before `upto` that holds a set pixel |
| AnalysisTab.BoundingRect | UI/gui/analysis_tab.py:426-431 | the bounding box of a non-empty mask lies inside the image, and each of its four edges touches a set pixel |
| AnalysisTab.SetRowAndCol | UI/gui/analysis_tab.py:428 | a mask with a set pixel has a row and a column holding one |
| AnalysisTab.BoundingRectContains | UI/gui/analysis_tab.py:426-431 | every set pixel lies inside the bounding box |
| AnalysisTab.MarginCrop | UI/gui/analysis_tab.py:434-438 | x' = max(0, x−20) and y' = max(0, y−20); the grown box lies inside the image and contains the original box |
| AnalysisTab.SubGrid | UI/gui/analysis_tab.py:441-442 | the slice `[y:y+h, x:x+w]` has the box's shape and holds the pixels at the box's offset |
| AnalysisTab.CropWithBackground | UI/gui/analysis_tab.py:441-455 | the crop, filled with the background and then overwritten in place under the mask, equals MaskedCrop |
| AnalysisTab.ComputeMaskCrop | UI/gui/analysis_tab.py:383-489 | the steps of apply_masks compute MaskCropOf: a load error, no results, or the cropped image with its window title |
| AnalysisTab.MaskedCrop | UI/gui/analysis_tab.py:441-455 | the crop has the box's height and width (pixel contents in MaskedCropPixel) |
| AnalysisTab.CropTitle | UI/gui/analysis_tab.py:470-482 | the window title starts "Recorte de máscaras: " and ends with the background name, "Blanco" or "Negro" |
| AnalysisTab.MaskCropOf | UI/gui/analysis_tab.py:367-489 | a load error exactly when the image does not read; "no results" exactly when the combined mask is empty; otherwise the crop, titled by CropTitle |
| AnalysisTab.NothingCheckedNoResults | UI/gui/analysis_tab.py:414-489 | with no mask checked, the "no results" branch is taken |
| AnalysisTab.MaskCropContents | UI/gui/analysis_tab.py:445-455 | in the cropped result a pixel under the mask keeps its RGB colour, and any other pixel is white (255) or black (0) as chosen |
| AnalysisTab.MaskedCropPixel | UI/gui/analysis_tab.py:441-455 | a pixel inside the crop box lands at its offset from the box corner, with its own colour where the mask is set and the background colour elsewhere |
| AnalysisTab.Label | UI/gui/analysis_tab.py:1824-1829 | 3 iff severe; 2 iff mild and not severe; 1 iff healthy only; 0 otherwise |
| AnalysisTab.IntensityMap | UI/gui/analysis_tab.py:1824-1829 | the map, zeroed and then painted in place with 1, 2 and 3, holds Label at every pixel |
| AnalysisTab.FlatColourFallback | UI/gui/analysis_tab.py:1924-1928 | the fallback image, painted in place green, yellow then red, gives each pixel the colour of its Label, and keeps the original where the label is 0 |
| AnalysisTab.Toggle | UI/gui/analysis_tab.py:244-268 | with a comparison path the current and comparison path and title are swapped and the zoom returns to 100; without one nothing changes |
| AnalysisTab.ToggleTwiceRestores | UI/gui/analysis_tab.py:244-268 | toggling twice restores paths and titles (zoom 100) when the current path is non-empty |
| AnalysisTab.ImageDisplayWidget.constructor | UI/gui/analysis_tab.py:138-206 | opening the zoom window shows the file at the current path (no crop), titles the window after it, sets zoom 100, enables the compare button whenever a comparison path is set, and names the comparison image in its tooltip only when that path is truthy, otherwise "No hay imagen de comparación disponible" |
| AnalysisTab.ImageDisplayWidget.ToggleComparisonImage | UI/gui/analysis_tab.py:244-268 | the view becomes Toggle of the old view; after a swap the file at the new current path replaces any crop shown, and the window title and tooltip name the new current and comparison images; without a comparison image nothing changes |
| AnalysisTab.ImageDisplayWidget.ApplyMasks | UI/gui/analysis_tab.py:367-489 | reads the original image when one is recorded, else the current one; on a crop it shows it, sets the title and resets the zoom to 100, and otherwise changes nothing |
| ImageViewer.SelectedMask | UI/gui/advanced_image_viewer.py:894-915 | the combined mask is set iff the pixel lies in the range of one of the selected kinds |
| ImageViewer.ApplyMaskCrop | UI/gui/advanced_image_viewer.py:904-940 | the loop of ORs over masks_selected, then the in-place background, gives MaskCropOf of the SET of selected kinds |
| ImageViewer.MaskCropOf | UI/gui/advanced_image_viewer.py:854-940 | no result exactly when no pixel lies in a selected range; otherwise an image of the original's size |
| ImageViewer.SelectedMaskStep | UI/gui/advanced_image_viewer.py:906-915 | OR-ing the next selected mask gives the mask of the selection so far |
| ImageViewer.SelectionOrderIrrelevant | UI/gui/advanced_image_viewer.py:904-915 | selections with the same elements, in any order and with any repetition, give the same crop |
| ImageViewer.MaskCropExists | UI/gui/advanced_image_viewer.py:935-940 | the crop exists iff some pixel matches some selected range |
| ImageViewer.MaskCropPixel | UI/gui/advanced_image_viewer.py:925-933 | in the crop a selected pixel keeps its colour, and any other pixel is the background colour, or grey 128 with the transparent option |
| ImageViewer.SelectionOf | UI/gui/advanced_image_viewer.py:780-790 | the selection is empty iff nothing is checked, and holds each kind iff its box is checked |
| ImageViewer.BackgroundOf | UI/gui/advanced_image_viewer.py:792-801 | no background colour exactly for the transparent option |
| ImageViewer.Clamp | UI/gui/advanced_image_viewer.py:605-608 | max(lo, min(hi, v)) lies in [lo, hi] and is v when v is already inside |
| ImageViewer.AdvancedImageViewer.constructor | UI/gui/advanced_image_viewer.py:55-81 | nothing filtered or cropped, not comparing, zoom 100, and the image shown and histogrammed |
| ImageViewer.AdvancedImageViewer.SelectTab | UI/gui/advanced_image_viewer.py:256-335 | switching tabs changes only the tab index |
| ImageViewer.AdvancedImageViewer.OnFilterApplied | UI/gui/advanced_image_viewer.py:502-515 | the filtered image is kept and shown, comparison is enabled, and the histogram follows when its tab is open |
| ImageViewer.AdvancedImageViewer.ShowOriginal | UI/gui/advanced_image_viewer.py:523-530 | both comparison flags become false, the original is shown, and the button reads "⚖️ Comparar Original" |
| ImageViewer.AdvancedImageViewer.ToggleComparison | UI/gui/advanced_image_viewer.py:532-564 | is_comparing flips on every call; entering shows the original; leaving shows the crop in preference to the filtered image, or keeps the view when there is neither |
| ImageViewer.AdvancedImageViewer.ChangeZoom | UI/gui/advanced_image_viewer.py:605-608 | the zoom becomes clamp(zoom + delta, 25, 300), so it stays in [25,300] |
| ImageViewer.AdvancedImageViewer.CreateMaskCrop | UI/gui/advanced_image_viewer.py:773-852 | an empty selection aborts; otherwise a crop, when there is one, is shown, kept for comparison and enables the compare button; comparison mode is left as it was |
| ResultsTab.GraphLabel | UI/gui/results_tab.py:213 | the page label is longer than its "Gráfica " prefix |
| ResultsTab.GraphLabelNumber | UI/gui/results_tab.py:213 | the label starts with "Gráfica ", followed by the one-based page number, which reads back as index + 1 |
| ResultsTab.MetricsWidget.constructor | UI/gui/results_tab.py:150-176 | the navigator starts on page 0 with "previous" disabled, "next" enabled and the label "Gráfica 1 de 4" |
| ResultsTab.MetricsWidget.UpdateNavigationButtons | UI/gui/results_tab.py:209-213 | previous is enabled iff index > 0, next iff index < 3, and the label shows the page |
| ResultsTab.MetricsWidget.UpdateGraph | UI/gui/results_tab.py:222-249 | without a results folder nothing is drawn; otherwise the current page's plot is drawn |
| ResultsTab.MetricsWidget.ShowPreviousGraph | UI/gui/results_tab.py:195-200 | index 0 is left unchanged; otherwise the index decreases by exactly 1; it stays in [0,3] |
| ResultsTab.MetricsWidget.ShowNextGraph | UI/gui/results_tab.py:202-207 | index 3 is left unchanged; otherwise the index increases by exactly 1; it stays in [0,3] |
| ResultsTab.MetricsWidget.PlotTrainingMetrics | UI/gui/results_tab.py:215-220 | a new results folder resets the page to 0 and draws the loss plot |
| ResultsTab.LoadModelData | UI/gui/results_tab.py:405-427 | a missing or unreadable file gives None; otherwise the final metrics are the last row, absent iff there are no rows, and the epoch count is the row count |
| ResultsTab.NotContains | UI/gui/results_tab.py:458 | a string with no possible starting place for the first character of `sub` does not contain `sub` |
| ResultsTab.LossColumns | UI/gui/results_tab.py:444-458 | of the six compared columns, exactly the first two contain "loss" |
| ResultsTab.Marks | UI/gui/results_tab.py:454-463 | model 1 gets 🟢 iff strictly better (lower for a loss column, higher otherwise); model 2 gets 🟢 otherwise |
| ResultsTab.OneWinner | UI/gui/results_tab.py:454-463 | exactly one model is marked 🟢, and a tie goes to model 2 |
| ResultsTab.MetricPresentAsWritten | UI/gui/results_tab.py:453 | the presence test raises TypeError exactly when run 1 has no final metrics, or has the column while run 2 has no final metrics |
| ResultsTab.EmptyResultsCrash | UI/gui/results_tab.py:418-453 | a results.csv with a header and no rows loads as a run with no final metrics, and the presence test then raises for every column |
| ResultsTab.MetricPresent | UI/gui/results_tab.py:453 | the guarded test holds iff both runs have final metrics holding the column, and agrees with the original test wherever that one does not raise |
| ResultsTab.MetricsSectionStep | UI/gui/results_tab.py:453-465 | the report section of the first i+1 metrics is that of the first i plus the block of metric i when present in both runs |
| ResultsTab.MetricBlock | UI/gui/results_tab.py:463-465 | one metric's block starts with its caption line and ends with a blank line |
| ResultsTab.MetricsSection | UI/gui/results_tab.py:454-465 | the metrics section is empty exactly when no compared metric is present in both runs |
| ResultsTab.NoRowsNoMetrics | UI/gui/results_tab.py:453 | a run without final metrics contributes no metric block |
| ResultsTab.ComparisonText | UI/gui/results_tab.py:436-438 | when either run could not be loaded, the report is the header followed by the load-error line |
| ResultsTab.GenerateComparisonText | UI/gui/results_tab.py:429-476 | the report, built by appending one metric block at a time, equals ComparisonText |
| ResultsTab.ComparisonWidget.constructor | UI/gui/results_tab.py:338-341 | the report area starts empty |
| ResultsTab.ComparisonWidget.CompareModels | UI/gui/results_tab.py:384-403 | an empty name or two equal names give the matching warning and leave the report alone; otherwise the report compares the two loaded runs |

## Left out

- Qt widgets, layouts, dialogs, message boxes, signals and worker threads are not modelled. Only the widget fields that the modelled operations read or write are kept.
- OpenCV is not modelled. This covers:
  - imread;
  - the BGR/RGB/HSV/grey conversions;
  - the kernels inside GaussianBlur, blur, medianBlur, Laplacian, Sobel and filter2D;
  - the sqrt magnitude of the "ambas" direction.

  Each is a parameter: a `FilterBank.Cv2` record of functions, a `read` function, or a `toHsv` function. findContours and boundingRect are replaced by the smallest rectangle holding all set mask pixels, which is what the bounding box of all external contours is.
- Floating point is not modelled. Percentages, means, shares and filter responses are exact `real`s, and conf is a `real`. NaN, rounding and the `:.1f`/`:.4f` text formats are not modelled; the comparison report takes its number formatter as a parameter.
- Directory walking, file suffix filtering by the file system, CSV reading and export, and opening folders are left out. analyze_crops_directory is given the files it would walk as a list of (category, name, decoded image). The comparison is given `load`, which stands for reading a run's results.csv.
- Python dict order is not modelled. `PlantAnalyzer.CalculateSummaryStatistics` is a map comprehension, and the reports take their sample lists as sequences.
- Per-category averages and the rest of the report text of generate_general_statistics and create_general_stats_tab are not modelled. Only the band counts and percentages are.
- Heatmap smoothing, alpha blending, colormaps, np.std and np.median are not modelled. The label map and the flat-colour fallback are.
- Debug prints, logging, and the information text of the mask-crop dialogs are not modelled.
- Exceptions are not modelled except where they decide a result: the unreadable image, the int() parse, and the TypeError of the finding below. The try/except wrappers of the GUI handlers are not.
- `ImageViewer.AdvancedImageViewer.constructor` takes an image that has already loaded. The ValueError raised for an unreadable path is outside the model.
- `FilterBank.AplicarFiltro` does not model OpenCV's own argument errors. A non-positive kernel size passes the odd-size check (`-3 % 2 == 1` in Python), and cv2.blur and cv2.medianBlur then raise; the model's primitives are total and return an image. The GUI's kernel spin boxes (UI/gui/advanced_image_viewer.py:357, range 3 to 15) never produce such sizes.
- `PathNames.ParseInt` and `PathNames.Strip` are ASCII-only. Python's int() also accepts the other Unicode decimal digits and str.strip removes all Unicode whitespace; the model takes only '0'..'9' as digits and only the ASCII whitespace (space, tab through carriage return, 0x1C to 0x1F) as space. A crop whose name carries non-ASCII digits at positions 3..5 is skipped by the model, where the source groups it.
- `Validators.ValidateImageFile` and `Validators.ValidateModelFile` look only at the final path component, where pathlib takes its suffix. Whether the file exists and its size are parameters.
- `ResultsTab.MetricsWidget.UpdateGraph` does not model a missing or unreadable results.csv. Those draw a message instead of a plot, and the model records the plot of the current page.
- `ImageViewer.AdvancedImageViewer.CreateMaskCrop` does not model the Qt warnings it shows. The outcome value names which case was taken.

The analyzer's mild hue range is [20,34] (UI/utils/plant_analyzer.py:23-24); the mask-crop tables of the zoom window (UI/gui/analysis_tab.py:401-402) and of the advanced viewer use [15,35].

## Findings

| source | as written | input that shows it | evidently intended | confidence | as-written member | corrected member |
|---|---|---|---|---|---|---|
| UI/gui/results_tab.py:418, 453 | load_model_data keeps `final_metrics = None` for a results.csv without rows, and generate_comparison_text then evaluates `metric_key in None` | a run whose results.csv holds only the header line: LoadModelData(Table([])) is a run with no final metrics, and the presence test raises TypeError for every metric | a run without final metrics has no metric to compare; the report still shows the header and the epoch counts | not executed | ResultsTab.EmptyResultsCrash | ResultsTab.NoRowsNoMetrics |
