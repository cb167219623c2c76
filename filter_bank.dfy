// The filter bank of the image-processing tab (FiltrosProcessamiento):
// dispatch by filter name, default parameters, odd kernel sizes, the
// abs/clip post-processing of edge responses, grey-to-BGR replication and
// per-channel histograms. The OpenCV primitives themselves are parameters.

module FilterBank {
  import opened Wrappers
  import opened Pixels

  /** A uint8 image: two-dimensional grey, or three-channel BGR. */
  datatype Image = GrayImage(gray: Grid<Byte>) | ColorImage(color: Grid<Bgr>)

  /** A CV_64F filter response. */
  type Response = Grid<real>

  type Kernel = seq<seq<int>>

  /**
   * The OpenCV primitives the filters call, as total functions. Kernel
   * sizes are the (already odd) sizes passed to OpenCV; `sobel` takes the
   * derivative orders dx and dy; `magnitude` is sqrt(x*x + y*y).
   */
  datatype Cv2 = Cv2(
    toGray: Grid<Bgr> -> Grid<Byte>,
    gaussianBlur: (Image, int, real) -> Image,
    blur: (Image, int) -> Image,
    medianBlur: (Image, int) -> Image,
    laplacian: Grid<Byte> -> Response,
    sobel: (Grid<Byte>, nat, nat) -> Response,
    filter2D: (Grid<Byte>, Kernel) -> Response,
    magnitude: (Response, Response) -> Response)

  /** A value of the parameter dict. */
  datatype Param = PInt(i: int) | PReal(r: real) | PStr(s: string)

  type Params = map<string, Param>

  datatype FilterError =
    | UnknownFilter(name: string)  // the ValueError of aplicar_filtro
    | BadParameter(key: string)    // a parameter of a type OpenCV or `%` rejects

  /** The keys of filtros_disponibles, in insertion order. */
  const FilterNames: seq<string> := ["Gaussiano", "Laplaciano", "Media", "Mediana", "Sobel", "Prewitt"]

  /** `parametros_default.get(name, {})`. */
  function Defaults(name: string): (d: Params)
    ensures d == map[] <==> name !in FilterNames
    ensures name == "Gaussiano" || name == "Media" || name == "Mediana" ==> KernelSize(d) == Ok(5)
    ensures name == "Gaussiano" ==> Sigma(d) == Ok(1.0)
  {
    var d :=
      if name == "Gaussiano" then map["kernel_size" := PInt(5), "sigma" := PReal(1.0)]
      else if name == "Laplaciano" then map["tipo" := PStr("4-conectado")]
      else if name == "Media" || name == "Mediana" then map["kernel_size" := PInt(5)]
      else if name == "Sobel" || name == "Prewitt" then map["direccion" := PStr("ambas")]
      else map[];
    assert name in FilterNames ==> "kernel_size" in d || "tipo" in d || "direccion" in d;
    d
  }

  /** get_parametros_filtro: a copy of the defaults, empty exactly for an unknown filter. */
  function GetParametrosFiltro(name: string): (p: Params)
    ensures p == map[] <==> name !in FilterNames
    ensures name in FilterNames ==> p == Defaults(name)
  {
    var p := Defaults(name);
    assert name in FilterNames <==> name in {"Gaussiano", "Laplaciano", "Media", "Mediana", "Sobel", "Prewitt"};
    assert name in FilterNames ==> "kernel_size" in p || "tipo" in p || "direccion" in p;
    p
  }

  // ---------------------------------------------------------------- parameters

  /** `params.get('kernel_size', 5)`; a non-integer size is rejected. */
  function KernelSize(p: Params): (r: Result<int, FilterError>)
    ensures "kernel_size" !in p ==> r == Ok(5)
    ensures r.Err? <==> "kernel_size" in p && !p["kernel_size"].PInt?
    ensures r.Err? ==> r.error == BadParameter("kernel_size")
  {
    if "kernel_size" !in p then Ok(5)
    else match p["kernel_size"]
      case PInt(k) => Ok(k)
      case _ => Err(BadParameter("kernel_size"))
  }

  /** `params.get('sigma', 1.0)`; a string sigma is rejected. */
  function Sigma(p: Params): (r: Result<real, FilterError>)
    ensures "sigma" !in p ==> r == Ok(1.0)
    ensures r.Err? <==> "sigma" in p && p["sigma"].PStr?
    ensures r.Err? ==> r.error == BadParameter("sigma")
  {
    if "sigma" !in p then Ok(1.0)
    else match p["sigma"]
      case PInt(i) => Ok(i as real)
      case PReal(r) => Ok(r)
      case PStr(_) => Err(BadParameter("sigma"))
  }

  /** Python's `k % 2 == 0` then `k += 1`: the result is always odd, and odd sizes pass through. */
  function OddKernel(k: int): (r: int)
    ensures r % 2 == 1
    ensures k % 2 == 1 ==> r == k
    ensures k <= r <= k + 1
  {
    if k % 2 == 0 then k + 1 else k
  }

  datatype Direction = X | Y | Both

  /** `params.get('direccion', 'ambas')` compared with 'x' and 'y'; anything else is 'ambas'. */
  function DireccionOf(p: Params): (d: Direction)
    ensures d == X <==> "direccion" in p && p["direccion"] == PStr("x")
    ensures d == Y <==> "direccion" in p && p["direccion"] == PStr("y")
  {
    if "direccion" in p && p["direccion"] == PStr("x") then X
    else if "direccion" in p && p["direccion"] == PStr("y") then Y
    else Both
  }

  // ---------------------------------------------------------------- post-processing

  function Abs(x: real): real { if x < 0.0 then -x else x }

  /** `np.clip(x, 0, 255).astype(np.uint8)`: clamp, then truncate the fraction. */
  function ClipToByte(x: real): (b: Byte)
    ensures x <= 0.0 ==> b == 0
    ensures x >= 255.0 ==> b == 255
    ensures 0.0 <= x <= 255.0 ==> b as real <= x < b as real + 1.0
  {
    if x <= 0.0 then 0 else if x >= 255.0 then 255 else x.Floor
  }

  function MapGrid<A, B>(g: Grid<A>, f: A -> B): (h: Grid<B>)
    ensures |h| == |g|
    ensures forall i :: 0 <= i < |g| ==> |h[i]| == |g[i]|
    ensures forall i, j :: 0 <= i < |g| && 0 <= j < |g[i]| ==> h[i][j] == f(g[i][j])
  {
    seq(|g|, i requires 0 <= i < |g| => seq(|g[i]|, j requires 0 <= j < |g[i]| => f(g[i][j])))
  }

  /** `cv2.cvtColor(gray, COLOR_GRAY2BGR)`: each grey value copied into all three channels. */
  function GrayToBgr(g: Grid<Byte>): (c: Grid<Bgr>)
    ensures |c| == |g|
    ensures forall i :: 0 <= i < |g| ==> |c[i]| == |g[i]|
    ensures forall i, j :: 0 <= i < |g| && 0 <= j < |g[i]| ==> c[i][j] == Bgr(g[i][j], g[i][j], g[i][j])
  {
    MapGrid(g, (v: Byte) => Bgr(v, v, v))
  }

  /** The grey input of an edge filter: converted when the image has three channels. */
  function GrayOf(cv: Cv2, img: Image): Grid<Byte> {
    match img
    case GrayImage(g) => g
    case ColorImage(c) => cv.toGray(c)
  }

  /** The edge filters return BGR for a three-channel input and grey for a grey one. */
  function Reshape(img: Image, g: Grid<Byte>): Image {
    if img.ColorImage? then ColorImage(GrayToBgr(g)) else GrayImage(g)
  }

  /** `np.abs` then clip. */
  function AbsClip(r: Response): Grid<Byte> {
    MapGrid(r, (x: real) => ClipToByte(Abs(x)))
  }

  /** Clip alone, as _filtro_sobel does. */
  function Clip(r: Response): Grid<Byte> {
    MapGrid(r, ClipToByte)
  }

  function Negate(r: Response): Response {
    MapGrid(r, (x: real) => -x)
  }

  // ---------------------------------------------------------------- kernels

  const PrewittX: Kernel := [[-1, 0, 1], [-1, 0, 1], [-1, 0, 1]]
  const PrewittY: Kernel := [[-1, -1, -1], [0, 0, 0], [1, 1, 1]]

  function Transpose3(k: Kernel): Kernel
    requires |k| == 3 && forall i :: 0 <= i < 3 ==> |k[i]| == 3
  {
    seq(3, i requires 0 <= i < 3 => seq(3, j requires 0 <= j < 3 => k[j][i]))
  }

  function RowSum(row: seq<int>): int {
    if row == [] then 0 else RowSum(row[..|row| - 1]) + row[|row| - 1]
  }

  /** Every row of the Prewitt x-kernel is [-1, 0, 1], so sums to zero, and the y-kernel is its transpose. */
  lemma PrewittKernels()
    ensures |PrewittX| == 3 && forall i :: 0 <= i < 3 ==> |PrewittX[i]| == 3
    ensures forall i :: 0 <= i < 3 ==> PrewittX[i] == [-1, 0, 1]
    ensures PrewittY == Transpose3(PrewittX)
    ensures forall i :: 0 <= i < 3 ==> RowSum(PrewittX[i]) == 0
  {
    assert RowSum([-1]) == -1 by { assert [-1][..0] == []; }
    assert RowSum([-1, 0]) == -1 by { assert [-1, 0][..1] == [-1]; }
    assert RowSum([-1, 0, 1]) == 0 by { assert [-1, 0, 1][..2] == [-1, 0]; }
    var t := Transpose3(PrewittX);
    forall i | 0 <= i < 3
      ensures t[i] == PrewittY[i]
    {
      assert forall j :: 0 <= j < 3 ==> t[i][j] == PrewittY[i][j];
    }
  }

  // ---------------------------------------------------------------- the filters

  function Gaussiano(cv: Cv2, img: Image, p: Params): (r: Result<Image, FilterError>)
    ensures r.Err? <==> KernelSize(p).Err? || Sigma(p).Err?
    ensures r.Err? ==> r.error == BadParameter("kernel_size") || r.error == BadParameter("sigma")
    ensures "kernel_size" !in p && "sigma" !in p ==> r == Ok(cv.gaussianBlur(img, 5, 1.0))
  {
    match KernelSize(p)
    case Err(e) => Err(e)
    case Ok(k) =>
      match Sigma(p)
      case Err(e) => Err(e)
      case Ok(s) => Ok(cv.gaussianBlur(img, OddKernel(k), s))
  }

  function Media(cv: Cv2, img: Image, p: Params): (r: Result<Image, FilterError>)
    ensures r.Err? <==> KernelSize(p).Err?
    ensures "kernel_size" !in p ==> r == Ok(cv.blur(img, 5))
  {
    match KernelSize(p)
    case Err(e) => Err(e)
    case Ok(k) => Ok(cv.blur(img, OddKernel(k)))
  }

  function Mediana(cv: Cv2, img: Image, p: Params): (r: Result<Image, FilterError>)
    ensures r.Err? <==> KernelSize(p).Err?
    ensures "kernel_size" !in p ==> r == Ok(cv.medianBlur(img, 5))
  {
    match KernelSize(p)
    case Err(e) => Err(e)
    case Ok(k) => Ok(cv.medianBlur(img, OddKernel(k)))
  }

  /** _filtro_laplaciano: |Laplacian| clipped; no parameter is read. */
  function Laplaciano(cv: Cv2, img: Image): (r: Image)
    ensures r.ColorImage? <==> img.ColorImage?
  {
    Reshape(img, AbsClip(cv.laplacian(GrayOf(cv, img))))
  }

  function SobelResponse(cv: Cv2, gray: Grid<Byte>, d: Direction): Response {
    match d
    case X => cv.sobel(gray, 1, 0)
    case Y => cv.sobel(gray, 0, 1)
    case Both => cv.magnitude(cv.sobel(gray, 1, 0), cv.sobel(gray, 0, 1))
  }

  /** _filtro_sobel: the response clipped without abs. */
  function Sobel(cv: Cv2, img: Image, p: Params): (r: Image)
    ensures r.ColorImage? <==> img.ColorImage?
  {
    Reshape(img, Clip(SobelResponse(cv, GrayOf(cv, img), DireccionOf(p))))
  }

  function PrewittResponse(cv: Cv2, gray: Grid<Byte>, d: Direction): Response {
    match d
    case X => cv.filter2D(gray, PrewittX)
    case Y => cv.filter2D(gray, PrewittY)
    case Both => cv.magnitude(cv.filter2D(gray, PrewittX), cv.filter2D(gray, PrewittY))
  }

  /** _filtro_prewitt: abs of the response, then clipped. */
  function Prewitt(cv: Cv2, img: Image, p: Params): (r: Image)
    ensures r.ColorImage? <==> img.ColorImage?
  {
    Reshape(img, AbsClip(PrewittResponse(cv, GrayOf(cv, img), DireccionOf(p))))
  }

  /**
   * aplicar_filtro: an unknown name is an error; a missing parameter dict
   * falls back to that filter's defaults; then the filter is applied.
   */
  function AplicarFiltro(cv: Cv2, img: Image, name: string, params: Option<Params>): (r: Result<Image, FilterError>)
    ensures name !in FilterNames ==> r == Err(UnknownFilter(name))
    ensures r.Err? && name in FilterNames ==> r.error.BadParameter?
  {
    if name !in FilterNames then Err(UnknownFilter(name))
    else
      var p := if params.None? then Defaults(name) else params.value;
      if name == "Gaussiano" then Gaussiano(cv, img, p)
      else if name == "Media" then Media(cv, img, p)
      else if name == "Mediana" then Mediana(cv, img, p)
      else if name == "Laplaciano" then Ok(Laplaciano(cv, img))
      else if name == "Sobel" then Ok(Sobel(cv, img, p))
      else Ok(Prewitt(cv, img, p))
  }

  // ---------------------------------------------------------------- properties

  /** Without a parameter dict every listed filter succeeds, exactly as with its defaults; an unlisted one fails. */
  lemma DefaultsFallback(cv: Cv2, img: Image, name: string)
    ensures AplicarFiltro(cv, img, name, None).Ok? <==> name in FilterNames
    ensures AplicarFiltro(cv, img, name, None) == AplicarFiltro(cv, img, name, Some(GetParametrosFiltro(name)))
  {
  }

  /** An even kernel size k filters exactly as k + 1 does, for the three smoothing filters. */
  lemma EvenKernelBumped(cv: Cv2, img: Image, name: string, p: Params, k: int)
    requires name in {"Gaussiano", "Media", "Mediana"}
    requires k % 2 == 0
    ensures AplicarFiltro(cv, img, name, Some(p["kernel_size" := PInt(k)]))
         == AplicarFiltro(cv, img, name, Some(p["kernel_size" := PInt(k + 1)]))
  {
    assert OddKernel(k) == OddKernel(k + 1);
    assert Sigma(p["kernel_size" := PInt(k)]) == Sigma(p["kernel_size" := PInt(k + 1)]);
  }

  /** The Laplacian ignores its parameters: any two dicts, or none, give the same image. */
  lemma LaplacianIgnoresParams(cv: Cv2, img: Image, p: Option<Params>, q: Option<Params>)
    ensures AplicarFiltro(cv, img, "Laplaciano", p) == AplicarFiltro(cv, img, "Laplaciano", q)
    ensures AplicarFiltro(cv, img, "Laplaciano", p) == Ok(Reshape(img, AbsClip(cv.laplacian(GrayOf(cv, img)))))
  {
  }

  /** abs-then-clip does not see the sign of the response. */
  lemma AbsClipSignSymmetric(r: Response)
    ensures AbsClip(Negate(r)) == AbsClip(r)
  {
    var a := AbsClip(Negate(r));
    var b := AbsClip(r);
    assert |a| == |b|;
    forall i | 0 <= i < |a|
      ensures a[i] == b[i]
    {
      assert |a[i]| == |b[i]|;
      forall j | 0 <= j < |a[i]|
        ensures a[i][j] == b[i][j]
      {
        assert Abs(-r[i][j]) == Abs(r[i][j]);
      }
    }
  }

  /** Prewitt's output is the same for a response and its negation, so both gradient signs show as edges. */
  lemma PrewittSignSymmetric(r: Response, i: nat, j: nat)
    requires i < |r| && j < |r[i]|
    ensures AbsClip(r)[i][j] == AbsClip(Negate(r))[i][j]
    ensures AbsClip(r)[i][j] as real <= Abs(r[i][j]) < AbsClip(r)[i][j] as real + 1.0 || AbsClip(r)[i][j] == 255
  {
    AbsClipSignSymmetric(r);
  }

  /** Sobel clips without abs: a non-positive gradient is 0 in the output, where Prewitt keeps its magnitude. */
  lemma SobelDropsNegatives(r: Response, i: nat, j: nat)
    requires i < |r| && j < |r[i]|
    requires r[i][j] <= 0.0
    ensures Clip(r)[i][j] == 0
    ensures AbsClip(r)[i][j] == ClipToByte(-r[i][j])
  {
  }

  /** Pixels of a grey image replicated to BGR have equal channels. */
  predicate Replicated(c: Grid<Bgr>) {
    forall i, j :: 0 <= i < |c| && 0 <= j < |c[i]| ==> c[i][j].b == c[i][j].g == c[i][j].r
  }

  /** Edge filters keep the input's shape class: three channels in give three equal channels out, grey in gives grey out. */
  lemma EdgeFilterShape(cv: Cv2, img: Image, name: string, p: Option<Params>)
    requires name in {"Laplaciano", "Sobel", "Prewitt"}
    ensures AplicarFiltro(cv, img, name, p).Ok?
    ensures AplicarFiltro(cv, img, name, p).value.ColorImage? <==> img.ColorImage?
    ensures img.ColorImage? ==> Replicated(AplicarFiltro(cv, img, name, p).value.color)
  {
  }

  // ---------------------------------------------------------------- histograms

  /** How many of `vs` equal `v`. */
  function Occurrences(vs: seq<Byte>, v: Byte): nat {
    if vs == [] then 0
    else Occurrences(vs[..|vs| - 1], v) + (if vs[|vs| - 1] == v then 1 else 0)
  }

  /** The 256-bin histogram of `vs`: bin v counts the values equal to v. */
  function Bins(vs: seq<Byte>): (h: seq<nat>)
    ensures |h| == 256
  {
    seq(256, v requires 0 <= v < 256 => Occurrences(vs, v))
  }

  function SumNat(s: seq<nat>): nat {
    if s == [] then 0 else SumNat(s[..|s| - 1]) + s[|s| - 1]
  }

  lemma {:induction false} SumIncrement(s: seq<nat>, i: nat)
    requires i < |s|
    ensures SumNat(s[i := s[i] + 1]) == SumNat(s) + 1
  {
    var n := |s| - 1;
    if i < n {
      assert s[i := s[i] + 1][..n] == s[..n][i := s[..n][i] + 1];
      SumIncrement(s[..n], i);
    } else {
      assert s[i := s[i] + 1][..n] == s[..n];
    }
  }

  /** The bins of a histogram add up to the number of values counted. */
  lemma {:induction false} BinsTotal(vs: seq<Byte>)
    ensures SumNat(Bins(vs)) == |vs|
  {
    if vs == [] {
      var z := Bins(vs);
      assert forall k :: 0 <= k < 256 ==> z[k] == 0;
      ZeroSum(z);
    } else {
      var init := vs[..|vs| - 1];
      var x := vs[|vs| - 1];
      BinsTotal(init);
      assert Bins(vs) == Bins(init)[x := Bins(init)[x] + 1];
      SumIncrement(Bins(init), x);
    }
  }

  lemma {:induction false} ZeroSum(s: seq<nat>)
    requires forall k :: 0 <= k < |s| ==> s[k] == 0
    ensures SumNat(s) == 0
  {
    if s != [] {
      ZeroSum(s[..|s| - 1]);
    }
  }

  /** Row-major flattening of a grid. */
  function Flatten<T>(g: Grid<T>): (f: seq<T>) {
    if g == [] then [] else Flatten(g[..|g| - 1]) + g[|g| - 1]
  }

  /** One histogram, counted bin by bin into a 256-entry buffer (what cv2.calcHist computes for one channel). */
  method Histogram(values: seq<Byte>) returns (h: seq<nat>)
    ensures |h| == 256
    ensures forall v :: 0 <= v < 256 ==> h[v] == Occurrences(values, v)
    ensures SumNat(h) == |values|
  {
    var bins := new nat[256](_ => 0);
    for k := 0 to |values|
      invariant forall v :: 0 <= v < 256 ==> bins[v] == Occurrences(values[..k], v)
    {
      assert values[..k + 1][..k] == values[..k];
      bins[values[k]] := bins[values[k]] + 1;
    }
    assert values[..|values|] == values;
    h := bins[..];
    assert h == Bins(values);
    BinsTotal(values);
  }

  function ChannelOf(img: Grid<Bgr>, f: Bgr -> Byte): Grid<Byte> {
    MapGrid(img, f)
  }

  /**
   * calcular_histograma_rgb: the (B, G, R) histograms of a colour image;
   * a grey image yields its one histogram three times.
   */
  method CalcularHistogramaRgb(img: Image) returns (hb: seq<nat>, hg: seq<nat>, hr: seq<nat>)
    ensures img.ColorImage? ==>
      && hb == Bins(Flatten(ChannelOf(img.color, (p: Bgr) => p.b)))
      && hg == Bins(Flatten(ChannelOf(img.color, (p: Bgr) => p.g)))
      && hr == Bins(Flatten(ChannelOf(img.color, (p: Bgr) => p.r)))
    ensures img.GrayImage? ==> hb == hg == hr == Bins(Flatten(img.gray))
  {
    match img
    case ColorImage(c) =>
      hb := Histogram(Flatten(ChannelOf(c, (p: Bgr) => p.b)));
      hg := Histogram(Flatten(ChannelOf(c, (p: Bgr) => p.g)));
      hr := Histogram(Flatten(ChannelOf(c, (p: Bgr) => p.r)));
    case GrayImage(g) =>
      var h := Histogram(Flatten(g));
      hb, hg, hr := h, h, h;
  }
}
