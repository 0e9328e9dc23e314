/**
 * Target-dimension resolution and resize scheduling of `FaceMask` (core/facemask.go), and the
 * algorithm dispatch of `Resize` (utils.go). The resizers themselves are collaborators.
 */
module ResizePolicy {
  import opened Wrappers
  import opened Errors
  import opened GoNumeric
  import opened Raster
  import opened Config

  /** One dimension setting applied to the original size `orig`. */
  function Resolve(opt: DimOption, orig: int, axis: Axis): (r: Result<int, Error>)
    ensures r.Failure? <==> opt.Other?
    ensures r.Failure? ==> r.error == Panicked(axis)
    ensures opt.Absent? || opt == Abs(0) || opt == Pct(0.0) ==> r == Success(orig)
    ensures opt.Abs? && opt.n != 0 ==> r == Success(opt.n)
    ensures opt.Pct? && opt.p != 0.0 ==>
      var exact := orig as real * opt.p / 100.0;
      r.Success? && (0.0 <= exact ==> 0 <= r.value && r.value as real <= exact < r.value as real + 1.0)
                 && (exact < 0.0 ==> r.value <= 0 && r.value as real - 1.0 < exact <= r.value as real)
  {
    match opt
    case Absent => Success(orig)
    case Abs(n) => if n != 0 then Success(n) else Success(orig)
    case Pct(p) => if p != 0.0 then Success(Trunc(orig as real * p / 100.0)) else Success(orig)
    case Other => Failure(Panicked(axis))
  }

  /** 100 percent leaves a dimension unchanged. */
  lemma FullPercentIsIdentity(orig: int, axis: Axis)
    ensures Resolve(Pct(100.0), orig, axis) == Success(orig)
  {
    assert orig as real * 100.0 / 100.0 == orig as real;
    TruncOfInt(orig);
  }

  /** 50 percent halves an even dimension; 50.0 of 200 is 100. */
  lemma HalfPercentHalves(orig: int, axis: Axis)
    requires orig % 2 == 0
    ensures Resolve(Pct(50.0), orig, axis) == Success(orig / 2)
    ensures orig == 200 ==> Resolve(Pct(50.0), orig, axis) == Success(100)
  {
    assert orig as real * 50.0 / 100.0 == (orig / 2) as real;
    TruncOfInt(orig / 2);
  }

  /** The target (height, width); unchanged when no options are given. */
  function TargetDims(opt: Option<Options>, oh: int, ow: int): (r: Result<(int, int), Error>)
    ensures opt.None? ==> r == Success((oh, ow))
    ensures opt.Some? ==> (r.Failure? <==> opt.value.newHeight.Other? || opt.value.newWidth.Other?)
    ensures opt.Some? && opt.value.newHeight.Other? ==> r == Failure(Panicked(Height))
    ensures opt.Some? && !opt.value.newHeight.Other? && opt.value.newWidth.Other? ==> r == Failure(Panicked(Width))
    ensures opt.Some? && r.Success? ==>
      r.value == (Resolve(opt.value.newHeight, oh, Height).value, Resolve(opt.value.newWidth, ow, Width).value)
  {
    match opt
    case None => Success((oh, ow))
    case Some(o) =>
      match Resolve(o.newHeight, oh, Height)
      case Failure(e) => Failure(e)
      case Success(nh) =>
        match Resolve(o.newWidth, ow, Width)
        case Failure(e) => Failure(e)
        case Success(nw) => Success((nh, nw))
  }

  /** The algorithm in force: `opts[0].ResizeAlg`, or Caire when no options are given. */
  function AlgOf(opt: Option<Options>): ResizeAlg
  {
    if opt.Some? then opt.value.resizeAlg else Caire
  }

  /** Step 1: the content-aware resize before detection runs. */
  predicate RunsPreResize(opt: Option<Options>, nh: int, nw: int, oh: int, ow: int)
  {
    (nh != oh || nw != ow) && (opt.Some? ==> opt.value.resizeAlg == Caire)
  }

  /** Step 6 (and the no-face exit): the resize of the finished image. */
  predicate RunsPostResize(opt: Option<Options>, nh: int, nw: int, oh: int, ow: int)
  {
    opt.Some? && (nh != oh || nw != ow) && opt.value.resizeAlg != Caire
  }

  /**
   * At most one resize runs; none when the target equals the original size; otherwise the
   * pre-detection resize runs exactly when the algorithm is Caire and the post-composite resize
   * exactly when it is not. Without options neither runs.
   */
  lemma ResizeSchedule(opt: Option<Options>, oh: int, ow: int, nh: int, nw: int)
    requires TargetDims(opt, oh, ow) == Success((nh, nw))
    ensures !(RunsPreResize(opt, nh, nw, oh, ow) && RunsPostResize(opt, nh, nw, oh, ow))
    ensures nh == oh && nw == ow ==> !RunsPreResize(opt, nh, nw, oh, ow) && !RunsPostResize(opt, nh, nw, oh, ow)
    ensures (nh != oh || nw != ow) ==>
      (RunsPreResize(opt, nh, nw, oh, ow) <==> AlgOf(opt) == Caire) &&
      (RunsPostResize(opt, nh, nw, oh, ow) <==> AlgOf(opt) != Caire)
    ensures opt.None? ==> !RunsPreResize(opt, nh, nw, oh, ow) && !RunsPostResize(opt, nh, nw, oh, ow)
  {
  }

  /** The fixed interpolation kernels of golang.org/x/image/draw. */
  datatype Kernel = NearestNeighborKernel | ApproxBiLinearKernel | BiLinearKernel | CatmullRomKernel

  /**
   * The content-aware resizer, given (src, newWidth, newHeight). Its output size is its own: for a
   * zero or enlarging target it does not simply produce a newWidth x newHeight image.
   */
  type ContentAware = (Image, int, int) -> Result<Image, Error>

  /** The value the kernel scale of `src` into an `nw` x `nh` buffer gives pixel (x, y), given (kernel, src, nw, nh, x, y). */
  type Sampler = (Kernel, Image, int, int, int, int) -> Pixel

  /** The number of columns (rows) of a rectangle from 0 to `n`; image.Rect swaps the corners of a negative one. */
  function Span(n: int): nat
  {
    if n < 0 then -n else n
  }

  /** The kernel `Resize` uses for an algorithm; `None` for Caire and for every unnamed value. */
  function KernelOf(alg: ResizeAlg): (k: Option<Kernel>)
    ensures k.None? <==> !(NearestNeighbor <= alg <= CatmullRom)
  {
    if alg == NearestNeighbor then Some(NearestNeighborKernel)
    else if alg == ApproxBiLinear then Some(ApproxBiLinearKernel)
    else if alg == BiLinear then Some(BiLinearKernel)
    else if alg == CatmullRom then Some(CatmullRomKernel)
    else None
  }

  /** A fresh buffer spanning (0, 0) to (nw, nh), every pixel of it written by the kernel scale. */
  function Scaled(k: Kernel, src: Image, nh: int, nw: int, sample: Sampler): Image
  {
    var h, w := Span(nh), Span(nw);
    Raster(h, w, seq(h, y requires 0 <= y < h => seq(w, x requires 0 <= x < w => sample(k, src, nw, nh, x, y))))
  }

  /**
   * `Resize(src, nh, nw, alg)`: a kernel scale for the four named kernels, which cannot fail and
   * gives an image of the requested size; the content-aware resizer's outcome otherwise.
   */
  function Resize(src: Image, nh: int, nw: int, alg: ResizeAlg, caire: ContentAware, sample: Sampler): (r: Result<Image, Error>)
    ensures r.Failure? ==> KernelOf(alg).None?
    ensures KernelOf(alg).Some? ==> r.value.h == Span(nh) && r.value.w == Span(nw)
    ensures KernelOf(alg).Some? && nh >= 0 && nw >= 0 ==> r.value.h == nh && r.value.w == nw
    ensures KernelOf(alg).Some? ==> forall y, x :: 0 <= y < r.value.h && 0 <= x < r.value.w ==>
      r.value.rows[y][x] == sample(KernelOf(alg).value, src, nw, nh, x, y)
    ensures KernelOf(alg).None? ==> r == caire(src, nw, nh)
  {
    match KernelOf(alg)
    case Some(k) => Success(Scaled(k, src, nh, nw, sample))
    case None => caire(src, nw, nh)
  }
}
