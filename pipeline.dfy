/**
 * `FaceMask` (core/facemask.go) after decoding: resolve the target size, maybe resize before
 * detection, detect, rank, run every face task, composite the template onto the frame through
 * the union mask, and maybe resize the result. `Run` states the outcome of a run as a function
 * of the decoded image, the options, the collaborators and the ranking that the sort chose.
 */
module Pipeline {
  import opened Wrappers
  import opened Errors
  import opened Raster
  import opened Config
  import opened ResizePolicy
  import opened Ranking
  import opened FaceGeometry
  import opened Buffers
  import opened FaceTasks

  /** Step 1: the frame detection runs on, the decoded image or its content-aware resize. */
  function PreResized(decoded: Image, opt: Option<Options>, nh: int, nw: int, env: Env): (r: Result<Image, Error>)
    ensures nh == decoded.h && nw == decoded.w ==> r == Success(decoded)
    ensures opt.Some? && opt.value.resizeAlg != Caire ==> r == Success(decoded)
    ensures r != Success(decoded) ==> r == env.caire(decoded, nw, nh)
    ensures (nh != decoded.h || nw != decoded.w) && AlgOf(opt) == Caire ==> r == env.caire(decoded, nw, nh)
  {
    if RunsPreResize(opt, nh, nw, decoded.h, decoded.w) then env.caire(decoded, nw, nh) else Success(decoded)
  }

  /**
   * Step 6 and the no-face exit: the image is resized to the target when a post-composite resize
   * is scheduled. The resize error is dropped, so a failed resize leaves a nil image (`None`).
   */
  function Finish(img: Image, opt: Option<Options>, nh: int, nw: int, oh: int, ow: int, env: Env): (r: Option<Image>)
    ensures opt.None? || (nh == oh && nw == ow) || opt.value.resizeAlg == Caire ==> r == Some(img)
    ensures r.None? ==> opt.Some? && KernelOf(opt.value.resizeAlg).None? && env.caire(img, nw, nh).Failure?
    ensures RunsPostResize(opt, nh, nw, oh, ow) && KernelOf(opt.value.resizeAlg).Some? && nh >= 0 && nw >= 0 ==>
      r.Some? && r.value.h == nh && r.value.w == nw
    ensures RunsPostResize(opt, nh, nw, oh, ow) && KernelOf(opt.value.resizeAlg).None? ==>
      (r.None? <==> env.caire(img, nw, nh).Failure?) && (r.Some? ==> r.value == env.caire(img, nw, nh).value)
  {
    if RunsPostResize(opt, nh, nw, oh, ow) then
      match Resize(img, nh, nw, opt.value.resizeAlg, env.caire, env.sample)
      case Success(out) => Some(out)
      case Failure(_) => None
    else Some(img)
  }

  /** The tasks of the ranked detections: rank k is the k-th detection after the sort. */
  function Faces(ranked: seq<Detection>, base: Image, opt: Option<Options>, env: Env): (fs: seq<Face>)
    ensures |fs| == |ranked|
    ensures forall k :: 0 <= k < |ranked| ==> fs[k].box == FaceBox(ranked[k]) && fs[k].ellipse == FaceEllipse(ranked[k], base.h, base.w)
    ensures forall k :: 0 <= k < |ranked| ==>
      (fs[k].result.Skipped? <==> StyleFor(opt, k, Area(FaceBox(ranked[k])), ranked[k].q, base.h, base.w).None?)
  {
    seq(|ranked|, k requires 0 <= k < |ranked| => FaceOf(k, ranked[k], base, opt, env))
  }

  /** A task depends on nothing ranked after it: the faces of a prefix are a prefix of the faces. */
  lemma FacesPrefix(ranked: seq<Detection>, n: nat, base: Image, opt: Option<Options>, env: Env)
    requires n <= |ranked|
    ensures Faces(ranked[..n], base, opt, env) == Faces(ranked, base, opt, env)[..n]
  {
  }

  /** A frame pixel after the masked draw: the template composited over `base` where the union mask is set. */
  function CompositePixel(base: Image, faces: seq<Face>, over: Blend, x: int, y: int): Pixel
    requires 0 <= x < base.w && 0 <= y < base.h
  {
    if MaskAt(faces, x, y) then over(base.rows[y][x], TemplateAt(faces, x, y, over)) else base.rows[y][x]
  }

  /** The frame after the masked draw of the template over it. */
  function Composed(base: Image, faces: seq<Face>, over: Blend): Image
  {
    var rows := seq(base.h, y requires 0 <= y < base.h =>
                  seq(base.w, x requires 0 <= x < base.w => CompositePixel(base, faces, over, x, y)));
    Raster(base.h, base.w, rows)
  }

  /** After `g.Wait()`: the first error, or the composite. */
  function Compose(base: Image, faces: seq<Face>, over: Blend): Result<Image, Error>
  {
    match FirstError(faces)
    case Some(e) => Failure(e)
    case None => Success(Composed(base, faces, over))
  }

  /** The detector's output, when a run gets as far as detection. */
  function Detected(decoded: Image, opt: Option<Options>, env: Env): Option<seq<Detection>>
  {
    match TargetDims(opt, decoded.h, decoded.w)
    case Failure(_) => None
    case Success((nh, nw)) =>
      match PreResized(decoded, opt, nh, nw, env)
      case Failure(_) => None
      case Success(frame) =>
        match env.detect(frame)
        case Failure(_) => None
        case Success(dets) => Some(dets)
  }

  /** The outcome of a run whose sort put the detections in the order `ranked`. */
  function Run(decoded: Image, opt: Option<Options>, env: Env, ranked: seq<Detection>): Result<Option<Image>, Error>
  {
    var oh, ow := decoded.h, decoded.w;
    match TargetDims(opt, oh, ow)
    case Failure(e) => Failure(e)
    case Success((nh, nw)) =>
      match PreResized(decoded, opt, nh, nw, env)
      case Failure(e) => Failure(e)
      case Success(frame) =>
        match env.detect(frame)
        case Failure(e) => Failure(e)
        case Success(dets) =>
          if |dets| == 0 then Success(Finish(frame, opt, nh, nw, oh, ow, env))
          else
            match Compose(frame, Faces(ranked, frame, opt, env), env.over)
            case Failure(e) => Failure(e)
            case Success(c) => Success(Finish(c, opt, nh, nw, oh, ow, env))
  }

  /**
   * The fan-out: a transparent face template and an empty union mask, then the task of every
   * ranked detection in rank order. Every task runs; the first error is kept.
   */
  method FanOut(ranked: seq<Detection>, base: Image, opt: Option<Options>, env: Env)
    returns (mask: array2<bool>, template: array2<Pixel>, firstErr: Option<Error>)
    ensures fresh(mask) && fresh(template)
    ensures mask.Length0 == template.Length0 == base.h && mask.Length1 == template.Length1 == base.w
    ensures forall y, x :: 0 <= y < base.h && 0 <= x < base.w ==>
      mask[y, x] == MaskAt(Faces(ranked, base, opt, env), x, y) &&
      template[y, x] == TemplateAt(Faces(ranked, base, opt, env), x, y, env.over)
    ensures firstErr == FirstError(Faces(ranked, base, opt, env))
  {
    template := new Pixel[base.h, base.w]((y, x) => Transparent);
    mask := new bool[base.h, base.w]((y, x) => false);
    ghost var all := Faces(ranked, base, opt, env);
    firstErr := None;
    for k := 0 to |ranked|
      invariant forall y, x :: 0 <= y < base.h && 0 <= x < base.w ==>
        mask[y, x] == MaskAt(all[..k], x, y) && template[y, x] == TemplateAt(all[..k], x, y, env.over)
      invariant firstErr == FirstError(all[..k])
    {
      var err := FaceTask(k, ranked[k], base, opt, env, mask, template);
      forall y, x | 0 <= y < base.h && 0 <= x < base.w
        ensures mask[y, x] == MaskAt(all[..k + 1], x, y) && template[y, x] == TemplateAt(all[..k + 1], x, y, env.over)
      {
        AppendTask(all, k, x, y, env.over);
      }
      AppendTask(all, k, 0, 0, env.over);
      if firstErr.None? {
        firstErr := err;
      }
    }
    assert all[..|ranked|] == all;
  }

  /** Steps 3 to 5 after the sort: the fan-out, `g.Wait()`, and the masked composite onto the frame. */
  method ComposeFaces(ranked: seq<Detection>, base: Image, opt: Option<Options>, env: Env) returns (r: Result<Image, Error>)
    ensures r == Compose(base, Faces(ranked, base, opt, env), env.over)
  {
    var mask, template, firstErr := FanOut(ranked, base, opt, env);
    if firstErr.Some? {
      return Failure(firstErr.value);
    }
    var frame := NewBuffer(base);
    Composite(frame, template, mask, env.over);
    var composed := Snapshot(frame);
    SamePixels(composed, Composed(base, Faces(ranked, base, opt, env), env.over));
    return Success(composed);
  }

  /**
   * `FaceMask(input, opts...)` on an already decoded image. The face tasks run one after the
   * other in rank order; all of them run, and the first error is reported after the last.
   * The ghost `ranked` is the order the sort left the detections in, so that the result can be
   * stated; it is empty when the run stops before detection.
   */
  method FaceMask(decoded: Image, opts: seq<Options>, env: Env) returns (res: Result<Option<Image>, Error>, ghost ranked: seq<Detection>)
    ensures res == Run(decoded, Given(opts), env, ranked)
    ensures Detected(decoded, Given(opts), env).Some? ==> IsRanking(ranked, Detected(decoded, Given(opts), env).value)
  {
    ranked := [];
    var opt := Given(opts);
    var oh, ow := decoded.h, decoded.w;
    var nh, nw := oh, ow;
    if opt.Some? {
      var rh := Resolve(opt.value.newHeight, oh, Height);
      if rh.Failure? {
        return Failure(rh.error), ranked;
      }
      nh := rh.value;
      var rw := Resolve(opt.value.newWidth, ow, Width);
      if rw.Failure? {
        return Failure(rw.error), ranked;
      }
      nw := rw.value;
    }
    assert TargetDims(opt, oh, ow) == Success((nh, nw));

    // Step 1: resize
    var resized := decoded;
    if nh != oh || nw != ow {
      if opt.None? || opt.value.resizeAlg == Caire {
        var r := env.caire(decoded, nw, nh);
        if r.Failure? {
          return Failure(r.error), ranked;
        }
        resized := r.value;
      }
    }
    assert PreResized(decoded, opt, nh, nw, env) == Success(resized);

    // Step 2: search for faces
    var found := env.detect(resized);
    if found.Failure? {
      return Failure(found.error), ranked;
    }
    var dets := found.value;
    var post := opt.Some? && (nh != oh || nw != ow) && opt.value.resizeAlg != Caire;
    if |dets| == 0 {
      if post {
        var r := Resize(resized, nh, nw, opt.value.resizeAlg, env.caire, env.sample);
        return Success(if r.Success? then Some(r.value) else None), ranked;
      }
      return Success(Some(resized)), ranked;
    }

    // Step 3: rank
    var a := new Detection[|dets|](k requires 0 <= k < |dets| => dets[k]);
    assert a[..] == dets;
    RankDetections(a);
    var order := a[..];
    ranked := order;

    var c := ComposeFaces(order, resized, opt, env);
    if c.Failure? {
      return Failure(c.error), ranked;
    }

    // Step 6: final resize
    if post {
      var r := Resize(c.value, nh, nw, opt.value.resizeAlg, env.caire, env.sample);
      return Success(if r.Success? then Some(r.value) else None), ranked;
    }
    return Success(Some(c.value)), ranked;
  }
}

/** What a run promises, stated on `Compose` and `Run`. */
module PipelineFacts {
  import opened Wrappers
  import opened Errors
  import opened Raster
  import opened EllipseStencil
  import opened Config
  import opened ResizePolicy
  import opened Ranking
  import opened FaceGeometry
  import opened FaceTasks
  import opened Pipeline

  /**
   * A pixel outside every processed face's drawn stencil keeps the frame's value; a pixel inside
   * one shows the template composited over the frame.
   */
  lemma ComposeKeepsUnmaskedPixels(base: Image, faces: seq<Face>, over: Blend, c: Image, x: int, y: int)
    requires Compose(base, faces, over) == Success(c)
    requires 0 <= x < base.w && 0 <= y < base.h
    ensures (forall k :: 0 <= k < |faces| ==> !Marks(faces[k], x, y)) ==> c.rows[y][x] == base.rows[y][x]
    ensures (exists k :: 0 <= k < |faces| && Marks(faces[k], x, y)) ==>
      c.rows[y][x] == over(base.rows[y][x], TemplateAt(faces, x, y, over))
  {
    MaskIsUnionOfStencils(faces, x, y);
  }

  /** When the policy skips every face, the composite is the frame itself. */
  lemma AllSkippedKeepsFrame(base: Image, faces: seq<Face>, over: Blend)
    requires forall k :: 0 <= k < |faces| ==> faces[k].result.Skipped?
    ensures Compose(base, faces, over) == Success(base)
  {
    FirstErrorIsEarliestFailure(faces);
    forall y, x | 0 <= y < base.h && 0 <= x < base.w
      ensures Composed(base, faces, over).rows[y][x] == base.rows[y][x]
    {
      MaskIsUnionOfStencils(faces, x, y);
    }
    SamePixels(Composed(base, faces, over), base);
  }

  /** A failed triangulation makes the run return no image and the first failure's error. */
  lemma FailedTaskFailsCompose(base: Image, faces: seq<Face>, over: Blend, k: nat)
    requires k < |faces| && faces[k].result.Failed?
    ensures Compose(base, faces, over).Failure?
    ensures exists j :: (0 <= j <= k && faces[j].result.Failed? &&
                         Compose(base, faces, over) == Failure(faces[j].result.error))
  {
    FirstErrorIsEarliestFailure(faces);
    var e := FirstError(faces).value;
    var j :| 0 <= j < |faces| && faces[j].result.Failed? && FirstError(faces) == Some(faces[j].result.error) &&
             forall i :: 0 <= i < j ==> !faces[i].result.Failed?;
    assert j <= k;
  }

  /** The union mask lies inside the boxes of the faces that set it. */
  lemma MaskWithinFaceBoxes(ranked: seq<Detection>, base: Image, opt: Option<Options>, env: Env, x: int, y: int)
    requires MaskAt(Faces(ranked, base, opt, env), x, y)
    ensures exists k :: (0 <= k < |ranked| && Contains(FaceBox(ranked[k]), x, y) &&
                         StyleFor(opt, k, Area(FaceBox(ranked[k])), ranked[k].q, base.h, base.w).Some?)
  {
    var faces := Faces(ranked, base, opt, env);
    MaskIsUnionOfStencils(faces, x, y);
    var k :| 0 <= k < |faces| && Marks(faces[k], x, y);
    StencilInsideFaceBox(ranked[k], base.h, base.w, x, y);
  }

  /**
   * With no detections the run returns the frame, resized afterwards when a post-composite
   * resize is scheduled, whatever the policy and the triangulator are.
   */
  lemma NoFacesReturnsFrame(decoded: Image, opt: Option<Options>, env: Env, ranked: seq<Detection>, nh: int, nw: int, frame: Image)
    requires TargetDims(opt, decoded.h, decoded.w) == Success((nh, nw))
    requires PreResized(decoded, opt, nh, nw, env) == Success(frame)
    requires env.detect(frame) == Success([])
    ensures Run(decoded, opt, env, ranked) == Success(Finish(frame, opt, nh, nw, decoded.h, decoded.w, env))
    ensures !RunsPostResize(opt, nh, nw, decoded.h, decoded.w) ==> Run(decoded, opt, env, ranked) == Success(Some(frame))
  {
  }

  /**
   * Without options nothing is resized, so a run that returns an image returns one of the
   * decoded image's size, and no face is skipped.
   */
  lemma NoOptionsKeepsSize(decoded: Image, env: Env, ranked: seq<Detection>)
    ensures Run(decoded, None, env, ranked).Success? ==>
      var out := Run(decoded, None, env, ranked).value;
      out.Some? && out.value.h == decoded.h && out.value.w == decoded.w
    ensures forall k :: 0 <= k < |ranked| ==> !FaceOf(k, ranked[k], decoded, None, env).result.Skipped?
  {
  }

  /**
   * End to end: when a run with faces succeeds and no post-composite resize is scheduled, every
   * pixel outside the drawn stencils of the processed faces is the frame's pixel.
   */
  lemma RunKeepsPixelsOutsideStencils(decoded: Image, opt: Option<Options>, env: Env, ranked: seq<Detection>,
                                      nh: int, nw: int, frame: Image, out: Image, x: int, y: int)
    requires TargetDims(opt, decoded.h, decoded.w) == Success((nh, nw))
    requires !RunsPostResize(opt, nh, nw, decoded.h, decoded.w)
    requires PreResized(decoded, opt, nh, nw, env) == Success(frame)
    requires 0 <= x < frame.w && 0 <= y < frame.h
    requires Run(decoded, opt, env, ranked) == Success(Some(out))
    requires forall k :: 0 <= k < |ranked| ==>
      StyleFor(opt, k, Area(FaceBox(ranked[k])), ranked[k].q, frame.h, frame.w).None? ||
      !Stencil(FaceEllipse(ranked[k], frame.h, frame.w), x, y)
    ensures out.h == frame.h && out.w == frame.w && out.rows[y][x] == frame.rows[y][x]
  {
    var faces := Faces(ranked, frame, opt, env);
    if env.detect(frame).value != [] {
      ComposeKeepsUnmaskedPixels(frame, faces, env.over, out, x, y);
    }
  }
}
