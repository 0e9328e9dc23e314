/**
 * The face task of `FaceMask` (core/facemask.go, the closure run for each ranked detection) and
 * the state of the two shared buffers after a sequence of tasks.
 */
module FaceTasks {
  import opened Wrappers
  import opened Errors
  import opened Raster
  import opened EllipseStencil
  import opened Config
  import opened ResizePolicy
  import opened Ranking
  import opened FaceGeometry
  import opened Buffers

  /** The collaborators the core calls but does not define. */
  datatype Env = Env(
    /** caire's content-aware resize, given (src, newWidth, newHeight) */
    caire: ContentAware,
    /** an x/image/draw kernel scale, per destination pixel */
    sample: Sampler,
    /** pigo's face detector: the cascade run on the frame, then clustering of its detections */
    detect: Image -> Result<seq<Detection>, Error>,
    /** `triangle.Image.Draw` of a sub-image with a style */
    triangulate: (Processor, Image) -> Result<Image, Error>,
    /** `draw.Over` for one pixel, (dst, src) */
    over: Blend)

  /** The style of the face of rank `rank`: the policy's answer, or `Processor{}` without a policy. */
  function StyleFor(opt: Option<Options>, rank: int, area: int, q: real, h: int, w: int): (s: Option<Processor>)
    ensures opt.None? || opt.value.triangleConfig.None? ==> s == Some(DefaultProcessor)
    ensures s.None? <==> opt.Some? && opt.value.triangleConfig.Some? && opt.value.triangleConfig.value(rank, area, q, h, w).None?
  {
    if opt.Some? && opt.value.triangleConfig.Some? then opt.value.triangleConfig.value(rank, area, q, h, w)
    else Some(DefaultProcessor)
  }

  /**
   * The sub-image handed to the triangulator: a fresh buffer the size of the face box with the
   * frame's pixels inside the box drawn over transparent black, transparent where the box leaves
   * the frame. Pixel (i, j) of the result is frame pixel (box.minX + i, box.minY + j).
   */
  function Crop(base: Image, box: Rect, over: Blend): (sub: Image)
    requires box.minX <= box.maxX && box.minY <= box.maxY
    ensures sub.h == box.maxY - box.minY && sub.w == box.maxX - box.minX
    ensures forall j, i :: 0 <= j < sub.h && 0 <= i < sub.w && !Contains(Frame(base.h, base.w), box.minX + i, box.minY + j) ==>
      sub.rows[j][i] == Transparent
  {
    var h, w := box.maxY - box.minY, box.maxX - box.minX;
    var rows := seq(h, j requires 0 <= j < h =>
                  seq(w, i requires 0 <= i < w =>
                    if Contains(Frame(base.h, base.w), box.minX + i, box.minY + j)
                    then over(Transparent, base.rows[box.minY + j][box.minX + i])
                    else Transparent));
    Raster(h, w, rows)
  }

  /** The crop reads only the frame's pixels inside the box: frames that agree there give the same crop. */
  lemma CropReadsOnlyTheBox(b1: Image, b2: Image, box: Rect, over: Blend)
    requires box.minX <= box.maxX && box.minY <= box.maxY
    requires b1.h == b2.h && b1.w == b2.w
    requires forall y, x :: 0 <= y < b1.h && 0 <= x < b1.w && Contains(box, x, y) ==> b1.rows[y][x] == b2.rows[y][x]
    ensures Crop(b1, box, over) == Crop(b2, box, over)
  {
    var c1, c2 := Crop(b1, box, over), Crop(b2, box, over);
    forall j, i | 0 <= j < c1.h && 0 <= i < c1.w
      ensures c1.rows[j][i] == c2.rows[j][i]
    {
      if Contains(Frame(b1.h, b1.w), box.minX + i, box.minY + j) {
        assert Contains(box, box.minX + i, box.minY + j);
      }
    }
    SamePixels(c1, c2);
  }

  /** What a face task ends with: skipped by the policy, failed in the triangulator, or a rendering. */
  datatype TaskResult = Skipped | Failed(error: Error) | Rendered(img: Image)

  /** A face as the task sees it: its box, its ellipse and how the task ended. */
  datatype Face = Face(box: Rect, ellipse: Ellipse, result: TaskResult)

  /** The task of the detection `d` at rank `rank` in the frame `base`. */
  function FaceOf(rank: nat, d: Detection, base: Image, opt: Option<Options>, env: Env): Face
  {
    var box := FaceBox(d);
    var e := FaceEllipse(d, base.h, base.w);
    match StyleFor(opt, rank, Area(box), d.q, base.h, base.w)
    case None => Face(box, e, Skipped)
    case Some(style) =>
      match env.triangulate(style, Crop(base, box, env.over))
      case Failure(err) => Face(box, e, Failed(err))
      case Success(img) => Face(box, e, Rendered(img))
  }

  /** A task reads the frame only inside its own box: frames that agree there give the same face. */
  lemma FaceReadsOnlyItsBox(rank: nat, d: Detection, b1: Image, b2: Image, opt: Option<Options>, env: Env)
    requires b1.h == b2.h && b1.w == b2.w
    requires forall y, x :: 0 <= y < b1.h && 0 <= x < b1.w && Contains(FaceBox(d), x, y) ==> b1.rows[y][x] == b2.rows[y][x]
    ensures FaceOf(rank, d, b1, opt, env) == FaceOf(rank, d, b2, opt, env)
  {
    CropReadsOnlyTheBox(b1, b2, FaceBox(d), env.over);
  }

  /** The union-mask pixels a face sets: its drawn stencil, unless the policy skipped it. */
  predicate Marks(f: Face, x: int, y: int)
  {
    !f.result.Skipped? && Stencil(f.ellipse, x, y)
  }

  /** The template pixel after a face is pasted over `prev`. */
  function Paints(f: Face, prev: Pixel, x: int, y: int, over: Blend): Pixel
  {
    if f.result.Rendered? && PasteCovers(f.box, f.result.img, x, y)
    then over(prev, f.result.img.rows[y - f.box.minY][x - f.box.minX])
    else prev
  }

  /** The union mask after the tasks of `faces`, run in order on a transparent buffer. */
  function MaskAt(faces: seq<Face>, x: int, y: int): bool
  {
    if faces == [] then false
    else MaskAt(faces[..|faces| - 1], x, y) || Marks(faces[|faces| - 1], x, y)
  }

  /** The face template after the tasks of `faces`, run in order on a transparent buffer. */
  function TemplateAt(faces: seq<Face>, x: int, y: int, over: Blend): Pixel
  {
    if faces == [] then Transparent
    else Paints(faces[|faces| - 1], TemplateAt(faces[..|faces| - 1], x, y, over), x, y, over)
  }

  /** The error the group reports: that of the first failed task. */
  function FirstError(faces: seq<Face>): Option<Error>
  {
    if faces == [] then None
    else if FirstError(faces[..|faces| - 1]).Some? then FirstError(faces[..|faces| - 1])
    else if faces[|faces| - 1].result.Failed? then Some(faces[|faces| - 1].result.error)
    else None
  }

  /** Running one more task: the buffers and the reported error after the first k + 1 tasks. */
  lemma AppendTask(faces: seq<Face>, k: nat, x: int, y: int, over: Blend)
    requires k < |faces|
    ensures MaskAt(faces[..k + 1], x, y) == (MaskAt(faces[..k], x, y) || Marks(faces[k], x, y))
    ensures TemplateAt(faces[..k + 1], x, y, over) == Paints(faces[k], TemplateAt(faces[..k], x, y, over), x, y, over)
    ensures FirstError(faces[..k + 1]) ==
      if FirstError(faces[..k]).Some? then FirstError(faces[..k])
      else if faces[k].result.Failed? then Some(faces[k].result.error) else None
  {
    assert faces[..k + 1][..k] == faces[..k];
  }

  /** The union mask is set exactly where some processed face's stencil is opaque. */
  lemma {:induction false} MaskIsUnionOfStencils(faces: seq<Face>, x: int, y: int)
    ensures MaskAt(faces, x, y) <==> exists k :: 0 <= k < |faces| && Marks(faces[k], x, y)
  {
    if faces != [] {
      var init := faces[..|faces| - 1];
      MaskIsUnionOfStencils(init, x, y);
      if MaskAt(init, x, y) {
        var k :| 0 <= k < |init| && Marks(init[k], x, y);
        assert faces[k] == init[k];
      }
      if exists k :: 0 <= k < |faces| && Marks(faces[k], x, y) {
        var k :| 0 <= k < |faces| && Marks(faces[k], x, y);
        if k < |init| {
          assert init[k] == faces[k];
        }
      }
    }
  }

  /** Where no rendering is pasted the template stays transparent black. */
  lemma {:induction false} TemplateBlackOutsidePastes(faces: seq<Face>, x: int, y: int, over: Blend)
    requires forall k :: 0 <= k < |faces| && faces[k].result.Rendered? ==> !PasteCovers(faces[k].box, faces[k].result.img, x, y)
    ensures TemplateAt(faces, x, y, over) == Transparent
  {
    if faces != [] {
      TemplateBlackOutsidePastes(faces[..|faces| - 1], x, y, over);
    }
  }

  /** The group fails exactly when some task failed, with the error of the first one. */
  lemma {:induction false} FirstErrorIsEarliestFailure(faces: seq<Face>)
    ensures FirstError(faces).None? <==> forall k :: 0 <= k < |faces| ==> !faces[k].result.Failed?
    ensures FirstError(faces).Some? ==>
      exists k :: 0 <= k < |faces| && faces[k].result.Failed? && FirstError(faces) == Some(faces[k].result.error) &&
                  forall j :: 0 <= j < k ==> !faces[j].result.Failed?
  {
    if faces != [] {
      var init := faces[..|faces| - 1];
      FirstErrorIsEarliestFailure(init);
      assert forall k :: 0 <= k < |init| ==> init[k] == faces[k];
    }
  }

  /**
   * One face task. A skipped face writes nothing; otherwise the ellipse is drawn into the
   * union mask, and the rendering, if the triangulator gives one, is pasted into the template.
   * The error of a failed triangulation is returned.
   */
  method FaceTask(rank: nat, d: Detection, base: Image, opt: Option<Options>, env: Env,
                  mask: array2<bool>, template: array2<Pixel>) returns (err: Option<Error>)
    requires mask.Length0 == template.Length0 == base.h && mask.Length1 == template.Length1 == base.w
    modifies mask, template
    ensures var f := FaceOf(rank, d, base, opt, env);
      (forall y, x :: 0 <= y < base.h && 0 <= x < base.w ==> mask[y, x] == (old(mask[y, x]) || Marks(f, x, y))) &&
      (forall y, x :: 0 <= y < base.h && 0 <= x < base.w ==> template[y, x] == Paints(f, old(template[y, x]), x, y, env.over)) &&
      err == (if f.result.Failed? then Some(f.result.error) else None)
  {
    var box := FaceBox(d);
    var area := Area(box);
    var style := StyleFor(opt, rank, area, d.q, base.h, base.w);
    var e := FaceEllipse(d, base.h, base.w);
    if style.None? {
      assert FaceOf(rank, d, base, opt, env) == Face(box, e, Skipped);
      return None;
    }
    var sub := Crop(base, box, env.over);
    var rendered := env.triangulate(style.value, sub);
    ghost var f := Face(box, e, if rendered.Failure? then Failed(rendered.error) else Rendered(rendered.value));
    assert FaceOf(rank, d, base, opt, env) == f;
    DrawEllipse(mask, e);
    if rendered.Failure? {
      return Some(rendered.error);
    }
    Paste(template, box, rendered.value, env.over);
    return None;
  }
}
