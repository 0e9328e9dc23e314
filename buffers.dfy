/**
 * The three in-place draws of `FaceMask` (core/facemask.go): the ellipse drawn into the union
 * mask, the rendered face pasted into the face template, and the masked composite onto the
 * frame. Each buffer is indexed `[y, x]` and has the frame's bounds; `draw.Draw` clips to
 * the intersection of the destination rectangle, the buffer and the source's bounds.
 */
module Buffers {
  import opened Raster
  import opened EllipseStencil

  /**
   * The draw of a face's ellipse over the union mask, clipped to the mask. The stencil's
   * alpha is 0 or 255, so drawing it over keeps every set pixel and sets the opaque ones:
   * the mask becomes its old value OR the stencil.
   */
  method DrawEllipse(mask: array2<bool>, e: Ellipse)
    modifies mask
    ensures forall y, x :: 0 <= y < mask.Length0 && 0 <= x < mask.Length1 ==>
      mask[y, x] == (old(mask[y, x]) || Stencil(e, x, y))
  {
    var clip := Intersect(Frame(mask.Length0, mask.Length1), Bounds(e));
    if clip.minY < clip.maxY && clip.minX < clip.maxX {
      var y := clip.minY;
      while y < clip.maxY
        invariant clip.minY <= y <= clip.maxY
        invariant forall j, i :: 0 <= j < mask.Length0 && 0 <= i < mask.Length1 ==>
          mask[j, i] == (old(mask[j, i]) || (j < y && Stencil(e, i, j)))
      {
        var x := clip.minX;
        while x < clip.maxX
          invariant clip.minX <= x <= clip.maxX
          invariant forall j, i :: 0 <= j < mask.Length0 && 0 <= i < mask.Length1 ==>
            mask[j, i] == (old(mask[j, i]) || ((j < y || (j == y && i < x)) && Stencil(e, i, j)))
        {
          mask[y, x] := mask[y, x] || At(e, x, y) == Opaque;
          x := x + 1;
        }
        y := y + 1;
      }
    }
  }

  /** The template pixels a paste of `img` at `box` writes: in the box and inside the rendering's bounds. */
  predicate PasteCovers(box: Rect, img: Image, x: int, y: int)
  {
    Contains(box, x, y) && 0 <= x - box.minX < img.w && 0 <= y - box.minY < img.h
  }

  /**
   * The draw of a face's rendering over the face template, into the face box clipped to the
   * template; pixel (x, y) of the box takes the rendering's pixel (x - box.minX, y - box.minY).
   */
  method Paste(template: array2<Pixel>, box: Rect, img: Image, over: Blend)
    modifies template
    ensures forall y, x :: 0 <= y < template.Length0 && 0 <= x < template.Length1 ==>
      template[y, x] == if PasteCovers(box, img, x, y)
                        then over(old(template[y, x]), img.rows[y - box.minY][x - box.minX])
                        else old(template[y, x])
  {
    var clip := Intersect(Intersect(Frame(template.Length0, template.Length1), box),
                          Rect(box.minX, box.minY, box.minX + img.w, box.minY + img.h));
    if clip.minY < clip.maxY && clip.minX < clip.maxX {
      var y := clip.minY;
      while y < clip.maxY
        invariant clip.minY <= y <= clip.maxY
        invariant forall j, i :: 0 <= j < template.Length0 && 0 <= i < template.Length1 ==>
          template[j, i] == if j < y && PasteCovers(box, img, i, j)
                            then over(old(template[j, i]), img.rows[j - box.minY][i - box.minX])
                            else old(template[j, i])
      {
        var x := clip.minX;
        while x < clip.maxX
          invariant clip.minX <= x <= clip.maxX
          invariant forall j, i :: 0 <= j < template.Length0 && 0 <= i < template.Length1 ==>
            template[j, i] == if (j < y || (j == y && i < x)) && PasteCovers(box, img, i, j)
                              then over(old(template[j, i]), img.rows[j - box.minY][i - box.minX])
                              else old(template[j, i])
        {
          template[y, x] := over(template[y, x], img.rows[y - box.minY][x - box.minX]);
          x := x + 1;
        }
        y := y + 1;
      }
    }
  }

  /**
   * The masked draw of the face template over the whole frame through the union mask:
   * where the mask is set the template pixel is composited over the frame; elsewhere the
   * mask's alpha is 0 and the frame pixel is kept.
   */
  method Composite(frame: array2<Pixel>, template: array2<Pixel>, mask: array2<bool>, over: Blend)
    requires frame != template
    requires template.Length0 == mask.Length0 == frame.Length0 && template.Length1 == mask.Length1 == frame.Length1
    modifies frame
    ensures forall y, x :: 0 <= y < frame.Length0 && 0 <= x < frame.Length1 ==>
      frame[y, x] == if mask[y, x] then over(old(frame[y, x]), template[y, x]) else old(frame[y, x])
  {
    var y := 0;
    while y < frame.Length0
      invariant 0 <= y <= frame.Length0
      invariant forall j, i :: 0 <= j < frame.Length0 && 0 <= i < frame.Length1 ==>
        frame[j, i] == if j < y && mask[j, i] then over(old(frame[j, i]), template[j, i]) else old(frame[j, i])
    {
      var x := 0;
      while x < frame.Length1
        invariant 0 <= x <= frame.Length1
        invariant forall j, i :: 0 <= j < frame.Length0 && 0 <= i < frame.Length1 ==>
          frame[j, i] == if (j < y || (j == y && i < x)) && mask[j, i]
                         then over(old(frame[j, i]), template[j, i]) else old(frame[j, i])
      {
        if mask[y, x] {
          frame[y, x] := over(frame[y, x], template[y, x]);
        }
        x := x + 1;
      }
      y := y + 1;
    }
  }
}
