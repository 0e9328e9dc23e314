/**
 * Pixels, image values, rectangles and the clipping rule of Go's `image` and `image/draw` packages.
 * An image handed to or returned by a collaborator is a value (`Image`); a buffer the core changes
 * in place is an `array2<Pixel>` indexed `[y, x]`, with origin (0, 0).
 */
module Raster {

  newtype byte = n: int | 0 <= n < 256

  /** A non-premultiplied RGBA pixel (`color.NRGBA`). */
  datatype Pixel = Pixel(r: byte, g: byte, b: byte, a: byte)

  /** The zero pixel of a fresh `image.NewNRGBA` buffer: transparent black. */
  const Transparent := Pixel(0, 0, 0, 0)

  /** A raster of `h` rows of `w` pixels each, with origin (0, 0). */
  datatype Raster = Raster(h: nat, w: nat, rows: seq<seq<Pixel>>)

  predicate WellShaped(r: Raster)
  {
    |r.rows| == r.h && forall y :: 0 <= y < r.h ==> |r.rows[y]| == r.w
  }

  type Image = r: Raster | WellShaped(r) witness Raster(0, 0, [])


  /** Two images are equal when they have the same size and the same pixels. */
  lemma SamePixels(a: Image, b: Image)
    requires a.h == b.h && a.w == b.w
    requires forall y, x :: 0 <= y < a.h && 0 <= x < a.w ==> a.rows[y][x] == b.rows[y][x]
    ensures a == b
  {
    assert forall y | 0 <= y < a.h :: a.rows[y] == b.rows[y];
  }

  /** `image.Rectangle`: the half-open set of points [minX, maxX) x [minY, maxY). */
  datatype Rect = Rect(minX: int, minY: int, maxX: int, maxY: int)

  predicate Contains(r: Rect, x: int, y: int)
  {
    r.minX <= x < r.maxX && r.minY <= y < r.maxY
  }

  function Min(a: int, b: int): int { if a <= b then a else b }

  function Max(a: int, b: int): int { if a <= b then b else a }

  /** `Rectangle.Intersect`: the points in both rectangles. */
  function Intersect(a: Rect, b: Rect): (r: Rect)
    ensures forall x, y :: Contains(r, x, y) <==> Contains(a, x, y) && Contains(b, x, y)
  {
    Rect(Max(a.minX, b.minX), Max(a.minY, b.minY), Min(a.maxX, b.maxX), Min(a.maxY, b.maxY))
  }

  /** The bounds of a buffer of `h` rows and `w` columns. */
  function Frame(h: int, w: int): Rect
  {
    Rect(0, 0, w, h)
  }

  /** `draw.Over` for one pixel: the result of compositing `src` over `dst` (a collaborator). */
  type Blend = (Pixel, Pixel) -> Pixel

  /** The image value a buffer holds. */
  function Snapshot(a: array2<Pixel>): (img: Image)
    reads a
    ensures img.h == a.Length0 && img.w == a.Length1
    ensures forall y, x :: 0 <= y < a.Length0 && 0 <= x < a.Length1 ==> img.rows[y][x] == a[y, x]
  {
    var rows := seq(a.Length0, y requires 0 <= y < a.Length0 reads a =>
                  seq(a.Length1, x requires 0 <= x < a.Length1 reads a => a[y, x]));
    Raster(a.Length0, a.Length1, rows)
  }

  /** A buffer holding `img` (the NRGBA buffer the pipeline draws on). */
  method NewBuffer(img: Image) returns (a: array2<Pixel>)
    ensures fresh(a) && Snapshot(a) == img
  {
    a := new Pixel[img.h, img.w]((y, x) requires 0 <= y < img.h && 0 <= x < img.w => img.rows[y][x]);
    ghost var s := Snapshot(a);
    assert forall y | 0 <= y < img.h :: s.rows[y] == img.rows[y];
  }
}
