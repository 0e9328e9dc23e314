/**
 * The per-face geometry of the face task in `FaceMask` (core/facemask.go): the face box
 * (`facesize`), its area, and the ellipse drawn into the union mask. Every float64 expression
 * of the source is evaluated exactly and then truncated toward zero, as `int(...)` does.
 */
module FaceGeometry {
  import opened GoNumeric
  import opened Raster
  import opened EllipseStencil
  import opened Ranking

  /** One side of the box: [int(c - scale/2), int(c + scale/2)). */
  function SideLow(c: int, scale: nat): int { Trunc(c as real - scale as real / 2.0) }

  function SideHigh(c: int, scale: nat): int { Trunc(c as real + scale as real / 2.0) }

  /** `facesize`: the box of side `scale` around (col, row), each corner truncated toward zero. */
  function FaceBox(d: Detection): (box: Rect)
    ensures box.minX <= box.maxX && box.minY <= box.maxY
  {
    TruncMonotone(d.col as real - d.scale as real / 2.0, d.col as real + d.scale as real / 2.0);
    TruncMonotone(d.row as real - d.scale as real / 2.0, d.row as real + d.scale as real / 2.0);
    Rect(SideLow(d.col, d.scale), SideLow(d.row, d.scale), SideHigh(d.col, d.scale), SideHigh(d.row, d.scale))
  }

  /** `area`: box height times box width. */
  function Area(box: Rect): int
  {
    (box.maxY - box.minY) * (box.maxX - box.minX)
  }

  /**
   * The length a side of the box has: `scale`, except that an odd side that straddles 0 loses
   * one, because both of its ends are truncated toward zero.
   */
  function ExpectedSide(c: int, scale: nat): int
  {
    if scale % 2 == 1 && -(scale as int) < 2 * c < scale then scale - 1 else scale
  }

  lemma SideLength(c: int, scale: nat)
    ensures SideHigh(c, scale) - SideLow(c, scale) == ExpectedSide(c, scale)
  {
    var m := scale / 2;
    if scale % 2 == 0 {
      assert c as real - scale as real / 2.0 == (c - m) as real;
      assert c as real + scale as real / 2.0 == (c + m) as real;
      TruncOfInt(c - m);
      TruncOfInt(c + m);
    } else {
      assert c as real - scale as real / 2.0 == (c - m - 1) as real + 0.5;
      assert c as real + scale as real / 2.0 == (c + m) as real + 0.5;
      TruncHalf(c - m - 1);
      TruncHalf(c + m);
    }
  }

  /** The box area is the product of the two side lengths of `SideLength`. */
  lemma AreaOfFace(d: Detection)
    ensures Area(FaceBox(d)) == ExpectedSide(d.row, d.scale) * ExpectedSide(d.col, d.scale)
    ensures d.scale % 2 == 0 ==> Area(FaceBox(d)) == d.scale * d.scale
  {
    SideLength(d.row, d.scale);
    SideLength(d.col, d.scale);
  }

  /** The horizontal radius: 0.8 of the scale, halved, truncated toward zero. */
  function RadiusX(scale: nat): int { Trunc(scale as real * 0.8 / 2.0) }

  /** The vertical radius: 0.8 of the scale divided by 1.6, truncated toward zero. */
  function RadiusY(scale: nat): int { Trunc(scale as real * 0.8 / 1.6) }

  /** In exact arithmetic the radii are 2/5 and 1/2 of the scale, rounded down; scale 60 gives 24 and 30. */
  lemma RadiiExact(scale: nat)
    ensures RadiusX(scale) == 2 * scale / 5 && RadiusY(scale) == scale / 2
    ensures scale == 60 ==> RadiusX(scale) == 24 && RadiusY(scale) == 30
  {
    var fx, fy := scale as real * 0.8 / 2.0, scale as real * 0.8 / 1.6;
    assert fx == (2 * scale) as real / 5.0;
    assert fy == scale as real / 2.0;
    var qx, qy := 2 * scale / 5, scale / 2;
    assert qx * 5 <= 2 * scale < qx * 5 + 5;
    assert qy * 2 <= scale < qy * 2 + 2;
    assert qx as real <= fx < qx as real + 1.0;
    assert qy as real <= fy < qy as real + 1.0;
  }

  /** The ellipse of a face in a frame of `h` rows and `w` columns. */
  function FaceEllipse(d: Detection, h: int, w: int): (e: Ellipse)
    ensures e.cx == d.col && e.cy == d.row && e.width == w && e.height == h
    ensures e.rx == 2 * d.scale / 5 && e.ry == d.scale / 2
  {
    RadiiExact(d.scale);
    Ellipse(d.col, d.row, RadiusX(d.scale), RadiusY(d.scale), w, h)
  }

  /** The drawn part of a face's ellipse lies inside the face's box. */
  lemma StencilInsideFaceBox(d: Detection, h: int, w: int, x: int, y: int)
    requires Stencil(FaceEllipse(d, h, w), x, y)
    ensures Contains(FaceBox(d), x, y)
  {
    var e := FaceEllipse(d, h, w);
    TruncBelowInt(d.col as real - d.scale as real / 2.0, d.col - e.rx);
    TruncAboveInt(d.col as real + d.scale as real / 2.0, d.col + e.rx);
    TruncBelowInt(d.row as real - d.scale as real / 2.0, d.row - e.ry);
    TruncAboveInt(d.row as real + d.scale as real / 2.0, d.row + e.ry);
  }
}

/** A worked example: one face of scale 60 centred at (100, 100). */
module FaceGeometryExample {
  import opened EllipseStencil
  import opened Ranking
  import opened FaceGeometry

  /** Its ellipse has radii 24 and 30; the centre is opaque and (100, 131) is clear. */
  lemma ScaleSixtyFace(q: real, h: int, w: int)
    ensures var e := FaceEllipse(Detection(100, 100, 60, q), h, w);
      e.rx == 24 && e.ry == 30 && At(e, 100, 100) == Opaque && At(e, 100, 131) == Clear
  {
    var e := FaceEllipse(Detection(100, 100, 60, q), h, w);
    CentreIsOpaque(e);
    BelowRadiusIsClear(e);
  }
}
