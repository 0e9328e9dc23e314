/**
 * The ellipse stencil of core/ellipse.go: an alpha-only image whose pixel at (x, y) is opaque
 * when (x-cx)^2/rx^2 + (y-cy)^2/ry^2 <= 1 in float64 arithmetic, and whose bounds are the
 * half-open rectangle [cx-rx, cx+rx) x [cy-ry, cy+ry).
 */
module EllipseStencil {
  import opened GoNumeric
  import opened Raster

  /** The fields of the `ellipse` struct; `width` and `height` are stored but never read. */
  datatype Ellipse = Ellipse(cx: int, cy: int, rx: int, ry: int, width: int, height: int)

  const Opaque: byte := 255
  const Clear: byte := 0

  /** `Bounds()`: the rectangle of the mask, 2rx wide and 2ry high, centred on (cx, cy). */
  function Bounds(e: Ellipse): (r: Rect)
    ensures r.maxX - r.minX == 2 * e.rx && r.maxY - r.minY == 2 * e.ry
    ensures r.minX + r.maxX == 2 * e.cx && r.minY + r.maxY == 2 * e.cy
  {
    Rect(e.cx - e.rx, e.cy - e.ry, e.cx + e.rx, e.cy + e.ry)
  }

  /** The left side of the ellipse equation, `p1 + p2`, evaluated as float64. */
  function Equation(e: Ellipse, x: int, y: int): F64
  {
    var dx, dy := x - e.cx, y - e.cy;
    Add(Div(dx * dx, e.rx * e.rx), Div(dy * dy, e.ry * e.ry))
  }

  /** `At(x, y)`: the alpha of the stencil at (x, y). */
  function At(e: Ellipse, x: int, y: int): (alpha: byte)
    ensures alpha == Opaque || alpha == Clear
  {
    if AtMostOne(Equation(e, x, y)) then Opaque else Clear
  }

  /** The integer form of the ellipse test: both radii non-zero and dx^2 ry^2 + dy^2 rx^2 <= rx^2 ry^2. */
  predicate InsideExact(e: Ellipse, x: int, y: int)
  {
    var dx, dy := x - e.cx, y - e.cy;
    e.rx != 0 && e.ry != 0 &&
    dx * dx * (e.ry * e.ry) + dy * dy * (e.rx * e.rx) <= (e.rx * e.rx) * (e.ry * e.ry)
  }

  /** The pixels `draw.Draw` takes from the stencil: opaque and inside `Bounds()`. */
  predicate Stencil(e: Ellipse, x: int, y: int)
  {
    Contains(Bounds(e), x, y) && At(e, x, y) == Opaque
  }

  lemma CrossMultiply(a: int, b: int, p: int, q: int)
    requires 0 <= a && 0 <= b && 0 < p && 0 < q
    ensures (a as real / p as real + b as real / q as real <= 1.0) <==> a * q + b * p <= p * q
  {
    var s := a as real / p as real + b as real / q as real;
    var pq := p as real * q as real;
    assert s * pq == (a * q + b * p) as real;
    assert pq == (p * q) as real;
    assert 0.0 < pq;
    if s <= 1.0 {
      assert s * pq <= 1.0 * pq;
    } else {
      assert s * pq > 1.0 * pq;
    }
  }

  lemma SquareNonNegative(n: int)
    ensures 0 <= n * n
    ensures n != 0 ==> 0 < n * n
  {
  }

  /** The float test of `At` agrees with the integer test: opaque exactly when `InsideExact`. */
  lemma AtIffInsideExact(e: Ellipse, x: int, y: int)
    ensures At(e, x, y) == Opaque <==> InsideExact(e, x, y)
  {
    var dx, dy := x - e.cx, y - e.cy;
    SquareNonNegative(dx);
    SquareNonNegative(dy);
    SquareNonNegative(e.rx);
    SquareNonNegative(e.ry);
    if e.rx != 0 && e.ry != 0 {
      CrossMultiply(dx * dx, dy * dy, e.rx * e.rx, e.ry * e.ry);
    } else {
      DegenerateIsClear(e, x, y);
    }
  }

  /** With a zero radius the equation is NaN or +Inf at every pixel, so the stencil is empty. */
  lemma DegenerateIsClear(e: Ellipse, x: int, y: int)
    requires e.rx == 0 || e.ry == 0
    ensures At(e, x, y) == Clear
  {
    var dx, dy := x - e.cx, y - e.cy;
    SquareNonNegative(dx);
    SquareNonNegative(dy);
    SquareNonNegative(e.rx);
    SquareNonNegative(e.ry);
  }

  /** With non-zero radii the centre is opaque. */
  lemma CentreIsOpaque(e: Ellipse)
    requires e.rx != 0 && e.ry != 0
    ensures At(e, e.cx, e.cy) == Opaque
  {
    AtIffInsideExact(e, e.cx, e.cy);
    SquareNonNegative(e.rx);
    SquareNonNegative(e.ry);
    assert 0 < (e.rx * e.rx) * (e.ry * e.ry);
  }

  /** Reflecting dx or dy about the centre does not change the alpha. */
  lemma Symmetric(e: Ellipse, dx: int, dy: int)
    ensures At(e, e.cx + dx, e.cy + dy) == At(e, e.cx - dx, e.cy + dy)
    ensures At(e, e.cx + dx, e.cy + dy) == At(e, e.cx + dx, e.cy - dy)
  {
    assert (-dx) * (-dx) == dx * dx;
    assert (-dy) * (-dy) == dy * dy;
    assert (e.cx + dx) - e.cx == dx && (e.cx - dx) - e.cx == -dx;
    assert (e.cy + dy) - e.cy == dy && (e.cy - dy) - e.cy == -dy;
  }

  function Abs(n: int): int { if n < 0 then -n else n }

  lemma SquaresOrdered(a: int, b: int)
    requires a * a <= b * b
    ensures Abs(a) <= Abs(b)
  {
  }

  /** Every opaque pixel lies within rx columns and ry rows of the centre. */
  lemma OpaqueWithinRadii(e: Ellipse, x: int, y: int)
    requires At(e, x, y) == Opaque
    ensures Abs(x - e.cx) <= Abs(e.rx) && Abs(y - e.cy) <= Abs(e.ry)
  {
    AtIffInsideExact(e, x, y);
    var dx, dy := x - e.cx, y - e.cy;
    var rx2, ry2 := e.rx * e.rx, e.ry * e.ry;
    SquareNonNegative(dx);
    SquareNonNegative(dy);
    SquareNonNegative(e.rx);
    SquareNonNegative(e.ry);
    assert 0 <= dy * dy * rx2 && 0 <= dx * dx * ry2;
    assert dx * dx * ry2 <= rx2 * ry2;
    assert dy * dy * rx2 <= ry2 * rx2;
    SquaresOrdered(dx, e.rx);
    SquaresOrdered(dy, e.ry);
  }

  /** One row past the vertical radius is outside: (cx, cy+ry+1) is clear. */
  lemma BelowRadiusIsClear(e: Ellipse)
    requires 0 <= e.ry
    ensures At(e, e.cx, e.cy + e.ry + 1) == Clear
  {
    if At(e, e.cx, e.cy + e.ry + 1) == Opaque {
      OpaqueWithinRadii(e, e.cx, e.cy + e.ry + 1);
    }
  }

  /** `At` and `Bounds` never read `width` and `height`. */
  lemma SizeFieldsUnused(e: Ellipse, width: int, height: int, x: int, y: int)
    ensures At(e.(width := width, height := height), x, y) == At(e, x, y)
    ensures Bounds(e.(width := width, height := height)) == Bounds(e)
  {
  }

  /**
   * Because `Bounds()` is half-open, the right-most and bottom-most opaque pixels
   * (cx+rx, cy) and (cx, cy+ry) are never taken into the stencil that is drawn.
   */
  lemma EdgesOutsideBounds(e: Ellipse)
    requires 0 < e.rx && 0 < e.ry
    ensures At(e, e.cx + e.rx, e.cy) == Opaque && !Stencil(e, e.cx + e.rx, e.cy)
    ensures At(e, e.cx, e.cy + e.ry) == Opaque && !Stencil(e, e.cx, e.cy + e.ry)
  {
    AtIffInsideExact(e, e.cx + e.rx, e.cy);
    AtIffInsideExact(e, e.cx, e.cy + e.ry);
  }
}
