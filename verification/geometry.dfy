/**
  The Core Graphics rectangle arithmetic the annotation code relies on:
  `CGRect` with its standardized extents, the axis-aligned `CGAffineTransform`s
  the code builds (`scaledBy`, `translatedBy`), `CGRect.applying` and
  `CGRect.insetBy`. Coordinates are exact reals instead of `CGFloat`.
 */
module Geometry {
  import opened Optional

  /** A length that cannot be negative, such as the width of an image. */
  type Extent = r: real | 0.0 <= r

  function Abs(v: real): real {
    if v < 0.0 then -v else v
  }

  function Min(a: real, b: real): real {
    if a <= b then a else b
  }

  function Max(a: real, b: real): real {
    if a <= b then b else a
  }

  datatype Point = Point(x: real, y: real)

  /**
    A `CGRect`: an origin and a size. As in Core Graphics the size may be
    negative, so the extents below (not the raw fields) say which points the
    rectangle covers.
   */
  datatype Rect = Rect(x: real, y: real, width: real, height: real) {

    function MinX(): real { if width < 0.0 then x + width else x }
    function MaxX(): real { if width < 0.0 then x else x + width }
    function MinY(): real { if height < 0.0 then y + height else y }
    function MaxY(): real { if height < 0.0 then y else y + height }

    predicate IsStandard() {
      0.0 <= width && 0.0 <= height
    }

    predicate Contains(p: Point) {
      MinX() <= p.x <= MaxX() && MinY() <= p.y <= MaxY()
    }

    /** Every point of `inner` is a point of this rectangle. */
    predicate Encloses(inner: Rect) {
      MinX() <= inner.MinX() && inner.MaxX() <= MaxX() &&
      MinY() <= inner.MinY() && inner.MaxY() <= MaxY()
    }
  }

  /** `CGRect.standardized`: the same points, described with a non-negative size. */
  function Standardized(r: Rect): (s: Rect)
    ensures s.IsStandard()
    ensures s.MinX() == r.MinX() && s.MaxX() == r.MaxX()
    ensures s.MinY() == r.MinY() && s.MaxY() == r.MaxY()
  {
    Rect(r.MinX(), r.MinY(), r.MaxX() - r.MinX(), r.MaxY() - r.MinY())
  }

  /**
    A `CGAffineTransform` without rotation or shear, mapping (x, y) to
    (a*x + tx, d*y + ty). Every transform the annotation code builds is of
    this shape (its `b` and `c` coefficients are zero).
   */
  datatype Transform = Transform(a: real, d: real, tx: real, ty: real)

  const Identity: Transform := Transform(1.0, 1.0, 0.0, 0.0)

  function ApplyPoint(t: Transform, p: Point): Point {
    Point(t.a * p.x + t.tx, t.d * p.y + t.ty)
  }

  /** `CGAffineTransform(scaleX:y:)`. */
  function MakeScale(sx: real, sy: real): Transform {
    Transform(sx, sy, 0.0, 0.0)
  }

  /** `t.scaledBy(x:y:)`: the scaling is applied to a point first, then `t`. */
  function ScaledBy(t: Transform, sx: real, sy: real): Transform {
    Transform(t.a * sx, t.d * sy, t.tx, t.ty)
  }

  /** `t.translatedBy(x:y:)`: the translation is applied to a point first, then `t`. */
  function TranslatedBy(t: Transform, dx: real, dy: real): Transform {
    Transform(t.a, t.d, t.a * dx + t.tx, t.d * dy + t.ty)
  }

  /** `s.concatenating(t)`: first `s`, then `t`. */
  function Concatenating(s: Transform, t: Transform): Transform {
    Transform(t.a * s.a, t.d * s.d, t.a * s.tx + t.tx, t.d * s.ty + t.ty)
  }

  /**
    Lower and upper end of the image of an interval [lo, hi] under the axis
    map v |-> a*v + b: a non-negative factor keeps the ends in place, a
    negative one swaps them (see `SpanIsCornerHull`).
   */
  function SpanLo(a: real, b: real, lo: real, hi: real): real {
    if 0.0 <= a then a * lo + b else a * hi + b
  }

  function SpanHi(a: real, b: real, lo: real, hi: real): real {
    if 0.0 <= a then a * hi + b else a * lo + b
  }

  /**
    `CGRect.applying`: the smallest rectangle holding the images of the
    corners of `r` (`SpanIsCornerHull`, `ApplyRectIsTight`); the result is
    always standardized.
   */
  function ApplyRect(r: Rect, t: Transform): Rect {
    var xl := SpanLo(t.a, t.tx, r.MinX(), r.MaxX());
    var xh := SpanHi(t.a, t.tx, r.MinX(), r.MaxX());
    var yl := SpanLo(t.d, t.ty, r.MinY(), r.MaxY());
    var yh := SpanHi(t.d, t.ty, r.MinY(), r.MaxY());
    Rect(xl, yl, xh - xl, yh - yl)
  }

  /**
    `CGRect.insetBy(dx:dy:)`: the standardized rectangle moved in by `dx`
    and `dy` on each side; `None` stands for `CGRect.null`, returned when the
    inset would leave a negative width or height.
   */
  function InsetBy(r: Rect, dx: real, dy: real): Option<Rect> {
    var s := Standardized(r);
    if s.width - 2.0 * dx < 0.0 || s.height - 2.0 * dy < 0.0 then None
    else Some(Rect(s.x + dx, s.y + dy, s.width - 2.0 * dx, s.height - 2.0 * dy))
  }

  // ---------------------------------------------------------------------
  // Properties

  /** `s.concatenating(t)` is composition: it maps a point as `s` followed by `t`. */
  lemma ConcatenatingComposes(s: Transform, t: Transform, p: Point)
    ensures ApplyPoint(Concatenating(s, t), p) == ApplyPoint(t, ApplyPoint(s, p))
  {
    var c := Concatenating(s, t);
    AxisComposes(s.a, s.tx, t.a, t.tx, p.x);
    AxisComposes(s.d, s.ty, t.d, t.ty, p.y);
    assert c.a * p.x + c.tx == t.a * (s.a * p.x + s.tx) + t.tx;
    assert c.d * p.y + c.ty == t.d * (s.d * p.y + s.ty) + t.ty;
  }

  /** One axis of a composition: v |-> a*v + b followed by v |-> c*v + e is v |-> (c*a)*v + (c*b + e). */
  lemma AxisComposes(a: real, b: real, c: real, e: real, v: real)
    ensures c * (a * v + b) + e == (c * a) * v + (c * b + e)
  {
    assert c * (a * v + b) == c * (a * v) + c * b;
    assert c * (a * v) == (c * a) * v;
  }

  /** Multiplication by a non-negative factor is monotone ... */
  lemma MulMonotone(a: real, lo: real, hi: real)
    requires 0.0 <= a && lo <= hi
    ensures a * lo <= a * hi
  {
    assert a * hi - a * lo == a * (hi - lo);
  }

  /** ... and by a negative one antitone. */
  lemma MulAntitone(a: real, lo: real, hi: real)
    requires a < 0.0 && lo <= hi
    ensures a * hi <= a * lo
  {
    assert a * lo - a * hi == (-a) * (hi - lo);
  }

  /** The span of an interval is ordered, and it is the hull of the images of the interval's two ends. */
  lemma SpanIsCornerHull(a: real, b: real, lo: real, hi: real)
    requires lo <= hi
    ensures SpanLo(a, b, lo, hi) <= SpanHi(a, b, lo, hi)
    ensures SpanLo(a, b, lo, hi) == Min(a * lo + b, a * hi + b)
    ensures SpanHi(a, b, lo, hi) == Max(a * lo + b, a * hi + b)
  {
    if 0.0 <= a {
      MulMonotone(a, lo, hi);
    } else {
      MulAntitone(a, lo, hi);
    }
  }

  /** Every value of [lo, hi] is mapped into the span of the interval's image. */
  lemma SpanCovers(a: real, b: real, lo: real, v: real, hi: real)
    requires lo <= v <= hi
    ensures SpanLo(a, b, lo, hi) <= a * v + b <= SpanHi(a, b, lo, hi)
  {
    if 0.0 <= a {
      MulMonotone(a, lo, v);
      MulMonotone(a, v, hi);
    } else {
      MulAntitone(a, lo, v);
      MulAntitone(a, v, hi);
    }
  }

  /** The extents of `CGRect.applying`'s result are the spans of the input's extents. */
  lemma ApplyRectExtents(r: Rect, t: Transform)
    ensures ApplyRect(r, t).IsStandard()
    ensures ApplyRect(r, t).MinX() == SpanLo(t.a, t.tx, r.MinX(), r.MaxX())
    ensures ApplyRect(r, t).MaxX() == SpanHi(t.a, t.tx, r.MinX(), r.MaxX())
    ensures ApplyRect(r, t).MinY() == SpanLo(t.d, t.ty, r.MinY(), r.MaxY())
    ensures ApplyRect(r, t).MaxY() == SpanHi(t.d, t.ty, r.MinY(), r.MaxY())
  {
    SpanIsCornerHull(t.a, t.tx, r.MinX(), r.MaxX());
    SpanIsCornerHull(t.d, t.ty, r.MinY(), r.MaxY());
  }

  /** The rectangle `CGRect.applying` returns holds the image of every point of the input. */
  lemma ApplyRectCoversImage(r: Rect, t: Transform, p: Point)
    requires r.Contains(p)
    ensures ApplyRect(r, t).Contains(ApplyPoint(t, p))
  {
    ApplyRectExtents(r, t);
    SpanCovers(t.a, t.tx, r.MinX(), p.x, r.MaxX());
    SpanCovers(t.d, t.ty, r.MinY(), p.y, r.MaxY());
  }

  /**
    ... and it is the smallest such rectangle: any rectangle holding the
    images of the points of `r` encloses it.
   */
  lemma ApplyRectIsTight(r: Rect, t: Transform, q: Rect)
    requires forall p: Point :: r.Contains(p) ==> q.Contains(ApplyPoint(t, p))
    ensures q.Encloses(ApplyRect(r, t))
  {
    var lo := Point(r.MinX(), r.MinY());
    var hi := Point(r.MaxX(), r.MaxY());
    assert r.Contains(lo) && r.Contains(hi);
    TightHorizontal(r, t, q);
    TightVertical(r, t, q);
    ApplyRectExtents(r, t);
  }

  lemma TightHorizontal(r: Rect, t: Transform, q: Rect)
    requires q.Contains(ApplyPoint(t, Point(r.MinX(), r.MinY())))
    requires q.Contains(ApplyPoint(t, Point(r.MaxX(), r.MaxY())))
    ensures q.MinX() <= SpanLo(t.a, t.tx, r.MinX(), r.MaxX()) && SpanHi(t.a, t.tx, r.MinX(), r.MaxX()) <= q.MaxX()
  {
    SpanWithin(q.MinX(), q.MaxX(), t.a, t.tx, r.MinX(), r.MaxX());
  }

  lemma TightVertical(r: Rect, t: Transform, q: Rect)
    requires q.Contains(ApplyPoint(t, Point(r.MinX(), r.MinY())))
    requires q.Contains(ApplyPoint(t, Point(r.MaxX(), r.MaxY())))
    ensures q.MinY() <= SpanLo(t.d, t.ty, r.MinY(), r.MaxY()) && SpanHi(t.d, t.ty, r.MinY(), r.MaxY()) <= q.MaxY()
  {
    SpanWithin(q.MinY(), q.MaxY(), t.d, t.ty, r.MinY(), r.MaxY());
  }

  /** An interval holding the images of both ends of [lo, hi] holds the whole span. */
  lemma SpanWithin(bottom: real, top: real, a: real, b: real, lo: real, hi: real)
    requires lo <= hi
    requires bottom <= a * lo + b <= top && bottom <= a * hi + b <= top
    ensures bottom <= SpanLo(a, b, lo, hi) && SpanHi(a, b, lo, hi) <= top
  {
  }

  /** A successful inset keeps the centre and shrinks each side by twice the inset. */
  lemma InsetByKeepsCentre(r: Rect, dx: real, dy: real)
    ensures InsetBy(r, dx, dy).Some? <==> 2.0 * dx <= Abs(r.width) && 2.0 * dy <= Abs(r.height)
    ensures InsetBy(r, dx, dy).Some? ==>
      var q := InsetBy(r, dx, dy).value;
      && q.IsStandard()
      && q.MinX() + q.MaxX() == r.MinX() + r.MaxX()
      && q.MinY() + q.MaxY() == r.MinY() + r.MaxY()
      && q.width == Abs(r.width) - 2.0 * dx
      && q.height == Abs(r.height) - 2.0 * dy
      && (0.0 <= dx && 0.0 <= dy ==> r.Encloses(q))
  {
  }

  /** Insetting by a negative amount undoes an inset: the rectangle grows back. */
  lemma InsetByRoundTrip(r: Rect, dx: real, dy: real)
    requires InsetBy(r, dx, dy).Some?
    ensures InsetBy(InsetBy(r, dx, dy).value, -dx, -dy) == Some(Standardized(r))
  {
  }
}
