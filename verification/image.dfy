/**
  The `UIImage` extension that annotates frames: `addBoundingBox` strokes the
  detector's box, mapped from normalized lower-left-origin coordinates to
  top-left-origin image points, and `addBorder` strokes a border just inside
  the image edge. Pixels are abstracted away: an image is its size plus the
  strokes drawn on it, and whether the graphics context produced an image is
  a parameter.
 */
module ImageAnnotation {
  import opened Optional
  import opened Geometry
  import opened Trigger

  /** A `UIColor`; only the red of the bounding box is singled out. */
  datatype Color = Red | Custom(id: nat)

  datatype Stroke = Stroke(rect: Rect, lineWidth: real, color: Color)

  /** A `UIImage`: its size in points and the strokes drawn over its pixels. */
  datatype Image = Image(width: Extent, height: Extent, strokes: seq<Stroke>)

  const BoundingBoxLineWidth: real := 5.0

  /** Normalized detector coordinates to image points (the `scale` transform). */
  function ScaleToImage(width: Extent, height: Extent): Transform {
    ScaledBy(Identity, width, height)
  }

  /** Flip the vertical axis and move the origin to the top edge (the second transform). */
  function FlipToTopLeft(height: Extent): Transform {
    TranslatedBy(MakeScale(1.0, -1.0), 0.0, -(height as real))
  }

  /** The rectangle `addBoundingBox` strokes for a detector box on a `width` x `height` image. */
  function BoxRect(box: Rect, width: Extent, height: Extent): Rect {
    ApplyRect(ApplyRect(box, ScaleToImage(width, height)), FlipToTopLeft(height))
  }

  /** The rectangle `addBorder` strokes, or `None` for `CGRect.null`. */
  function BorderRect(width: Extent, height: Extent, lineWidth: real): Option<Rect> {
    InsetBy(Rect(0.0, 0.0, width, height), lineWidth / 2.0, lineWidth / 2.0)
  }

  /**
    `addBoundingBox(prediction:)`. When the context yields no image the
    receiver itself is returned.
   */
  function AddBoundingBox(image: Image, prediction: Observation, rendered: bool): (r: Image)
    ensures r.width == image.width && r.height == image.height
    ensures !rendered ==> r == image
    ensures rendered ==> |r.strokes| == |image.strokes| + 1 && r.strokes[..|image.strokes|] == image.strokes
    ensures rendered ==>
      r.strokes[|image.strokes|] ==
        Stroke(PlacedBox(Standardized(prediction.boundingBox), image.width, image.height), BoundingBoxLineWidth, Red)
  {
    if !rendered then image
    else
      var box := prediction.boundingBox;
      BoxRectIgnoresOrientation(box, image.width, image.height);
      BoxRectClosedForm(Standardized(box), image.width, image.height);
      var rect := BoxRect(box, image.width, image.height);
      image.(strokes := image.strokes + [Stroke(rect, BoundingBoxLineWidth, Red)])
  }

  /**
    `addBorder(width:color:)`. Stroking `CGRect.null` draws nothing, so a
    line wider than the image leaves the strokes unchanged.
   */
  function AddBorder(image: Image, lineWidth: real, color: Color, rendered: bool): (r: Image)
    ensures r.width == image.width && r.height == image.height
    ensures !rendered ==> r == image
    ensures |image.strokes| <= |r.strokes| && r.strokes[..|image.strokes|] == image.strokes
    ensures |r.strokes| == |image.strokes| + 1 <==> rendered && lineWidth <= image.width && lineWidth <= image.height
    ensures !(lineWidth <= image.width && lineWidth <= image.height) ==> r == image
    ensures |r.strokes| == |image.strokes| + 1 ==>
      r.strokes[|image.strokes|] ==
        Stroke(Rect(lineWidth / 2.0, lineWidth / 2.0, image.width - lineWidth, image.height - lineWidth), lineWidth, color)
  {
    if !rendered then image
    else match BorderRect(image.width, image.height, lineWidth)
      case None => image
      case Some(rect) => image.(strokes := image.strokes + [Stroke(rect, lineWidth, color)])
  }

  // ---------------------------------------------------------------------
  // Properties of the box mapping

  /** The first transform alone scales each coordinate of a standardized box by the image size. */
  lemma ScaleStage(box: Rect, width: Extent, height: Extent)
    requires box.IsStandard()
    ensures ApplyRect(box, ScaleToImage(width, height)) ==
      Rect(box.x * width, box.y * height, box.width * width, box.height * height)
  {
    var t := ScaleToImage(width, height);
    assert t == Transform(width, height, 0.0, 0.0);
    ApplyRectExtents(box, t);
    MulMonotone(width, box.x, box.x + box.width);
    MulMonotone(height, box.y, box.y + box.height);
    assert width * (box.x + box.width) - width * box.x == box.width * width;
    assert height * (box.y + box.height) - height * box.y == box.height * height;
  }

  /**
    Where a standardized detector box ends up: x and the size are scaled by
    the image size, and y is measured from the top edge, H - (by + bh) * H.
   */
  function PlacedBox(box: Rect, width: Extent, height: Extent): Rect {
    Rect(box.x * width, height - (box.y + box.height) * height, box.width * width, box.height * height)
  }

  /** The two transforms of `addBoundingBox` place a standardized box as `PlacedBox` says. */
  lemma BoxRectClosedForm(box: Rect, width: Extent, height: Extent)
    requires box.IsStandard()
    ensures BoxRect(box, width, height) == PlacedBox(box, width, height)
  {
    ScaleStage(box, width, height);
    MulMonotone(width, 0.0, box.width);
    MulMonotone(height, 0.0, box.height);
    var q := Rect(box.x * width, box.y * height, box.width * width, box.height * height);
    FlipStandard(q, height);
    assert (box.y + box.height) * height == box.y * height + box.height * height;
  }

  /** The second transform moves a standard rect to y = H - (y + h) and keeps its size. */
  lemma FlipStandard(r: Rect, height: Extent)
    requires r.IsStandard()
    ensures ApplyRect(r, FlipToTopLeft(height)) == Rect(r.x, height - (r.y + r.height), r.width, r.height)
  {
    assert FlipToTopLeft(height) == Transform(1.0, -1.0, 0.0, height);
  }

  /** Only the points of the box matter: a box with a negative size maps like its standardized form. */
  lemma BoxRectIgnoresOrientation(box: Rect, width: Extent, height: Extent)
    ensures BoxRect(box, width, height) == BoxRect(Standardized(box), width, height)
  {
  }

  /** The flip maps y to H - y, so applying it twice gives back every point. */
  lemma FlipIsInvolution(height: Extent, p: Point)
    ensures ApplyPoint(FlipToTopLeft(height), ApplyPoint(FlipToTopLeft(height), p)) == p
    ensures ApplyPoint(FlipToTopLeft(height), p) == Point(p.x, height - p.y)
  {
  }

  /** Flipping a rectangle twice gives back its points, standardized. */
  lemma FlipRectIsInvolution(height: Extent, r: Rect)
    ensures ApplyRect(ApplyRect(r, FlipToTopLeft(height)), FlipToTopLeft(height)) == Standardized(r)
  {
    var f := FlipToTopLeft(height);
    assert f == Transform(1.0, -1.0, 0.0, height);
    var q := ApplyRect(r, f);
    assert q == Rect(r.MinX(), height - r.MaxY(), r.MaxX() - r.MinX(), r.MaxY() - r.MinY());
  }

  /** Scaling a sub-interval of [0, 1] by k >= 0 gives a sub-interval of [0, k]. */
  lemma ScaledUnitInterval(k: real, lo: real, hi: real)
    requires 0.0 <= k && 0.0 <= lo <= hi <= 1.0
    ensures 0.0 <= lo * k <= hi * k <= k
  {
    MulMonotone(k, 0.0, lo);
    MulMonotone(k, lo, hi);
    MulMonotone(k, hi, 1.0);
  }

  lemma UnitBoxHorizontal(s: Rect, width: Extent, height: Extent)
    requires s.IsStandard() && 0.0 <= s.x && s.x + s.width <= 1.0
    ensures 0.0 <= PlacedBox(s, width, height).MinX() && PlacedBox(s, width, height).MaxX() <= width
  {
    var x0, x1 := s.x, s.x + s.width;
    ScaledUnitInterval(width, x0, x1);
    assert s.width * width == x1 * width - x0 * width;
  }

  lemma UnitBoxVertical(s: Rect, width: Extent, height: Extent)
    requires s.IsStandard() && 0.0 <= s.y && s.y + s.height <= 1.0
    ensures 0.0 <= PlacedBox(s, width, height).MinY() && PlacedBox(s, width, height).MaxY() <= height
  {
    var y0, y1 := s.y, s.y + s.height;
    ScaledUnitInterval(height, y0, y1);
    assert s.height * height == y1 * height - y0 * height;
  }

  /** A box inside the unit square lands inside the image. */
  lemma UnitBoxStaysInImage(box: Rect, width: Extent, height: Extent)
    requires Rect(0.0, 0.0, 1.0, 1.0).Encloses(box)
    ensures Rect(0.0, 0.0, width, height).Encloses(BoxRect(box, width, height))
  {
    var s := Standardized(box);
    BoxRectIgnoresOrientation(box, width, height);
    BoxRectClosedForm(s, width, height);
    UnitBoxHorizontal(s, width, height);
    UnitBoxVertical(s, width, height);
  }

  /** The whole unit square maps to the whole image. */
  lemma FullBoxIsImage(width: Extent, height: Extent)
    ensures BoxRect(Rect(0.0, 0.0, 1.0, 1.0), width, height) == Rect(0.0, 0.0, width, height)
  {
    BoxRectClosedForm(Rect(0.0, 0.0, 1.0, 1.0), width, height);
  }

  /** Image points back to normalized lower-left coordinates. */
  function ImageToNormalized(width: Extent, height: Extent): Transform
    requires 0.0 < width && 0.0 < height
  {
    Transform(1.0 / width, -1.0 / height, 0.0, 1.0)
  }

  /**
    Applying the scale and then the flip, as `addBoundingBox` does, maps a
    point (x, y) to (W*x, H - H*y); that map is the concatenation of the two.
   */
  lemma BoxTransform(width: Extent, height: Extent, p: Point)
    ensures ApplyPoint(FlipToTopLeft(height), ApplyPoint(ScaleToImage(width, height), p)) ==
      Point(width * p.x, height - height * p.y)
    ensures Concatenating(ScaleToImage(width, height), FlipToTopLeft(height)) ==
      Transform(width, -(height as real), 0.0, height)
  {
    ConcatenatingComposes(ScaleToImage(width, height), FlipToTopLeft(height), p);
  }

  /** On an image of positive size, `ImageToNormalized` undoes the scale-then-flip map point by point. */
  lemma BoxTransformInverse(width: Extent, height: Extent, p: Point)
    requires 0.0 < width && 0.0 < height
    ensures ApplyPoint(ImageToNormalized(width, height),
      ApplyPoint(FlipToTopLeft(height), ApplyPoint(ScaleToImage(width, height), p))) == p
  {
    BoxTransform(width, height, p);
    assert (1.0 / width) * (width * p.x) == p.x;
    assert (-1.0 / height) * (height - height * p.y) + 1.0 == p.y;
  }

  /** On an image of positive size, no information is lost: the mapping can be undone exactly. */
  lemma BoxRectRoundTrip(box: Rect, width: Extent, height: Extent)
    requires 0.0 < width && 0.0 < height
    ensures ApplyRect(BoxRect(box, width, height), ImageToNormalized(width, height)) == Standardized(box)
  {
    var s := Standardized(box);
    BoxRectIgnoresOrientation(box, width, height);
    BoxRectClosedForm(s, width, height);
    PlacedBoxNormalizes(s, width, height);
  }

  lemma PlacedBoxNormalizes(s: Rect, width: Extent, height: Extent)
    requires s.IsStandard() && 0.0 < width && 0.0 < height
    ensures ApplyRect(PlacedBox(s, width, height), ImageToNormalized(width, height)) == s
  {
    var q := PlacedBox(s, width, height);
    MulMonotone(width, 0.0, s.width);
    MulMonotone(height, 0.0, s.height);
    assert q.MinX() == s.x * width && q.MaxX() == s.x * width + s.width * width;
    assert q.MinY() == height - (s.y + s.height) * height && q.MaxY() == height - (s.y + s.height) * height + s.height * height;
    NormalizeHorizontal(s.x, s.width, width);
    NormalizeVertical(s.y, s.height, height);
  }

  /** Dividing by the image width undoes the scaling of a horizontal extent. */
  lemma NormalizeHorizontal(x: real, w: real, width: real)
    requires 0.0 < width && 0.0 <= w
    ensures SpanLo(1.0 / width, 0.0, x * width, x * width + w * width) == x
    ensures SpanHi(1.0 / width, 0.0, x * width, x * width + w * width) == x + w
  {
    assert (1.0 / width) * (x * width) == x;
    assert (1.0 / width) * (x * width + w * width) == x + w;
  }

  /** Dividing by the negated image height, then adding one, undoes the flip of a vertical extent. */
  lemma NormalizeVertical(y: real, h: real, height: real)
    requires 0.0 < height && 0.0 <= h
    ensures SpanLo(-1.0 / height, 1.0, height - (y + h) * height, height - (y + h) * height + h * height) == y
    ensures SpanHi(-1.0 / height, 1.0, height - (y + h) * height, height - (y + h) * height + h * height) == y + h
  {
    assert (-1.0 / height) * (height - (y + h) * height + h * height) + 1.0 == y;
    assert (-1.0 / height) * (height - (y + h) * height) + 1.0 == y + h;
  }

  /** A box of (0.25, 0.25, 0.5, 0.5) on a 720 x 1280 frame is stroked at (180, 320, 360, 640). */
  lemma CentredBoxExample()
    ensures BoxRect(Rect(0.25, 0.25, 0.5, 0.5), 720.0, 1280.0) == Rect(180.0, 320.0, 360.0, 640.0)
  {
    BoxRectClosedForm(Rect(0.25, 0.25, 0.5, 0.5), 720.0, 1280.0);
  }

  /** An off-centre box shows the flip: y = 1280 - (0.2 + 0.4) * 1280 = 512. */
  lemma OffCentreBoxExample()
    ensures ApplyRect(Rect(0.1, 0.2, 0.3, 0.4), ScaleToImage(720.0, 1280.0)) == Rect(72.0, 256.0, 216.0, 512.0)
    ensures BoxRect(Rect(0.1, 0.2, 0.3, 0.4), 720.0, 1280.0) == Rect(72.0, 512.0, 216.0, 512.0)
  {
    ScaleStage(Rect(0.1, 0.2, 0.3, 0.4), 720.0, 1280.0);
    BoxRectClosedForm(Rect(0.1, 0.2, 0.3, 0.4), 720.0, 1280.0);
  }

  // ---------------------------------------------------------------------
  // Properties of the border

  /**
    The border is inset by half the line width on every side,
    (w/2, w/2, W - w, H - w), and is `CGRect.null` when the line is wider
    than the image.
   */
  lemma BorderRectClosedForm(width: Extent, height: Extent, lineWidth: real)
    ensures BorderRect(width, height, lineWidth) ==
      if lineWidth <= width && lineWidth <= height
      then Some(Rect(lineWidth / 2.0, lineWidth / 2.0, width - lineWidth, height - lineWidth))
      else None
  {
  }

  /**
    A stroke of the given width centred on the border rectangle reaches
    exactly the image edge: growing the border by half the line width on
    every side gives back the image rectangle.
   */
  lemma BorderStrokeReachesEdge(width: Extent, height: Extent, lineWidth: real)
    requires BorderRect(width, height, lineWidth).Some?
    ensures InsetBy(BorderRect(width, height, lineWidth).value, -lineWidth / 2.0, -lineWidth / 2.0) ==
      Some(Rect(0.0, 0.0, width, height))
  {
    InsetByRoundTrip(Rect(0.0, 0.0, width, height), lineWidth / 2.0, lineWidth / 2.0);
  }
}
