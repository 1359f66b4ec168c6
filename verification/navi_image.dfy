/**
 * The avatar pipeline of the `UIImage` extension: centre crop, resize,
 * corner rounding, and the style dispatch that ties them together. The
 * Core Graphics calls that produce pixels are opaque: what each of them
 * returned in one run is given as a `RasterOutcomes` value.
 */
module NaviImage {
  import opened Options
  import opened Geometry
  import opened Orientation
  import opened Crop
  import opened Bitmap

  /** `AvatarStyle`: sizes, radius and border in points. */
  datatype AvatarStyle =
    | Rectangle(size: Size)
    | RoundedRectangle(size: Size, cornerRadius: real, borderWidth: real)

  /**
   * What the opaque raster calls of one pipeline run returned (`None` for
   * nil): `CGImageCreateWithImageInRect` in the crop, and
   * `CGBitmapContextCreateImage` in the resize, the alpha redraw and the
   * rounding.
   */
  datatype RasterOutcomes = RasterOutcomes(
    cropped: Option<Bytes>,
    resized: Option<Bytes>,
    alphaRedrawn: Option<Bytes>,
    rounded: Option<Bytes>)

  /**
   * `cropWithBounds`. The new `UIImage` wraps the cropped `CGImage`, so it
   * keeps the pixel format but its orientation is `Up`; its size is the
   * whole-numbered rectangle around the bounds.
   */
  function CropWithBounds(img: Image, bounds: Rect, cropped: Option<Bytes>): (r: Option<Image>)
    requires bounds.IsStandard()
    ensures r.Some? <==> cropped.Some?
    ensures r.Some? ==>
      && r.value.width as real == Integral(bounds).width
      && r.value.height as real == Integral(bounds).height
      && SameFormat(r.value, img) && r.value.orientation == Up
  {
    match cropped
    case None => None
    case Some(px) =>
      var whole := Integral(bounds);
      Some(Image(Floor(whole.width), Floor(whole.height), img.bitsPerComponent, img.colorSpace,
                 img.alphaInfo, img.byteOrder, Up, px))
  }

  /** Same bits per component, colour space, alpha info and byte order. */
  predicate SameFormat(a: Image, b: Image) {
    && a.bitsPerComponent == b.bitsPerComponent && a.colorSpace == b.colorSpace
    && a.alphaInfo == b.alphaInfo && a.byteOrder == b.byteOrder
  }

  /**
   * `resizeToSize(_:withTransform:drawTransposed:interpolationQuality:)`:
   * a bitmap of the receiver's format whose sides are the ceilings of
   * `size`; a zero side leaves no bitmap context and so no image. The
   * transform and draw rectangle only affect pixels.
   */
  function ResizeToSize(img: Image, size: Size, drawn: Option<Bytes>): (r: Option<Image>)
    requires size.IsNonNegative()
    ensures r.Some? <==> drawn.Some? && size.width > 0.0 && size.height > 0.0
    ensures r.Some? ==>
      && r.value.width == Ceil(size.width) && r.value.height == Ceil(size.height)
      && r.value.width > 0 && r.value.height > 0
      && SameFormat(r.value, img) && r.value.orientation == Up
      && r.value.pixels == drawn.value
  {
    var canvas := CanvasRect(size);
    match DrawOutcome(Floor(canvas.width), Floor(canvas.height), drawn)
    case None => None
    case Some(px) =>
      Some(Image(Floor(canvas.width), Floor(canvas.height), img.bitsPerComponent, img.colorSpace,
                 img.alphaInfo, img.byteOrder, Up, px))
  }

  /** The drawing `resizeToSize(_:withInterpolationQuality:)` sets up for `img`. */
  datatype DrawPlan = DrawPlan(canvas: Rect, transform: Affine, drawRect: Rect)

  function ResizePlan(img: Image, size: Size): DrawPlan
    requires size.IsNonNegative()
  {
    DrawPlan(CanvasRect(size), TransformForOrientation(img.orientation, size),
             DrawnRect(img.orientation, size))
  }

  /**
   * For a whole-numbered target size the plan draws the image exactly over
   * the canvas: each drawn point lands on the canvas and each canvas point
   * is drawn; the canvas sides are the ceilings of the size.
   */
  lemma ResizePlanCoversCanvas(img: Image, size: Size, p: Point, q: Point)
    requires size.IsNonNegative() && IsWholeSize(size)
    ensures var plan := ResizePlan(img, size);
      && plan.canvas.width == Ceil(size.width) as real && plan.canvas.height == Ceil(size.height) as real
      && (plan.drawRect.ContainsPoint(p) ==> plan.canvas.ContainsPoint(Apply(plan.transform, p)))
      && (plan.canvas.ContainsPoint(q) ==>
            exists d :: plan.drawRect.ContainsPoint(d) && Apply(plan.transform, d) == q)
  {
    var o := img.orientation;
    CanvasOfWholeSize(size);
    if DrawnRect(o, size).ContainsPoint(p) {
      TransformMapsDrawnIntoTarget(o, size, p);
    }
    if CanvasRect(size).ContainsPoint(q) {
      TransformCoversTarget(o, size, q);
    }
  }

  /**
   * `centerCropWithSize`: crop to the centred bounds, then resize to the
   * target pixel size (`size` times the screen scale).
   */
  function CenterCropWithSize(img: Image, size: Size, scale: real, raster: RasterOutcomes): (r: Option<Image>)
    requires img.width > 0 && img.height > 0 && scale > 0.0 && size.IsNonNegative()
    ensures r.Some? <==>
      && size.width > 0.0 && size.height > 0.0
      && raster.cropped.Some? && raster.resized.Some?
    ensures r.Some? ==>
      && r.value.width == Ceil(size.width * scale) && r.value.height == Ceil(size.height * scale)
      && SameFormat(r.value, img) && r.value.orientation == Up
      && r.value.pixels == raster.resized.value
  {
    var target := Scaled(size, scale);
    match CropBounds(PointSize(img), target)
    case None => None
    case Some(bounds) =>
      match CropWithBounds(img, bounds, raster.cropped)
      case None => None
      case Some(cropped) => ResizeToSize(cropped, target, raster.resized)
  }

  /**
   * The cropped image is always upright-tagged, so the resize inside
   * `centerCropWithSize` draws with the identity transform and never
   * transposes, whatever the orientation of the source.
   */
  lemma CenterCropDrawsUntransformed(img: Image, size: Size, scale: real, raster: RasterOutcomes)
    requires img.width > 0 && img.height > 0 && scale > 0.0 && size.IsNonNegative()
    requires (size.width != 0.0 || size.height != 0.0) && raster.cropped.Some?
    ensures var target := Scaled(size, scale);
      var cropped := CropWithBounds(img, CropBounds(PointSize(img), target).value, raster.cropped).value;
      ResizePlan(cropped, target).transform == Identity
      && ResizePlan(cropped, target).drawRect == CanvasRect(target)
  {
    var target := Scaled(size, scale);
    var cropped := CropWithBounds(img, CropBounds(PointSize(img), target).value, raster.cropped).value;
    TransformUp(target);
  }

  /** The rounding clip of `roundWithCornerRadius`. */
  datatype ClipPlan = ClipPlan(imageRect: Rect, inset: Option<Rect>, clip: Option<Rect>, radius: real)

  /**
   * The rectangle maths of `roundWithCornerRadius`: inset the image
   * rectangle by the scaled border width, take the whole-numbered rectangle
   * around it, and round its corners by the scaled radius. A `None` clip is
   * Core Graphics' null rectangle.
   */
  function RoundClip(image: Image, cornerRadius: real, borderWidth: real, scale: real): (plan: ClipPlan)
    ensures plan.imageRect == RectOfSize(PointSize(image))
    ensures plan.inset == Inset(plan.imageRect, borderWidth * scale, borderWidth * scale)
    ensures plan.radius == cornerRadius * scale
    ensures plan.clip.Some? <==> plan.inset.Some?
    ensures plan.clip.Some? ==> plan.clip.value.ContainsRect(plan.inset.value) && IsIntegralRect(plan.clip.value)
  {
    var imageRect := RectOfSize(PointSize(image));
    var border := borderWidth * scale;
    var inset := Inset(imageRect, border, border);
    var clip := match inset case None => None case Some(r) => Some(Integral(r));
    ClipPlan(imageRect, inset, clip, cornerRadius * scale)
  }

  /**
   * A border of at most half the image keeps the clip inside the image (the
   * image size is whole-numbered); a zero border clips to the image itself;
   * a border wider than half the image leaves no clip rectangle.
   */
  lemma RoundClipGeometry(image: Image, cornerRadius: real, borderWidth: real, scale: real)
    ensures var plan := RoundClip(image, cornerRadius, borderWidth, scale);
      var b, w, h := borderWidth * scale, PointWidth(image) as real, PointHeight(image) as real;
      && (plan.clip.None? <==> 2.0 * b > w || 2.0 * b > h)
      && (0.0 <= 2.0 * b <= w && 2.0 * b <= h ==> plan.clip.Some? && plan.imageRect.ContainsRect(plan.clip.value))
      && (borderWidth == 0.0 ==> plan.clip == Some(plan.imageRect))
  {
    var plan := RoundClip(image, cornerRadius, borderWidth, scale);
    var b := borderWidth * scale;
    var imageRect := plan.imageRect;
    assert IsIntegralRect(imageRect) by {
      WholeFloorCeil(0);
      WholeFloorCeil(PointWidth(image));
      WholeFloorCeil(PointHeight(image));
    }
    if plan.inset.Some? && b >= 0.0 {
      assert imageRect.ContainsRect(plan.inset.value);
      IntegralIsSmallest(plan.inset.value, imageRect);
    }
    if borderWidth == 0.0 {
      assert b == 0.0;
      assert plan.inset == Some(imageRect);
      IntegralOfIntegral(imageRect);
    }
  }

  /**
   * `roundWithCornerRadius`: normalise alpha, then draw into a bitmap of the
   * normalised image's size and format, clipped by `RoundClip`.
   */
  function RoundWithCornerRadius(img: Image, cornerRadius: real, borderWidth: real, scale: real,
                                 raster: RasterOutcomes): (r: Option<Image>)
    ensures r.Some? <==> raster.rounded.Some? && img.width > 0 && img.height > 0
    ensures r.Some? ==> r.value.orientation == Up && r.value.pixels == raster.rounded.value
    ensures r.Some? ==> (HasAlpha(r.value) <==> HasAlpha(img) || raster.alphaRedrawn.Some?)
    ensures r.Some? && img.orientation == Up ==> r.value.width == img.width && r.value.height == img.height
    ensures r.Some? && HasAlpha(img) ==> SameFormat(r.value, img)
  {
    var image := ImageWithAlpha(img, raster.alphaRedrawn);
    match DrawOutcome(PointWidth(image), PointHeight(image), raster.rounded)
    case None => None
    case Some(px) =>
      Some(Image(PointWidth(image), PointHeight(image), image.bitsPerComponent, image.colorSpace,
                 image.alphaInfo, image.byteOrder, Up, px))
  }

  /**
   * `avatarImageWithStyle`: crop (and for rounded styles, round), falling
   * back to the receiver whenever a step yields nothing.
   */
  function AvatarImageWithStyle(img: Image, style: AvatarStyle, scale: real, raster: RasterOutcomes): (r: Image)
    requires img.width > 0 && img.height > 0 && scale > 0.0 && style.size.IsNonNegative()
    ensures CenterCropWithSize(img, style.size, scale, raster).None? ==> r == img
    ensures style.RoundedRectangle? && raster.rounded.None? ==> r == img
    ensures CenterCropWithSize(img, style.size, scale, raster).Some? && style.RoundedRectangle? && raster.rounded.Some? ==>
      (HasAlpha(r) <==> HasAlpha(img) || raster.alphaRedrawn.Some?)
  {
    match style
    case Rectangle(size) =>
      CenterCropWithSize(img, size, scale, raster).OrElse(img)
    case RoundedRectangle(size, cornerRadius, borderWidth) =>
      match CenterCropWithSize(img, size, scale, raster)
      case None => img
      case Some(cropped) => RoundWithCornerRadius(cropped, cornerRadius, borderWidth, scale, raster).OrElse(img)
  }

  /**
   * Whenever styling succeeds, the avatar has the style's size times the
   * screen scale, rounded up, in pixels.
   */
  lemma StyledAvatarSize(img: Image, style: AvatarStyle, scale: real, raster: RasterOutcomes)
    requires img.width > 0 && img.height > 0 && scale > 0.0 && style.size.IsNonNegative()
    requires CenterCropWithSize(img, style.size, scale, raster).Some?
    requires style.Rectangle? || raster.rounded.Some?
    ensures var r := AvatarImageWithStyle(img, style, scale, raster);
      r.width == Ceil(style.size.width * scale) && r.height == Ceil(style.size.height * scale)
  {
    if style.RoundedRectangle? {
      CroppedAlphaImageSize(img, style.size, scale, raster);
    }
  }

  /**
   * A style with a zero side gives the receiver back: the resize has no
   * bitmap context to draw into.
   */
  lemma ZeroSideStyleReturnsReceiver(img: Image, style: AvatarStyle, scale: real, raster: RasterOutcomes)
    requires img.width > 0 && img.height > 0 && scale > 0.0 && style.size.IsNonNegative()
    requires style.size.width == 0.0 || style.size.height == 0.0
    ensures AvatarImageWithStyle(img, style, scale, raster) == img
  {
  }

  /** A plain rectangle never rounds: the alpha and rounding outcomes do not matter. */
  lemma RectangleNeverRounds(img: Image, size: Size, scale: real, a: RasterOutcomes, b: RasterOutcomes)
    requires img.width > 0 && img.height > 0 && scale > 0.0 && size.IsNonNegative()
    requires a.cropped == b.cropped && a.resized == b.resized
    ensures AvatarImageWithStyle(img, Rectangle(size), scale, a) == AvatarImageWithStyle(img, Rectangle(size), scale, b)
    ensures CenterCropWithSize(img, size, scale, a).Some? ==>
      AvatarImageWithStyle(img, Rectangle(size), scale, a) == CenterCropWithSize(img, size, scale, a).value
  {
  }

  /** A rounded rectangle rounds the cropped image when both steps succeed. */
  lemma RoundedRectangleRoundsCrop(img: Image, size: Size, cornerRadius: real, borderWidth: real,
                                   scale: real, raster: RasterOutcomes)
    requires img.width > 0 && img.height > 0 && scale > 0.0 && size.IsNonNegative()
    requires CenterCropWithSize(img, size, scale, raster).Some? && raster.rounded.Some?
    ensures var cropped := CenterCropWithSize(img, size, scale, raster).value;
      AvatarImageWithStyle(img, RoundedRectangle(size, cornerRadius, borderWidth), scale, raster)
        == RoundWithCornerRadius(cropped, cornerRadius, borderWidth, scale, raster).value
  {
  }

  /**
   * The clip of the rounded avatar stays inside the cropped image whenever
   * the border is at most half of each side of the style's size.
   */
  lemma RoundedAvatarClipInsideImage(img: Image, size: Size, cornerRadius: real, borderWidth: real,
                                     scale: real, raster: RasterOutcomes)
    requires img.width > 0 && img.height > 0 && scale > 0.0 && size.IsNonNegative()
    requires CenterCropWithSize(img, size, scale, raster).Some?
    requires 0.0 <= borderWidth && 2.0 * borderWidth <= size.width && 2.0 * borderWidth <= size.height
    ensures var image := ImageWithAlpha(CenterCropWithSize(img, size, scale, raster).value, raster.alphaRedrawn);
      var plan := RoundClip(image, cornerRadius, borderWidth, scale);
      plan.clip.Some? && plan.imageRect.ContainsRect(plan.clip.value)
  {
    var image := ImageWithAlpha(CenterCropWithSize(img, size, scale, raster).value, raster.alphaRedrawn);
    CroppedAlphaImageSize(img, size, scale, raster);
    ClipInsideUprightImage(image, size, cornerRadius, borderWidth, scale);
  }

  lemma ClipInsideUprightImage(image: Image, size: Size, cornerRadius: real, borderWidth: real, scale: real)
    requires scale > 0.0 && size.IsNonNegative()
    requires PointWidth(image) == Ceil(size.width * scale) && PointHeight(image) == Ceil(size.height * scale)
    requires 0.0 <= borderWidth && 2.0 * borderWidth <= size.width && 2.0 * borderWidth <= size.height
    ensures var plan := RoundClip(image, cornerRadius, borderWidth, scale);
      plan.clip.Some? && plan.imageRect.ContainsRect(plan.clip.value)
  {
    assert 2.0 * (borderWidth * scale) <= size.width * scale;
    assert 2.0 * (borderWidth * scale) <= size.height * scale;
    RoundClipGeometry(image, cornerRadius, borderWidth, scale);
  }

  /** The alpha-normalised crop is upright and has the target pixel size. */
  lemma CroppedAlphaImageSize(img: Image, size: Size, scale: real, raster: RasterOutcomes)
    requires img.width > 0 && img.height > 0 && scale > 0.0 && size.IsNonNegative()
    requires CenterCropWithSize(img, size, scale, raster).Some?
    ensures var image := ImageWithAlpha(CenterCropWithSize(img, size, scale, raster).value, raster.alphaRedrawn);
      && image.orientation == Up
      && PointWidth(image) == Ceil(size.width * scale) && PointHeight(image) == Ceil(size.height * scale)
  {
  }

  /**
   * A 400x400 upright source without alpha with a 60x60 rounded style (radius 8,
   * border 1) at scale 2 gives a 120x120 image with alpha, clipped to the
   * rectangle inset by 2 pixels.
   */
  lemma RoundedAvatarExample(px: Bytes)
    ensures var img := Image(400, 400, 8, 0, NoneSkipLast, ByteOrderDefault, Up, px);
      var raster := RasterOutcomes(Some(px), Some(px), Some(px), Some(px));
      var r := AvatarImageWithStyle(img, RoundedRectangle(Size(60.0, 60.0), 8.0, 1.0), 2.0, raster);
      var image := ImageWithAlpha(CenterCropWithSize(img, Size(60.0, 60.0), 2.0, raster).value, Some(px));
      && r.width == 120 && r.height == 120 && HasAlpha(r)
      && RoundClip(image, 8.0, 1.0, 2.0).clip == Some(Rect(2.0, 2.0, 116.0, 116.0))
  {
    var img := Image(400, 400, 8, 0, NoneSkipLast, ByteOrderDefault, Up, px);
    var raster := RasterOutcomes(Some(px), Some(px), Some(px), Some(px));
    var style := RoundedRectangle(Size(60.0, 60.0), 8.0, 1.0);
    assert CenterCropWithSize(img, style.size, 2.0, raster).Some?;
    var cropped := CenterCropWithSize(img, style.size, 2.0, raster).value;
    assert Ceil(120.0) == 120 by { WholeFloorCeil(120); }
    assert 60.0 * 2.0 == 120.0;
    StyledAvatarSize(img, style, 2.0, raster);
    var image := ImageWithAlpha(cropped, Some(px));
    CroppedAlphaImageSize(img, style.size, 2.0, raster);
    ClipOfSquare120(image);
  }

  /** The clip of a 120x120 upright image with border 1 at scale 2. */
  lemma ClipOfSquare120(image: Image)
    requires PointWidth(image) == 120 && PointHeight(image) == 120
    ensures RoundClip(image, 8.0, 1.0, 2.0).clip == Some(Rect(2.0, 2.0, 116.0, 116.0))
  {
    var inset := Rect(2.0, 2.0, 116.0, 116.0);
    assert Inset(RectOfSize(PointSize(image)), 2.0, 2.0) == Some(inset);
    assert IsIntegralRect(inset) by {
      WholeFloorCeil(2);
      WholeFloorCeil(116);
    }
    IntegralOfIntegral(inset);
  }
}
