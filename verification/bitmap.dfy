/**
 * Image metadata and the alpha normalisation of `hasAlpha` and
 * `imageWithAlpha`. Pixel contents are opaque bytes.
 */
module Bitmap {
  import opened Options
  import opened Geometry
  import opened Orientation

  /** `CGImageAlphaInfo`. `Opaque` is `kCGImageAlphaNone`. */
  datatype AlphaInfo =
    | Opaque | PremultipliedLast | PremultipliedFirst | Last | First
    | NoneSkipLast | NoneSkipFirst | Only

  /** The byte-order part of `CGBitmapInfo`. */
  datatype ByteOrder = ByteOrderDefault | ByteOrder16Little | ByteOrder32Little | ByteOrder16Big | ByteOrder32Big

  /** Raw bytes: the pixel data of a bitmap, or an encoded image file. */
  type Bytes = seq<bv8>

  /**
   * A `UIImage` together with its `CGImage`, at scale 1: `width` and `height`
   * are the pixel dimensions of the stored bitmap, which is turned upright
   * by `orientation`. `colorSpace` names the colour space.
   */
  datatype Image = Image(
    width: nat,
    height: nat,
    bitsPerComponent: nat,
    colorSpace: nat,
    alphaInfo: AlphaInfo,
    byteOrder: ByteOrder,
    orientation: ImageOrientation,
    pixels: Bytes)

  /** `UIImage.size`: the upright size, so the quarter-turned orientations swap the sides. */
  function PointWidth(img: Image): nat {
    if DrawTransposed(img.orientation) then img.height else img.width
  }

  function PointHeight(img: Image): nat {
    if DrawTransposed(img.orientation) then img.width else img.height
  }

  function PointSize(img: Image): Size {
    Size(PointWidth(img) as real, PointHeight(img) as real)
  }

  /** The alpha layouts whose pixels carry an alpha component. */
  predicate StoresAlpha(a: AlphaInfo) {
    !(a == Opaque || a == NoneSkipLast || a == NoneSkipFirst)
  }

  /** The alpha layouts whose pixels carry colour components. */
  predicate StoresColour(a: AlphaInfo) {
    a != Only
  }

  /** `hasAlpha`: the alpha info is First, Last, PremultipliedFirst or PremultipliedLast. */
  predicate HasAlpha(img: Image) {
    var a := img.alphaInfo;
    a == First || a == Last || a == PremultipliedFirst || a == PremultipliedLast
  }

  /**
   * `hasAlpha` holds exactly for the colour images that carry alpha; an
   * alpha-only mask does not count.
   */
  lemma HasAlphaMeansColourWithAlpha(img: Image)
    ensures HasAlpha(img) <==> StoresAlpha(img.alphaInfo) && StoresColour(img.alphaInfo)
  {
  }

  /**
   * What a drawing into a `width` by `height` bitmap context yields.
   * `CGBitmapContextCreate` returns nil for a zero side, and then
   * `CGBitmapContextCreateImage` returns nil whatever the raster would have
   * produced; otherwise `outcome` is what it returned.
   */
  function DrawOutcome(width: int, height: int, outcome: Option<Bytes>): (r: Option<Bytes>)
    ensures r.Some? <==> outcome.Some? && width > 0 && height > 0
    ensures r.Some? ==> r == outcome
  {
    if width > 0 && height > 0 then outcome else None
  }

  /**
   * `imageWithAlpha`. An image with alpha is returned as it is; otherwise it
   * is redrawn into a premultiplied-first, 8-bit, default-byte-order bitmap
   * of the same pixel size and colour space. `redrawn` is what
   * `CGBitmapContextCreateImage` would produce (`None` for nil); when the
   * redraw yields nothing, the input comes back unchanged.
   */
  function ImageWithAlpha(img: Image, redrawn: Option<Bytes>): (r: Image)
    ensures HasAlpha(img) ==> r == img
    ensures !HasAlpha(img) && (redrawn.None? || img.width == 0 || img.height == 0) ==> r == img
    ensures !HasAlpha(img) && redrawn.Some? && img.width > 0 && img.height > 0 ==>
      && r.width == img.width && r.height == img.height
      && r.colorSpace == img.colorSpace
      && r.alphaInfo == PremultipliedFirst && r.bitsPerComponent == 8
      && r.byteOrder == ByteOrderDefault && r.orientation == Up
      && r.pixels == redrawn.value
    ensures r.width == img.width && r.height == img.height
    ensures HasAlpha(r) <==> HasAlpha(img) || (redrawn.Some? && img.width > 0 && img.height > 0)
  {
    if HasAlpha(img) then img
    else
      match DrawOutcome(img.width, img.height, redrawn)
      case None => img
      case Some(px) => Image(img.width, img.height, 8, img.colorSpace, PremultipliedFirst, ByteOrderDefault, Up, px)
  }

  /** Normalising twice is normalising once, whatever the second redraw would produce. */
  lemma ImageWithAlphaIdempotent(img: Image, first: Option<Bytes>, second: Option<Bytes>)
    requires HasAlpha(img) || (first.Some? && img.width > 0 && img.height > 0)
    ensures ImageWithAlpha(ImageWithAlpha(img, first), second) == ImageWithAlpha(img, first)
  {
  }
}
