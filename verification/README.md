# Avatar image pipeline and store-once avatar persistence

A Dafny model of the avatar core of the Navi/Chidori iOS code:

- the `UIImage` extension in `Navi/UIImage+Navi.swift`: centre-crop
  geometry, the orientation-correcting affine transform and the transposed
  drawing of `resizeToSize`, the clip rectangle of `roundWithCornerRadius`,
  the alpha classification and normalisation of `hasAlpha` /
  `imageWithAlpha`, and the style dispatch of `avatarImageWithStyle`;
- the `UserAvatar` persistence in `Chidori/Models/UserAvatar.swift`: the
  optional avatar record with three optional byte slots that
  `saveOriginalImage` fills at most once each, the dirty flag that decides
  whether the context is saved, and the `localOriginalImage` /
  `localStyledImage` lookups.

`CGFloat` is modelled as `real`, exactly. The screen scale is an explicit
positive parameter. Rotations are by exact quarter turns, so every
transform has an integer linear part. The Core Graphics calls that produce
pixels are opaque: a `RasterOutcomes` value says what each of them returned
in one run (`None` for nil). The JPEG and PNG encodings passed to
`saveOriginalImage` are parameters of the same kind.

Files, one module each: `options.dfy` (Swift optionals), `geometry.dfy`
(`CGRect` arithmetic: `CGRectInset`, `CGRectIntegral`), `crop.dfy`
(centre-crop bounds), `orientation.dfy` (orientations and transforms),
`bitmap.dfy` (image metadata and alpha), `navi_image.dfy` (crop, resize,
round, style dispatch), `user_avatar.dfy` (persistence).

## Behaviour worth knowing

The model follows the code. These points come out of its lemmas:

- A portrait source with a square target has `horizontalRatio >
  verticalRatio`, so the crop keeps the full width with x = 0 and is
  centred vertically (`Crop.PortraitSourceSquareTarget`).
- `cropWithBounds` wraps the cropped `CGImage` in a new `UIImage`, whose
  orientation is `Up`. So the resize inside `centerCropWithSize` always
  draws with the identity transform and never transposes, whatever the
  source's orientation (`NaviImage.CenterCropDrawsUntransformed`). The
  orientation transform only takes effect when `resizeToSize` is called
  directly.
- `resizeToSize` draws an untransposed image into the rounded-up canvas
  `CGRectIntegral(size)`, but the transform flips about the unrounded size.
  For a fractional side, an orientation that flips that axis puts part of
  the image off the canvas: a fractional width misplaces `Down` and
  `UpMirrored` (`Orientation.FractionalWidthMisplacesDrawing`), a fractional
  height misplaces `Down` and `DownMirrored`
  (`Orientation.FractionalHeightMisplacesDrawing`). The drawing
  lands inside the canvas for whole-numbered sizes or transposed
  orientations (`Orientation.TransformMapsDrawnIntoTarget`). It covers the
  canvas exactly for whole-numbered sizes (`NaviImage.ResizePlanCoversCanvas`),
  and for `Up` at any size.
- A target of zero by zero gives a zero ratio and 0/0 crop sizes. The model
  returns `None` for those bounds. A target with only one zero side gives a
  degenerate crop rectangle, and then a resize canvas with a zero side.
  `CGBitmapContextCreate` returns nil for a zero side, so no image comes
  out, and `avatarImageWithStyle` returns the receiver
  (`NaviImage.ZeroSideStyleReturnsReceiver`). The alpha redraw and the
  rounding follow the same rule (`Bitmap.DrawOutcome`).
- `saveOriginalImage` marks the record dirty whenever the target slot is
  empty, even when PNG encoding returns nil. The slot then stays empty, and
  every repeated call saves again (`UserAvatar.FailedEncodingSavesAgain`).
  Idempotence therefore needs a successful encoding
  (`UserAvatar.SaveIsIdempotent`).

## Model

| member | source | states |
|---|---|---|
| Geometry.Inset | Navi/UIImage+Navi.swift:164 | `CGRectInset` is null exactly when twice the inset exceeds a side; otherwise it is a standard rectangle with margin `dx` on both horizontal sides and `dy` on both vertical sides |
| Geometry.Integral | Navi/UIImage+Navi.swift:164 | `CGRectIntegral` gives a whole-numbered standard rectangle containing its input |
| Geometry.IntegralIsSmallest | Navi/UIImage+Navi.swift:164 | every whole-numbered rectangle that contains the input also contains its `CGRectIntegral` |
| Geometry.IntegralOfIntegral | Navi/UIImage+Navi.swift:39 | `CGRectIntegral` leaves a whole-numbered rectangle unchanged |
| Geometry.CanvasRect | Navi/UIImage+Navi.swift:39-42 | the resize canvas starts at the origin, has the ceilings of the target size as sides, and contains the rectangle of the target size |
| Crop.CropBounds | Navi/UIImage+Navi.swift:116-142 | the crop bounds are standard, and they are undefined exactly for a zero-by-zero target |
| Crop.Ratio | Navi/UIImage+Navi.swift:121-140 | the crop ratio is at least both the horizontal and the vertical ratio, and it is one of them |
| Crop.RatioIsMax | Navi/UIImage+Navi.swift:121-140 | the ratio is the larger of the horizontal and vertical ratios, and equal ratios take the height-driven branch |
| Crop.RatioZero | Navi/UIImage+Navi.swift:121-136 | the ratio is non-negative, and it is zero only for a zero-by-zero target |
| Crop.CropSpansSource | Navi/UIImage+Navi.swift:129-142 | a width-driven crop has x = 0 and the full source width; a height-driven crop has y = 0 and the full source height |
| Crop.CropInsideSource | Navi/UIImage+Navi.swift:129-142 | the crop lies inside the source: 0 ≤ x, 0 ≤ y, x + w ≤ source width, y + h ≤ source height |
| Crop.CropKeepsAspect | Navi/UIImage+Navi.swift:142 | the crop has the target's aspect ratio: w · targetH = h · targetW |
| Crop.CropIsCentred | Navi/UIImage+Navi.swift:132-142 | the crop leaves equal margins: x = (sourceW − w)/2 and y = (sourceH − h)/2 |
| Crop.CropIsLargest | Navi/UIImage+Navi.swift:121-142 | no rectangle of the target's aspect ratio inside the source is wider or taller than the crop |
| Crop.CropOfMatchingAspectIsWhole | Navi/UIImage+Navi.swift:121-142 | a source that already has the target's aspect ratio is cropped to the whole source |
| Crop.PortraitSourceSquareTarget | Navi/UIImage+Navi.swift:129-142 | a 100×200 source with a 50×50 target is width-driven: the crop is x = 0, y = 50, 100×100 |
| Orientation.ConcatApplies | Navi/UIImage+Navi.swift:58-90 | concatenating two transforms gives the composition: the first transform is applied, then the second |
| Orientation.TransformForOrientation | Navi/UIImage+Navi.swift:57-91 | `transformForOrientationWithSize`, built as the source builds it; its contract is carried by `Orientation.TransformIsMultipliedOut`, the eight `Orientation.Transform…` case lemmas, `Orientation.TransformIsSignedPermutation` and `Orientation.TransformIsUpright` |
| Orientation.TransformIsMultipliedOut | Navi/UIImage+Navi.swift:57-91 | for every orientation, the composed transform equals the multiplied-out matrix of that orientation |
| Orientation.TransformUp | Navi/UIImage+Navi.swift:57-91 | `.Up` gives the identity transform |
| Orientation.TransformDown | Navi/UIImage+Navi.swift:61-63 | `.Down` multiplies out to (x, y) ↦ (w − x, h − y) |
| Orientation.TransformLeft | Navi/UIImage+Navi.swift:65-67 | `.Left` multiplies out to (x, y) ↦ (w − y, x) |
| Orientation.TransformRight | Navi/UIImage+Navi.swift:69-71 | `.Right` multiplies out to (x, y) ↦ (y, h − x) |
| Orientation.TransformUpMirrored | Navi/UIImage+Navi.swift:77-80 | `.UpMirrored` multiplies out to (x, y) ↦ (w − x, y) |
| Orientation.TransformDownMirrored | Navi/UIImage+Navi.swift:61-80 | `.DownMirrored` multiplies out to (x, y) ↦ (x, h − y) |
| Orientation.TransformLeftMirrored | Navi/UIImage+Navi.swift:65-84 | `.LeftMirrored` multiplies out to (x, y) ↦ (w − y, h − x) |
| Orientation.TransformRightMirrored | Navi/UIImage+Navi.swift:69-84 | `.RightMirrored` multiplies out to (x, y) ↦ (y, x) |
| Orientation.TransformIsSignedPermutation | Navi/UIImage+Navi.swift:57-102 | every orientation's linear part is a signed permutation matrix with determinant +1 for the plain orientations and −1 for the mirrored ones; it swaps the axes exactly when `drawTransposed` holds; `.Up` gives the identity |
| Orientation.DrawTransposed | Navi/UIImage+Navi.swift:95-102 | the `drawTransposed` flag; its contract is carried by `Orientation.TransformIsSignedPermutation`: the flag holds exactly when the transform swaps the axes |
| Orientation.TransformIsUpright | Navi/UIImage+Navi.swift:57-91 | the composed transform agrees point for point with the multiplied-out matrix of each orientation, which `Orientation.Drawn` inverts |
| Orientation.CanvasOfWholeSize | Navi/UIImage+Navi.swift:39 | for a whole-numbered size the canvas is exactly the rectangle of that size |
| Orientation.TransformMapsDrawnIntoTarget | Navi/UIImage+Navi.swift:39-104 | every point of the drawn rectangle (w×h, or h×w when transposed) lands in [0,w]×[0,h], inside the canvas; untransposed drawing needs a whole-numbered size |
| Orientation.TransformCoversTarget | Navi/UIImage+Navi.swift:39-104 | every point of [0,w]×[0,h] is the image of some point of the drawn rectangle |
| Orientation.FractionalWidthMisplacesDrawing | Navi/UIImage+Navi.swift:39-48 | with a fractional width, `.Down` and `.UpMirrored` map a corner of the drawn canvas outside the canvas |
| Orientation.FractionalHeightMisplacesDrawing | Navi/UIImage+Navi.swift:39-48 | with a fractional height, `.Down` and `.DownMirrored` map a corner of the drawn canvas outside the canvas |
| Bitmap.HasAlphaMeansColourWithAlpha | Navi/UIImage+Navi.swift:183-192 | `hasAlpha` holds exactly for the layouts that store both colour and alpha (First, Last, PremultipliedFirst, PremultipliedLast); alpha-only images do not count |
| Bitmap.ImageWithAlpha | Navi/UIImage+Navi.swift:194-212 | never fails, and keeps the width and height; the identity on images with alpha; when the redraw yields an image (a positive size and a raster result), the same colour space, premultiplied-first alpha, 8 bits per component, default byte order and orientation `Up`; otherwise the input unchanged; the result has alpha exactly when the input had it or the redraw yielded an image |
| Bitmap.ImageWithAlphaIdempotent | Navi/UIImage+Navi.swift:194-198 | normalising a second time, after the first pass gave the image alpha, changes nothing |
| Bitmap.HasAlpha | Navi/UIImage+Navi.swift:183-192 | `hasAlpha`; its contract is carried by `Bitmap.HasAlphaMeansColourWithAlpha` |
| Bitmap.DrawOutcome | Navi/UIImage+Navi.swift:42-54 | a drawing yields an image exactly when the raster call returns one and both sides of the bitmap context are positive, since `CGBitmapContextCreate` returns nil for a zero side |
| NaviImage.CropWithBounds | Navi/UIImage+Navi.swift:107-114 | the crop succeeds exactly when Core Graphics returns an image; the result keeps the pixel format, is tagged `Up`, and has the whole-numbered size of the bounds |
| NaviImage.ResizeToSize | Navi/UIImage+Navi.swift:37-55 | the resize yields an image exactly when both sides of the target are positive and Core Graphics returns an image; the result has the ceilings of the target size (both positive), the receiver's pixel format and orientation `Up` |
| NaviImage.ResizePlan | Navi/UIImage+Navi.swift:93-104 | the drawing `resizeToSize(_:withInterpolationQuality:)` sets up; its contract is carried by `NaviImage.ResizePlanCoversCanvas` and `NaviImage.CenterCropDrawsUntransformed` |
| NaviImage.ResizePlanCoversCanvas | Navi/UIImage+Navi.swift:93-104 | for a whole-numbered size, the drawing `resizeToSize` sets up has the ceilings of the size as canvas sides, and maps the drawn rectangle onto the canvas, both ways |
| NaviImage.CenterCropWithSize | Navi/UIImage+Navi.swift:116-145 | the centre crop yields an image exactly when both sides of the target are positive and both raster calls return an image; the result has the ceilings of size × scale, the source's pixel format and orientation `Up` |
| NaviImage.CenterCropDrawsUntransformed | Navi/UIImage+Navi.swift:107-145 | inside the centre crop, the resize uses the identity transform and the untransposed canvas, whatever the source orientation |
| NaviImage.RoundClip | Navi/UIImage+Navi.swift:156-164 | the image rectangle is the zero-origin rectangle of the image's upright size; the inset rectangle is `CGRectInset` of it by borderWidth × scale on each axis; the corner radius is cornerRadius × scale; the clip exists exactly when the inset rectangle is not null, and then it is whole-numbered and contains the inset rectangle |
| NaviImage.RoundClipGeometry | Navi/UIImage+Navi.swift:160-164 | the clip is null exactly when twice the scaled border exceeds a side; a border of at most half of each side keeps the clip inside the image rectangle; a zero border clips to the image rectangle itself |
| NaviImage.RoundWithCornerRadius | Navi/UIImage+Navi.swift:152-176 | rounding yields an image exactly when the input has positive sides and Core Graphics returns an image; the result is `Up`, keeps the size of an upright input, has alpha exactly when the input had alpha or the alpha redraw returned an image, and keeps the format of an input with alpha |
| NaviImage.AvatarImageWithStyle | Navi/UIImage+Navi.swift:16-30 | always returns an image; returns the receiver when the crop yields nothing, or when a rounded style's rounding yields nothing; a rounded result has alpha exactly when the source had alpha or the alpha redraw succeeded |
| NaviImage.ZeroSideStyleReturnsReceiver | Navi/UIImage+Navi.swift:16-30 | a style with a zero side gives back the receiver, because the resize has no bitmap context to draw into |
| NaviImage.StyledAvatarSize | Navi/UIImage+Navi.swift:16-30 | whenever styling succeeds, the avatar has the ceilings of the style's size times the scale |
| NaviImage.RectangleNeverRounds | Navi/UIImage+Navi.swift:22-23 | a `.Rectangle` result does not depend on the alpha or rounding outcomes, and it is the centre crop whenever that succeeds |
| NaviImage.RoundedRectangleRoundsCrop | Navi/UIImage+Navi.swift:25-26 | a `.RoundedRectangle` result is the rounding of the centre crop whenever both succeed |
| NaviImage.CroppedAlphaImageSize | Navi/UIImage+Navi.swift:154-158 | the image that rounding draws from, the alpha-normalised crop, is upright and has the target pixel size |
| NaviImage.ClipInsideUprightImage | Navi/UIImage+Navi.swift:160-164 | for an image of the target pixel size, a border of at most half of each side of the style keeps the clip inside the image |
| NaviImage.RoundedAvatarClipInsideImage | Navi/UIImage+Navi.swift:154-164 | in the rounded-style pipeline, a border of at most half of each side keeps the clip inside the cropped image |
| NaviImage.RoundedAvatarExample | Navi/UIImage+Navi.swift:16-30 | a 400×400 upright source without alpha (`NoneSkipLast`), rounded 60×60 style (radius 8, border 1), scale 2: the avatar is 120×120 with alpha, clipped to (2, 2, 116, 116) |
| UserAvatar.LocalOriginalImage | Chidori/Models/UserAvatar.swift:39-46 | the original is present exactly when a record exists and holds original data, and it is that data |
| UserAvatar.LocalStyledImage | Chidori/Models/UserAvatar.swift:48-67 | the square style reads the square slot, the round style reads the round slot, and any other style reads nothing |
| UserAvatar.SaveOriginalImage | Chidori/Models/UserAvatar.swift:69-113 | without a context nothing changes and nothing is saved; an absent record is created with the URL and the JPEG original; an existing record's URL and original never change; only the style's slot is written, only if empty, with the PNG data; the other slot never changes; save happens exactly when a record was created or the style's slot was empty |
| UserAvatar.SaveIsIdempotent | Chidori/Models/UserAvatar.swift:77-112 | repeating a save whose encoding succeeded (or whose slot was already full) leaves the state unchanged and does not save |
| UserAvatar.FailedEncodingSavesAgain | Chidori/Models/UserAvatar.swift:94-105 | when PNG encoding fails, the slot stays empty and a repeated call saves again |
| UserAvatar.SaveThenLookup | Chidori/Models/UserAvatar.swift:48-108 | after a save under the square or round app style, the lookup of that style returns the stored bytes: the new encoding if the slot was empty, the earlier bytes otherwise |
| UserAvatar.OtherStyleNeverLooksUp | Chidori/Models/UserAvatar.swift:50-107 | a style that is neither app style fills its slot on save, but the lookup never returns it |
| UserAvatar.SaveKeepsOriginal | Chidori/Models/UserAvatar.swift:77-88 | saving never changes the original image an existing record holds |

## Left out

- Pixel contents and raster work: `CGContextDrawImage`, interpolation quality, Bézier path clipping and the corner-curve shape, `CGBitmapContextCreate` and `CGBitmapContextCreateImage`. These are opaque Core Graphics calls. Their success or failure is a `RasterOutcomes` field. The interpolation quality has no effect on the model.
- `CGImageCreateWithImageInRect` is opaque. Its clipping against the image bounds is not modelled, and the cropped image's size is taken as the whole-numbered rectangle of the bounds.
- Floating point: `M_PI`/`M_PI_2` rounding in the trigonometry and inexact `CGFloat` division. The model uses exact reals and exact quarter turns.
- NaviImage.CenterCropWithSize: requires a source with positive pixel size. The source divides by the source size, and a zero-size image would give non-finite ratios.
- Points versus pixels: every image has scale 1, so `UIImage.size` is the pixel size, with the sides swapped for the quarter-turned orientations. The mismatch between the upright frame of the crop bounds and the stored frame of the `CGImage` is not modelled.
- `UIScreen.mainScreen().scale` is an explicit positive parameter.
- `UIImageJPEGRepresentation`, `UIImagePNGRepresentation` and `UIImage(data:)` are opaque. The encodings are parameters, and the lookups return the stored bytes, not a decoded image.
- Core Data: the managed-object context is modelled as a boolean; entity creation, `trySave` and its errors are modelled as the `saved` flag.
- The force-unwrapped `username` and `avatarURLString`, `NSURL` parsing, and the `Navi.Avatar` protocol getters (`name`, `URL`, `style`). The URL's absolute string is a parameter.
- The values of `squareAvatarStyle` and `roundAvatarStyle` are not part of this model. They are a `StyleConstants` parameter, required to be a rectangle and a rounded rectangle. Style equality is structural equality.
- bytes-per-row and the non-alpha bits of `CGBitmapInfo` other than the byte order.
- NaviImage.RoundWithCornerRadius: the result size is stated only for an upright input. For a quarter-turned input without alpha, the size follows the redrawn image's stored dimensions, and that case does not occur in the pipeline.
