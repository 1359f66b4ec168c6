/**
 * The orientation-correcting transform of `transformForOrientationWithSize`
 * and the transposition choice of `resizeToSize`. The rotations are by
 * exact quarter turns, so every linear part has integer entries.
 */
module Orientation {
  import opened Geometry

  /** `UIImageOrientation`: how the stored pixels must be turned to appear upright. */
  datatype ImageOrientation =
    | Up | Down | Left | Right
    | UpMirrored | DownMirrored | LeftMirrored | RightMirrored
  {
    predicate IsMirrored() {
      match this
      case UpMirrored | DownMirrored | LeftMirrored | RightMirrored => true
      case _ => false
    }
  }

  /**
   * A `CGAffineTransform`: the point (x, y) goes to
   * (a*x + c*y + tx, b*x + d*y + ty).
   */
  datatype Affine = Affine(a: int, b: int, c: int, d: int, tx: real, ty: real)

  const Identity := Affine(1, 0, 0, 1, 0.0, 0.0)

  /**
   * `k * v` for an integer matrix entry `k`, as repeated addition, so that the
   * arithmetic of concatenation stays linear. `TimesIsProduct` shows that this
   * is the product.
   */
  function Times(k: int, v: real): real
    decreases if k < 0 then -k else k
  {
    if k == 0 then 0.0
    else if k > 0 then Times(k - 1, v) + v
    else Times(k + 1, v) - v
  }

  function Apply(t: Affine, p: Point): Point {
    Point(Times(t.a, p.x) + Times(t.c, p.y) + t.tx,
          Times(t.b, p.x) + Times(t.d, p.y) + t.ty)
  }

  function Determinant(t: Affine): int {
    t.a * t.d - t.b * t.c
  }

  /** Each row and each column of the linear part holds exactly one entry, +1 or -1. */
  predicate IsSignedPermutation(t: Affine) {
    || (t.b == 0 && t.c == 0 && (t.a == 1 || t.a == -1) && (t.d == 1 || t.d == -1))
    || (t.a == 0 && t.d == 0 && (t.b == 1 || t.b == -1) && (t.c == 1 || t.c == -1))
  }

  /** `CGAffineTransformConcat(s, t)`: first `s`, then `t`. */
  function Concat(s: Affine, t: Affine): Affine {
    Affine(s.a * t.a + s.b * t.c, s.a * t.b + s.b * t.d,
           s.c * t.a + s.d * t.c, s.c * t.b + s.d * t.d,
           Times(t.a, s.tx) + Times(t.c, s.ty) + t.tx,
           Times(t.b, s.tx) + Times(t.d, s.ty) + t.ty)
  }

  /** Concatenation is composition: the product transform applies `s`, then `t`. */
  lemma ConcatApplies(s: Affine, t: Affine, p: Point)
    ensures Apply(Concat(s, t), p) == Apply(t, Apply(s, p))
  {
    ConcatAppliesX(s, t, p);
    ConcatAppliesY(s, t, p);
  }

  lemma ConcatAppliesX(s: Affine, t: Affine, p: Point)
    ensures Apply(Concat(s, t), p).x == Apply(t, Apply(s, p)).x
  {
    var sx, sy := Times(s.a, p.x), Times(s.c, p.y);
    var rx, ry := Times(s.b, p.x), Times(s.d, p.y);
    TimesSumProduct(s.a, t.a, s.b, t.c, p.x);
    TimesSumProduct(s.c, t.a, s.d, t.c, p.y);
    TimesDistributes(t.a, sx + sy, s.tx);
    TimesDistributes(t.a, sx, sy);
    TimesDistributes(t.c, rx + ry, s.ty);
    TimesDistributes(t.c, rx, ry);
  }

  lemma ConcatAppliesY(s: Affine, t: Affine, p: Point)
    ensures Apply(Concat(s, t), p).y == Apply(t, Apply(s, p)).y
  {
    var sx, sy := Times(s.a, p.x), Times(s.c, p.y);
    var rx, ry := Times(s.b, p.x), Times(s.d, p.y);
    TimesSumProduct(s.a, t.b, s.b, t.d, p.x);
    TimesSumProduct(s.c, t.b, s.d, t.d, p.y);
    TimesDistributes(t.b, sx + sy, s.tx);
    TimesDistributes(t.b, sx, sy);
    TimesDistributes(t.d, rx + ry, s.ty);
    TimesDistributes(t.d, rx, ry);
  }

  /** (k1*k2 + k3*k4)·v == k2·(k1·v) + k4·(k3·v) */
  lemma TimesSumProduct(k1: int, k2: int, k3: int, k4: int, v: real)
    ensures Times(k1 * k2 + k3 * k4, v) == Times(k2, Times(k1, v)) + Times(k4, Times(k3, v))
  {
    TimesAdd(k1 * k2, k3 * k4, v);
    TimesMul(k1, k2, v);
    TimesMul(k3, k4, v);
  }

  lemma {:induction false} TimesAdd(j: int, k: int, v: real)
    ensures Times(j + k, v) == Times(j, v) + Times(k, v)
    decreases if k < 0 then -k else k
  {
    if k > 0 {
      TimesAdd(j, k - 1, v);
      TimesStep(j + k - 1, v);
    } else if k < 0 {
      TimesAdd(j, k + 1, v);
      TimesStep(j + k, v);
    }
  }

  /** One more unit adds one more `v`, whatever the sign of `k`. */
  lemma TimesStep(k: int, v: real)
    ensures Times(k + 1, v) == Times(k, v) + v
  {
  }

  lemma {:induction false} TimesMul(j: int, k: int, v: real)
    ensures Times(j * k, v) == Times(k, Times(j, v))
    decreases if k < 0 then -k else k
  {
    if k > 0 {
      TimesMul(j, k - 1, v);
      assert j * k == j * (k - 1) + j;
      TimesAdd(j * (k - 1), j, v);
    } else if k < 0 {
      TimesMul(j, k + 1, v);
      assert j * k == j * (k + 1) - j;
      TimesAdd(j * k, j, v);
    }
  }

  lemma {:induction false} TimesDistributes(k: int, u: real, v: real)
    ensures Times(k, u + v) == Times(k, u) + Times(k, v)
    decreases if k < 0 then -k else k
  {
    if k > 0 {
      TimesDistributes(k - 1, u, v);
    } else if k < 0 {
      TimesDistributes(k + 1, u, v);
    }
  }

  lemma {:induction false} TimesIsProduct(k: int, v: real)
    ensures Times(k, v) == k as real * v
    decreases if k < 0 then -k else k
  {
    if k > 0 {
      TimesIsProduct(k - 1, v);
    } else if k < 0 {
      TimesIsProduct(k + 1, v);
    }
  }

  /** `CGAffineTransformTranslate(t, dx, dy)`: translate, then `t`. */
  function Translate(t: Affine, dx: real, dy: real): Affine {
    Concat(Affine(1, 0, 0, 1, dx, dy), t)
  }

  /** The three angles the source rotates by: `M_PI`, `M_PI_2` and `-M_PI_2`. */
  datatype Angle = Pi | HalfPi | MinusHalfPi {
    function Cos(): int {
      match this
      case Pi => -1
      case _ => 0
    }

    function Sin(): int {
      match this
      case Pi => 0
      case HalfPi => 1
      case MinusHalfPi => -1
    }
  }

  /** `CGAffineTransformRotate(t, angle)`: rotate counter-clockwise by `angle`, then `t`. */
  function Rotate(t: Affine, angle: Angle): Affine {
    Concat(Affine(angle.Cos(), angle.Sin(), -angle.Sin(), angle.Cos(), 0.0, 0.0), t)
  }

  /** `CGAffineTransformScale(t, sx, sy)` with integer factors: scale, then `t`. */
  function Scale(t: Affine, sx: int, sy: int): Affine {
    Concat(Affine(sx, 0, 0, sy, 0.0, 0.0), t)
  }

  /** The first switch of `transformForOrientationWithSize`: move, then turn upright. */
  function TurnStep(o: ImageOrientation, size: Size): Affine {
    match o
    case Down | DownMirrored => Rotate(Translate(Identity, size.width, size.height), Pi)
    case Left | LeftMirrored => Rotate(Translate(Identity, size.width, 0.0), HalfPi)
    case Right | RightMirrored => Rotate(Translate(Identity, 0.0, size.height), MinusHalfPi)
    case _ => Identity
  }

  /** The second switch: move, then flip the x axis of the mirrored orientations. */
  function MirrorStep(o: ImageOrientation, size: Size, turned: Affine): Affine {
    match o
    case UpMirrored | DownMirrored => Scale(Translate(turned, size.width, 0.0), -1, 1)
    case LeftMirrored | RightMirrored => Scale(Translate(turned, size.height, 0.0), -1, 1)
    case _ => turned
  }

  /** `transformForOrientationWithSize`: the rotation step, then the mirroring step. */
  function TransformForOrientation(o: ImageOrientation, size: Size): Affine {
    MirrorStep(o, size, TurnStep(o, size))
  }

  /** The `drawTransposed` flag of `resizeToSize`: the quarter-turned orientations. */
  predicate DrawTransposed(o: ImageOrientation) {
    match o
    case Left | LeftMirrored | Right | RightMirrored => true
    case _ => false
  }

  /**
   * The rectangle `resizeToSize` draws into: the zero-origin rectangle of the
   * target size with its sides swapped when transposed, and otherwise the
   * whole-numbered canvas itself.
   */
  function DrawnRect(o: ImageOrientation, size: Size): Rect
    requires size.IsNonNegative()
  {
    if DrawTransposed(o) then Rect(0.0, 0.0, size.height, size.width)
    else CanvasRect(size)
  }

  predicate IsWholeSize(size: Size) {
    IsWhole(size.width) && IsWhole(size.height)
  }

  /** For a whole-numbered size the canvas is exactly the rectangle of that size. */
  lemma CanvasOfWholeSize(size: Size)
    requires size.IsNonNegative() && IsWholeSize(size)
    ensures CanvasRect(size) == RectOfSize(size)
  {
    IntegralOfIntegral(RectOfSize(size));
  }

  /** Where the transform of each orientation sends a point of the drawn rectangle. */
  function Upright(o: ImageOrientation, size: Size, p: Point): Point {
    Apply(MultipliedOut(o, size), p)
  }

  /** The inverse of `Upright`: which drawn point lands on `q`. */
  function Drawn(o: ImageOrientation, size: Size, q: Point): Point {
    var w, h, x, y := size.width, size.height, q.x, q.y;
    match o
    case Up => Point(x, y)
    case Down => Point(w - x, h - y)
    case Left => Point(y, w - x)
    case Right => Point(h - y, x)
    case UpMirrored => Point(w - x, y)
    case DownMirrored => Point(x, h - y)
    case LeftMirrored => Point(h - y, w - x)
    case RightMirrored => Point(y, x)
  }

  // The transform of each orientation, multiplied out.

  lemma TransformUp(size: Size)
    ensures TransformForOrientation(Up, size) == Identity
  {
  }

  /** The matrix entries the source uses are 0 and ±1. */
  lemma TimesUnit(v: real)
    ensures Times(0, v) == 0.0 && Times(1, v) == v && Times(-1, v) == -v
  {
  }

  lemma {:induction false} TimesZero(k: int)
    ensures Times(k, 0.0) == 0.0
    decreases if k < 0 then -k else k
  {
    if k > 0 {
      TimesZero(k - 1);
    } else if k < 0 {
      TimesZero(k + 1);
    }
  }

  /** `CGAffineTransformScale(t, -1, 1)` negates the first row of the linear part. */
  lemma FlipX(t: Affine)
    ensures Scale(t, -1, 1) == Affine(-t.a, -t.b, t.c, t.d, t.tx, t.ty)
  {
    TimesZero(t.a);
    TimesZero(t.b);
    TimesZero(t.c);
    TimesZero(t.d);
  }

  lemma TransformDown(size: Size)
    ensures TransformForOrientation(Down, size) == Affine(-1, 0, 0, -1, size.width, size.height)
  {
    var w, h := size.width, size.height;
    TimesUnit(w);
    TimesUnit(h);
    var moved := Translate(Identity, w, h);
    assert moved == Affine(1, 0, 0, 1, w, h);
    assert TurnStep(Down, size) == Rotate(moved, Pi);
  }

  lemma TransformLeft(size: Size)
    ensures TransformForOrientation(Left, size) == Affine(0, 1, -1, 0, size.width, 0.0)
  {
    var w, h := size.width, size.height;
    TimesUnit(w);
    TimesUnit(0.0);
    var moved := Translate(Identity, w, 0.0);
    assert moved == Affine(1, 0, 0, 1, w, 0.0);
    assert TurnStep(Left, size) == Rotate(moved, HalfPi);
  }

  lemma TransformRight(size: Size)
    ensures TransformForOrientation(Right, size) == Affine(0, -1, 1, 0, 0.0, size.height)
  {
    var w, h := size.width, size.height;
    TimesUnit(h);
    TimesUnit(0.0);
    var moved := Translate(Identity, 0.0, h);
    assert moved == Affine(1, 0, 0, 1, 0.0, h);
    assert TurnStep(Right, size) == Rotate(moved, MinusHalfPi);
  }

  lemma TransformUpMirrored(size: Size)
    ensures TransformForOrientation(UpMirrored, size) == Affine(-1, 0, 0, 1, size.width, 0.0)
  {
    var w, h := size.width, size.height;
    TimesUnit(w);
    TimesUnit(0.0);
    var moved := Translate(Identity, w, 0.0);
    assert moved == Affine(1, 0, 0, 1, w, 0.0);
    assert MirrorStep(UpMirrored, size, Identity) == Scale(moved, -1, 1);
    FlipX(moved);
  }

  lemma TransformDownMirrored(size: Size)
    ensures TransformForOrientation(DownMirrored, size) == Affine(1, 0, 0, -1, 0.0, size.height)
  {
    var w, h := size.width, size.height;
    TimesUnit(w);
    TimesUnit(h);
    TimesUnit(0.0);
    var moved := Translate(Identity, w, h);
    assert moved == Affine(1, 0, 0, 1, w, h);
    var turned := Rotate(moved, Pi);
    assert turned == Affine(-1, 0, 0, -1, w, h);
    var shifted := Translate(turned, w, 0.0);
    assert shifted == Affine(-1, 0, 0, -1, 0.0, h);
    assert TurnStep(DownMirrored, size) == turned;
    assert MirrorStep(DownMirrored, size, turned) == Scale(shifted, -1, 1);
    FlipX(shifted);
  }

  lemma TransformLeftMirrored(size: Size)
    ensures TransformForOrientation(LeftMirrored, size) == Affine(0, -1, -1, 0, size.width, size.height)
  {
    var w, h := size.width, size.height;
    TimesUnit(w);
    TimesUnit(h);
    TimesUnit(0.0);
    var moved := Translate(Identity, w, 0.0);
    assert moved == Affine(1, 0, 0, 1, w, 0.0);
    var turned := Rotate(moved, HalfPi);
    assert turned == Affine(0, 1, -1, 0, w, 0.0);
    var shifted := Translate(turned, h, 0.0);
    assert shifted == Affine(0, 1, -1, 0, w, h);
    assert TurnStep(LeftMirrored, size) == turned;
    assert MirrorStep(LeftMirrored, size, turned) == Scale(shifted, -1, 1);
    FlipX(shifted);
  }

  lemma TransformRightMirrored(size: Size)
    ensures TransformForOrientation(RightMirrored, size) == Affine(0, 1, 1, 0, 0.0, 0.0)
  {
    var w, h := size.width, size.height;
    TimesUnit(h);
    TimesUnit(0.0);
    var moved := Translate(Identity, 0.0, h);
    assert moved == Affine(1, 0, 0, 1, 0.0, h);
    var turned := Rotate(moved, MinusHalfPi);
    assert turned == Affine(0, -1, 1, 0, 0.0, h);
    var shifted := Translate(turned, h, 0.0);
    assert shifted == Affine(0, -1, 1, 0, 0.0, 0.0);
    assert TurnStep(RightMirrored, size) == turned;
    assert MirrorStep(RightMirrored, size, turned) == Scale(shifted, -1, 1);
    FlipX(shifted);
  }

  /** The transform of each orientation, multiplied out: the table the lemmas above establish. */
  function MultipliedOut(o: ImageOrientation, size: Size): Affine {
    var w, h := size.width, size.height;
    match o
    case Up => Identity
    case Down => Affine(-1, 0, 0, -1, w, h)
    case Left => Affine(0, 1, -1, 0, w, 0.0)
    case Right => Affine(0, -1, 1, 0, 0.0, h)
    case UpMirrored => Affine(-1, 0, 0, 1, w, 0.0)
    case DownMirrored => Affine(1, 0, 0, -1, 0.0, h)
    case LeftMirrored => Affine(0, -1, -1, 0, w, h)
    case RightMirrored => Affine(0, 1, 1, 0, 0.0, 0.0)
  }

  lemma TransformIsMultipliedOut(o: ImageOrientation, size: Size)
    ensures TransformForOrientation(o, size) == MultipliedOut(o, size)
  {
    match o {
      case Up => TransformUp(size);
      case Down => TransformDown(size);
      case Left => TransformLeft(size);
      case Right => TransformRight(size);
      case UpMirrored => TransformUpMirrored(size);
      case DownMirrored => TransformDownMirrored(size);
      case LeftMirrored => TransformLeftMirrored(size);
      case RightMirrored => TransformRightMirrored(size);
    }
  }

  /**
   * The linear part is a signed permutation: a rotation (determinant +1)
   * for the plain orientations and a reflection (-1) for the mirrored ones;
   * it swaps the axes exactly when the drawing is transposed, and `Up`
   * gives the identity.
   */
  lemma TransformIsSignedPermutation(o: ImageOrientation, size: Size)
    ensures var t := TransformForOrientation(o, size);
      && IsSignedPermutation(t)
      && Determinant(t) == (if o.IsMirrored() then -1 else 1)
      && (t.a == 0 <==> DrawTransposed(o))
      && (o == Up ==> t == Identity)
  {
    var t := TransformForOrientation(o, size);
    assert IsSignedPermutation(t) && (t.a == 0 <==> DrawTransposed(o)) && (o == Up ==> t == Identity) by {
      TransformIsMultipliedOut(o, size);
      MultipliedOutIsSignedPermutation(o, size);
    }
    TransformDeterminant(o, size);
  }

  lemma MultipliedOutIsSignedPermutation(o: ImageOrientation, size: Size)
    ensures var t := MultipliedOut(o, size);
      && IsSignedPermutation(t)
      && (t.a == 0 <==> DrawTransposed(o))
      && (o == Up ==> t == Identity)
  {
  }

  lemma TransformDeterminant(o: ImageOrientation, size: Size)
    ensures Determinant(TransformForOrientation(o, size)) == (if o.IsMirrored() then -1 else 1)
  {
    TransformIsMultipliedOut(o, size);
    MultipliedOutDeterminant(o, size);
  }

  lemma MultipliedOutDeterminant(o: ImageOrientation, size: Size)
    ensures Determinant(MultipliedOut(o, size)) == (if o.IsMirrored() then -1 else 1)
  {
    var w, h := size.width, size.height;
    match o {
      case Up => assert Determinant(Affine(1, 0, 0, 1, 0.0, 0.0)) == 1;
      case Down => assert Determinant(Affine(-1, 0, 0, -1, w, h)) == 1;
      case Left => assert Determinant(Affine(0, 1, -1, 0, w, 0.0)) == 1;
      case Right => assert Determinant(Affine(0, -1, 1, 0, 0.0, h)) == 1;
      case UpMirrored => assert Determinant(Affine(-1, 0, 0, 1, w, 0.0)) == -1;
      case DownMirrored => assert Determinant(Affine(1, 0, 0, -1, 0.0, h)) == -1;
      case LeftMirrored => assert Determinant(Affine(0, -1, -1, 0, w, h)) == -1;
      case RightMirrored => assert Determinant(Affine(0, 1, 1, 0, 0.0, 0.0)) == -1;
    }
  }


  /** The composed transform agrees with the multiplied-out map, point for point. */
  lemma TransformIsUpright(o: ImageOrientation, size: Size, p: Point)
    ensures Apply(TransformForOrientation(o, size), p) == Upright(o, size, p)
  {
    TransformIsMultipliedOut(o, size);
  }


  /**
   * Every point of the drawn rectangle lands in the target rectangle, which
   * lies inside the canvas. Unless the drawing is transposed, this needs a
   * whole-numbered size: see `FractionalWidthMisplacesDrawing`.
   */
  lemma TransformMapsDrawnIntoTarget(o: ImageOrientation, size: Size, p: Point)
    requires size.IsNonNegative() && (DrawTransposed(o) || IsWholeSize(size))
    requires DrawnRect(o, size).ContainsPoint(p)
    ensures RectOfSize(size).ContainsPoint(Apply(TransformForOrientation(o, size), p))
    ensures CanvasRect(size).ContainsPoint(Apply(TransformForOrientation(o, size), p))
  {
    if !DrawTransposed(o) {
      CanvasOfWholeSize(size);
    }
    TransformIsUpright(o, size, p);
  }

  /** Every point of the target rectangle is covered by a point of the drawn rectangle. */
  lemma TransformCoversTarget(o: ImageOrientation, size: Size, q: Point)
    requires size.IsNonNegative() && (DrawTransposed(o) || IsWholeSize(size))
    requires RectOfSize(size).ContainsPoint(q)
    ensures exists p :: DrawnRect(o, size).ContainsPoint(p)
                        && Apply(TransformForOrientation(o, size), p) == q
  {
    if !DrawTransposed(o) {
      CanvasOfWholeSize(size);
    }
    var p := Drawn(o, size, q);
    TransformIsUpright(o, size, p);
    assert DrawnRect(o, size).ContainsPoint(p);
  }

  /**
   * With a fractional target width, an orientation that flips the x axis
   * draws part of the image off the canvas: the drawn rectangle is the
   * rounded-up canvas, but the transform flips about the unrounded width.
   */
  lemma FractionalWidthMisplacesDrawing(o: ImageOrientation, size: Size)
    requires size.IsNonNegative() && !IsWhole(size.width)
    requires o == Down || o == UpMirrored
    ensures var p := Point(Ceil(size.width) as real, 0.0);
      && DrawnRect(o, size).ContainsPoint(p)
      && !CanvasRect(size).ContainsPoint(Apply(TransformForOrientation(o, size), p))
  {
    var p := Point(Ceil(size.width) as real, 0.0);
    TransformIsUpright(o, size, p);
    assert Ceil(size.width) as real != size.width;
  }

  /**
   * Likewise with a fractional target height, an orientation that flips the
   * y axis draws part of the image above the canvas.
   */
  lemma FractionalHeightMisplacesDrawing(o: ImageOrientation, size: Size)
    requires size.IsNonNegative() && !IsWhole(size.height)
    requires o == Down || o == DownMirrored
    ensures var p := Point(0.0, Ceil(size.height) as real);
      && DrawnRect(o, size).ContainsPoint(p)
      && !CanvasRect(size).ContainsPoint(Apply(TransformForOrientation(o, size), p))
  {
    var p := Point(0.0, Ceil(size.height) as real);
    TransformIsUpright(o, size, p);
    assert Ceil(size.height) as real != size.height;
  }
}
