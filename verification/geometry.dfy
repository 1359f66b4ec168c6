/** Core Graphics rectangle arithmetic with `CGFloat` modelled as exact `real`. */
module Geometry {
  import opened Options

  datatype Point = Point(x: real, y: real)

  datatype Size = Size(width: real, height: real) {
    predicate IsNonNegative() { width >= 0.0 && height >= 0.0 }
    predicate IsPositive() { width > 0.0 && height > 0.0 }
  }

  /** A `CGRect`: origin plus size. */
  datatype Rect = Rect(x: real, y: real, width: real, height: real) {
    function MaxX(): real { x + width }
    function MaxY(): real { y + height }

    /** A rectangle whose width and height are not negative. */
    predicate IsStandard() { width >= 0.0 && height >= 0.0 }

    predicate ContainsPoint(p: Point) {
      x <= p.x <= MaxX() && y <= p.y <= MaxY()
    }

    predicate ContainsRect(r: Rect) {
      x <= r.x && r.MaxX() <= MaxX() && y <= r.y && r.MaxY() <= MaxY()
    }
  }

  /** `CGRect(origin: CGPointZero, size: s)` */
  function RectOfSize(s: Size): Rect {
    Rect(0.0, 0.0, s.width, s.height)
  }

  function Scaled(s: Size, k: real): Size {
    Size(s.width * k, s.height * k)
  }

  predicate IsWhole(v: real) {
    v.Floor as real == v
  }

  predicate IsIntegralRect(r: Rect) {
    IsWhole(r.x) && IsWhole(r.y) && IsWhole(r.width) && IsWhole(r.height)
  }

  /** The greatest integer not above `v`. */
  function Floor(v: real): (f: int)
    ensures f as real <= v < f as real + 1.0
  {
    v.Floor
  }

  /** The least integer not below `v`. */
  function Ceil(v: real): (c: int)
    ensures c as real - 1.0 < v <= c as real
  {
    -((-v).Floor)
  }

  /**
   * `CGRectInset(r, dx, dy)`: moves every edge inwards, by `dx` horizontally
   * and `dy` vertically. Core Graphics answers the null rectangle (`None`
   * here) when the result would have a negative width or height.
   */
  function Inset(r: Rect, dx: real, dy: real): (o: Option<Rect>)
    requires r.IsStandard()
    ensures o.None? <==> r.width < 2.0 * dx || r.height < 2.0 * dy
    ensures o.Some? ==> o.value.IsStandard()
    ensures o.Some? ==> o.value.x - r.x == dx && r.MaxX() - o.value.MaxX() == dx
    ensures o.Some? ==> o.value.y - r.y == dy && r.MaxY() - o.value.MaxY() == dy
  {
    if r.width - 2.0 * dx < 0.0 || r.height - 2.0 * dy < 0.0 then None
    else Some(Rect(r.x + dx, r.y + dy, r.width - 2.0 * dx, r.height - 2.0 * dy))
  }

  /**
   * `CGRectIntegral(r)`: the origin is floored and the far edges are
   * ceiled, giving a whole-numbered rectangle around `r`.
   */
  function Integral(r: Rect): (o: Rect)
    requires r.IsStandard()
    ensures o.IsStandard() && IsIntegralRect(o)
    ensures o.ContainsRect(r)
  {
    var x0 := Floor(r.x);
    var y0 := Floor(r.y);
    var x1 := Ceil(r.MaxX());
    var y1 := Ceil(r.MaxY());
    Rect(x0 as real, y0 as real, (x1 - x0) as real, (y1 - y0) as real)
  }

  /** No whole-numbered rectangle around `r` is smaller than `Integral(r)`. */
  lemma IntegralIsSmallest(r: Rect, q: Rect)
    requires r.IsStandard() && IsIntegralRect(q) && q.ContainsRect(r)
    ensures q.ContainsRect(Integral(r))
  {
    var o := Integral(r);
    var qx, qy, qx1, qy1 := q.x.Floor, q.y.Floor, q.MaxX().Floor, q.MaxY().Floor;
    assert q.MaxX() == (q.x.Floor + q.width.Floor) as real;
    assert q.MaxY() == (q.y.Floor + q.height.Floor) as real;
    assert qx <= Floor(r.x);
    assert qy <= Floor(r.y);
    assert Ceil(r.MaxX()) <= qx1;
    assert Ceil(r.MaxY()) <= qy1;
  }

  /** `CGRectIntegral` leaves a whole-numbered rectangle alone. */
  lemma IntegralOfIntegral(r: Rect)
    requires r.IsStandard() && IsIntegralRect(r)
    ensures Integral(r) == r
  {
    var x, y, w, h := r.x.Floor, r.y.Floor, r.width.Floor, r.height.Floor;
    WholeFloorCeil(x);
    WholeFloorCeil(y);
    WholeFloorCeil(x + w);
    WholeFloorCeil(y + h);
  }

  lemma WholeFloorCeil(k: int)
    ensures Floor(k as real) == k && Ceil(k as real) == k
  {
  }

  /**
   * The canvas `resizeToSize` allocates, `CGRectIntegral` of the zero-origin
   * rectangle of the requested size: its sides are the ceilings of the size.
   */
  function CanvasRect(size: Size): (r: Rect)
    requires size.IsNonNegative()
    ensures r.IsStandard() && IsIntegralRect(r)
    ensures r.x == 0.0 && r.y == 0.0
    ensures r.width == Ceil(size.width) as real && r.height == Ceil(size.height) as real
    ensures r.ContainsRect(RectOfSize(size))
  {
    var c := Integral(RectOfSize(size));
    assert Floor(0.0) == 0;
    c
  }
}
