/**
 * The geometry of `centerCropWithSize`: which part of the source image is
 * kept so that, scaled by one ratio, it covers the target exactly.
 */
module Crop {
  import opened Options
  import opened Geometry

  function HorizontalRatio(source: Size, target: Size): real
    requires source.IsPositive()
  {
    target.width / source.width
  }

  function VerticalRatio(source: Size, target: Size): real
    requires source.IsPositive()
  {
    target.height / source.height
  }

  /** The crop is driven by the width only on a strict `>`; a tie goes to the height. */
  predicate WidthDriven(source: Size, target: Size)
    requires source.IsPositive()
  {
    HorizontalRatio(source, target) > VerticalRatio(source, target)
  }

  /** The one ratio both sides are scaled by: the larger of the two. */
  function Ratio(source: Size, target: Size): (r: real)
    requires source.IsPositive()
    ensures r >= HorizontalRatio(source, target) && r >= VerticalRatio(source, target)
    ensures r == HorizontalRatio(source, target) || r == VerticalRatio(source, target)
  {
    if WidthDriven(source, target) then HorizontalRatio(source, target)
    else VerticalRatio(source, target)
  }

  /**
   * The crop bounds for a source of size `source` (points) and a target of
   * size `target` (pixels, already multiplied by the screen scale).
   * `None` stands for bounds that floating point cannot represent: with a
   * zero-by-zero target the ratio is zero and the crop size is 0/0.
   */
  function CropBounds(source: Size, target: Size): (r: Option<Rect>)
    requires source.IsPositive() && target.IsNonNegative()
    ensures r.None? <==> target.width == 0.0 && target.height == 0.0
    ensures r.Some? ==> r.value.IsStandard()
  {
    var ratio := Ratio(source, target);
    if ratio == 0.0 then None
    else
      var w := target.width / ratio;
      var h := target.height / ratio;
      if WidthDriven(source, target) then Some(Rect(0.0, (source.height - h) / 2.0, w, h))
      else Some(Rect((source.width - w) / 2.0, 0.0, w, h))
  }

  /** The ratio is the larger of the two, and equal ratios count as height-driven. */
  lemma RatioIsMax(source: Size, target: Size)
    requires source.IsPositive()
    ensures var hr, vr := HorizontalRatio(source, target), VerticalRatio(source, target);
      Ratio(source, target) == (if hr >= vr then hr else vr)
      && (hr == vr ==> !WidthDriven(source, target))
  {
  }

  /** For a non-negative target the ratio is zero only when the target is zero by zero. */
  lemma RatioZero(source: Size, target: Size)
    requires source.IsPositive() && target.IsNonNegative()
    ensures Ratio(source, target) >= 0.0
    ensures Ratio(source, target) == 0.0 <==> target.width == 0.0 && target.height == 0.0
  {
    var hr, vr := HorizontalRatio(source, target), VerticalRatio(source, target);
    assert hr * source.width == target.width;
    assert vr * source.height == target.height;
  }

  lemma DivideBack(t: real, s: real)
    requires s > 0.0 && t > 0.0
    ensures t / (t / s) == s
  {
    var q := t / s;
    assert q * s == t;
    assert q > 0.0;
  }

  /**
   * A width-driven crop keeps the full source width; otherwise the crop
   * keeps the full source height.
   */
  lemma CropSpansSource(source: Size, target: Size)
    requires source.IsPositive() && target.IsNonNegative()
    requires CropBounds(source, target).Some?
    ensures var r := CropBounds(source, target).value;
      if WidthDriven(source, target) then r.x == 0.0 && r.width == source.width
      else r.y == 0.0 && r.height == source.height
  {
    RatioZero(source, target);
    if WidthDriven(source, target) {
      DivideBack(target.width, source.width);
    } else {
      DivideBack(target.height, source.height);
    }
  }

  /** The crop lies inside the source image. */
  lemma CropInsideSource(source: Size, target: Size)
    requires source.IsPositive() && target.IsNonNegative()
    requires CropBounds(source, target).Some?
    ensures RectOfSize(source).ContainsRect(CropBounds(source, target).value)
  {
    CropSpansSource(source, target);
    var r := CropBounds(source, target).value;
    var hr, vr := HorizontalRatio(source, target), VerticalRatio(source, target);
    assert hr * source.width == target.width;
    assert vr * source.height == target.height;
    if WidthDriven(source, target) {
      // target.height / hr <= target.height / vr == source.height
      assert r.height * hr == target.height;
      assert r.height <= source.height by {
        assert target.height < hr * source.height || target.height == 0.0;
      }
    } else {
      assert r.width * vr == target.width;
      assert r.width <= source.width by {
        assert target.width <= vr * source.width;
      }
    }
  }

  /** The crop has the target's aspect ratio. */
  lemma CropKeepsAspect(source: Size, target: Size)
    requires source.IsPositive() && target.IsNonNegative()
    requires CropBounds(source, target).Some?
    ensures var r := CropBounds(source, target).value;
      r.width * target.height == r.height * target.width
  {
    RatioZero(source, target);
    var ratio := Ratio(source, target);
    var r := CropBounds(source, target).value;
    assert r.width * ratio == target.width;
    assert r.height * ratio == target.height;
    assert r.width * target.height == r.width * (r.height * ratio);
  }

  /** The crop leaves equal margins on both sides of each axis. */
  lemma CropIsCentred(source: Size, target: Size)
    requires source.IsPositive() && target.IsNonNegative()
    requires CropBounds(source, target).Some?
    ensures var r := CropBounds(source, target).value;
      r.x == (source.width - r.width) / 2.0 && r.y == (source.height - r.height) / 2.0
  {
    CropSpansSource(source, target);
  }

  /**
   * The crop is the largest rectangle of the target's aspect ratio that fits
   * in the source: any other such rectangle is no wider and no taller.
   */
  lemma CropIsLargest(source: Size, target: Size, q: Rect)
    requires source.IsPositive() && target.IsNonNegative()
    requires CropBounds(source, target).Some?
    requires q.IsStandard() && RectOfSize(source).ContainsRect(q)
    requires q.width * target.height == q.height * target.width
    ensures var r := CropBounds(source, target).value;
      q.width <= r.width && q.height <= r.height
  {
    CropSpansSource(source, target);
    CropInsideSource(source, target);
    CropKeepsAspect(source, target);
    RatioZero(source, target);
    var r := CropBounds(source, target).value;
    var hr, vr := HorizontalRatio(source, target), VerticalRatio(source, target);
    assert hr * source.width == target.width;
    assert vr * source.height == target.height;
    if WidthDriven(source, target) {
      assert target.width > 0.0;
      assert q.width <= r.width;
      // both rectangles have height == width * target.height / target.width
      assert q.height * target.width <= r.height * target.width by {
        assert q.width * target.height <= r.width * target.height;
      }
    } else {
      assert target.height > 0.0;
      assert q.height <= r.height;
      assert q.width * target.height <= r.width * target.height by {
        assert q.height * target.width <= r.height * target.width;
      }
    }
  }

  lemma CancelPositive(u: real, v: real, c: real)
    requires c > 0.0 && u * c == v * c
    ensures u == v
  {
    assert (u - v) * c == 0.0;
  }

  /** A source that already has the target's aspect ratio is kept whole. */
  lemma CropOfMatchingAspectIsWhole(source: Size, target: Size)
    requires source.IsPositive() && target.IsNonNegative()
    requires target.width != 0.0 || target.height != 0.0
    requires source.width * target.height == source.height * target.width
    ensures CropBounds(source, target) == Some(RectOfSize(source))
  {
    var hr, vr := HorizontalRatio(source, target), VerticalRatio(source, target);
    assert hr * source.width == target.width;
    assert vr * source.height == target.height;
    assert hr == vr by {
      var area := source.width * source.height;
      assert hr * area == target.width * source.height by {
        assert hr * area == (hr * source.width) * source.height;
      }
      assert vr * area == target.height * source.width by {
        assert vr * area == (vr * source.height) * source.width;
      }
      CancelPositive(hr, vr, area);
    }
    CropSpansSource(source, target);
    CropKeepsAspect(source, target);
    var r := CropBounds(source, target).value;
    assert r.width * target.height == source.height * target.width;
    assert target.height > 0.0;
    CancelPositive(r.width, source.width, target.height);
  }

  /**
   * A portrait source with a square target is width-driven: the crop keeps
   * the full width and is centred vertically.
   */
  lemma PortraitSourceSquareTarget()
    ensures CropBounds(Size(100.0, 200.0), Size(50.0, 50.0)) == Some(Rect(0.0, 50.0, 100.0, 100.0))
  {
  }
}
