/** What `ObjectFit.ObjectFitBounds` guarantees, mode by mode, and how it
    relates to the sizing rules of CSS Images Module Level 3, section 5.5. */
module ObjectFitProperties {
  import opened ObjectFit

  // ---------------------------------------------------------------------------
  // Fill

  /** `Fill` stretches the whole image over the whole box, wherever the
      position points. */
  lemma FillStretches(px: real, py: real, qx: real, qy: real,
                      nw: real, nh: real, cw: real, ch: real)
    requires ValidSizes(nw, nh, cw, ch)
    ensures ObjectFitBounds(Fill, px, py, nw, nh, cw, ch)
         == FitBounds(Rect(0.0, 0.0, nw, nh), Rect(0.0, 0.0, cw, ch))
    ensures ObjectFitBounds(Fill, px, py, nw, nh, cw, ch)
         == ObjectFitBounds(Fill, qx, qy, nw, nh, cw, ch)
  {
  }

  // ---------------------------------------------------------------------------
  // ScaleDown

  /** `ScaleDown` answers exactly what `None` answers when the image is
      strictly smaller than the box on both axes, and exactly what `Contain`
      answers otherwise. */
  lemma ScaleDownIsNoneOrContain(px: real, py: real, nw: real, nh: real, cw: real, ch: real)
    requires ValidSizes(nw, nh, cw, ch)
    ensures nw < cw && nh < ch ==>
      ObjectFitBounds(ScaleDown, px, py, nw, nh, cw, ch) == ObjectFitBounds(None, px, py, nw, nh, cw, ch)
    ensures !(nw < cw && nh < ch) ==>
      ObjectFitBounds(ScaleDown, px, py, nw, nh, cw, ch) == ObjectFitBounds(Contain, px, py, nw, nh, cw, ch)
  {
  }

  /** `ScaleDown` never draws the image larger than it is sampled: on each
      axis the drawn extent is at most the sampled extent. */
  lemma ScaleDownNeverEnlarges(px: real, py: real, nw: real, nh: real, cw: real, ch: real)
    requires ValidSizes(nw, nh, cw, ch)
    ensures var r := ObjectFitBounds(ScaleDown, px, py, nw, nh, cw, ch);
            r.dest.w <= r.src.w && r.dest.h <= r.src.h
  {
    ScaleDownIsNoneOrContain(px, py, nw, nh, cw, ch);
    if !(nw < cw && nh < ch) {
      var c := ObjectFitBounds(Contain, px, py, nw, nh, cw, ch);
      ContainIsLargestFit(px, py, nw, nh, cw, ch);
      ContainScaleAtMostOne(nw, nh, cw, ch);
      assert c.dest.w == ContainScale(nw, nh, cw, ch) * nw;
    }
  }

  /** The rule of CSS section 5.5 for `scale-down`: use whichever of `none`
      (the natural size) and `contain` gives the smaller concrete object size.
      The choice `ScaleDown` makes by comparing sizes agrees with that rule:
      when it picks `None`, `Contain` would have enlarged the image on both
      axes; when it picks `Contain`, `Contain` does not enlarge it. */
  lemma ScaleDownPicksSmaller(px: real, py: real, nw: real, nh: real, cw: real, ch: real)
    requires ValidSizes(nw, nh, cw, ch)
    ensures var c := ObjectFitBounds(Contain, px, py, nw, nh, cw, ch).dest;
            if nw < cw && nh < ch then nw < c.w && nh < c.h
            else c.w <= nw && c.h <= nh
  {
    ContainIsLargestFit(px, py, nw, nh, cw, ch);
    var s := ContainScale(nw, nh, cw, ch);
    ScaleAgainstOne(s, nw);
    ScaleAgainstOne(s, nh);
    if nw < cw && nh < ch {
      assert s * nw == cw || s * nh == ch;
      assert 1.0 < s;
    } else {
      ContainScaleAtMostOne(nw, nh, cw, ch);
    }
  }

  // ---------------------------------------------------------------------------
  // Contain

  /** The uniform scale `contain` applies to the natural size: the largest
      one at which the image still fits in the box. */
  function ContainScale(nw: real, nh: real, cw: real, ch: real): (s: real)
    requires ValidSizes(nw, nh, cw, ch)
    ensures 0.0 < s && s * nw <= cw && s * nh <= ch
    ensures s * nw == cw || s * nh == ch
  {
    if cw / nw <= ch / nh then cw / nw else ch / nh
  }

  /** No positive scale larger than `ContainScale` keeps the image inside the
      box. */
  lemma ContainScaleIsLargest(s: real, nw: real, nh: real, cw: real, ch: real)
    requires ValidSizes(nw, nh, cw, ch)
    requires 0.0 < s && s * nw <= cw && s * nh <= ch
    ensures s <= ContainScale(nw, nh, cw, ch)
  {
    assert s <= cw / nw by { DivideBothSides(s, nw, cw); }
    assert s <= ch / nh by { DivideBothSides(s, nh, ch); }
  }

  /** `a * b <= c` with `b` positive gives `a <= c / b`. */
  lemma DivideBothSides(a: real, b: real, c: real)
    requires b > 0.0 && a * b <= c
    ensures a <= c / b
  {
    assert c / b * b == c;
  }

  /** When the image is not strictly smaller than the box on both axes, the
      contain scale does not enlarge it. */
  lemma ContainScaleAtMostOne(nw: real, nh: real, cw: real, ch: real)
    requires ValidSizes(nw, nh, cw, ch)
    requires !(nw < cw && nh < ch)
    ensures ContainScale(nw, nh, cw, ch) <= 1.0
  {
    var s := ContainScale(nw, nh, cw, ch);
    if cw <= nw {
      ScaleAgainstOne(s, nw);
    } else {
      ScaleAgainstOne(s, nh);
    }
  }

  /** `Contain` never crops and keeps the aspect ratio: it samples the whole
      image and draws it at `ContainScale` on both axes, the largest size that
      fits inside the box. */
  lemma ContainIsLargestFit(px: real, py: real, nw: real, nh: real, cw: real, ch: real)
    requires ValidSizes(nw, nh, cw, ch)
    ensures var r := ObjectFitBounds(Contain, px, py, nw, nh, cw, ch);
            var s := ContainScale(nw, nh, cw, ch);
            && r.src == Rect(0.0, 0.0, nw, nh)
            && r.dest.w == s * nw && r.dest.h == s * nh
            && r.dest.w / r.dest.h == nw / nh
  {
    var r := ObjectFitBounds(Contain, px, py, nw, nh, cw, ch);
    var s := ContainScale(nw, nh, cw, ch);
    RatioLess(nw, nh, cw, ch);
    if nw / nh < cw / ch {
      assert ch / nh < cw / nw by { RatioLess(ch, nh, cw, nw); }
      assert r.dest.w == ch * (nw / nh) == (ch / nh) * nw;
    } else {
      assert cw / nw <= ch / nh by { RatioLess(ch, nh, cw, nw); }
      assert r.dest.h == cw / (nw / nh) == (cw / nw) * nh;
    }
  }

  /** Which axis `Contain` pins to the box: the height (at offset 0, the
      position's x placing the image) when the image is relatively taller
      than the box, the width (at offset 0, the position's y placing the
      image) otherwise. The derived extent never exceeds the box, and is
      strictly smaller in the first case. */
  lemma ContainPinnedAxis(px: real, py: real, nw: real, nh: real, cw: real, ch: real)
    requires ValidSizes(nw, nh, cw, ch)
    ensures var d := ObjectFitBounds(Contain, px, py, nw, nh, cw, ch).dest;
            if nw / nh < cw / ch then d.y == 0.0 && d.h == ch && d.x == px && d.w < cw
            else d.x == 0.0 && d.w == cw && d.y == py && d.h <= ch
  {
    RatioLess(nw, nh, cw, ch);
  }

  /** `Contain` depends on the image only through its aspect ratio: scaling
      the natural size by any positive factor leaves the drawn rectangle as
      it is. */
  lemma ContainDependsOnlyOnRatio(k: real, px: real, py: real,
                                  nw: real, nh: real, cw: real, ch: real)
    requires ValidSizes(nw, nh, cw, ch) && k > 0.0
    ensures ObjectFitBounds(Contain, px, py, k * nw, k * nh, cw, ch).dest
         == ObjectFitBounds(Contain, px, py, nw, nh, cw, ch).dest
  {
    assert (k * nw) / (k * nh) == nw / nh by {
      assert (k * nw) / (k * nh) * nh == nw;
    }
  }

  // ---------------------------------------------------------------------------
  // Cover

  /** The uniform scale `cover` applies to the natural size: the smallest one
      at which the image still covers the whole box. */
  function CoverScale(nw: real, nh: real, cw: real, ch: real): (s: real)
    requires ValidSizes(nw, nh, cw, ch)
    ensures 0.0 < s && cw <= s * nw && ch <= s * nh
    ensures s * nw == cw || s * nh == ch
  {
    if cw / nw <= ch / nh then ch / nh else cw / nw
  }

  /** No positive scale smaller than `CoverScale` covers the box. */
  lemma CoverScaleIsSmallest(s: real, nw: real, nh: real, cw: real, ch: real)
    requires ValidSizes(nw, nh, cw, ch)
    requires 0.0 < s && cw <= s * nw && ch <= s * nh
    ensures CoverScale(nw, nh, cw, ch) <= s
  {
    assert cw / nw <= s by { MultiplyBack(s, nw, cw); }
    assert ch / nh <= s by { MultiplyBack(s, nh, ch); }
  }

  /** `c <= a * b` with `b` positive gives `c / b <= a`. */
  lemma MultiplyBack(a: real, b: real, c: real)
    requires b > 0.0 && c <= a * b
    ensures c / b <= a
  {
    assert c / b * b == c;
  }

  /** `Cover` never letterboxes and never distorts: it draws over the whole
      box, and samples the part of the image that `CoverScale` maps onto the
      box, so the sampled crop has the box's aspect ratio and fits inside the
      image. */
  lemma CoverIsSmallestCover(px: real, py: real, nw: real, nh: real, cw: real, ch: real)
    requires ValidSizes(nw, nh, cw, ch)
    ensures var r := ObjectFitBounds(Cover, px, py, nw, nh, cw, ch);
            var s := CoverScale(nw, nh, cw, ch);
            && r.dest == Rect(0.0, 0.0, cw, ch)
            && r.src.w * s == cw && r.src.h * s == ch
            && r.src.w / r.src.h == cw / ch
            && r.src.w <= nw && r.src.h <= nh
  {
    var r := ObjectFitBounds(Cover, px, py, nw, nh, cw, ch);
    var s := CoverScale(nw, nh, cw, ch);
    CoverKeptAxis(px, py, nw, nh, cw, ch);
    RatioLess(nw, nh, cw, ch);
    RatioLess(ch, nh, cw, nw);
    if nw / nh < cw / ch {
      assert s == cw / nw;
      assert (nw / cw) * (cw / nw) == 1.0;
      assert r.src.h * s == ch * ((nw / cw) * (cw / nw));
    } else {
      assert s == ch / nh;
      assert (nh / ch) * (ch / nh) == 1.0;
      assert r.src.w * s == cw * ((nh / ch) * (ch / nh));
    }
  }

  /** Which axis `Cover` keeps whole: the width (from offset 0, the
      position's y choosing the crop) when the image is relatively taller
      than the box, the height (from offset 0, the position's x choosing the
      crop) otherwise. The cropped extent never exceeds the image, and is
      strictly smaller in the first case. */
  lemma CoverKeptAxis(px: real, py: real, nw: real, nh: real, cw: real, ch: real)
    requires ValidSizes(nw, nh, cw, ch)
    ensures var s := ObjectFitBounds(Cover, px, py, nw, nh, cw, ch).src;
            if nw / nh < cw / ch then s.x == 0.0 && s.w == nw && s.y == py && s.h < nh
            else s.y == 0.0 && s.h == nh && s.x == px && s.w <= nw
  {
    RatioLess(nw, nh, cw, ch);
  }

  // ---------------------------------------------------------------------------
  // None

  /** `None` never scales and treats the axes independently. On an axis where
      the image is smaller than the box, it samples the whole extent from 0
      and the position places it in the box; otherwise it draws over the whole
      box extent from 0 and the position chooses the window into the image. */
  lemma NoneNeverScales(px: real, py: real, nw: real, nh: real, cw: real, ch: real)
    requires ValidSizes(nw, nh, cw, ch)
    ensures var r := ObjectFitBounds(None, px, py, nw, nh, cw, ch);
            && r.src.w == r.dest.w && r.src.h == r.dest.h
            && (if nw < cw then r.src.x == 0.0 && r.src.w == nw && r.dest.x == px
                else r.dest.x == 0.0 && r.dest.w == cw && r.src.x == px)
            && (if nh < ch then r.src.y == 0.0 && r.src.h == nh && r.dest.y == py
                else r.dest.y == 0.0 && r.dest.h == ch && r.src.y == py)
  {
  }

  /** The x axis of a `None` result does not depend on the heights or on the
      position's y, and the y axis does not depend on the widths or on the
      position's x. */
  lemma NoneAxesIndependent(px: real, py: real, qx: real, qy: real,
                            nw: real, nh: real, mw: real, mh: real,
                            cw: real, ch: real, dw: real, dh: real)
    requires ValidSizes(nw, nh, cw, ch) && ValidSizes(nw, mh, cw, dh) && ValidSizes(mw, nh, dw, ch)
    ensures var a := ObjectFitBounds(None, px, py, nw, nh, cw, ch);
            var b := ObjectFitBounds(None, px, qy, nw, mh, cw, dh);
            a.src.x == b.src.x && a.src.w == b.src.w && a.dest.x == b.dest.x && a.dest.w == b.dest.w
    ensures var a := ObjectFitBounds(None, px, py, nw, nh, cw, ch);
            var c := ObjectFitBounds(None, qx, py, mw, nh, dw, ch);
            a.src.y == c.src.y && a.src.h == c.src.h && a.dest.y == c.dest.y && a.dest.h == c.dest.h
  {
  }

  // ---------------------------------------------------------------------------
  // All modes

  /** In every mode the sampled extents lie within the image and the drawn
      extents within the box. */
  lemma ExtentsWithinBounds(mode: FitMode, px: real, py: real,
                            nw: real, nh: real, cw: real, ch: real)
    requires ValidSizes(nw, nh, cw, ch)
    ensures var r := ObjectFitBounds(mode, px, py, nw, nh, cw, ch);
            && r.src.w <= nw && r.src.h <= nh
            && r.dest.w <= cw && r.dest.h <= ch
  {
    match mode
    case Contain =>
      ContainPinnedAxis(px, py, nw, nh, cw, ch);
    case Cover =>
      CoverKeptAxis(px, py, nw, nh, cw, ch);
    case ScaleDown =>
      ScaleDownIsNoneOrContain(px, py, nw, nh, cw, ch);
      ContainPinnedAxis(px, py, nw, nh, cw, ch);
    case _ =>
  }

  /** Every mode except `Fill` keeps the image's proportions: the sampled and
      the drawn rectangle have the same aspect ratio. `Fill` keeps them
      exactly when the image and the box have the same aspect ratio. */
  lemma AspectKeptUnlessFill(mode: FitMode, px: real, py: real,
                             nw: real, nh: real, cw: real, ch: real)
    requires ValidSizes(nw, nh, cw, ch)
    ensures var r := ObjectFitBounds(mode, px, py, nw, nh, cw, ch);
            mode != Fill ==> r.src.w / r.src.h == r.dest.w / r.dest.h
    ensures var r := ObjectFitBounds(mode, px, py, nw, nh, cw, ch);
            mode == Fill ==> (r.src.w / r.src.h == r.dest.w / r.dest.h <==> nw / nh == cw / ch)
  {
    match mode
    case Contain =>
      ContainIsLargestFit(px, py, nw, nh, cw, ch);
    case ScaleDown =>
      ScaleDownIsNoneOrContain(px, py, nw, nh, cw, ch);
      ContainIsLargestFit(px, py, nw, nh, cw, ch);
    case Cover =>
      CoverIsSmallestCover(px, py, nw, nh, cw, ch);
    case _ =>
  }

  /** Equal aspect ratios: both `Contain` and `Cover` take their second arm,
      so the whole image is sampled and drawn over the whole box in either
      mode; `Contain` offsets the drawing by the position's y, `Cover` offsets
      the sample by the position's x. */
  lemma EqualRatiosTieBreak(px: real, py: real, nw: real, nh: real, cw: real, ch: real)
    requires ValidSizes(nw, nh, cw, ch) && nw / nh == cw / ch
    ensures ObjectFitBounds(Contain, px, py, nw, nh, cw, ch)
         == FitBounds(Rect(0.0, 0.0, nw, nh), Rect(0.0, py, cw, ch))
    ensures ObjectFitBounds(Cover, px, py, nw, nh, cw, ch)
         == FitBounds(Rect(px, 0.0, nw, nh), Rect(0.0, 0.0, cw, ch))
  {
    ContainIsLargestFit(px, py, nw, nh, cw, ch);
    CoverIsSmallestCover(px, py, nw, nh, cw, ch);
  }

  /** Worked cases: a 100x50 image in a 200x200 box at position (px, py),
      and a 300x300 image scaled down into a 200x200 box. */
  lemma WorkedCases(px: real, py: real)
    ensures ObjectFitBounds(Fill, px, py, 100.0, 50.0, 200.0, 200.0)
         == FitBounds(Rect(0.0, 0.0, 100.0, 50.0), Rect(0.0, 0.0, 200.0, 200.0))
    ensures ObjectFitBounds(Contain, px, py, 100.0, 50.0, 200.0, 200.0)
         == FitBounds(Rect(0.0, 0.0, 100.0, 50.0), Rect(0.0, py, 200.0, 100.0))
    ensures ObjectFitBounds(Cover, px, py, 100.0, 50.0, 200.0, 200.0)
         == FitBounds(Rect(px, 0.0, 50.0, 50.0), Rect(0.0, 0.0, 200.0, 200.0))
    ensures ObjectFitBounds(None, px, py, 100.0, 50.0, 200.0, 200.0)
         == FitBounds(Rect(0.0, 0.0, 100.0, 50.0), Rect(px, py, 100.0, 50.0))
    ensures ObjectFitBounds(ScaleDown, px, py, 300.0, 300.0, 200.0, 200.0)
         == FitBounds(Rect(0.0, 0.0, 300.0, 300.0), Rect(0.0, py, 200.0, 200.0))
  {
  }

  // ---------------------------------------------------------------------------
  // Arithmetic on ratios

  /** A positive extent `x` grows under the scale `s` exactly when `s`
      exceeds 1. */
  lemma ScaleAgainstOne(s: real, x: real)
    requires x > 0.0
    ensures s <= 1.0 <==> s * x <= x
  {
    assert (1.0 - s) * x == x - s * x;
  }

  /** Comparing two ratios of positive reals is comparing the cross products. */
  lemma RatioLess(a: real, b: real, c: real, d: real)
    requires a > 0.0 && b > 0.0 && c > 0.0 && d > 0.0
    ensures a / b < c / d <==> a * d < c * b
    ensures a / b == c / d <==> a * d == c * b
  {
  }
}
