/** The geometry of the CSS `object-fit` property (CSS Images Module Level 3,
    section 5.5): given a fit mode, an already resolved position offset, the
    natural (source) size of an image and the client (destination) size of the
    box it is drawn into, compute the part of the image to sample (`src`) and
    the place in the box where it is drawn (`dest`).

    Sizes are exact reals. html2canvas's `calculateObjectFitBounds` computes in
    IEEE doubles and lets a zero height turn into an infinite or NaN ratio;
    here every dimension is required to be positive, which keeps every
    division defined. */
module ObjectFit {

  /** The five fit modes. The `default:` arm of html2canvas's
      `calculateObjectFitBounds` (an unrecognised enum value) behaves like
      `Fill`; a closed datatype has no such values. */
  datatype FitMode = Fill | Contain | Cover | None | ScaleDown

  /** An axis-aligned rectangle: offset `x`, `y`, extent `w`, `h`. */
  datatype Rect = Rect(x: real, y: real, w: real, h: real)

  /** The result of one computation: where to sample and where to draw. */
  datatype FitBounds = FitBounds(src: Rect, dest: Rect)

  /** The natural and client sizes the model accepts. */
  predicate ValidSizes(nw: real, nh: real, cw: real, ch: real) {
    nw > 0.0 && nh > 0.0 && cw > 0.0 && ch > 0.0
  }

  /** The whole computation. `(px, py)` is the resolved position; `nw`, `nh`
      the natural size; `cw`, `ch` the client size. The ratio tests are
      strict, so equal aspect ratios take the second arm in both `Contain`
      and `Cover`. `ScaleDown` is first rewritten to `None` when the image is
      strictly smaller than the box on both axes and to `Contain` otherwise. */
  function ObjectFitBounds(mode: FitMode, px: real, py: real,
                           nw: real, nh: real, cw: real, ch: real): (r: FitBounds)
    requires ValidSizes(nw, nh, cw, ch)
    ensures 0.0 < r.src.w && 0.0 < r.src.h && 0.0 < r.dest.w && 0.0 < r.dest.h
  {
    var naturalRatio := nw / nh;
    var clientRatio := cw / ch;
    // the quotients below are positive, so every extent is
    assert naturalRatio > 0.0 && nw / cw > 0.0 && nh / ch > 0.0;
    var fit :=
      if mode == ScaleDown then
        if nw < cw && nh < ch then None else Contain
      else
        mode;
    match fit
    case Contain =>
      var src := Rect(0.0, 0.0, nw, nh);
      if naturalRatio < clientRatio then
        // snap to top and bottom
        var destH := ch;
        FitBounds(src, Rect(px, 0.0, destH * naturalRatio, destH))
      else
        // snap to left and right
        var destW := cw;
        FitBounds(src, Rect(0.0, py, destW, destW / naturalRatio))
    case Cover =>
      var dest := Rect(0.0, 0.0, cw, ch);
      if naturalRatio < clientRatio then
        // keep the full width, crop top and bottom
        FitBounds(Rect(0.0, py, nw, ch * (nw / cw)), dest)
      else
        // keep the full height, crop left and right
        FitBounds(Rect(px, 0.0, cw * (nh / ch), nh), dest)
    case None =>
      var (srcX, srcW, destX, destW) :=
        if nw < cw then (0.0, nw, px, nw) else (px, cw, 0.0, cw);
      var (srcY, srcH, destY, destH) :=
        if nh < ch then (0.0, nh, py, nh) else (py, ch, 0.0, ch);
      FitBounds(Rect(srcX, srcY, srcW, srcH), Rect(destX, destY, destW, destH))
    case _ =>
      FitBounds(Rect(0.0, 0.0, nw, nh), Rect(0.0, 0.0, cw, ch))
  }
}
