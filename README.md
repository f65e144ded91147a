# object-fit bounds

A Dafny model of `calculateObjectFitBounds` from html2canvas's renderer, the
function that implements the geometry of the CSS `object-fit` property (CSS
Images Module Level 3, section 5.5). Given a fit mode (`fill`, `contain`,
`cover`, `none`, `scale-down`), a resolved position offset, the natural size
of an image and the client size of the box it is drawn into, it returns two
rectangles: `src`, the part of the image to sample, and `dest`, the place in
the box to draw it.

- `object_fit.dfy` (module `ObjectFit`): the datatypes `FitMode`, `Rect` and
  `FitBounds`, and the computation `ObjectFitBounds`: the `scale-down`
  rewrite followed by one arm per mode, with the same strict ratio tests and
  per-axis choices as the source.
- `object_fit_properties.dfy` (module `ObjectFitProperties`): what each mode
  guarantees, the reference definitions `ContainScale` (largest uniform scale
  at which the image fits) and `CoverScale` (smallest uniform scale at which
  it covers the box), and the lemmas tying `Contain` and `Cover` to them.

Sizes are exact reals and every dimension is required to be positive, so every
division the source performs is defined. The resolved position is an opaque
pair `(px, py)`.

`cover` crops the image to the box's aspect ratio
(src/render/object-fit.ts:62-74); `CoverIsSmallestCover` proves it.

## Model

| member | source | states |
|---|---|---|
| ObjectFit.ObjectFitBounds | src/render/object-fit.ts:6-119 | For positive sizes every mode yields rectangles with positive extents |
| ObjectFitProperties.FillStretches | src/render/object-fit.ts:102-112 | `Fill` samples the whole image `(0,0,nw,nh)` and draws over the whole box `(0,0,cw,ch)`, and the position has no effect |
| ObjectFitProperties.ScaleDownIsNoneOrContain | src/render/object-fit.ts:29-34 | `ScaleDown` gives exactly the `None` result when the image is strictly smaller on both axes, exactly the `Contain` result otherwise |
| ObjectFitProperties.ScaleDownNeverEnlarges | src/render/object-fit.ts:29-54 | Under `ScaleDown` the drawn extent never exceeds the sampled extent on either axis |
| ObjectFitProperties.ScaleDownPicksSmaller | src/render/object-fit.ts:29-54 | The size test agrees with the CSS rule "the smaller of none and contain": when `None` is chosen `Contain` would enlarge on both axes, when `Contain` is chosen it does not enlarge |
| ObjectFitProperties.ContainScale | src/render/object-fit.ts:42-54 | Reference scale for contain: positive, the scaled image fits the box, and it touches the box on at least one axis |
| ObjectFitProperties.ContainScaleIsLargest | src/render/object-fit.ts:42-54 | Every positive scale at which the image fits is at most `ContainScale` |
| ObjectFitProperties.ContainIsLargestFit | src/render/object-fit.ts:37-54 | `Contain` never crops (`src` is the whole image), draws at `ContainScale` on both axes, and keeps the natural aspect ratio `dest.w / dest.h == nw / nh` |
| ObjectFitProperties.ContainPinnedAxis | src/render/object-fit.ts:42-54 | Height pinned to the box at y 0 with x from the position and width strictly inside when `nw/nh < cw/ch`; otherwise width pinned at x 0, y from the position, height within the box |
| ObjectFitProperties.ContainDependsOnlyOnRatio | src/render/object-fit.ts:37-54 | Scaling the natural size by any positive factor leaves `Contain`'s drawn rectangle unchanged |
| ObjectFitProperties.CoverScale | src/render/object-fit.ts:62-74 | Reference scale for cover: positive, the scaled image covers the box, and it matches the box on at least one axis |
| ObjectFitProperties.CoverScaleIsSmallest | src/render/object-fit.ts:62-74 | Every positive scale at which the image covers the box is at least `CoverScale` |
| ObjectFitProperties.CoverIsSmallestCover | src/render/object-fit.ts:57-74 | `Cover` never letterboxes (`dest` is the whole box), its crop is the box divided by `CoverScale`, the crop has the box's aspect ratio `src.w / src.h == cw / ch`, and it fits inside the image |
| ObjectFitProperties.CoverKeptAxis | src/render/object-fit.ts:62-74 | Full width kept at x 0 with y from the position and height strictly cropped when `nw/nh < cw/ch`; otherwise full height kept at y 0, x from the position, width within the image |
| ObjectFitProperties.NoneNeverScales | src/render/object-fit.ts:77-99 | `None` samples and draws the same extents; per axis, a smaller image is sampled whole from 0 and placed by the position, a larger one is drawn over the whole box from 0 and the position picks the window |
| ObjectFitProperties.NoneAxesIndependent | src/render/object-fit.ts:77-99 | Each axis of a `None` result is independent of the other: the x axis is unaffected by the heights and the position's y, the y axis by the widths and the position's x |
| ObjectFitProperties.ExtentsWithinBounds | src/render/object-fit.ts:36-113 | In every mode the sampled extents are within the image and the drawn extents within the box |
| ObjectFitProperties.AspectKeptUnlessFill | src/render/object-fit.ts:36-113 | Every mode except `Fill` gives `src` and `dest` the same aspect ratio; `Fill` does so exactly when image and box have equal ratios |
| ObjectFitProperties.EqualRatiosTieBreak | src/render/object-fit.ts:42-74 | With equal ratios the strict tests send `Contain` to its width-pinned arm (`dest = (0,py,cw,ch)`) and `Cover` to its height-kept arm (`src = (px,0,nw,nh)`) |
| ObjectFitProperties.WorkedCases | src/render/object-fit.ts:29-113 | Concrete results for a 100x50 image in a 200x200 box in four modes, and a 300x300 image under `ScaleDown` |

## Left out

- Position resolution (`getAbsoluteValueForTuple` and the `ObjectPosition` value, src/render/object-fit.ts:3-4 and 18): the length-percentage resolution is not part of this model; the resolved position is the input pair `(px, py)`. Because of that the model proves where each position component is used, not that the offset rectangles stay inside the image or the box.
- The `Bounds` class and the `OBJECT_FIT` enum (src/render/object-fit.ts:1-2) are replaced by the datatypes `Rect` and `FitMode`. An enum value outside the five modes, which the source sends to its `default:` arm, cannot be expressed; that arm is the model's `Fill` arm.
- IEEE-754 behaviour: zero or negative dimensions (infinite or NaN ratios, meaningless rectangles) and rounding are not modelled; every dimension is required to be positive and arithmetic is exact.
- Parsing CSS values into a fit mode and the canvas drawing that consumes the rectangles are not part of this model.
