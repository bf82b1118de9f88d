# Carousel back-view processor

This project models `BaseCarouselBackViewProcessor` from the PanCardView
library. In the carousel, this processor moves the card behind the current one
while the user pans. A one-dimensional pan position becomes the card's scale,
opacity, rotation and compensated horizontal translation. The processor also
decides what each lifecycle event does:

- `HandleInitView` places the card at Sign(direction)·Width: one container
  width away for Prev and Next, at the centre for Null. `HandleCleanView`
  places it one width away on the positive side. Both hide it.
- `HandlePanChanged` shows the card and hides the inactive one. It then either
  moves the card with the finger or skips the position.
- `HandleAutoNavigate`, `HandlePanReset` and `HandlePanApply` each choose the
  start, end, length and name of a snap animation, or decide that no animation
  is needed.

The `double`s of the source are exact `real`s here. So the geometry becomes a
set of algebraic laws:

- the boundary values and symmetry of the factored property;
- the sign of the rotation;
- an exact condition, in both directions, under which `GetTranslationX` reads
  back the position that `SetTranslationX` stored.

Files:

- `geometry.dfy` (module `Geometry`): `Math.Abs`, `Math.Sign`,
  `CalculateFactoredProperty`, the rotation, and the translation compensation
  with its inverse.
- `directions.dfy` (modules `Optional` and `Directions`): the source's `bool?`
  and `??`, the `AnimationDirection` enum, and `Sign((int)direction)`. The
  enum's integer values are a parameter (`Encoding`): Null is 0, and Prev and
  Next have opposite, nonzero signs. Nothing fixes which of the two is
  positive.
- `views.dfy` (module `Views`): the fields of a Xamarin.Forms `View` and of
  `CardsView` that the processor uses.
  - `View.SizeChangedHandlers` is the list of handlers that `SetTranslationX`
    subscribed while the view's width was unknown (negative).
  - `FirstOrDefault` models LINQ's `views.FirstOrDefault()`.
- `processor.dfy` (module `CarouselBackView`): the processor as a class.
  - The configuration properties are mutable fields.
  - `SetTranslationX`, `OnViewSizeChanged` and the Init, Clean and PanChanged
    handlers change views in place.
  - The three animated handlers are functions that return either a completed
    result or the `AnimationRequest` they commit.
  - `Placed`, `PanPosition`, `Resolve`, `Replay`, `PanSkipped` (the position
    test of PanChanged) and `ResetLength` (the wrapped snap length of PanReset)
    are the specification functions that the methods are proved against. `Resolve` turns the
    subscribed handlers into placements, each with the container width its
    handler reads when it runs.

Behaviour of the code worth knowing:

- `HandleInitView` passes `isVisible = false`, so the card is hidden.
- The integer values of `AnimationDirection` are declared outside the
  processor, so which of Prev and Next is positive stays a parameter.
  `PanChangedWindow` shows that with Prev positive, a pan of less than one
  width in either direction is always skipped.
  `AutoNavigateEndsWherePanApplyEnds` shows that AutoNavigate and PanApply
  agree on their destination exactly when Prev is negative.
- `HandleAutoNavigate` always animates from 0, not from the card's current
  position.
- `HandlePanApply` commits its animation under the name "HandlePanReset", the
  same name as `HandlePanReset`. So the two replace each other.

## Model

| member | source | states |
|---|---|---|
| `Geometry.FactoredProperty` | PanCardView/Processors/BaseCarouselBackViewProcessor.cs:161-162 | the factored property is exactly `defaultFactorValue` at the centre and exactly `factor` one container width away |
| `Geometry.FactoredPropertySymmetric` | PanCardView/Processors/BaseCarouselBackViewProcessor.cs:161-162 | the property depends only on abs(value), so panning left or right by the same amount gives the same result |
| `Geometry.FactoredPropertyBetween` | PanCardView/Processors/BaseCarouselBackViewProcessor.cs:161-162 | within one width the property lies between its two end values and moves monotonically from one to the other as abs(value) grows |
| `Geometry.RotationSign` | PanCardView/Processors/BaseCarouselBackViewProcessor.cs:151 | the rotation's sign is −sign(value)·sign(RotationFactor): zero at the centre or with no factor, against the pan for a positive factor; and the rotation is odd in the position |
| `Geometry.CompensationRoundTrip` | PanCardView/Processors/BaseCarouselBackViewProcessor.cs:113-153 | un-compensating the stored translation gives back the position if and only if the position is 0 or viewWidth·(1−ScaleFactor) < 2·cardsWidth |
| `Geometry.RoundTripCondition` | PanCardView/Processors/BaseCarouselBackViewProcessor.cs:152 | a view no wider than its container with a scale factor in [0, 1] always meets that condition |
| `Directions.DirectionSign` | PanCardView/Processors/BaseCarouselBackViewProcessor.cs:27 | `Sign((int)direction)` is 0 only for Null, and it is opposite and nonzero for Prev and Next |
| `Views.FirstOrDefault` | PanCardView/Processors/BaseCarouselBackViewProcessor.cs:26 | the first view, or null exactly when there is none |
| `CarouselBackView.PlacedReadsBack` | PanCardView/Processors/BaseCarouselBackViewProcessor.cs:113-122 | reading back a placed view gives the position it was placed at, under exactly the round-trip condition |
| `CarouselBackView.PlacedAtCentre` | PanCardView/Processors/BaseCarouselBackViewProcessor.cs:148-153 | at position 0 the card has scale 1, opacity 1, rotation 0 and translation 0 |
| `CarouselBackView.PlacedAtEdge` | PanCardView/Processors/BaseCarouselBackViewProcessor.cs:148-153 | one width away the card takes ScaleFactor, OpacityFactor, the full rotation against the pan, and a translation short of the position by half the lost width |
| `CarouselBackView.PlacedMirror` | PanCardView/Processors/BaseCarouselBackViewProcessor.cs:148-153 | placing at −value gives the same scale, opacity and visibility, with rotation and translation negated |
| `CarouselBackView.ReplayLast` | PanCardView/Processors/BaseCarouselBackViewProcessor.cs:131-144 | running all deferred placements leaves the view as the last one alone would, with the visibility of the last placement that names one |
| `CarouselBackView.PanChangedWindow` | PanCardView/Processors/BaseCarouselBackViewProcessor.cs:55-59 | for each sign convention, the exact range of pan offsets that PanChanged applies rather than skips |
| `CarouselBackView.PanChangedStaysInRange` | PanCardView/Processors/BaseCarouselBackViewProcessor.cs:55-60 | every position PanChanged applies keeps scale and opacity between 1 and their factors |
| `CarouselBackView.RemainingLength` | PanCardView/Processors/BaseCarouselBackViewProcessor.cs:103-104 | the truncated share of AnimationLength is at most AnimationLength: all of it from the centre, 0 one width away |
| `CarouselBackView.RemainingLengthMonotone` | PanCardView/Processors/BaseCarouselBackViewProcessor.cs:86-87 | the farther the card already is from the centre, the shorter the snap |
| `CarouselBackView.ResetLengthNoWrap` | PanCardView/Processors/BaseCarouselBackViewProcessor.cs:86-87 | for lengths up to 0x5555_5555 ms the reset snap is floor(1.5 × the apply snap), is never shorter than it, is 0 exactly when that is 0, and is 1.5 × AnimationLength from the centre |
| `CarouselBackView.ResetLengthWraps` | PanCardView/Processors/BaseCarouselBackViewProcessor.cs:87 | above that, the uint product wraps: from the centre, a 0x6000_0000 ms animation gets a 0x1000_0000 ms reset snap |
| `CarouselBackView.AutoNavigateEndsWherePanApplyEnds` | PanCardView/Processors/BaseCarouselBackViewProcessor.cs:71-73 | for Prev and Next, AutoNavigate's destination equals −Sign(direction)·Width exactly when Prev's value is negative |
| `CarouselBackView.BaseCarouselBackViewProcessor.constructor` | PanCardView/Processors/BaseCarouselBackViewProcessor.cs:14-22 | the defaults: AnimationLength 300, ScaleFactor 1, OpacityFactor 1, RotationFactor 0 |
| `CarouselBackView.BaseCarouselBackViewProcessor.GetTranslationX` | PanCardView/Processors/BaseCarouselBackViewProcessor.cs:113-122 | 0 without a view, otherwise the view's pan position |
| `CarouselBackView.BaseCarouselBackViewProcessor.SetTranslationX` | PanCardView/Processors/BaseCarouselBackViewProcessor.cs:124-159 | no view: nothing changes; width unknown: no transform field changes and one handler is subscribed; otherwise the view is placed, and it reads back the same value under the round-trip condition |
| `CarouselBackView.BaseCarouselBackViewProcessor.OnViewSizeChanged` | PanCardView/Processors/BaseCarouselBackViewProcessor.cs:133-141 | while the width is unknown nothing changes; once it is known every handler unsubscribes itself and applies its call, in order: the view ends as `Replay` of the resolved handlers, and none is left |
| `CarouselBackView.BaseCarouselBackViewProcessor.HandleInitView` | PanCardView/Processors/BaseCarouselBackViewProcessor.cs:24-28 | the first view is placed at Sign(direction)·Width and hidden with its handler list unchanged, or that placement is deferred |
| `CarouselBackView.BaseCarouselBackViewProcessor.HandleCleanView` | PanCardView/Processors/BaseCarouselBackViewProcessor.cs:30-34 | the first view is placed at +Width and hidden with its handler list unchanged, or that placement is deferred |
| `CarouselBackView.BaseCarouselBackViewProcessor.HandlePanChanged` | PanCardView/Processors/BaseCarouselBackViewProcessor.cs:36-61 | the view is shown and the inactive view is hidden (hidden if they are the same view); with Null or a skipped position nothing else changes; otherwise the view is placed at Sign(direction)·Width + xPos, or that placement is deferred |
| `CarouselBackView.BaseCarouselBackViewProcessor.HandleAutoNavigate` | PanCardView/Processors/BaseCarouselBackViewProcessor.cs:63-77 | completed with false exactly when there is no view; otherwise an animation from 0 to +Width for Prev and −Width for any other direction, over AnimationLength, named "HandleAutoNavigate" |
| `CarouselBackView.BaseCarouselBackViewProcessor.HandlePanReset` | PanCardView/Processors/BaseCarouselBackViewProcessor.cs:79-94 | completed with true for no view or the current view, or when the reset length is 0; otherwise an animation from the read-back position to Sign(direction)·Width (where InitView parks the card) over the reset length |
| `CarouselBackView.BaseCarouselBackViewProcessor.HandlePanApply` | PanCardView/Processors/BaseCarouselBackViewProcessor.cs:96-111 | completed with true for no view, or when the remaining length is 0; otherwise an animation from the read-back position to −Sign(direction)·Width over the remaining length, under the name "HandlePanReset" |

## Left out

- AnimationWrapper.Commit is not part of this model: its 16 ms timer ticks,
  easing interpolation, cancel-by-name and the Task it returns. The animated
  handlers return the request they would commit (view, start, end, length,
  name). Where an animation ends is covered by `SetTranslationX` applied to
  the request's end.
- AnimEasing and Easing.SinInOut: the easing curve is only passed on to
  Commit, so the processor has no easing field.
- BatchBegin/BatchCommit: the try/finally always commits, and the batch only
  groups the writes for observers.
- IEEE-754 behaviour of `double`: rounding, NaN, and division by a zero
  container width. Values are exact reals, and the container width is required
  to be positive wherever the view is measured.
- HandlePanReset and HandlePanApply: require the read-back position to be
  within one container width. Otherwise the source casts a negative double to
  `uint`, which C# leaves unspecified.
- The SizeChanged event: it is reduced to the ordered list of handlers that
  `SetTranslationX` subscribes, and to `OnViewSizeChanged` as the moment the
  view raises it. Only handlers of this processor are on that list. Layout,
  and how a view gets measured, are not modelled.
- Constants.Angle360 is taken as 360. The integer values of AnimationDirection
  are a parameter, as described above.
- The `Task` values of the handlers: only the completed result (`bool`) is
  kept.
- `FirstOrDefault` takes a sequence of non-null views, so a collection whose
  first element is null is not represented. The source treats that case like
  an empty collection, so no behaviour of the processor is lost.
