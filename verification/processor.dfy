/** BaseCarouselBackViewProcessor: how the carousel places the card behind the
    current one while the user pans, and which snap animation each lifecycle
    event asks for. The timed animation itself (AnimationWrapper.Commit) is not
    part of this model; the animated handlers return the request they commit. */
module CarouselBackView {
  import opened Optional
  import opened Directions
  import opened Geometry
  import opened Views

  /** C#'s uint. */
  type uint32 = x: int | 0 <= x < 0x1_0000_0000

  /** The three factors SetTranslationX reads from the processor. */
  datatype Factors = Factors(scaleFactor: real, opacityFactor: real, rotationFactor: real)

  /** What an animated handler commits: run SetTranslationX on `view` with values
      eased from `start` to `end` over `length` milliseconds, under `name`. */
  datatype AnimationRequest = AnimationRequest(
    view: View,
    cardsView: CardsView,
    start: real,
    end: real,
    length: uint32,
    name: string)

  /** The Task an animated handler returns: either already completed with a
      result, or the animation it commits. */
  datatype HandlerResult = Completed(result: bool) | Animate(request: AnimationRequest)

  /** The state SetTranslationX gives a measured view for the pan position
      `value` in a container `cardsWidth` wide. */
  function Placed(f: Factors, s: ViewState, value: real, cardsWidth: real, isVisible: Option<bool>): (r: ViewState)
    requires cardsWidth > 0.0
  {
    var scale := FactoredProperty(value, f.scaleFactor, cardsWidth, 1);
    ViewState(
      s.width,
      scale,
      FactoredProperty(value, f.opacityFactor, cardsWidth, 1),
      Rotation(value, f.rotationFactor, cardsWidth),
      CompensatedTranslation(value, s.width, scale),
      isVisible.GetOr(s.isVisible))
  }

  /** The pan position GetTranslationX reads from a view in state `s`. */
  function PanPosition(s: ViewState): (r: real)
  {
    UnscaledTranslation(s.translationX, s.width, s.scale)
  }

  /** Reading back a placed view gives the position it was placed at, at the
      centre always and elsewhere exactly when the compensation does not carry
      the translation across the centre. */
  lemma {:induction false} PlacedReadsBack(f: Factors, s: ViewState, value: real, cardsWidth: real, isVisible: Option<bool>)
    requires cardsWidth > 0.0
    ensures PanPosition(Placed(f, s, value, cardsWidth, isVisible)) == value
        <==> (value == 0.0 || s.width * (1.0 - f.scaleFactor) < 2.0 * cardsWidth)
  {
    CompensationRoundTrip(value, f.scaleFactor, cardsWidth, s.width);
  }

  /** At the centre the card is unscaled, opaque, upright and untranslated. */
  lemma PlacedAtCentre(f: Factors, s: ViewState, cardsWidth: real, isVisible: Option<bool>)
    requires cardsWidth > 0.0
    ensures var r := Placed(f, s, 0.0, cardsWidth, isVisible);
            r.scale == 1.0 && r.opacity == 1.0 && r.rotation == 0.0 && r.translationX == 0.0
  {
  }

  /** One container width away the card takes the configured factors, is turned
      by the full rotation factor against the pan, and its translation falls
      short of the position by half the width it has lost. */
  lemma {:induction false} PlacedAtEdge(f: Factors, s: ViewState, value: real, cardsWidth: real, isVisible: Option<bool>)
    requires cardsWidth > 0.0 && Abs(value) == cardsWidth
    ensures var r := Placed(f, s, value, cardsWidth, isVisible);
            && r.scale == f.scaleFactor
            && r.opacity == f.opacityFactor
            && r.rotation == f.rotationFactor * Angle360 * -Sign(value) as real
            && r.translationX == value - Sign(value) as real * s.width * 0.5 * (1.0 - f.scaleFactor)
  {
    assert FactoredProperty(value, f.rotationFactor, cardsWidth, 0) == f.rotationFactor;
    assert Sign(-value) == -Sign(value);
  }

  /** Panning the same distance to the other side gives the mirror image:
      the same scale and opacity, the opposite rotation and translation. */
  lemma {:induction false} PlacedMirror(f: Factors, s: ViewState, value: real, cardsWidth: real, isVisible: Option<bool>)
    requires cardsWidth > 0.0
    ensures var r, m := Placed(f, s, value, cardsWidth, isVisible), Placed(f, s, -value, cardsWidth, isVisible);
            m.scale == r.scale && m.opacity == r.opacity && m.rotation == -r.rotation
            && m.translationX == -r.translationX && m.isVisible == r.isVisible
  {
    FactoredPropertySymmetric(value, f.scaleFactor, cardsWidth, 1);
    FactoredPropertySymmetric(value, f.opacityFactor, cardsWidth, 1);
    RotationSign(value, f.rotationFactor, cardsWidth);
    assert Sign(-value) == -Sign(value);
  }

  /** A deferred call with the container width it sees when its handler runs. */
  datatype Placement = Placement(value: real, cardsWidth: real, isVisible: Option<bool>)

  /** The placements a view's handlers make when they run now. */
  function Resolve(handlers: seq<Deferral>): (r: seq<Placement>)
    reads set d | d in handlers :: d.cardsView
    ensures |r| == |handlers|
    ensures forall i :: 0 <= i < |r| ==> r[i] == Placement(handlers[i].value, handlers[i].cardsView.Width, handlers[i].isVisible)
    decreases |handlers|
  {
    if handlers == [] then []
    else [Placement(handlers[0].value, handlers[0].cardsView.Width, handlers[0].isVisible)] + Resolve(handlers[1..])
  }

  /** Every placement sees a container of positive width. */
  predicate AllMeasured(placements: seq<Placement>)
  {
    forall i :: 0 <= i < |placements| ==> placements[i].cardsWidth > 0.0
  }

  /** What a run of placements does to a view, one after the other. */
  function Replay(f: Factors, s: ViewState, placements: seq<Placement>): (r: ViewState)
    requires AllMeasured(placements)
    decreases |placements|
  {
    if placements == [] then s
    else
      var p := placements[0];
      Replay(f, Placed(f, s, p.value, p.cardsWidth, p.isVisible), placements[1..])
  }

  /** The visibility left by a run of placements: the last one that names a
      visibility wins, and without one the view keeps `visible`. */
  function VisibilityAfter(placements: seq<Placement>, visible: bool): (r: bool)
    decreases |placements|
  {
    if placements == [] then visible
    else VisibilityAfter(placements[1..], placements[0].isVisible.GetOr(visible))
  }

  /** Applying the first placement and replaying the rest is replaying all. */
  lemma ReplayStep(f: Factors, s: ViewState, placements: seq<Placement>, s': ViewState, rest: seq<Placement>)
    requires placements != [] && AllMeasured(placements)
    requires s' == Placed(f, s, placements[0].value, placements[0].cardsWidth, placements[0].isVisible)
    requires rest == placements[1..]
    ensures AllMeasured(rest) && Replay(f, s', rest) == Replay(f, s, placements)
  {
  }

  /** Only the last deferred call decides the view's transform: every placement
      overwrites all transform fields, so a run of placements leaves the view as
      the last one alone would, with the visibility the run leaves behind. */
  lemma {:induction false} ReplayLast(f: Factors, s: ViewState, placements: seq<Placement>)
    requires placements != [] && AllMeasured(placements)
    ensures var last := placements[|placements| - 1];
            Replay(f, s, placements)
            == Placed(f, s, last.value, last.cardsWidth, Some(VisibilityAfter(placements, s.isVisible)))
    decreases |placements|
  {
    var p := placements[0];
    var s' := Placed(f, s, p.value, p.cardsWidth, p.isVisible);
    if |placements| > 1 {
      ReplayLast(f, s', placements[1..]);
    }
  }

  /** PanChanged leaves the card alone when the new position lies more than a
      width away, or on the wrong side of the centre for the direction. */
  predicate PanSkipped(dir: AnimationDirection, value: real, cardsWidth: real)
  {
    Abs(value) > cardsWidth || (dir == Prev && value > 0.0) || (dir == Next && value < 0.0)
  }

  /** The pan offsets PanChanged applies for a direction: with Prev negative
      (and Next positive) a pan of up to one width towards the side the card
      comes from; with the opposite sign values, only offsets between one and
      two widths away. */
  lemma PanChangedWindow(dir: AnimationDirection, xPos: real, cardsWidth: real, e: Encoding)
    requires cardsWidth > 0.0 && dir != Null
    ensures var value := DirectionSign(dir, e) as real * cardsWidth + xPos;
            !PanSkipped(dir, value, cardsWidth)
            <==> (if IntSign(e.prev) < 0
                  then (dir == Prev && 0.0 <= xPos <= cardsWidth) || (dir == Next && -cardsWidth <= xPos <= 0.0)
                  else (dir == Prev && -2.0 * cardsWidth <= xPos <= -cardsWidth)
                       || (dir == Next && cardsWidth <= xPos <= 2.0 * cardsWidth))
  {
  }

  /** Every position PanChanged applies keeps scale and opacity between their
      centre value 1 and their factors. */
  lemma {:induction false} PanChangedStaysInRange(f: Factors, s: ViewState, dir: AnimationDirection, value: real, cardsWidth: real)
    requires cardsWidth > 0.0 && !PanSkipped(dir, value, cardsWidth)
    ensures var r := Placed(f, s, value, cardsWidth, None);
            (f.scaleFactor <= 1.0 ==> f.scaleFactor <= r.scale <= 1.0)
            && (1.0 <= f.scaleFactor ==> 1.0 <= r.scale <= f.scaleFactor)
            && (f.opacityFactor <= 1.0 ==> f.opacityFactor <= r.opacity <= 1.0)
            && (1.0 <= f.opacityFactor ==> 1.0 <= r.opacity <= f.opacityFactor)
  {
    FactoredPropertyBetween(0.0, value, f.scaleFactor, cardsWidth, 1);
    FactoredPropertyBetween(value, cardsWidth, f.scaleFactor, cardsWidth, 1);
    FactoredPropertyBetween(0.0, value, f.opacityFactor, cardsWidth, 1);
    FactoredPropertyBetween(value, cardsWidth, f.opacityFactor, cardsWidth, 1);
  }

  /** `(uint)(AnimationLength * animTimePercent)`: the share of the animation
      length left for the distance still to travel, truncated to whole
      milliseconds. */
  function RemainingLength(animationLength: uint32, translation: real, cardsWidth: real): (r: uint32)
    requires cardsWidth > 0.0 && Abs(translation) <= cardsWidth
    ensures r <= animationLength
    ensures translation == 0.0 ==> r == animationLength
    ensures Abs(translation) == cardsWidth ==> r == 0
  {
    var percent := (cardsWidth - Abs(translation)) / cardsWidth;
    DivideMonotone(cardsWidth - Abs(translation), cardsWidth, cardsWidth);
    Interpolate(0.0, percent, 0.0, animationLength as real);
    ((animationLength as real) * percent).Floor
  }

  /** The farther the card already is from the centre, the shorter the snap. */
  lemma {:induction false} RemainingLengthMonotone(animationLength: uint32, t1: real, t2: real, cardsWidth: real)
    requires cardsWidth > 0.0 && Abs(t1) <= Abs(t2) <= cardsWidth
    ensures RemainingLength(animationLength, t2, cardsWidth) <= RemainingLength(animationLength, t1, cardsWidth)
  {
    var p1 := (cardsWidth - Abs(t1)) / cardsWidth;
    var p2 := (cardsWidth - Abs(t2)) / cardsWidth;
    DivideMonotone(cardsWidth - Abs(t2), cardsWidth - Abs(t1), cardsWidth);
    DivideMonotone(cardsWidth - Abs(t1), cardsWidth, cardsWidth);
    Interpolate(p2, p1, 0.0, animationLength as real);
    FloorMonotone((animationLength as real) * p2, (animationLength as real) * p1);
  }

  lemma FloorMonotone(x: real, y: real)
    requires x <= y
    ensures x.Floor <= y.Floor
  {
  }

  /** `(uint)(...) * 3 / 2`: one and a half times the remaining length, in
      uint arithmetic, where the product wraps around at 2^32. */
  function ResetLength(animationLength: uint32, translation: real, cardsWidth: real): (r: uint32)
    requires cardsWidth > 0.0 && Abs(translation) <= cardsWidth
  {
    (RemainingLength(animationLength, translation, cardsWidth) * 3) % 0x1_0000_0000 / 2
  }

  /** While the product cannot wrap, that is for animation lengths up to
      0x5555_5555 ms, the reset snap is one and a half times the apply snap
      for the same position, is zero exactly when that one is, and from the
      centre lasts one and a half animation lengths. */
  lemma {:induction false} ResetLengthNoWrap(animationLength: uint32, translation: real, cardsWidth: real)
    requires cardsWidth > 0.0 && Abs(translation) <= cardsWidth
    requires animationLength <= 0x5555_5555
    ensures var n, r := RemainingLength(animationLength, translation, cardsWidth),
                        ResetLength(animationLength, translation, cardsWidth);
            r == n * 3 / 2 && n <= r && (r == 0 <==> n == 0)
            && (translation == 0.0 ==> r == animationLength * 3 / 2)
  {
    var n := RemainingLength(animationLength, translation, cardsWidth);
    assert n * 3 < 0x1_0000_0000;
  }

  /** With a length above 0x5555_5555 ms the product wraps: from the centre the
      reset snap of a 0x6000_0000 ms animation is shorter than the apply snap. */
  lemma ResetLengthWraps(cardsWidth: real)
    requires cardsWidth > 0.0
    ensures ResetLength(0x6000_0000, 0.0, cardsWidth) == 0x1000_0000
    ensures RemainingLength(0x6000_0000, 0.0, cardsWidth) == 0x6000_0000
  {
  }

  /** AutoNavigate picks its destination by comparing with Prev rather than by
      the direction's sign. For Prev and Next it ends where PanApply ends,
      the side opposite to the direction's sign, exactly when Prev's value is
      negative. */
  lemma AutoNavigateEndsWherePanApplyEnds(dir: AnimationDirection, cardsWidth: real, e: Encoding)
    requires cardsWidth > 0.0 && dir != Null
    ensures (if dir == Prev then cardsWidth else -cardsWidth) == -DirectionSign(dir, e) as real * cardsWidth
        <==> IntSign(e.prev) < 0
  {
  }

  class BaseCarouselBackViewProcessor {
    var AnimationLength: uint32
    var ScaleFactor: real
    var OpacityFactor: real
    var RotationFactor: real
    /** The integer values of AnimationDirection (see Directions.Encoding). */
    const Values: Encoding

    /** The configuration defaults: 300 ms, scale and opacity factors 1, no rotation. */
    constructor(values: Encoding)
      ensures AnimationLength == 300
      ensures ScaleFactor == 1.0 && OpacityFactor == 1.0 && RotationFactor == 0.0
      ensures Values == values
    {
      AnimationLength := 300;
      ScaleFactor := 1.0;
      OpacityFactor := 1.0;
      RotationFactor := 0.0;
      Values := values;
    }

    function CurrentFactors(): (r: Factors)
      reads this
    {
      Factors(ScaleFactor, OpacityFactor, RotationFactor)
    }

    /** The pan position of `view`, undoing the scale compensation; 0 without a view. */
    function GetTranslationX(view: View?): (r: real)
      reads view
      ensures view == null ==> r == 0.0
      ensures view != null ==> r == PanPosition(view.State())
    {
      if view == null then 0.0
      else PanPosition(view.State())
    }

    /** Places `view` at the pan position `value`. Without a view nothing
        happens; while the view's width is unknown, a SizeChanged handler is
        subscribed instead and no transform field changes. */
    method SetTranslationX(view: View?, value: real, cardsView: CardsView, isVisible: Option<bool>)
      requires view != null && view.Width >= 0.0 ==> cardsView.Width > 0.0
      modifies view
      ensures view != null && old(view.Width) < 0.0 ==>
        view.State() == old(view.State())
        && view.SizeChangedHandlers == old(view.SizeChangedHandlers) + [Deferral(value, cardsView, isVisible)]
      ensures view != null && old(view.Width) >= 0.0 ==>
        view.State() == Placed(CurrentFactors(), old(view.State()), value, cardsView.Width, isVisible)
        && view.SizeChangedHandlers == old(view.SizeChangedHandlers)
      ensures view != null && old(view.Width) >= 0.0 && view.Width * (1.0 - ScaleFactor) < 2.0 * cardsView.Width ==>
        GetTranslationX(view) == value
    {
      if view == null {
        return;
      }
      if view.Width < 0.0 {
        view.SizeChangedHandlers := view.SizeChangedHandlers + [Deferral(value, cardsView, isVisible)];
        return;
      }
      ghost var before := view.State();
      ghost var after := Placed(CurrentFactors(), before, value, cardsView.Width, isVisible);
      PlacedReadsBack(CurrentFactors(), before, value, cardsView.Width, isVisible);
      view.Scale := FactoredProperty(value, ScaleFactor, cardsView.Width, 1);
      view.Opacity := FactoredProperty(value, OpacityFactor, cardsView.Width, 1);
      view.Rotation := FactoredProperty(value, RotationFactor, cardsView.Width, 0) * Angle360 * Sign(-value) as real;
      view.TranslationX := value - Sign(value) as real * view.Width * 0.5 * (1.0 - view.Scale);
      view.IsVisible := isVisible.GetOr(view.IsVisible);
      assert view.State() == after;
    }

    /** The view reports a new size: once its width is known, every subscribed
        handler runs in subscription order, unsubscribing itself and then
        applying the call it deferred. */
    method OnViewSizeChanged(view: View)
      requires view.Width >= 0.0 ==> AllMeasured(Resolve(view.SizeChangedHandlers))
      modifies view
      ensures old(view.Width) < 0.0 ==>
        view.State() == old(view.State()) && view.SizeChangedHandlers == old(view.SizeChangedHandlers)
      ensures old(view.Width) >= 0.0 ==>
        view.SizeChangedHandlers == []
        && view.State() == Replay(CurrentFactors(), old(view.State()), old(Resolve(view.SizeChangedHandlers)))
    {
      if view.Width < 0.0 {
        return;
      }
      while view.SizeChangedHandlers != []
        invariant view.Width == old(view.Width)
        invariant AllMeasured(Resolve(view.SizeChangedHandlers))
        invariant Replay(CurrentFactors(), view.State(), Resolve(view.SizeChangedHandlers))
               == Replay(CurrentFactors(), old(view.State()), old(Resolve(view.SizeChangedHandlers)))
        decreases |view.SizeChangedHandlers|
      {
        ghost var placements := Resolve(view.SizeChangedHandlers);
        ghost var before := view.State();
        var d := view.SizeChangedHandlers[0];
        view.SizeChangedHandlers := view.SizeChangedHandlers[1..];
        SetTranslationX(view, d.value, d.cardsView, d.isVisible);
        ReplayStep(CurrentFactors(), before, placements, view.State(), Resolve(view.SizeChangedHandlers));
      }
    }

    /** Puts the first view at Sign(direction) container widths, hidden: one
        width away for Prev and Next, at the centre for Null. */
    method HandleInitView(views: seq<View>, cardsView: CardsView, dir: AnimationDirection)
      requires views != [] && views[0].Width >= 0.0 ==> cardsView.Width > 0.0
      modifies FirstOrDefault(views)
      ensures views != [] && old(views[0].Width) >= 0.0 ==>
        views[0].State()
          == Placed(CurrentFactors(), old(views[0].State()), DirectionSign(dir, Values) as real * cardsView.Width, cardsView.Width, Some(false))
        && !views[0].IsVisible
        && views[0].SizeChangedHandlers == old(views[0].SizeChangedHandlers)
      ensures views != [] && old(views[0].Width) < 0.0 ==>
        views[0].State() == old(views[0].State())
        && views[0].SizeChangedHandlers
           == old(views[0].SizeChangedHandlers) + [Deferral(DirectionSign(dir, Values) as real * cardsView.Width, cardsView, Some(false))]
    {
      var view := FirstOrDefault(views);
      SetTranslationX(view, DirectionSign(dir, Values) as real * cardsView.Width, cardsView, Some(false));
    }

    /** Puts the first view one container width away on the positive side, hidden. */
    method HandleCleanView(views: seq<View>, cardsView: CardsView)
      requires views != [] && views[0].Width >= 0.0 ==> cardsView.Width > 0.0
      modifies FirstOrDefault(views)
      ensures views != [] && old(views[0].Width) >= 0.0 ==>
        views[0].State() == Placed(CurrentFactors(), old(views[0].State()), cardsView.Width, cardsView.Width, Some(false))
        && !views[0].IsVisible
        && views[0].SizeChangedHandlers == old(views[0].SizeChangedHandlers)
      ensures views != [] && old(views[0].Width) < 0.0 ==>
        views[0].State() == old(views[0].State())
        && views[0].SizeChangedHandlers
           == old(views[0].SizeChangedHandlers) + [Deferral(cardsView.Width, cardsView, Some(false))]
    {
      var view := FirstOrDefault(views);
      SetTranslationX(view, cardsView.Width, cardsView, Some(false));
    }

    /** Shows the panned view and hides the inactive one; then, unless the
        direction is Null or the position is to be skipped, places the view at
        one width on the direction's side plus the pan offset. */
    method HandlePanChanged(views: seq<View>, cardsView: CardsView, xPos: real, dir: AnimationDirection, inactiveViews: seq<View>)
      requires dir != Null && views != [] && views[0].Width >= 0.0 ==> cardsView.Width > 0.0
      modifies FirstOrDefault(views), FirstOrDefault(inactiveViews)
      ensures var view, inactive := FirstOrDefault(views), FirstOrDefault(inactiveViews);
        inactive != null && inactive != view ==>
          inactive.State() == old(inactive.State()).(isVisible := false)
          && inactive.SizeChangedHandlers == old(inactive.SizeChangedHandlers)
      ensures var view, inactive := FirstOrDefault(views), FirstOrDefault(inactiveViews);
        var value := DirectionSign(dir, Values) as real * cardsView.Width + xPos;
        view != null ==>
          var shown := old(view.State()).(isVisible := view != inactive);
          if dir == Null || PanSkipped(dir, value, cardsView.Width) then
            view.State() == shown && view.SizeChangedHandlers == old(view.SizeChangedHandlers)
          else if old(view.Width) < 0.0 then
            view.State() == shown
            && view.SizeChangedHandlers == old(view.SizeChangedHandlers) + [Deferral(value, cardsView, None)]
          else
            view.State() == Placed(CurrentFactors(), shown, value, cardsView.Width, None)
            && view.SizeChangedHandlers == old(view.SizeChangedHandlers)
    {
      var view := FirstOrDefault(views);
      var inactive := FirstOrDefault(inactiveViews);
      if view != null {
        view.IsVisible := true;
      }
      if inactive != null {
        inactive.IsVisible := false;
      }
      if dir == Null {
        return;
      }
      var value := DirectionSign(dir, Values) as real * cardsView.Width + xPos;
      if Abs(value) > cardsView.Width || (dir == Prev && value > 0.0) || (dir == Next && value < 0.0) {
        return;
      }
      SetTranslationX(view, value, cardsView, None);
    }

    /** Without a view: completed with false. Otherwise an animation from the
        centre (whatever the view's position) to one width away, on the positive
        side for Prev and on the negative side for any other direction. */
    function HandleAutoNavigate(views: seq<View>, cardsView: CardsView, dir: AnimationDirection, inactiveViews: seq<View>): (r: HandlerResult)
      reads this, cardsView
      ensures views == [] <==> r == Completed(false)
      ensures r.Completed? ==> views == []
      ensures r.Animate? ==>
        r.request.view == views[0] && r.request.cardsView == cardsView
        && r.request.start == 0.0
        && r.request.end == (if dir == Prev then cardsView.Width else -cardsView.Width)
        && r.request.length == AnimationLength
        && r.request.name == "HandleAutoNavigate"
    {
      var view := FirstOrDefault(views);
      if view == null then Completed(false)
      else
        var destinationPos := if dir == Prev then cardsView.Width else -cardsView.Width;
        Animate(AnimationRequest(view, cardsView, 0.0, destinationPos, AnimationLength, "HandleAutoNavigate"))
    }

    /** Snaps a view that is not the current one back to where HandleInitView
        put it, from its present position, in a time proportional to the
        distance left times one and a half; completes with true when there is
        nothing to animate. */
    function HandlePanReset(views: seq<View>, cardsView: CardsView, dir: AnimationDirection, inactiveViews: seq<View>): (r: HandlerResult)
      reads this, cardsView, views
      requires views != [] && views[0] != cardsView.CurrentView ==>
        cardsView.Width > 0.0 && Abs(PanPosition(views[0].State())) <= cardsView.Width
      ensures r.Completed? ==> r.result
      ensures views == [] || views[0] == cardsView.CurrentView ==> r == Completed(true)
      ensures views != [] && views[0] != cardsView.CurrentView ==>
        var t := PanPosition(views[0].State());
        (r.Completed? <==> ResetLength(AnimationLength, t, cardsView.Width) == 0)
        && (r.Animate? ==>
              r.request.view == views[0] && r.request.cardsView == cardsView
              && r.request.start == t
              && r.request.end == DirectionSign(dir, Values) as real * cardsView.Width
              && r.request.length == ResetLength(AnimationLength, t, cardsView.Width)
              && r.request.name == "HandlePanReset")
    {
      var view := FirstOrDefault(views);
      if view == null || view == cardsView.CurrentView then Completed(true)
      else
        var animLength := ResetLength(AnimationLength, GetTranslationX(view), cardsView.Width);
        if animLength == 0 then Completed(true)
        else
          Animate(AnimationRequest(view, cardsView, GetTranslationX(view),
                                   DirectionSign(dir, Values) as real * cardsView.Width, animLength, "HandlePanReset"))
    }

    /** Completes the swipe: animates the view from its present position to
        one width away on the side opposite to the direction's, in a time
        proportional to the distance left; completes with true when there is
        nothing to animate. The animation is committed under the name
        "HandlePanReset", so it replaces a running reset and is replaced by one. */
    function HandlePanApply(views: seq<View>, cardsView: CardsView, dir: AnimationDirection, inactiveViews: seq<View>): (r: HandlerResult)
      reads this, cardsView, views
      requires views != [] ==> cardsView.Width > 0.0 && Abs(PanPosition(views[0].State())) <= cardsView.Width
      ensures r.Completed? ==> r.result
      ensures views == [] ==> r == Completed(true)
      ensures views != [] ==>
        var t := PanPosition(views[0].State());
        (r.Completed? <==> RemainingLength(AnimationLength, t, cardsView.Width) == 0)
        && (r.Animate? ==>
              r.request.view == views[0] && r.request.cardsView == cardsView
              && r.request.start == t
              && r.request.end == -DirectionSign(dir, Values) as real * cardsView.Width
              && r.request.length == RemainingLength(AnimationLength, t, cardsView.Width)
              && r.request.name == "HandlePanReset")
    {
      var view := FirstOrDefault(views);
      if view == null then Completed(true)
      else
        var animLength := RemainingLength(AnimationLength, GetTranslationX(view), cardsView.Width);
        if animLength == 0 then Completed(true)
        else
          Animate(AnimationRequest(view, cardsView, GetTranslationX(view),
                                   -DirectionSign(dir, Values) as real * cardsView.Width, animLength, "HandlePanReset"))
    }
  }
}
