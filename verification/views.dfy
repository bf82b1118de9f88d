/** The parts of Xamarin.Forms' View and of the CardsView container that the
    back-view processor reads and writes. */
module Views {
  import opened Optional

  /** The transform and visibility of a view, as one value. */
  datatype ViewState = ViewState(
    width: real,
    scale: real,
    opacity: real,
    rotation: real,
    translationX: real,
    isVisible: bool)

  /** The container: its width and the card currently shown in front. */
  class CardsView {
    var Width: real
    var CurrentView: View?
  }

  /** A SizeChanged handler that SetTranslationX subscribed while the view's
      width was still unknown: it holds what the call was asked to apply, and
      the container by reference, whose width it reads when it runs. */
  datatype Deferral = Deferral(value: real, cardsView: CardsView, isVisible: Option<bool>)

  /** A card. Width is negative until the view has been measured. */
  class View {
    var Width: real
    var Scale: real
    var Opacity: real
    var Rotation: real
    var TranslationX: real
    var IsVisible: bool
    /** The handlers subscribed to SizeChanged, in subscription order. */
    var SizeChangedHandlers: seq<Deferral>

    function State(): ViewState
      reads this
    {
      ViewState(Width, Scale, Opacity, Rotation, TranslationX, IsVisible)
    }
  }

  /** `views.FirstOrDefault()` */
  function FirstOrDefault(views: seq<View>): (v: View?)
    ensures v == null <==> views == []
    ensures v != null ==> v == views[0]
  {
    if views == [] then null else views[0]
  }
}
