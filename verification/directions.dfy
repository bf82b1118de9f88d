/** A value that may be absent, standing in for C#'s `bool?` and for the
    `??` operator that falls back on a default. */
module Optional {
  datatype Option<T> = None | Some(value: T) {
    /** `this ?? default` */
    function GetOr(default: T): (r: T)
      ensures Some? ==> r == value
      ensures None? ==> r == default
    {
      match this
      case Some(v) => v
      case None => default
    }
  }
}

/** AnimationDirection and the sign the processor takes of its integer value. */
module Directions {

  datatype AnimationDirection = Null | Prev | Next

  /** Math.Sign on an int. */
  function IntSign(x: int): (s: int)
    ensures s == 1 || s == 0 || s == -1
    ensures s * x >= 0 && (s == 0 <==> x == 0)
  {
    if x > 0 then 1 else if x < 0 then -1 else 0
  }

  /** The integers the enum gives to Prev and Next. They are declared outside
      the processor, so the model keeps them as a parameter: Null is the enum's
      default, 0, and Prev and Next lie on opposite sides of it, without saying
      which one is positive. */
  datatype DirectionValues = DirectionValues(prev: int, next: int)

  type Encoding = e: DirectionValues | e.prev != 0 && IntSign(e.prev) == -IntSign(e.next)
    witness DirectionValues(-1, 1)

  /** `(int)animationDirection` */
  function ValueOf(d: AnimationDirection, e: Encoding): int
  {
    match d
    case Null => 0
    case Prev => e.prev
    case Next => e.next
  }

  /** `Sign((int)animationDirection)`: zero for Null only, and opposite for Prev
      and Next. */
  function DirectionSign(d: AnimationDirection, e: Encoding): (s: int)
    ensures s == 1 || s == 0 || s == -1
    ensures s == 0 <==> d == Null
    ensures d == Prev ==> s == IntSign(e.prev)
    ensures d == Next ==> s == -IntSign(e.prev)
  {
    IntSign(ValueOf(d, e))
  }
}
