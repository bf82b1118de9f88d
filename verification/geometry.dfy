/** The pure arithmetic of the carousel back-view processor: the factored
    property that interpolates scale, opacity and rotation over the pan
    position, and the translation compensation that keeps the card's outer
    edge anchored while it shrinks. The source computes these in `double`;
    here they are exact `real`s, so the formulas become algebraic laws. */
module Geometry {

  /** Math.Abs on a double. */
  function Abs(x: real): (r: real)
    ensures r >= 0.0 && (r == x || r == -x)
  {
    if x < 0.0 then -x else x
  }

  /** Math.Sign on a double (NaN, which makes Math.Sign throw, does not exist here). */
  function Sign(x: real): (s: int)
    ensures s == 1 <==> x > 0.0
    ensures s == -1 <==> x < 0.0
    ensures s == 0 <==> x == 0.0
  {
    if x > 0.0 then 1 else if x < 0.0 then -1 else 0
  }

  lemma SignTimesAbs(x: real)
    ensures Sign(x) as real * Abs(x) == x
    ensures Sign(x) as real * x == Abs(x)
  {
  }

  /** The full turn, in degrees, by which the rotation factor is multiplied. */
  const Angle360: real := 360.0

  /** CalculateFactoredProperty: a straight line in |value| from
      `defaultFactorValue` at the centre to `factor` one container width away. */
  function FactoredProperty(value: real, factor: real, width: real, defaultFactorValue: int): (r: real)
    requires width > 0.0
    ensures value == 0.0 ==> r == defaultFactorValue as real
    ensures Abs(value) == width ==> r == factor
  {
    Abs(value) * (factor - defaultFactorValue as real) / width + defaultFactorValue as real
  }

  /** The property depends on the distance from the centre only, not on the side. */
  lemma FactoredPropertySymmetric(value: real, factor: real, width: real, defaultFactorValue: int)
    requires width > 0.0
    ensures FactoredProperty(-value, factor, width, defaultFactorValue)
         == FactoredProperty(value, factor, width, defaultFactorValue)
  {
    assert Abs(-value) == Abs(value);
    FactoredPropertyLinear(value, factor, width, defaultFactorValue);
    FactoredPropertyLinear(-value, factor, width, defaultFactorValue);
  }

  /** Within one container width of the centre the property stays between its
      two end values, and it moves monotonically from one to the other. */
  lemma {:induction false} FactoredPropertyBetween(v1: real, v2: real, factor: real, width: real, defaultFactorValue: int)
    requires width > 0.0
    requires Abs(v1) <= Abs(v2) <= width
    ensures var d, p1, p2 := defaultFactorValue as real,
                             FactoredProperty(v1, factor, width, defaultFactorValue),
                             FactoredProperty(v2, factor, width, defaultFactorValue);
            (d <= factor ==> d <= p1 <= p2 <= factor) && (factor <= d ==> factor <= p2 <= p1 <= d)
  {
    var d := defaultFactorValue as real;
    var a1, a2 := Fractions(v1, v2, width);
    FactoredPropertyLinear(v1, factor, width, defaultFactorValue);
    FactoredPropertyLinear(v2, factor, width, defaultFactorValue);
    Interpolate(a1, a2, d, factor);
  }

  lemma Fractions(v1: real, v2: real, width: real) returns (a1: real, a2: real)
    requires width > 0.0
    requires Abs(v1) <= Abs(v2) <= width
    ensures a1 == Abs(v1) / width && a2 == Abs(v2) / width
    ensures 0.0 <= a1 <= a2 <= 1.0
  {
    a1, a2 := Abs(v1) / width, Abs(v2) / width;
    DivideMonotone(Abs(v1), Abs(v2), width);
    DivideMonotone(Abs(v2), width, width);
  }

  /** The factored property is the fraction |value| / width of the way from
      the default value to the factor. */
  lemma FactoredPropertyLinear(value: real, factor: real, width: real, defaultFactorValue: int)
    requires width > 0.0
    ensures FactoredProperty(value, factor, width, defaultFactorValue)
         == (Abs(value) / width) * (factor - defaultFactorValue as real) + defaultFactorValue as real
  {
    MulDiv(Abs(value), factor - defaultFactorValue as real, width);
  }

  lemma MulDiv(x: real, y: real, width: real)
    requires width > 0.0
    ensures x * y / width == (x / width) * y
  {
  }

  lemma Interpolate(a1: real, a2: real, from: real, to: real)
    requires 0.0 <= a1 <= a2 <= 1.0
    ensures from <= to ==> from <= a1 * (to - from) + from <= a2 * (to - from) + from <= to
    ensures to <= from ==> to <= a2 * (to - from) + from <= a1 * (to - from) + from <= from
  {
    if from <= to {
      MulNonneg(a2 - a1, to - from);
      MulNonneg(1.0 - a2, to - from);
      MulNonneg(a1, to - from);
    } else {
      MulNonneg(a2 - a1, from - to);
      MulNonneg(1.0 - a2, from - to);
      MulNonneg(a1, from - to);
    }
  }

  lemma MulNonneg(x: real, y: real)
    requires x >= 0.0 && y >= 0.0
    ensures x * y >= 0.0
  {
  }

  lemma DivideMonotone(x: real, y: real, width: real)
    requires width > 0.0 && 0.0 <= x <= y
    ensures 0.0 <= x / width <= y / width
    ensures y == width ==> y / width == 1.0
  {
  }

  /** The rotation SetTranslationX applies: the factored rotation (centre value 0)
      in degrees, turned against the direction of the pan. */
  function Rotation(value: real, rotationFactor: real, width: real): (r: real)
    requires width > 0.0
  {
    FactoredProperty(value, rotationFactor, width, 0) * Angle360 * Sign(-value) as real
  }

  /** The rotation is zero at the centre and when the factor is zero; otherwise
      its sign is opposite to the pan's when the factor is positive, and equal
      to it when the factor is negative. It is odd in the pan position. */
  lemma {:induction false} RotationSign(value: real, rotationFactor: real, width: real)
    requires width > 0.0
    ensures Sign(Rotation(value, rotationFactor, width)) == -Sign(value) * Sign(rotationFactor)
    ensures Rotation(-value, rotationFactor, width) == -Rotation(value, rotationFactor, width)
  {
    var p := FactoredProperty(value, rotationFactor, width, 0);
    assert p == Abs(value) * rotationFactor / width;
    assert Sign(p) == Sign(Abs(value)) * Sign(rotationFactor) by {
      SignOfProduct(Abs(value), rotationFactor / width);
      assert Sign(rotationFactor / width) == Sign(rotationFactor);
    }
    SignOfProduct(p, Angle360 * Sign(-value) as real);
    assert Sign(Angle360 * Sign(-value) as real) == -Sign(value);
    FactoredPropertySymmetric(value, rotationFactor, width, 0);
  }

  lemma SignOfProduct(x: real, y: real)
    ensures Sign(x * y) == Sign(x) * Sign(y)
  {
    if x > 0.0 && y > 0.0 { assert x * y > 0.0; }
    if x > 0.0 && y < 0.0 { assert x * -y > 0.0; }
    if x < 0.0 && y > 0.0 { assert -x * y > 0.0; }
    if x < 0.0 && y < 0.0 { assert -x * -y > 0.0; }
  }

  /** The TranslationX that SetTranslationX stores for the pan position `value`:
      the position pulled back towards the centre by half the width the view
      loses when it is scaled, so that its outer edge stays where `value` puts it. */
  function CompensatedTranslation(value: real, viewWidth: real, scale: real): (t: real)
  {
    value - Sign(value) as real * viewWidth * 0.5 * (1.0 - scale)
  }

  /** The pan position GetTranslationX reads back from a stored TranslationX. */
  function UnscaledTranslation(translationX: real, viewWidth: real, scale: real): (v: real)
  {
    translationX + Sign(translationX) as real * viewWidth * 0.5 * (1.0 - scale)
  }

  /** Reading back what was stored gives the pan position exactly when the
      compensation keeps the stored translation on the same side as the pan
      position: at the centre always, elsewhere exactly when the view's width
      times the shrinkage at the edge is under twice the container width. */
  lemma {:induction false} CompensationRoundTrip(value: real, scaleFactor: real, width: real, viewWidth: real)
    requires width > 0.0
    ensures var scale := FactoredProperty(value, scaleFactor, width, 1);
            UnscaledTranslation(CompensatedTranslation(value, viewWidth, scale), viewWidth, scale) == value
            <==> (value == 0.0 || viewWidth * (1.0 - scaleFactor) < 2.0 * width)
  {
    var scale := FactoredProperty(value, scaleFactor, width, 1);
    var shift := viewWidth * 0.5 * (1.0 - scale);
    var m := viewWidth * (1.0 - scaleFactor) / (2.0 * width);
    Shrinkage(value, scaleFactor, width, viewWidth);
    var t := CompensatedTranslation(value, viewWidth, scale);
    SignedShift(Sign(value) as real, viewWidth, 1.0 - scale);
    assert t == value - Sign(value) as real * shift;
    SignedShift(Sign(t) as real, viewWidth, 1.0 - scale);
    assert UnscaledTranslation(t, viewWidth, scale) == t + Sign(t) as real * shift;
    ShiftRoundTrip(value, shift, m);
    HalfRatioBelowOne(viewWidth * (1.0 - scaleFactor), width);
  }

  /** Half the width a view loses to scaling is |value| times a fixed ratio. */
  lemma Shrinkage(value: real, scaleFactor: real, width: real, viewWidth: real)
    requires width > 0.0
    ensures viewWidth * 0.5 * (1.0 - FactoredProperty(value, scaleFactor, width, 1))
         == Abs(value) * (viewWidth * (1.0 - scaleFactor) / (2.0 * width))
  {
    FactoredPropertyLinear(value, scaleFactor, width, 1);
    var a := Abs(value) / width;
    assert 1.0 - FactoredProperty(value, scaleFactor, width, 1) == a * (1.0 - scaleFactor);
    assert viewWidth * 0.5 * (a * (1.0 - scaleFactor)) == (Abs(value) / width) * (viewWidth * (1.0 - scaleFactor) * 0.5);
    DivideRearrange(Abs(value), viewWidth * (1.0 - scaleFactor), width);
  }

  lemma DivideRearrange(x: real, y: real, width: real)
    requires width > 0.0
    ensures (x / width) * (y * 0.5) == x * (y / (2.0 * width))
  {
  }

  lemma SignedShift(s: real, viewWidth: real, shrink: real)
    ensures s * viewWidth * 0.5 * shrink == s * (viewWidth * 0.5 * shrink)
  {
  }

  /** Moving a position towards the centre by |value| * m and then away from it
      by the same amount, on whichever side it then lies, gives the position
      back exactly when it is the centre or m is below one. */
  lemma ShiftRoundTrip(value: real, shift: real, m: real)
    requires shift == Abs(value) * m
    ensures var t := value - Sign(value) as real * shift;
            t + Sign(t) as real * shift == value <==> (value == 0.0 || m < 1.0)
  {
    var t := value - Sign(value) as real * shift;
    SignTimesAbs(value);
    assert t == value * (1.0 - m);
    SignOfProduct(value, 1.0 - m);
    if value != 0.0 && m > 1.0 {
      assert t + Sign(t) as real * shift == value * (1.0 - 2.0 * m);
      assert value * (1.0 - 2.0 * m) - value == -2.0 * (value * m);
      assert value * m != 0.0;
    }
  }

  lemma HalfRatioBelowOne(x: real, width: real)
    requires width > 0.0
    ensures x / (2.0 * width) < 1.0 <==> x < 2.0 * width
  {
  }

  /** A view no wider than its container, scaled by a factor between 0 and 1,
      always meets the round-trip condition. */
  lemma RoundTripCondition(scaleFactor: real, width: real, viewWidth: real)
    requires width > 0.0 && 0.0 <= viewWidth <= width && 0.0 <= scaleFactor <= 1.0
    ensures viewWidth * (1.0 - scaleFactor) < 2.0 * width
  {
    MulNonneg(viewWidth, scaleFactor);
  }
}
