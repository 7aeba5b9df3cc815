// Decimal rounding on exact reals: Python's round (half to even) and JavaScript's toFixed (half up).
module Rounding {

  /** The nearest integer, ties going to the even one. */
  function HalfEven(x: real): int {
    var low := x.Floor;
    var excess := x - low as real;
    if excess < 0.5 || (excess == 0.5 && low % 2 == 0) then low else low + 1
  }

  /** The nearest integer, ties going up. */
  function HalfUp(x: real): int {
    (x + 0.5).Floor
  }

  function Scaled(x: real, scale: int): real {
    x * scale as real
  }

  function Unscaled(n: int, scale: int): real
    requires scale > 0
  {
    n as real / scale as real
  }

  /** Python: round(x, 4) with scale 10000, round(x, 6) with scale 1000000. */
  function RoundEven(x: real, scale: int): real
    requires scale > 0
  {
    Unscaled(HalfEven(Scaled(x, scale)), scale)
  }

  /** JavaScript: Number(x.toFixed(6)) for the same scales. */
  function ToFixed(x: real, scale: int): real
    requires scale > 0
  {
    Unscaled(HalfUp(Scaled(x, scale)), scale)
  }

  lemma HalfEvenMonotone(x: real, y: real)
    requires x <= y
    ensures HalfEven(x) <= HalfEven(y)
  {
    assert x.Floor == y.Floor || x.Floor + 1 <= y.Floor;
  }

  lemma HalfUpMonotone(x: real, y: real)
    requires x <= y
    ensures HalfUp(x) <= HalfUp(y)
  {
    var a, b := x + 0.5, y + 0.5;
    assert a.Floor as real <= a && b < b.Floor as real + 1.0;
  }

  /** Two numbers at most half a unit of the last decimal apart. */
  predicate Near(rounded: real, x: real, scale: int) {
    -0.5 <= Scaled(rounded, scale) - Scaled(x, scale) <= 0.5
  }

  /** Both roundings give a number with that many decimals nearest to the argument. */
  lemma RoundingIsNearest(x: real, scale: int)
    requires scale > 0
    ensures Near(RoundEven(x, scale), x, scale) && Near(ToFixed(x, scale), x, scale)
  {
    var scaled := Scaled(x, scale);
    ScaledUnscaled(HalfEven(scaled), scale);
    ScaledUnscaled(HalfUp(scaled), scale);
    var up := scaled + 0.5;
    assert up.Floor as real <= up < up.Floor as real + 1.0;
    assert scaled.Floor as real <= scaled < scaled.Floor as real + 1.0;
  }

  /** n units of the last decimal is what a number rounds to exactly if it is at most half a unit away; from half way
      between two, Python takes the even one and toFixed the upper one. */
  lemma RoundsToIff(x: real, n: int, scale: int)
    requires scale > 0
    ensures var off := n as real - x * scale as real;
            && (RoundEven(x, scale) == n as real / scale as real <==>
                  -0.5 < off < 0.5 || ((off == -0.5 || off == 0.5) && n % 2 == 0))
            && (ToFixed(x, scale) == n as real / scale as real <==> -0.5 < off <= 0.5)
  {
    var scaled := Scaled(x, scale);
    UnscaledIsInjective(n, HalfEven(scaled), scale);
    UnscaledIsInjective(n, HalfUp(scaled), scale);
    var low, up := scaled.Floor, scaled + 0.5;
    assert up.Floor as real <= up < up.Floor as real + 1.0;
    assert low as real <= scaled < low as real + 1.0;
  }

  lemma UnscaledIsInjective(m: int, n: int, scale: int)
    requires scale > 0
    ensures Unscaled(m, scale) == Unscaled(n, scale) <==> m == n
  {
    ScaledUnscaled(m, scale);
    ScaledUnscaled(n, scale);
  }

  lemma WholeNumbersAreFixed(n: int)
    ensures HalfEven(n as real) == n && HalfUp(n as real) == n
  {
    var up := n as real + 0.5;
    assert up.Floor as real <= up < up.Floor as real + 1.0;
    assert (n as real).Floor == n;
  }

  lemma ScaledUnscaled(n: int, scale: int)
    requires scale > 0
    ensures Scaled(Unscaled(n, scale), scale) == n as real
  {
  }

  lemma ScaledMonotone(x: real, y: real, scale: int)
    requires x <= y && scale > 0
    ensures Scaled(x, scale) <= Scaled(y, scale)
  {
  }

  lemma UnscaledMonotone(m: int, n: int, scale: int)
    requires m <= n && scale > 0
    ensures Unscaled(m, scale) <= Unscaled(n, scale)
  {
  }

  lemma UnscaledEnds(scale: int)
    requires scale > 0
    ensures Unscaled(0, scale) == 0.0 && Unscaled(scale, scale) == 1.0
  {
  }

  /** Rounding never reverses an order. */
  lemma RoundEvenMonotone(x: real, y: real, scale: int)
    requires x <= y && scale > 0
    ensures RoundEven(x, scale) <= RoundEven(y, scale)
  {
    ScaledMonotone(x, y, scale);
    HalfEvenMonotone(Scaled(x, scale), Scaled(y, scale));
    UnscaledMonotone(HalfEven(Scaled(x, scale)), HalfEven(Scaled(y, scale)), scale);
  }

  lemma ToFixedMonotone(x: real, y: real, scale: int)
    requires x <= y && scale > 0
    ensures ToFixed(x, scale) <= ToFixed(y, scale)
  {
    ScaledMonotone(x, y, scale);
    HalfUpMonotone(Scaled(x, scale), Scaled(y, scale));
    UnscaledMonotone(HalfUp(Scaled(x, scale)), HalfUp(Scaled(y, scale)), scale);
  }

  /** A value that already has that many decimals is unchanged by either. */
  lemma RoundedValuesAreFixed(n: int, scale: int)
    requires scale > 0
    ensures RoundEven(Unscaled(n, scale), scale) == Unscaled(n, scale) == ToFixed(Unscaled(n, scale), scale)
  {
    ScaledUnscaled(n, scale);
    WholeNumbersAreFixed(n);
  }

  /** What Python rounded, JavaScript prints unchanged. */
  lemma ToFixedKeepsRounded(x: real, scale: int)
    requires scale > 0
    ensures ToFixed(RoundEven(x, scale), scale) == RoundEven(x, scale)
  {
    RoundedValuesAreFixed(HalfEven(Scaled(x, scale)), scale);
  }

  /** Zero and one are fixed, so the unit interval is kept. */
  lemma RoundingKeepsUnit(x: real, scale: int)
    requires 0.0 <= x <= 1.0 && scale > 0
    ensures 0.0 <= RoundEven(x, scale) <= 1.0 && 0.0 <= ToFixed(x, scale) <= 1.0
  {
    UnscaledEnds(scale);
    RoundedValuesAreFixed(0, scale);
    RoundedValuesAreFixed(scale, scale);
    RoundEvenMonotone(0.0, x, scale);
    RoundEvenMonotone(x, 1.0, scale);
    ToFixedMonotone(0.0, x, scale);
    ToFixedMonotone(x, 1.0, scale);
  }
}
