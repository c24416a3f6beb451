/** The rounding helpers shared by the conversion modules.

    Every helper in the source is `Math.round(x * k) / k` for a fixed scale
    `k` (1, 10 or 100). JavaScript's `Math.round` picks the nearest integer
    and breaks ties toward positive infinity, which over the reals is
    `Floor(x + 1/2)`. Floating-point representation effects are not
    modelled: values are reals. */
module Rounding {
  import opened Values

  /** `Math.round`: the integer nearest to `x`, halves rounded up. */
  function RoundInt(x: real): (n: int)
    ensures n as real - 0.5 <= x < n as real + 0.5
  {
    (x + 0.5).Floor
  }

  /** The interval in the contract of `RoundInt` pins down one integer:
      `RoundInt` is the unique nearest integer with ties going up. */
  lemma RoundIntUnique(x: real, m: int)
    requires m as real - 0.5 <= x < m as real + 0.5
    ensures RoundInt(x) == m
  {
  }

  /** An integer is its own rounding, so `RoundInt` is idempotent. */
  lemma RoundIntIdempotent(x: real)
    ensures RoundInt(RoundInt(x) as real) == RoundInt(x)
  {
    RoundIntUnique(RoundInt(x) as real, RoundInt(x));
  }

  /** The scales the source rounds to: whole units, tenths, hundredths. */
  datatype Scale = Units | Tenths | Hundredths {
    /** The multiplier `k` of `Math.round(x * k) / k`. */
    function Factor(): (k: real)
      ensures k >= 1.0
    {
      match this
      case Units => 1.0
      case Tenths => 10.0
      case Hundredths => 100.0
    }

    /** Half a grid step, the largest rounding error. */
    function HalfStep(): (h: real)
      ensures h * Factor() == 0.5
    {
      match this
      case Units => 0.5
      case Tenths => 0.05
      case Hundredths => 0.005
    }
  }

  /** `Math.round(x * k) / k`: `x` rounded to the nearest multiple of `1/k`,
      within half a step of `x`. */
  function RoundTo(x: real, s: Scale): (r: real)
    ensures x - s.HalfStep() < r <= x + s.HalfStep()
  {
    match s
    case Units => RoundInt(x) as real
    case Tenths => RoundInt(x * 10.0) as real / 10.0
    case Hundredths => RoundInt(x * 100.0) as real / 100.0
  }

  /** The rounded value is a grid point: `n / k` for the integer `n`
      that `Math.round(x * k)` returns. */
  lemma RoundToOnGrid(x: real, s: Scale)
    ensures RoundTo(x, s) * s.Factor() == RoundInt(x * s.Factor()) as real
  {
  }

  /** Rounding an already rounded value changes nothing. */
  lemma RoundToIdempotent(x: real, s: Scale)
    ensures RoundTo(RoundTo(x, s), s) == RoundTo(x, s)
  {
    var k := s.Factor();
    var n := RoundInt(x * k);
    RoundToOnGrid(x, s);
    RoundIntIdempotent(x * k);
    RoundToOnGrid(RoundTo(x, s), s);
  }

  /** The distance of a real from zero. */
  function Abs(a: real): (r: real)
    ensures r >= 0.0 && (r == a || r == -a)
  {
    if a < 0.0 then -a else a
  }

  /** The result is the nearest multiple of `1/k`: no grid point `m/k` is
      closer to `x`. Each scale is the integer case `NearestInt` scaled
      down by its factor. */
  lemma RoundToNearest(x: real, s: Scale, m: int)
    ensures Abs(RoundTo(x, s) - x) <= Abs(m as real / s.Factor() - x)
  {
    match s
    case Units =>
      NearestInt(x, RoundInt(x), m);
    case Tenths =>
      var n := RoundInt(x * 10.0);
      NearestInt(x * 10.0, n, m);
      assert RoundTo(x, s) - x == (n as real - x * 10.0) / 10.0;
      assert m as real / 10.0 - x == (m as real - x * 10.0) / 10.0;
      assert Abs(RoundTo(x, s) - x) == Abs(n as real - x * 10.0) / 10.0;
      assert Abs(m as real / 10.0 - x) == Abs(m as real - x * 10.0) / 10.0;
    case Hundredths =>
      var n := RoundInt(x * 100.0);
      NearestInt(x * 100.0, n, m);
      assert RoundTo(x, s) - x == (n as real - x * 100.0) / 100.0;
      assert m as real / 100.0 - x == (m as real - x * 100.0) / 100.0;
      assert Abs(RoundTo(x, s) - x) == Abs(n as real - x * 100.0) / 100.0;
      assert Abs(m as real / 100.0 - x) == Abs(m as real - x * 100.0) / 100.0;
  }

  /** In units of the grid: the rounded integer is within 1/2 of `y` and
      every other integer is at least 1/2 away. */
  lemma NearestInt(y: real, n: int, m: int)
    requires n == RoundInt(y)
    ensures Abs(n as real - y) <= Abs(m as real - y)
  {
    if m < n {
      assert m as real <= n as real - 1.0;
    } else if m > n {
      assert m as real >= n as real + 1.0;
    }
  }

  /** Rounding never reverses the order of two inputs. */
  lemma RoundToMonotone(x: real, y: real, s: Scale)
    requires x <= y
    ensures RoundTo(x, s) <= RoundTo(y, s)
  {
    // Scaling by the positive literal factor keeps the order, and so does
    // `Math.round` and the division back.
    match s
    case Units =>
      assert RoundInt(x) <= RoundInt(y);
    case Tenths =>
      assert x * 10.0 <= y * 10.0;
      assert RoundInt(x * 10.0) <= RoundInt(y * 10.0);
    case Hundredths =>
      assert x * 100.0 <= y * 100.0;
      assert RoundInt(x * 100.0) <= RoundInt(y * 100.0);
  }

  /** `o` is what rounding `x` to scale `s` must produce: a grid point in
      the half-open interval of width one step around `x`. */
  predicate RoundedTo(o: real, x: real, s: Scale) {
    x - s.HalfStep() < o <= x + s.HalfStep() && RoundTo(o, s) == o
  }

  /** The interval-and-grid description is complete: exactly one value
      satisfies it, the one `RoundTo` computes. */
  lemma RoundedToCharacterizes(o: real, x: real, s: Scale)
    ensures RoundedTo(o, x, s) <==> o == RoundTo(x, s)
  {
    if o == RoundTo(x, s) {
      RoundToIdempotent(x, s);
    }
    if RoundedTo(o, x, s) {
      WindowPointIsRounded(o, x, s);
    }
  }

  /** The "only if" half: a grid point within half a step of `x` is the
      rounded `x`. On the grid, `o * k` is an integer in the window of
      width one around `x * k`, which `RoundIntUnique` says is
      `Math.round(x * k)`; each scale is spelled out with its literal
      factor. */
  lemma WindowPointIsRounded(o: real, x: real, s: Scale)
    requires RoundedTo(o, x, s)
    ensures o == RoundTo(x, s)
  {
    RoundToOnGrid(o, s);
    match s
    case Units =>
      RoundIntUnique(x, RoundInt(o));
    case Tenths =>
      var n := RoundInt(o * 10.0);
      assert o * 10.0 == n as real;
      RoundIntUnique(x * 10.0, n);
    case Hundredths =>
      var n := RoundInt(o * 100.0);
      assert o * 100.0 == n as real;
      RoundIntUnique(x * 100.0, n);
  }

  /** A real output field: omitted exactly when the input is absent, and
      otherwise the input rounded to scale `s`. */
  predicate RoundedField(out: Opt<real>, input: Opt<real>, s: Scale) {
    out.Present? == input.Present? &&
    (input.Present? ==> RoundedTo(out.value, input.value, s))
  }

  /** An integer output field: omitted exactly when the input is absent, and
      otherwise the integer nearest to `input * scale`, halves rounded up. */
  predicate WholeField(out: Opt<int>, input: Opt<real>, scale: real) {
    out.Present? == input.Present? &&
    (input.Present? ==>
      out.value as real - 0.5 <= input.value * scale < out.value as real + 0.5)
  }

  /** Rounds a present value to scale `s`; an absent one stays absent. */
  function RoundOpt(o: Opt<real>, s: Scale): (r: Opt<real>)
    ensures RoundedField(r, o, s)
  {
    match o
    case Absent => Absent
    case Present(x) =>
      RoundedToCharacterizes(RoundTo(x, s), x, s);
      Present(RoundTo(x, s))
  }

  /** A present ratio as a whole percentage (`Math.round(x * 100)`). */
  function PercentOpt(o: Opt<real>): (r: Opt<int>)
    ensures WholeField(r, o, 100.0)
  {
    match o
    case Absent => Absent
    case Present(x) => Present(RoundInt(x * 100.0))
  }

  /** A present value rounded to a whole number (`Math.round(x)`). */
  function WholeOpt(o: Opt<real>): (r: Opt<int>)
    ensures WholeField(r, o, 1.0)
  {
    match o
    case Absent => Absent
    case Present(a) => Present(RoundInt(a))
  }

  /** `round1`: nearest 0.1. */
  function Round1(v: real): (r: real)
    ensures v - 0.05 < r <= v + 0.05
    ensures RoundTo(r, Tenths) == r
  {
    RoundToIdempotent(v, Tenths);
    RoundTo(v, Tenths)
  }

  /** `round2`: nearest 0.01. */
  function Round2(v: real): (r: real)
    ensures v - 0.005 < r <= v + 0.005
    ensures RoundTo(r, Hundredths) == r
  {
    RoundToIdempotent(v, Hundredths);
    RoundTo(v, Hundredths)
  }

  /** `roundVoltage`: volts to the nearest 0.01 V. */
  function RoundVoltage(v: real): (r: real)
    ensures v - 0.005 < r <= v + 0.005
    ensures RoundTo(r, Hundredths) == r
  {
    Round2(v)
  }

  /** `roundCurrent`: amperes to the nearest 0.1 A. */
  function RoundCurrent(a: real): (r: real)
    ensures a - 0.05 < r <= a + 0.05
    ensures RoundTo(r, Tenths) == r
  {
    Round1(a)
  }

  /** `roundTempK`: kelvin to the nearest 0.1 K. */
  function RoundTempK(t: real): (r: real)
    ensures t - 0.05 < r <= t + 0.05
    ensures RoundTo(r, Tenths) == r
  {
    Round1(t)
  }

  /** Idempotence of the named helpers, stated on the helpers themselves. */
  lemma NamedRoundingIdempotent(x: real)
    ensures Round1(Round1(x)) == Round1(x)
    ensures Round2(Round2(x)) == Round2(x)
    ensures RoundVoltage(RoundVoltage(x)) == RoundVoltage(x)
    ensures RoundCurrent(RoundCurrent(x)) == RoundCurrent(x)
    ensures RoundTempK(RoundTempK(x)) == RoundTempK(x)
  {
    RoundToIdempotent(x, Tenths);
    RoundToIdempotent(x, Hundredths);
  }
}
