/** The pure-Python channel operators of `randomart/transforms.py`: the
    `_py_*_impl` functions the expression nodes' `eval` calls, together with
    the two scalar shapes `_well` and `_tent`.

    Each `_py_*_impl` writes into an `out` record; here it returns the
    record instead. `math.sin` is the parameter `sine`, shared with the
    native operators. */
module Transforms {
  import opened Wrappers
  import opened Numeric
  import opened Colors

  /** `_well`: close to -1 near the origin and climbing toward 1. */
  function PyWell(x: real): (r: real)
    ensures -1.0 <= r < 1.0
  {
    PowAtLeastOne(1.0 + x * x, 8);
    DivByAtLeastOne(2.0, Pow(1.0 + x * x, 8));
    1.0 - 2.0 / Pow(1.0 + x * x, 8)
  }

  /** `_tent`: 1 at the origin, falling by 2 per unit of distance. */
  function PyTent(x: real): (r: real)
    ensures r <= 1.0
    ensures r == 1.0 <==> x == 0.0
  {
    1.0 - 2.0 * Abs(x)
  }

  lemma {:induction false} PowOfOne(n: nat)
    ensures Pow(1.0, n) == 1.0
  {
    if n > 0 {
      PowOfOne(n - 1);
    }
  }

  /** `_well` is even, equals -1 at 0, and never leaves [-1, 1). */
  lemma WellShape(x: real)
    ensures PyWell(-x) == PyWell(x)
    ensures PyWell(0.0) == -1.0
    ensures -1.0 <= PyWell(x) < 1.0
  {
    assert (-x) * (-x) == x * x;
    PowOfOne(8);
    PowAtLeastOne(1.0 + x * x, 8);
    DivByAtLeastOne(2.0, Pow(1.0 + x * x, 8));
  }

  /** `_tent` is even, equals 1 at 0 and -1 at both ends of [-1, 1], never
      exceeds 1, and maps [-1, 1] into itself. */
  lemma TentShape(x: real)
    ensures PyTent(-x) == PyTent(x)
    ensures PyTent(0.0) == 1.0 && PyTent(1.0) == -1.0 && PyTent(-1.0) == -1.0
    ensures PyTent(x) <= 1.0
    ensures InUnitRange(x) ==> InUnitRange(PyTent(x))
  {
  }

  /** `_py_average_impl`: `weight * c1 + (1 - weight) * c2` per channel. */
  function AverageImpl(c1: QColor, c2: QColor, weight: real): (r: QColor)
    ensures weight == 1.0 ==> r == c1
    ensures weight == 0.0 ==> r == c2
    ensures c1 == c2 ==> r == c1
  {
    QColor(weight * c1.r + (1.0 - weight) * c2.r,
           weight * c1.g + (1.0 - weight) * c2.g,
           weight * c1.b + (1.0 - weight) * c2.b)
  }

  /** `Mix.eval` once its subtrees are evaluated: the red channel of the
      weight, mapped from [-1, 1] onto [0, 1], weighs `c1` against `c2`. */
  function MixImpl(wr: real, c1: QColor, c2: QColor): (r: QColor)
    ensures wr == 1.0 ==> r == c1
    ensures wr == -1.0 ==> r == c2
  {
    AverageImpl(c1, c2, 0.5 * (wr + 1.0))
  }

  /** Weight 1 selects `c1`, weight 0 selects `c2`, and the plain average
      (weight 0.5) does not care about argument order. */
  lemma AverageEndpoints(c1: QColor, c2: QColor)
    ensures AverageImpl(c1, c2, 1.0) == c1
    ensures AverageImpl(c1, c2, 0.0) == c2
    ensures AverageImpl(c1, c2, 0.5) == AverageImpl(c2, c1, 0.5)
  {
  }

  lemma WeightedChannelInRange(a: real, b: real, w: real)
    requires InUnitRange(a) && InUnitRange(b) && 0.0 <= w <= 1.0
    ensures InUnitRange(w * a + (1.0 - w) * b)
  {
    MulNonNegative(w, a + 1.0);
    MulNonNegative(w, 1.0 - a);
    MulNonNegative(1.0 - w, b + 1.0);
    MulNonNegative(1.0 - w, 1.0 - b);
  }

  /** A weight in [0, 1] keeps an average of unit-range colours in range. */
  lemma AverageInRange(c1: QColor, c2: QColor, w: real)
    requires ChannelsInUnitRange(c1) && ChannelsInUnitRange(c2)
    requires 0.0 <= w <= 1.0
    ensures ChannelsInUnitRange(AverageImpl(c1, c2, w))
  {
    WeightedChannelInRange(c1.r, c2.r, w);
    WeightedChannelInRange(c1.g, c2.g, w);
    WeightedChannelInRange(c1.b, c2.b, w);
  }

  /** `_py_prod_impl`: channel-wise product. */
  function ProdImpl(c1: QColor, c2: QColor): (r: QColor)
    ensures c2 == Zero ==> r == Zero
    ensures c2 == QColor(1.0, 1.0, 1.0) ==> r == c1
  {
    QColor(c1.r * c2.r, c1.g * c2.g, c1.b * c2.b)
  }

  lemma ProductChannelInRange(a: real, b: real)
    requires InUnitRange(a) && InUnitRange(b)
    ensures InUnitRange(a * b)
  {
    MulNonNegative(1.0 + a, 1.0 + b);
    MulNonNegative(1.0 - a, 1.0 - b);
    MulNonNegative(1.0 + a, 1.0 - b);
    MulNonNegative(1.0 - a, 1.0 + b);
  }

  /** The product is symmetric and keeps unit-range colours in range. */
  lemma ProductInRange(c1: QColor, c2: QColor)
    ensures ProdImpl(c1, c2) == ProdImpl(c2, c1)
    ensures ChannelsInUnitRange(c1) && ChannelsInUnitRange(c2) ==>
      ChannelsInUnitRange(ProdImpl(c1, c2))
  {
    if ChannelsInUnitRange(c1) && ChannelsInUnitRange(c2) {
      ProductChannelInRange(c1.r, c2.r);
      ProductChannelInRange(c1.g, c2.g);
      ProductChannelInRange(c1.b, c2.b);
    }
  }

  predicate HasZeroChannel(c: QColor) {
    c.r == 0.0 || c.g == 0.0 || c.b == 0.0
  }

  /** Each channel of `m` differs from the same channel of `a` by a whole
      number of the same channel of `d`. */
  predicate CongruentChannels(a: QColor, d: QColor, m: QColor)
    requires !HasZeroChannel(d)
  {
    IsIntegral((a.r - m.r) / d.r) && IsIntegral((a.g - m.g) / d.g) && IsIntegral((a.b - m.b) / d.b)
  }

  /** `_py_mod_impl`: channel-wise Python `%`, which raises
      ZeroDivisionError (`None`) on a zero divisor channel. With the bounds
      below, the congruence pins each channel to Python's remainder
      (`ModImplUnique`). */
  function ModImpl(c1: QColor, c2: QColor): (r: Option<QColor>)
    ensures r.None? <==> HasZeroChannel(c2)
    ensures r.Some? ==> CongruentChannels(c1, c2, r.value)
    ensures r.Some? && c2.r > 0.0 ==> 0.0 <= r.value.r < c2.r
    ensures r.Some? && c2.g > 0.0 ==> 0.0 <= r.value.g < c2.g
    ensures r.Some? && c2.b > 0.0 ==> 0.0 <= r.value.b < c2.b
    ensures r.Some? && c2.r < 0.0 ==> c2.r < r.value.r <= 0.0
    ensures r.Some? && c2.g < 0.0 ==> c2.g < r.value.g <= 0.0
    ensures r.Some? && c2.b < 0.0 ==> c2.b < r.value.b <= 0.0
  {
    match (PyFloatMod(c1.r, c2.r), PyFloatMod(c1.g, c2.g), PyFloatMod(c1.b, c2.b))
    case (Some(r), Some(g), Some(b)) => Some(QColor(r, g, b))
    case _ => None
  }

  /** The congruence and the bounds of `ModImpl` pin it down: any colour
      that meets them is `_py_mod_impl`'s result. */
  lemma ModImplUnique(c1: QColor, c2: QColor, m: QColor)
    requires !HasZeroChannel(c2)
    requires CongruentChannels(c1, c2, m)
    requires c2.r > 0.0 ==> 0.0 <= m.r < c2.r
    requires c2.g > 0.0 ==> 0.0 <= m.g < c2.g
    requires c2.b > 0.0 ==> 0.0 <= m.b < c2.b
    requires c2.r < 0.0 ==> c2.r < m.r <= 0.0
    requires c2.g < 0.0 ==> c2.g < m.g <= 0.0
    requires c2.b < 0.0 ==> c2.b < m.b <= 0.0
    ensures ModImpl(c1, c2) == Some(m)
  {
    PyFloatModUnique(c1.r, c2.r, m.r);
    PyFloatModUnique(c1.g, c2.g, m.g);
    PyFloatModUnique(c1.b, c2.b, m.b);
  }

  /** `_py_sin_impl`: `sin(phase + freq * channel)` per channel. */
  function SinImpl(c: QColor, phase: real, freq: real, sine: real -> real): (r: QColor)
    ensures (forall v :: InUnitRange(sine(v))) ==> ChannelsInUnitRange(r)
  {
    QColor(sine(phase + freq * c.r), sine(phase + freq * c.g), sine(phase + freq * c.b))
  }

  /** `_py_well_impl`. */
  function WellImpl(c: QColor): (r: QColor)
    ensures ChannelsInWellRange(r)
    ensures c.r == c.g ==> r.r == r.g
  {
    QColor(PyWell(c.r), PyWell(c.g), PyWell(c.b))
  }

  /** `_py_tent_impl`. */
  function TentImpl(c: QColor): (r: QColor)
    ensures ChannelsAtMostOne(r)
    ensures r == QColor(1.0, 1.0, 1.0) <==> c == Zero
  {
    QColor(PyTent(c.r), PyTent(c.g), PyTent(c.b))
  }

  /** The well and tent operators are `qcolor.apply_filter` of their
      scalar shape, so each channel is transformed on its own. */
  lemma UnaryImplsAreFilters(c: QColor)
    ensures WellImpl(c) == ApplyFilter(c, PyWell)
    ensures TentImpl(c) == ApplyFilter(c, PyTent)
  {
  }

  /** `_py_level_impl`: per channel, `c2` where the selector `c1` is below
      the threshold and `c3` elsewhere. */
  function LevelImpl(threshold: real, c1: QColor, c2: QColor, c3: QColor): (r: QColor)
    ensures ChannelsFrom(r, c2, c3)
    ensures c2 == c3 ==> r == c2
  {
    QColor(if c1.r < threshold then c2.r else c3.r,
           if c1.g < threshold then c2.g else c3.g,
           if c1.b < threshold then c2.b else c3.b)
  }

  function Select(selector: real, threshold: real): real {
    if selector < threshold then 1.0 else 0.0
  }

  /** A level is, channel by channel, an average with weight 1 where the
      selector is below the threshold and weight 0 elsewhere. */
  lemma LevelIsChannelwiseAverage(t: real, s: QColor, a: QColor, b: QColor)
    ensures LevelImpl(t, s, a, b).r == AverageImpl(a, b, Select(s.r, t)).r
    ensures LevelImpl(t, s, a, b).g == AverageImpl(a, b, Select(s.g, t)).g
    ensures LevelImpl(t, s, a, b).b == AverageImpl(a, b, Select(s.b, t)).b
  {
  }

  /** All operators keep unit-range colours in the unit range (the sine
      provided it is bounded by 1). */
  lemma OperatorsPreserveUnitRange(c: QColor, phase: real, freq: real, sine: real -> real)
    requires ChannelsInUnitRange(c)
    ensures ChannelsInUnitRange(WellImpl(c))
    ensures ChannelsInUnitRange(TentImpl(c))
    ensures (forall v :: InUnitRange(sine(v))) ==> ChannelsInUnitRange(SinImpl(c, phase, freq, sine))
  {
    WellShape(c.r);
    WellShape(c.g);
    WellShape(c.b);
    TentShape(c.r);
    TentShape(c.g);
    TentShape(c.b);
  }
}
