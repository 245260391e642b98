/** The native evaluator of `_randomart.c`, as driven through the ctypes
    wrappers of `randomart/formats.py`.

    A native node is a `struct transforminfo`: an `apply` function pointer,
    up to four child pointers in `subslots`, and a small `data` buffer for
    the node's own parameters. Each `ra_*_init` picks the apply function,
    stores its child arguments into `subslots[0..]` in argument order and
    its scalar arguments into `data`; each `ra_*` apply function evaluates
    the slots it needs and combines them with a `qcolor_*` operator. Here
    the function pointer is the tag `Apply`, `subslots` holds exactly the
    slots the init sets, and `data` exactly the doubles it stores. */
module Native {
  import opened Wrappers
  import opened Numeric
  import opened Colors

  // ---------------------------------------------------------------------
  // Channel operators (`qcolor_*`, `well`, `tent`)

  /** `well`: `1 - 2 / pow(1 + x*x, 8)`. */
  function CWell(x: real): (r: real)
    ensures -1.0 <= r < 1.0
  {
    PowAtLeastOne(1.0 + x * x, 8);
    DivByAtLeastOne(2.0, Pow(1.0 + x * x, 8));
    1.0 - 2.0 / Pow(1.0 + x * x, 8)
  }

  /** `tent`: `abs` is the `int` function, so the double argument is first
      converted to `int`, which truncates toward zero. */
  function CTent(x: real): (r: real)
    ensures r <= 1.0
    ensures r == 1.0 <==> -1.0 < x < 1.0
  {
    1.0 - 2.0 * (IntAbs(Trunc(x)) as real)
  }

  /** On [-1, 1] the native tent only takes the values 1 and -1: it is 1 on
      the open interval (-1, 1) and -1 at its two ends. */
  lemma CTentOnUnitRange(x: real)
    requires InUnitRange(x)
    ensures -1.0 < x < 1.0 ==> CTent(x) == 1.0
    ensures x == 1.0 || x == -1.0 ==> CTent(x) == -1.0
  {
  }

  /** `qcolor_average`: `weight * c1 + (1 - weight) * c2` per channel. */
  function QcolorAverage(c1: QColor, c2: QColor, weight: real): (out: QColor)
    ensures weight == 1.0 ==> out == c1
    ensures weight == 0.0 ==> out == c2
    ensures c1 == c2 ==> out == c1
  {
    QColor(weight * c1.r + (1.0 - weight) * c2.r,
           weight * c1.g + (1.0 - weight) * c2.g,
           weight * c1.b + (1.0 - weight) * c2.b)
  }

  /** `qcolor_tent`: the native tent on each channel. */
  function QcolorTent(c1: QColor): (out: QColor)
    ensures ChannelsAtMostOne(out)
    ensures out.r == 1.0 <==> -1.0 < c1.r < 1.0
    ensures out.g == 1.0 <==> -1.0 < c1.g < 1.0
    ensures out.b == 1.0 <==> -1.0 < c1.b < 1.0
  {
    QColor(CTent(c1.r), CTent(c1.g), CTent(c1.b))
  }

  /** `qcolor_well`: the native well on each channel. */
  function QcolorWell(c1: QColor): (out: QColor)
    ensures ChannelsInWellRange(out)
    ensures c1.r == c1.g ==> out.r == out.g
  {
    QColor(CWell(c1.r), CWell(c1.g), CWell(c1.b))
  }

  /** `qcolor_product`: channel-wise product. */
  function QcolorProduct(c1: QColor, c2: QColor): (out: QColor)
    ensures c2 == Zero ==> out == Zero
    ensures c2 == QColor(1.0, 1.0, 1.0) ==> out == c1
  {
    QColor(c1.r * c2.r, c1.g * c2.g, c1.b * c2.b)
  }

  /** `zeroish` in `qcolor_mod`. */
  const Zeroish: real := 0.0001

  predicate HasSmallChannel(c: QColor) {
    c.r < Zeroish || c.g < Zeroish || c.b < Zeroish
  }

  /** `qcolor_mod`: the zero colour if any divisor channel is below
      `zeroish` (negative divisors included), `fmod` per channel otherwise. */
  function QcolorMod(c1: QColor, c2: QColor): (out: QColor)
    ensures HasSmallChannel(c2) ==> out == Zero
    ensures !HasSmallChannel(c2) ==>
      && Fmod(c1.r, c2.r) == Some(out.r)
      && Fmod(c1.g, c2.g) == Some(out.g)
      && Fmod(c1.b, c2.b) == Some(out.b)
    ensures !HasSmallChannel(c2) ==>
      && Abs(out.r) < c2.r && Abs(out.g) < c2.g && Abs(out.b) < c2.b
  {
    if HasSmallChannel(c2) then Zero
    else QColor(Fmod(c1.r, c2.r).value, Fmod(c1.g, c2.g).value, Fmod(c1.b, c2.b).value)
  }

  /** `qcolor_sin`: `sin(phase + freq * channel)` per channel. */
  function QcolorSin(c: QColor, phase: real, freq: real, sine: real -> real): (out: QColor)
    ensures (forall v :: InUnitRange(sine(v))) ==> ChannelsInUnitRange(out)
  {
    QColor(sine(phase + freq * c.r), sine(phase + freq * c.g), sine(phase + freq * c.b))
  }

  /** `qcolor_level`: per channel, `c2` where the selector `c1` is below
      the threshold and `c3` elsewhere. */
  function QcolorLevel(threshold: real, c1: QColor, c2: QColor, c3: QColor): (out: QColor)
    ensures ChannelsFrom(out, c2, c3)
    ensures c2 == c3 ==> out == c2
  {
    QColor(if c1.r < threshold then c2.r else c3.r,
           if c1.g < threshold then c2.g else c3.g,
           if c1.b < threshold then c2.b else c3.b)
  }

  // ---------------------------------------------------------------------
  // Nodes

  /** Which `ra_*` function the `apply` pointer holds. */
  datatype Apply =
    | ApplyVariableX | ApplyVariableY | ApplyConstant
    | ApplySum | ApplyProduct | ApplyMod
    | ApplyWell | ApplyTent | ApplySin
    | ApplyLevel | ApplyMix

  datatype Info = Info(apply: Apply, subslots: seq<Info>, data: seq<real>)

  /** How many `subslots` each init fills. */
  function SlotCount(a: Apply): nat {
    match a
    case ApplyVariableX => 0
    case ApplyVariableY => 0
    case ApplyConstant => 0
    case ApplySum => 2
    case ApplyProduct => 2
    case ApplyMod => 2
    case ApplyWell => 1
    case ApplyTent => 1
    case ApplySin => 1
    case ApplyLevel => 3
    case ApplyMix => 3
  }

  /** How many doubles each init stores in `data`: the constant's three
      channels, the sine's phase and frequency, the level's threshold. */
  function DataCount(a: Apply): nat {
    match a
    case ApplyConstant => 3
    case ApplySin => 2
    case ApplyLevel => 1
    case _ => 0
  }

  /** Every slot and datum the apply function reads has been set by its
      init, all the way down. */
  predicate Wired(info: Info)
    decreases info
  {
    && |info.subslots| == SlotCount(info.apply)
    && |info.data| == DataCount(info.apply)
    && forall i :: 0 <= i < |info.subslots| ==> Wired(info.subslots[i])
  }

  // The `formats.py` wrapper classes, each calling its `ra_*_init`.

  function RaVariableX(): (info: Info)
    ensures Wired(info) && info.apply == ApplyVariableX
  {
    Info(ApplyVariableX, [], [])
  }

  function RaVariableY(): (info: Info)
    ensures Wired(info) && info.apply == ApplyVariableY
  {
    Info(ApplyVariableY, [], [])
  }

  function RaConstant(r: real, g: real, b: real): (info: Info)
    ensures Wired(info) && info.apply == ApplyConstant
  {
    Info(ApplyConstant, [], [r, g, b])
  }

  function RaSum(e1: Info, e2: Info): (info: Info)
    ensures Wired(e1) && Wired(e2) <==> Wired(info)
    ensures info.apply == ApplySum
  {
    var info := Info(ApplySum, [e1, e2], []);
    assert info.subslots[0] == e1 && info.subslots[1] == e2;
    info
  }

  function RaProduct(e1: Info, e2: Info): (info: Info)
    ensures Wired(e1) && Wired(e2) <==> Wired(info)
    ensures info.apply == ApplyProduct
  {
    var info := Info(ApplyProduct, [e1, e2], []);
    assert info.subslots[0] == e1 && info.subslots[1] == e2;
    info
  }

  function RaMod(e1: Info, e2: Info): (info: Info)
    ensures Wired(e1) && Wired(e2) <==> Wired(info)
    ensures info.apply == ApplyMod
  {
    var info := Info(ApplyMod, [e1, e2], []);
    assert info.subslots[0] == e1 && info.subslots[1] == e2;
    info
  }

  function RaWell(e1: Info): (info: Info)
    ensures Wired(e1) <==> Wired(info)
    ensures info.apply == ApplyWell
  {
    var info := Info(ApplyWell, [e1], []);
    assert info.subslots[0] == e1;
    info
  }

  function RaTent(e1: Info): (info: Info)
    ensures Wired(e1) <==> Wired(info)
    ensures info.apply == ApplyTent
  {
    var info := Info(ApplyTent, [e1], []);
    assert info.subslots[0] == e1;
    info
  }

  function RaSin(phase: real, freq: real, e1: Info): (info: Info)
    ensures Wired(e1) <==> Wired(info)
    ensures info.apply == ApplySin
  {
    var info := Info(ApplySin, [e1], [phase, freq]);
    assert info.subslots[0] == e1;
    info
  }

  /** `ra_level(threshold, level, e1, e2)`: the selector goes to slot 0. */
  function RaLevel(threshold: real, level: Info, e1: Info, e2: Info): (info: Info)
    ensures Wired(level) && Wired(e1) && Wired(e2) <==> Wired(info)
    ensures info.apply == ApplyLevel
  {
    var info := Info(ApplyLevel, [level, e1, e2], [threshold]);
    assert info.subslots[0] == level && info.subslots[1] == e1 && info.subslots[2] == e2;
    info
  }

  /** `ra_mix(w, e1, e2)`: the weight goes to slot 0. */
  function RaMix(w: Info, e1: Info, e2: Info): (info: Info)
    ensures Wired(w) && Wired(e1) && Wired(e2) <==> Wired(info)
    ensures info.apply == ApplyMix
  {
    var info := Info(ApplyMix, [w, e1, e2], []);
    assert info.subslots[0] == w && info.subslots[1] == e1 && info.subslots[2] == e2;
    info
  }

  /** `ra_mix` once its slots are evaluated: only the red channel of the
      weight is read, mapped from [-1, 1] to [0, 1]. */
  function MixByWeight(wr: real, c1: QColor, c2: QColor): (out: QColor)
    ensures wr == 1.0 ==> out == c1
    ensures wr == -1.0 ==> out == c2
  {
    QcolorAverage(c1, c2, 0.5 * (wr + 1.0))
  }

  /** `ra_transforminfo_apply`: dispatch on the apply pointer. */
  function Eval(info: Info, sine: real -> real, x: real, y: real): (c: QColor)
    requires Wired(info)
    ensures info.apply == ApplyWell ==> ChannelsInWellRange(c)
    ensures info.apply == ApplyTent ==> ChannelsAtMostOne(c)
    decreases info
  {
    var s := info.subslots;
    match info.apply
    case ApplyVariableX => QColor(x, x, x)
    case ApplyVariableY => QColor(y, y, y)
    case ApplyConstant => QColor(info.data[0], info.data[1], info.data[2])
    case ApplySum => QcolorAverage(Eval(s[0], sine, x, y), Eval(s[1], sine, x, y), 0.5)
    case ApplyProduct => QcolorProduct(Eval(s[0], sine, x, y), Eval(s[1], sine, x, y))
    case ApplyMod => QcolorMod(Eval(s[0], sine, x, y), Eval(s[1], sine, x, y))
    case ApplyWell => QcolorWell(Eval(s[0], sine, x, y))
    case ApplyTent => QcolorTent(Eval(s[0], sine, x, y))
    case ApplySin => QcolorSin(Eval(s[0], sine, x, y), info.data[0], info.data[1], sine)
    case ApplyLevel =>
      QcolorLevel(info.data[0], Eval(s[0], sine, x, y), Eval(s[1], sine, x, y), Eval(s[2], sine, x, y))
    case ApplyMix => MixByWeight(Eval(s[0], sine, x, y).r, Eval(s[1], sine, x, y), Eval(s[2], sine, x, y))
  }

  /** A sine node lands in the unit cube whenever `sin` is bounded by 1. */
  lemma SinNodeInUnitRange(info: Info, sine: real -> real, x: real, y: real)
    requires Wired(info) && info.apply == ApplySin
    requires forall v :: InUnitRange(sine(v))
    ensures ChannelsInUnitRange(Eval(info, sine, x, y))
  {
  }

  // ---------------------------------------------------------------------
  // Behaviour of single nodes

  /** A variable node repeats its coordinate on all three channels, and a
      constant node returns its stored channels wherever it is evaluated. */
  lemma LeavesIgnoreTheOtherCoordinate(r: real, g: real, b: real, sine: real -> real, x: real, y: real, x': real, y': real)
    ensures Eval(RaVariableX(), sine, x, y) == QColor(x, x, x)
    ensures Eval(RaVariableY(), sine, x, y) == QColor(y, y, y)
    ensures Eval(RaVariableX(), sine, x, y) == Eval(RaVariableX(), sine, x, y')
    ensures Eval(RaVariableY(), sine, x, y) == Eval(RaVariableY(), sine, x', y)
    ensures Eval(RaConstant(r, g, b), sine, x, y) == QColor(r, g, b)
    ensures Eval(RaConstant(r, g, b), sine, x, y) == Eval(RaConstant(r, g, b), sine, x', y')
  {
  }

  /** The two sums pinned by the unit tests: the sum of the two variables
      is their mean, and a constant summed with `y` is the channel-wise
      mean of the constant and `y`. */
  lemma SumOfLeaves(r: real, g: real, b: real, sine: real -> real, x: real, y: real)
    ensures Eval(RaSum(RaVariableX(), RaVariableY()), sine, x, y)
         == QColor((x + y) / 2.0, (x + y) / 2.0, (x + y) / 2.0)
    ensures Eval(RaSum(RaConstant(r, g, b), RaVariableY()), sine, x, y)
         == QColor((r + y) / 2.0, (g + y) / 2.0, (b + y) / 2.0)
  {
  }

  /** `ra_mod` divides slot 0 by slot 1: the result is zero as soon as one
      channel of the second child is below `zeroish`, and otherwise each
      channel is strictly smaller in size than the second child's. */
  lemma ModDividesFirstBySecond(e1: Info, e2: Info, sine: real -> real, x: real, y: real)
    requires Wired(e1) && Wired(e2)
    ensures var d := Eval(e2, sine, x, y);
      HasSmallChannel(d) ==> Eval(RaMod(e1, e2), sine, x, y) == Zero
    ensures var n := Eval(e1, sine, x, y); var d := Eval(e2, sine, x, y);
      var out := Eval(RaMod(e1, e2), sine, x, y);
      !HasSmallChannel(d) ==>
        && Fmod(n.r, d.r) == Some(out.r) && Abs(out.r) < d.r
        && Fmod(n.g, d.g) == Some(out.g) && Abs(out.g) < d.g
        && Fmod(n.b, d.b) == Some(out.b) && Abs(out.b) < d.b
  {
  }

  /** `ra_level` selects from slot 1 where slot 0 is below the threshold
      and from slot 2 elsewhere, so the wrapper's argument order (selector,
      then `e1`, then `e2`) is the order the C side reads them in. */
  lemma LevelSelectsPerChannel(t: real, s: Info, e1: Info, e2: Info, sine: real -> real, x: real, y: real)
    requires Wired(s) && Wired(e1) && Wired(e2)
    ensures var out := Eval(RaLevel(t, s, e1, e2), sine, x, y);
      var sel := Eval(s, sine, x, y);
      && out.r == (if sel.r < t then Eval(e1, sine, x, y).r else Eval(e2, sine, x, y).r)
      && out.g == (if sel.g < t then Eval(e1, sine, x, y).g else Eval(e2, sine, x, y).g)
      && out.b == (if sel.b < t then Eval(e1, sine, x, y).b else Eval(e2, sine, x, y).b)
  {
  }

  /** `ra_mix` reads only the red channel of its weight slot. */
  lemma MixReadsOnlyRedOfWeight(w: Info, w': Info, e1: Info, e2: Info, sine: real -> real, x: real, y: real)
    requires Wired(w) && Wired(w') && Wired(e1) && Wired(e2)
    requires Eval(w, sine, x, y).r == Eval(w', sine, x, y).r
    ensures Eval(RaMix(w, e1, e2), sine, x, y) == Eval(RaMix(w', e1, e2), sine, x, y)
  {
  }
}
