/** How the two evaluators relate.

    A tree can be evaluated directly (`RandomArt.Eval`, the `eval` methods)
    or reified and evaluated natively (`Native.Eval`). For nine of the
    eleven node kinds both sides use the same formula, and the two
    evaluations agree on every tree built from those kinds. `Mod` and
    `Tent` are different programs on the two sides; the lemmas at the end
    of this module pin down how. */
module Agreement {
  import opened Wrappers
  import opened Numeric
  import opened Colors
  import opened Transforms
  import opened RandomArt
  import Native

  /** The native channel operators compute what their Python counterparts
      compute, for every input. */
  lemma SharedOperatorsAgree(c1: QColor, c2: QColor, c3: QColor, w: real, t: real,
                             phase: real, freq: real, sine: real -> real)
    ensures Native.QcolorAverage(c1, c2, w) == AverageImpl(c1, c2, w)
    ensures Native.QcolorProduct(c1, c2) == ProdImpl(c1, c2)
    ensures Native.QcolorWell(c1) == WellImpl(c1)
    ensures Native.QcolorSin(c1, phase, freq, sine) == SinImpl(c1, phase, freq, sine)
    ensures Native.QcolorLevel(t, c1, c2, c3) == LevelImpl(t, c1, c2, c3)
  {
  }

  /** `ra_mix` once its slots are evaluated is the `Mix.eval` weighting. */
  lemma MixAgrees(wr: real, c1: QColor, c2: QColor)
    ensures Native.MixByWeight(wr, c1, c2) == MixImpl(wr, c1, c2)
  {
  }

  /** No `Mod` and no `Tent` node anywhere in the tree. */
  predicate SharedFormulas(e: Expr) {
    match e
    case VariableX => true
    case VariableY => true
    case Constant(_) => true
    case Sum(e1, e2) => SharedFormulas(e1) && SharedFormulas(e2)
    case Product(e1, e2) => SharedFormulas(e1) && SharedFormulas(e2)
    case Mod(_, _) => false
    case Well(e1) => SharedFormulas(e1)
    case Tent(_) => false
    case Sin(_, _, e1) => SharedFormulas(e1)
    case Level(_, l, e1, e2) => SharedFormulas(l) && SharedFormulas(e1) && SharedFormulas(e2)
    case Mix(w, e1, e2) => SharedFormulas(w) && SharedFormulas(e1) && SharedFormulas(e2)
  }

  /** Reifying a tree without `Mod` and `Tent` and evaluating it natively
      gives, at every point, the colour the direct evaluation gives. */
  lemma {:induction false} ReifiedEvalAgrees(e: Expr, sine: real -> real, x: real, y: real)
    requires SharedFormulas(e)
    ensures Native.Eval(Reify(e), sine, x, y) == Eval(e, sine, x, y)
    decreases e
  {
    match e
    case VariableX =>
    case VariableY =>
    case Constant(_) =>
    case Sum(e1, e2) =>
      ReifiedEvalAgrees(e1, sine, x, y);
      ReifiedEvalAgrees(e2, sine, x, y);
      SumStep(e1, e2, sine, x, y);
    case Product(e1, e2) =>
      ReifiedEvalAgrees(e1, sine, x, y);
      ReifiedEvalAgrees(e2, sine, x, y);
      ProductStep(e1, e2, sine, x, y);
    case Well(e1) =>
      ReifiedEvalAgrees(e1, sine, x, y);
      WellStep(e1, sine, x, y);
    case Sin(phase, freq, e1) =>
      ReifiedEvalAgrees(e1, sine, x, y);
      SinStep(phase, freq, e1, sine, x, y);
    case Level(t, l, e1, e2) =>
      ReifiedEvalAgrees(l, sine, x, y);
      ReifiedEvalAgrees(e1, sine, x, y);
      ReifiedEvalAgrees(e2, sine, x, y);
      LevelStep(t, l, e1, e2, sine, x, y);
    case Mix(w, e1, e2) =>
      ReifiedEvalAgrees(w, sine, x, y);
      ReifiedEvalAgrees(e1, sine, x, y);
      ReifiedEvalAgrees(e2, sine, x, y);
      MixStep(w, e1, e2, sine, x, y);
  }

  /** The induction steps, one per shared node kind: if the children
      agree, so does the node. The two sides of each node are unfolded by
      the helpers below, each on its own. */
  lemma SumStep(e1: Expr, e2: Expr, sine: real -> real, x: real, y: real)
    requires Native.Eval(Reify(e1), sine, x, y) == Eval(e1, sine, x, y)
    requires Native.Eval(Reify(e2), sine, x, y) == Eval(e2, sine, x, y)
    ensures Native.Eval(Reify(Sum(e1, e2)), sine, x, y) == Eval(Sum(e1, e2), sine, x, y)
  {
    var c1, c2 := Eval(e1, sine, x, y), Eval(e2, sine, x, y);
    NativeSum(e1, e2, sine, x, y);
    SharedOperatorsAgree(c1, c2, c2, 0.5, 0.0, 0.0, 0.0, sine);
    DirectSum(e1, e2, sine, x, y);
  }

  lemma ProductStep(e1: Expr, e2: Expr, sine: real -> real, x: real, y: real)
    requires Native.Eval(Reify(e1), sine, x, y) == Eval(e1, sine, x, y)
    requires Native.Eval(Reify(e2), sine, x, y) == Eval(e2, sine, x, y)
    ensures Native.Eval(Reify(Product(e1, e2)), sine, x, y) == Eval(Product(e1, e2), sine, x, y)
  {
    var c1, c2 := Eval(e1, sine, x, y), Eval(e2, sine, x, y);
    NativeProduct(e1, e2, sine, x, y);
    SharedOperatorsAgree(c1, c2, c2, 0.0, 0.0, 0.0, 0.0, sine);
    DirectProduct(e1, e2, sine, x, y);
  }

  lemma WellStep(e1: Expr, sine: real -> real, x: real, y: real)
    requires Native.Eval(Reify(e1), sine, x, y) == Eval(e1, sine, x, y)
    ensures Native.Eval(Reify(Well(e1)), sine, x, y) == Eval(Well(e1), sine, x, y)
  {
    var c1 := Eval(e1, sine, x, y);
    NativeWell(e1, sine, x, y);
    SharedOperatorsAgree(c1, c1, c1, 0.0, 0.0, 0.0, 0.0, sine);
    DirectWell(e1, sine, x, y);
  }

  lemma SinStep(phase: real, freq: real, e1: Expr, sine: real -> real, x: real, y: real)
    requires Native.Eval(Reify(e1), sine, x, y) == Eval(e1, sine, x, y)
    ensures Native.Eval(Reify(Sin(phase, freq, e1)), sine, x, y) == Eval(Sin(phase, freq, e1), sine, x, y)
  {
    var c1 := Eval(e1, sine, x, y);
    NativeSin(phase, freq, e1, sine, x, y);
    SharedOperatorsAgree(c1, c1, c1, 0.0, 0.0, phase, freq, sine);
    DirectSin(phase, freq, e1, sine, x, y);
  }

  lemma LevelStep(t: real, l: Expr, e1: Expr, e2: Expr, sine: real -> real, x: real, y: real)
    requires Native.Eval(Reify(l), sine, x, y) == Eval(l, sine, x, y)
    requires Native.Eval(Reify(e1), sine, x, y) == Eval(e1, sine, x, y)
    requires Native.Eval(Reify(e2), sine, x, y) == Eval(e2, sine, x, y)
    ensures Native.Eval(Reify(Level(t, l, e1, e2)), sine, x, y) == Eval(Level(t, l, e1, e2), sine, x, y)
  {
    var cl, c1, c2 := Eval(l, sine, x, y), Eval(e1, sine, x, y), Eval(e2, sine, x, y);
    NativeLevel(t, l, e1, e2, sine, x, y);
    SharedOperatorsAgree(cl, c1, c2, 0.0, t, 0.0, 0.0, sine);
    DirectLevel(t, l, e1, e2, sine, x, y);
  }

  lemma MixStep(w: Expr, e1: Expr, e2: Expr, sine: real -> real, x: real, y: real)
    requires Native.Eval(Reify(w), sine, x, y) == Eval(w, sine, x, y)
    requires Native.Eval(Reify(e1), sine, x, y) == Eval(e1, sine, x, y)
    requires Native.Eval(Reify(e2), sine, x, y) == Eval(e2, sine, x, y)
    ensures Native.Eval(Reify(Mix(w, e1, e2)), sine, x, y) == Eval(Mix(w, e1, e2), sine, x, y)
  {
    var cw, c1, c2 := Eval(w, sine, x, y), Eval(e1, sine, x, y), Eval(e2, sine, x, y);
    NativeMix(w, e1, e2, sine, x, y);
    MixAgrees(cw.r, c1, c2);
    DirectMix(w, e1, e2, sine, x, y);
  }

  // The native side of each shared node, in terms of its reified children.

  lemma NativeSum(e1: Expr, e2: Expr, sine: real -> real, x: real, y: real)
    ensures Native.Eval(Reify(Sum(e1, e2)), sine, x, y) ==
      Native.QcolorAverage(Native.Eval(Reify(e1), sine, x, y), Native.Eval(Reify(e2), sine, x, y), 0.5)
  {
    var info := Reify(Sum(e1, e2));
    assert info == Native.Info(Native.ApplySum, [Reify(e1), Reify(e2)], []);
    assert info.subslots[0] == Reify(e1) && info.subslots[1] == Reify(e2);
  }

  lemma NativeProduct(e1: Expr, e2: Expr, sine: real -> real, x: real, y: real)
    ensures Native.Eval(Reify(Product(e1, e2)), sine, x, y) ==
      Native.QcolorProduct(Native.Eval(Reify(e1), sine, x, y), Native.Eval(Reify(e2), sine, x, y))
  {
    var info := Reify(Product(e1, e2));
    assert info == Native.Info(Native.ApplyProduct, [Reify(e1), Reify(e2)], []);
    assert info.subslots[0] == Reify(e1) && info.subslots[1] == Reify(e2);
  }

  lemma NativeWell(e1: Expr, sine: real -> real, x: real, y: real)
    ensures Native.Eval(Reify(Well(e1)), sine, x, y) ==
      Native.QcolorWell(Native.Eval(Reify(e1), sine, x, y))
  {
    var info := Reify(Well(e1));
    assert info == Native.Info(Native.ApplyWell, [Reify(e1)], []);
    assert info.subslots[0] == Reify(e1);
  }

  lemma NativeSin(phase: real, freq: real, e1: Expr, sine: real -> real, x: real, y: real)
    ensures Native.Eval(Reify(Sin(phase, freq, e1)), sine, x, y) ==
      Native.QcolorSin(Native.Eval(Reify(e1), sine, x, y), phase, freq, sine)
  {
    var info := Reify(Sin(phase, freq, e1));
    assert info == Native.Info(Native.ApplySin, [Reify(e1)], [phase, freq]);
    assert info.subslots[0] == Reify(e1);
    assert info.data[0] == phase && info.data[1] == freq;
  }

  lemma NativeLevel(t: real, l: Expr, e1: Expr, e2: Expr, sine: real -> real, x: real, y: real)
    ensures Native.Eval(Reify(Level(t, l, e1, e2)), sine, x, y) ==
      Native.QcolorLevel(t, Native.Eval(Reify(l), sine, x, y), Native.Eval(Reify(e1), sine, x, y),
                         Native.Eval(Reify(e2), sine, x, y))
  {
    var info := Reify(Level(t, l, e1, e2));
    assert info == Native.Info(Native.ApplyLevel, [Reify(l), Reify(e1), Reify(e2)], [t]);
    assert info.subslots[0] == Reify(l) && info.subslots[1] == Reify(e1) && info.subslots[2] == Reify(e2);
    assert info.data[0] == t;
  }

  lemma NativeMix(w: Expr, e1: Expr, e2: Expr, sine: real -> real, x: real, y: real)
    ensures Native.Eval(Reify(Mix(w, e1, e2)), sine, x, y) ==
      Native.MixByWeight(Native.Eval(Reify(w), sine, x, y).r, Native.Eval(Reify(e1), sine, x, y),
                         Native.Eval(Reify(e2), sine, x, y))
  {
    var info := Reify(Mix(w, e1, e2));
    assert info == Native.Info(Native.ApplyMix, [Reify(w), Reify(e1), Reify(e2)], []);
    assert info.subslots[0] == Reify(w) && info.subslots[1] == Reify(e1) && info.subslots[2] == Reify(e2);
  }

  // The direct side of each shared node, in terms of its children.

  lemma DirectSum(e1: Expr, e2: Expr, sine: real -> real, x: real, y: real)
    ensures Eval(Sum(e1, e2), sine, x, y) ==
      AverageImpl(Eval(e1, sine, x, y), Eval(e2, sine, x, y), 0.5)
  {
  }

  lemma DirectProduct(e1: Expr, e2: Expr, sine: real -> real, x: real, y: real)
    ensures Eval(Product(e1, e2), sine, x, y) ==
      ProdImpl(Eval(e1, sine, x, y), Eval(e2, sine, x, y))
  {
  }

  lemma DirectWell(e1: Expr, sine: real -> real, x: real, y: real)
    ensures Eval(Well(e1), sine, x, y) ==
      WellImpl(Eval(e1, sine, x, y))
  {
  }

  lemma DirectSin(phase: real, freq: real, e1: Expr, sine: real -> real, x: real, y: real)
    ensures Eval(Sin(phase, freq, e1), sine, x, y) ==
      SinImpl(Eval(e1, sine, x, y), phase, freq, sine)
  {
  }

  lemma DirectLevel(t: real, l: Expr, e1: Expr, e2: Expr, sine: real -> real, x: real, y: real)
    ensures Eval(Level(t, l, e1, e2), sine, x, y) ==
      LevelImpl(t, Eval(l, sine, x, y), Eval(e1, sine, x, y), Eval(e2, sine, x, y))
  {
  }

  lemma DirectMix(w: Expr, e1: Expr, e2: Expr, sine: real -> real, x: real, y: real)
    ensures Eval(Mix(w, e1, e2), sine, x, y) ==
      MixImpl(Eval(w, sine, x, y).r, Eval(e1, sine, x, y), Eval(e2, sine, x, y))
  {
  }

  // ---------------------------------------------------------------------
  // Where the two sides part

  /** The native tent agrees with `_tent` exactly on integers: `abs` on an
      `int` first drops the fraction, so any fractional argument is
      treated as a smaller one. */
  lemma TentAgreesIffIntegral(x: real)
    ensures Native.CTent(x) == PyTent(x) <==> IsIntegral(x)
  {
    TruncShrinks(x);
    assert Abs(Trunc(x) as real) == IntAbs(Trunc(x)) as real;
  }

  /** So a `Tent` node agrees exactly when its argument's channels are
      all integers. */
  lemma TentNodeAgreesIffIntegral(e1: Expr, sine: real -> real, x: real, y: real)
    requires SharedFormulas(e1)
    ensures var c := Eval(e1, sine, x, y);
      Native.Eval(Reify(Tent(e1)), sine, x, y) == Eval(Tent(e1), sine, x, y) <==>
      IsIntegral(c.r) && IsIntegral(c.g) && IsIntegral(c.b)
  {
    var c := Eval(e1, sine, x, y);
    ReifiedEvalAgrees(e1, sine, x, y);
    TentAgreesIffIntegral(c.r);
    TentAgreesIffIntegral(c.g);
    TentAgreesIffIntegral(c.b);
  }

  /** `Tent(Constant(0.5, 0.5, 0.5))`: directly 0, natively 1. */
  lemma TentDiverges(sine: real -> real, x: real, y: real)
    ensures Eval(Tent(Constant(QColor(0.5, 0.5, 0.5))), sine, x, y) == Zero
    ensures Native.Eval(Reify(Tent(Constant(QColor(0.5, 0.5, 0.5)))), sine, x, y) == QColor(1.0, 1.0, 1.0)
  {
    assert Trunc(0.5) == 0;
  }

  /** A `Mod` node is zero when evaluated directly, whatever its children;
      natively it is the `fmod` of its first child by its second, or zero
      when a divisor channel is below `zeroish`. */
  lemma ModNodeSides(e1: Expr, e2: Expr, sine: real -> real, x: real, y: real)
    requires SharedFormulas(e1) && SharedFormulas(e2)
    ensures Eval(Mod(e1, e2), sine, x, y) == Zero
    ensures Native.Eval(Reify(Mod(e1, e2)), sine, x, y) ==
      Native.QcolorMod(Eval(e1, sine, x, y), Eval(e2, sine, x, y))
  {
    ModEvalIsZero(e1, e2, sine, x, y);
    ReifiedEvalAgrees(e1, sine, x, y);
    ReifiedEvalAgrees(e2, sine, x, y);
  }

  /** `Mod(Constant(0.5, ...), Constant(0.3, ...))`: directly 0, natively 0.2. */
  lemma ModDiverges(sine: real -> real, x: real, y: real)
    ensures var e := Mod(Constant(QColor(0.5, 0.5, 0.5)), Constant(QColor(0.3, 0.3, 0.3)));
      Eval(e, sine, x, y) == Zero &&
      Native.Eval(Reify(e), sine, x, y) == QColor(0.2, 0.2, 0.2)
  {
    var e := Mod(Constant(QColor(0.5, 0.5, 0.5)), Constant(QColor(0.3, 0.3, 0.3)));
    ModNodeSides(Constant(QColor(0.5, 0.5, 0.5)), Constant(QColor(0.3, 0.3, 0.3)), sine, x, y);
    assert Trunc(0.5 / 0.3) == 1;
  }
}
