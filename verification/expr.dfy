/** The expression trees of `randomart/__init__.py`.

    Each node class (`VariableX`, ..., `Mix`) becomes one constructor of
    `Expr`; the class attribute `arity` becomes `Arity(OpOf(e))`, and the
    classes themselves, as the values `generate` picks from, become the
    enumeration `Op`. The per-node random parameters (`Sin`'s phase and
    frequency, `Level`'s threshold, `Constant`'s colour) are fields, fixed
    when the node is built.

    `Eval` is the tree-walking `eval` methods, calling the `_py_*`
    operators; `Reify` is the `reify` methods, producing the native tree of
    the `Native` module, and `Unreify` reads such a tree back. */
module RandomArt {
  import opened Wrappers
  import opened Numeric
  import opened Colors
  import opened Transforms
  import Native

  datatype Expr =
    | VariableX
    | VariableY
    | Constant(c: QColor)
    | Sum(e1: Expr, e2: Expr)
    | Product(e1: Expr, e2: Expr)
    | Mod(e1: Expr, e2: Expr)
    | Well(e: Expr)
    | Tent(e: Expr)
    | Sin(phase: real, freq: real, e: Expr)
    | Level(threshold: real, level: Expr, e1: Expr, e2: Expr)
    | Mix(w: Expr, e1: Expr, e2: Expr)

  /** The node classes, as values. */
  datatype Op =
    | OpVariableX | OpVariableY | OpConstant
    | OpSum | OpProduct | OpMod
    | OpWell | OpTent | OpSin
    | OpLevel | OpMix

  /** The `arity` class attribute. */
  function Arity(op: Op): (n: nat)
    ensures n <= 3
  {
    match op
    case OpVariableX => 0
    case OpVariableY => 0
    case OpConstant => 0
    case OpSum => 2
    case OpProduct => 2
    case OpMod => 2
    case OpWell => 1
    case OpTent => 1
    case OpSin => 1
    case OpLevel => 3
    case OpMix => 3
  }

  function OpOf(e: Expr): Op {
    match e
    case VariableX => OpVariableX
    case VariableY => OpVariableY
    case Constant(_) => OpConstant
    case Sum(_, _) => OpSum
    case Product(_, _) => OpProduct
    case Mod(_, _) => OpMod
    case Well(_) => OpWell
    case Tent(_) => OpTent
    case Sin(_, _, _) => OpSin
    case Level(_, _, _, _) => OpLevel
    case Mix(_, _, _) => OpMix
  }

  /** The subexpressions in constructor-argument order. Every node holds
      exactly as many as its class's arity. */
  function Children(e: Expr): (kids: seq<Expr>)
    ensures |kids| == Arity(OpOf(e))
    ensures forall i :: 0 <= i < |kids| ==> kids[i] < e
  {
    match e
    case VariableX => []
    case VariableY => []
    case Constant(_) => []
    case Sum(e1, e2) => [e1, e2]
    case Product(e1, e2) => [e1, e2]
    case Mod(e1, e2) => [e1, e2]
    case Well(e1) => [e1]
    case Tent(e1) => [e1]
    case Sin(_, _, e1) => [e1]
    case Level(_, l, e1, e2) => [l, e1, e2]
    case Mix(w, e1, e2) => [w, e1, e2]
  }

  /** The values a node's constructor draws for itself. */
  datatype Params = Params(constant: QColor, phase: real, freq: real, threshold: real)

  /** `op(*args)`: call a node class's constructor with `Arity(op)`
      children. Only the parameters the class draws are used. */
  function Build(op: Op, kids: seq<Expr>, p: Params): (e: Expr)
    requires |kids| == Arity(op)
    ensures OpOf(e) == op && Children(e) == kids
  {
    match op
    case OpVariableX => VariableX
    case OpVariableY => VariableY
    case OpConstant => Constant(p.constant)
    case OpSum => Sum(kids[0], kids[1])
    case OpProduct => Product(kids[0], kids[1])
    case OpMod => Mod(kids[0], kids[1])
    case OpWell => Well(kids[0])
    case OpTent => Tent(kids[0])
    case OpSin => Sin(p.phase, p.freq, kids[0])
    case OpLevel => Level(p.threshold, kids[0], kids[1], kids[2])
    case OpMix => Mix(kids[0], kids[1], kids[2])
  }

  /** A built node carries exactly the parameters its class draws. */
  lemma BuildUsesParams(op: Op, kids: seq<Expr>, p: Params)
    requires |kids| == Arity(op)
    ensures Build(op, kids, p).Constant? <==> op == OpConstant
    ensures Build(op, kids, p).Sin? <==> op == OpSin
    ensures Build(op, kids, p).Level? <==> op == OpLevel
    ensures op == OpConstant ==> Build(op, kids, p).c == p.constant
    ensures op == OpSin ==> Build(op, kids, p).phase == p.phase && Build(op, kids, p).freq == p.freq
    ensures op == OpLevel ==> Build(op, kids, p).threshold == p.threshold
  {
  }

  /** The parameters a node carries, in the shape `Build` takes them. */
  function ParamsOf(e: Expr): Params {
    match e
    case Constant(c) => Params(c, 0.0, 0.0, 0.0)
    case Sin(phase, freq, _) => Params(Zero, phase, freq, 0.0)
    case Level(t, _, _, _) => Params(Zero, 0.0, 0.0, t)
    case _ => Params(Zero, 0.0, 0.0, 0.0)
  }

  /** Taking a node apart and calling its class's constructor again gives
      the node back. */
  lemma BuildInvertsChildren(e: Expr)
    ensures Build(OpOf(e), Children(e), ParamsOf(e)) == e
  {
  }

  // ---------------------------------------------------------------------
  // `operators`, `operators0`, `operators1`

  const Operators: seq<Op> :=
    [OpVariableX, OpVariableY, OpConstant, OpSum,
     OpProduct, OpSin, OpLevel, OpMix, OpMod,
     OpWell, OpTent]

  /** The list comprehension `[op for op in ops if op.arity == 0]` when
      `leaves` holds, and `[op for op in ops if op.arity > 0]` otherwise. */
  function ByArity(ops: seq<Op>, leaves: bool): (r: seq<Op>)
    ensures |r| <= |ops|
  {
    if |ops| == 0 then []
    else (if (Arity(ops[0]) == 0) == leaves then [ops[0]] else []) + ByArity(ops[1..], leaves)
  }

  /** The comprehension keeps exactly the operators of the requested arity. */
  lemma {:induction false} ByArityMembers(ops: seq<Op>, leaves: bool)
    ensures forall op :: op in ByArity(ops, leaves) <==> op in ops && (Arity(op) == 0 <==> leaves)
  {
    if |ops| > 0 {
      ByArityMembers(ops[1..], leaves);
      assert ops == [ops[0]] + ops[1..];
    }
  }

  /** `operators0`: the three leaves, in the order of `operators`. */
  const Operators0: seq<Op> := [OpVariableX, OpVariableY, OpConstant]

  /** `operators1`: the other eight, in the order of `operators`. */
  const Operators1: seq<Op> := [OpSum, OpProduct, OpSin, OpLevel, OpMix, OpMod, OpWell, OpTent]

  /** The leaf classes are exactly the classes of arity 0, and the other
      list holds exactly the rest. */
  lemma ArityZeroExactlyForLeaves(op: Op)
    ensures Arity(op) == 0 <==> op in Operators0
    ensures 0 < Arity(op) <==> op in Operators1
  {
  }

  /** The comprehension over a concatenation is the concatenation of the
      comprehensions. */
  lemma {:induction false} ByArityAppend(a: seq<Op>, b: seq<Op>, leaves: bool)
    ensures ByArity(a + b, leaves) == ByArity(a, leaves) + ByArity(b, leaves)
  {
    if |a| == 0 {
      assert a + b == b;
    } else {
      ByArityAppend(a[1..], b, leaves);
      assert (a + b)[0] == a[0];
      assert (a + b)[1..] == a[1..] + b;
      var head := if (Arity(a[0]) == 0) == leaves then [a[0]] else [];
      assert ByArity(a + b, leaves) == head + (ByArity(a[1..], leaves) + ByArity(b, leaves));
      assert ByArity(a, leaves) == head + ByArity(a[1..], leaves);
      AppendAssociative(head, ByArity(a[1..], leaves), ByArity(b, leaves));
    }
  }

  lemma AppendAssociative(a: seq<Op>, b: seq<Op>, c: seq<Op>)
    ensures a + (b + c) == (a + b) + c
  {
  }

  /** The comprehension keeps a list whose operators all have the requested
      arity, and empties one where none has. */
  lemma {:induction false} ByArityUniform(ops: seq<Op>, leaves: bool)
    ensures (forall op :: op in ops ==> (Arity(op) == 0) == leaves) ==> ByArity(ops, leaves) == ops
    ensures (forall op :: op in ops ==> (Arity(op) == 0) != leaves) ==> ByArity(ops, leaves) == []
  {
    if |ops| > 0 {
      ByArityUniform(ops[1..], leaves);
      assert forall op :: op in ops[1..] ==> op in ops;
      assert ops == [ops[0]] + ops[1..];
    }
  }

  /** The two comprehensions over `operators` give exactly these lists. */
  lemma OperatorsPartition()
    ensures ByArity(Operators, true) == Operators0
    ensures ByArity(Operators, false) == Operators1
  {
    assert Operators == Operators0 + Operators1;
    SplitByArity(Operators0, Operators1);
  }

  /** Leaves followed by inner operators split back into the two parts. */
  lemma SplitByArity(leaves: seq<Op>, inner: seq<Op>)
    requires forall op :: op in leaves ==> Arity(op) == 0
    requires forall op :: op in inner ==> Arity(op) > 0
    ensures ByArity(leaves + inner, true) == leaves
    ensures ByArity(leaves + inner, false) == inner
  {
    ByArityAppend(leaves, inner, true);
    ByArityAppend(leaves, inner, false);
    ByArityUniform(leaves, true);
    ByArityUniform(leaves, false);
    ByArityUniform(inner, true);
    ByArityUniform(inner, false);
  }

  // ---------------------------------------------------------------------
  // Direct evaluation

  /** `Mod.eval` once `e1` is evaluated: `_py_mod_impl(c1, c1)`, or the
      zero default of `out` when a channel of `c1` is zero. */
  function ModOfSelf(c: QColor): QColor {
    if !HasZeroChannel(c) then ModImpl(c, c).value else Zero
  }

  /** The `eval` methods. `VariableX.eval` evaluates a fresh native
      `ra_variable_x`; `VariableY.eval` builds `qcolor(y, y, y)` itself.
      `Mod.eval` evaluates `e1` both as dividend and as divisor and never
      evaluates `e2`; a zero divisor channel leaves `out` at its zero
      default instead of raising. */
  function Eval(e: Expr, sine: real -> real, x: real, y: real): (c: QColor)
    ensures e.VariableX? ==> c == QColor(x, x, x)
    ensures e.Well? ==> ChannelsInWellRange(c)
    ensures e.Tent? ==> ChannelsAtMostOne(c)
    decreases e
  {
    match e
    case VariableX => Native.Eval(Native.RaVariableX(), sine, x, y)
    case VariableY => QColor(y, y, y)
    case Constant(c) => c
    case Sum(e1, e2) => AverageImpl(Eval(e1, sine, x, y), Eval(e2, sine, x, y), 0.5)
    case Product(e1, e2) => ProdImpl(Eval(e1, sine, x, y), Eval(e2, sine, x, y))
    case Mod(e1, _) => ModOfSelf(Eval(e1, sine, x, y))
    case Well(e1) => WellImpl(Eval(e1, sine, x, y))
    case Tent(e1) => TentImpl(Eval(e1, sine, x, y))
    case Sin(phase, freq, e1) => SinImpl(Eval(e1, sine, x, y), phase, freq, sine)
    case Level(t, l, e1, e2) =>
      LevelImpl(t, Eval(l, sine, x, y), Eval(e1, sine, x, y), Eval(e2, sine, x, y))
    case Mix(w, e1, e2) => MixImpl(Eval(w, sine, x, y).r, Eval(e1, sine, x, y), Eval(e2, sine, x, y))
  }

  /** A `Sin` node lands in the unit cube whenever `sin` is bounded by 1. */
  lemma SinNodeInUnitRange(phase: real, freq: real, e1: Expr, sine: real -> real, x: real, y: real)
    requires forall v :: InUnitRange(sine(v))
    ensures ChannelsInUnitRange(Eval(Sin(phase, freq, e1), sine, x, y))
  {
  }

  /** Whatever its subtrees, `Mod.eval` yields the zero colour: when no
      channel of `e1` is zero it computes `e1 % e1`, which is zero channel
      by channel. In particular its result does not depend on `e2`. */
  lemma ModEvalIsZero(e1: Expr, e2: Expr, sine: real -> real, x: real, y: real)
    ensures Eval(Mod(e1, e2), sine, x, y) == Zero
  {
    var c := Eval(e1, sine, x, y);
    if !HasZeroChannel(c) {
      PyFloatModSelf(c.r);
      PyFloatModSelf(c.g);
      PyFloatModSelf(c.b);
    }
  }

  /** `Mix` uses only the red channel of its weight subtree, mapped from
      [-1, 1] onto a weight in [0, 1]. */
  lemma MixWeightFromRed(w: Expr, w': Expr, e1: Expr, e2: Expr, sine: real -> real, x: real, y: real)
    ensures InUnitRange(Eval(w, sine, x, y).r) ==> 0.0 <= 0.5 * (Eval(w, sine, x, y).r + 1.0) <= 1.0
    ensures Eval(w, sine, x, y).r == Eval(w', sine, x, y).r ==>
      Eval(Mix(w, e1, e2), sine, x, y) == Eval(Mix(w', e1, e2), sine, x, y)
  {
  }

  /** The leaves: the variables copy their coordinate onto every channel
      and a constant ignores where it is evaluated. */
  lemma LeafEval(c: QColor, sine: real -> real, x: real, y: real, x': real, y': real)
    ensures Eval(VariableX, sine, x, y) == QColor(x, x, x)
    ensures Eval(VariableY, sine, x, y) == QColor(y, y, y)
    ensures Eval(Constant(c), sine, x, y) == Eval(Constant(c), sine, x', y') == c
  {
  }

  /** Every `Constant` in the tree has its three channels in [lo, hi]. */
  predicate ConstantsWithin(e: Expr, lo: real, hi: real) {
    match e
    case VariableX => true
    case VariableY => true
    case Constant(c) => lo <= c.r <= hi && lo <= c.g <= hi && lo <= c.b <= hi
    case Sum(e1, e2) => ConstantsWithin(e1, lo, hi) && ConstantsWithin(e2, lo, hi)
    case Product(e1, e2) => ConstantsWithin(e1, lo, hi) && ConstantsWithin(e2, lo, hi)
    case Mod(e1, e2) => ConstantsWithin(e1, lo, hi) && ConstantsWithin(e2, lo, hi)
    case Well(e1) => ConstantsWithin(e1, lo, hi)
    case Tent(e1) => ConstantsWithin(e1, lo, hi)
    case Sin(_, _, e1) => ConstantsWithin(e1, lo, hi)
    case Level(_, l, e1, e2) => ConstantsWithin(l, lo, hi) && ConstantsWithin(e1, lo, hi) && ConstantsWithin(e2, lo, hi)
    case Mix(w, e1, e2) => ConstantsWithin(w, lo, hi) && ConstantsWithin(e1, lo, hi) && ConstantsWithin(e2, lo, hi)
  }

  predicate AllConstantsWithin(kids: seq<Expr>, lo: real, hi: real) {
    |kids| == 0 || (ConstantsWithin(kids[0], lo, hi) && AllConstantsWithin(kids[1..], lo, hi))
  }

  lemma AllConstantsCons(first: Expr, rest: seq<Expr>, lo: real, hi: real)
    ensures AllConstantsWithin([first] + rest, lo, hi) <==>
      ConstantsWithin(first, lo, hi) && AllConstantsWithin(rest, lo, hi)
  {
    assert ([first] + rest)[1..] == rest;
  }

  /** A non-constant node has its constants in range exactly when all its
      children have. */
  lemma ConstantsByChildren(e: Expr, lo: real, hi: real)
    ensures !e.Constant? ==> (ConstantsWithin(e, lo, hi) <==> AllConstantsWithin(Children(e), lo, hi))
  {
    match e
    case VariableX =>
    case VariableY =>
    case Constant(_) =>
    case Sum(e1, e2) => AllConstantsOfPair(e1, e2, lo, hi);
    case Product(e1, e2) => AllConstantsOfPair(e1, e2, lo, hi);
    case Mod(e1, e2) => AllConstantsOfPair(e1, e2, lo, hi);
    case Well(e1) => assert [e1][1..] == [];
    case Tent(e1) => assert [e1][1..] == [];
    case Sin(_, _, e1) => assert [e1][1..] == [];
    case Level(_, l, e1, e2) => assert [l, e1, e2][1..] == [e1, e2]; AllConstantsOfPair(e1, e2, lo, hi);
    case Mix(w, e1, e2) => assert [w, e1, e2][1..] == [e1, e2]; AllConstantsOfPair(e1, e2, lo, hi);
  }

  lemma AllConstantsOfPair(e1: Expr, e2: Expr, lo: real, hi: real)
    ensures AllConstantsWithin([e1, e2], lo, hi) <==> ConstantsWithin(e1, lo, hi) && ConstantsWithin(e2, lo, hi)
  {
    assert [e1, e2][1..] == [e2];
    assert [e2][1..] == [];
    assert AllConstantsWithin([e2], lo, hi) <==> ConstantsWithin(e2, lo, hi);
  }

  /** Widening the interval keeps every constant inside it. */
  lemma {:induction false} ConstantsWiden(e: Expr, lo: real, hi: real, lo': real, hi': real)
    requires lo' <= lo && hi <= hi'
    requires ConstantsWithin(e, lo, hi)
    ensures ConstantsWithin(e, lo', hi')
    decreases e
  {
    match e
    case VariableX =>
    case VariableY =>
    case Constant(_) =>
    case Sum(e1, e2) => ConstantsWiden(e1, lo, hi, lo', hi'); ConstantsWiden(e2, lo, hi, lo', hi');
    case Product(e1, e2) => ConstantsWiden(e1, lo, hi, lo', hi'); ConstantsWiden(e2, lo, hi, lo', hi');
    case Mod(e1, e2) => ConstantsWiden(e1, lo, hi, lo', hi'); ConstantsWiden(e2, lo, hi, lo', hi');
    case Well(e1) => ConstantsWiden(e1, lo, hi, lo', hi');
    case Tent(e1) => ConstantsWiden(e1, lo, hi, lo', hi');
    case Sin(_, _, e1) => ConstantsWiden(e1, lo, hi, lo', hi');
    case Level(_, l, e1, e2) =>
      ConstantsWiden(l, lo, hi, lo', hi'); ConstantsWiden(e1, lo, hi, lo', hi'); ConstantsWiden(e2, lo, hi, lo', hi');
    case Mix(w, e1, e2) =>
      ConstantsWiden(w, lo, hi, lo', hi'); ConstantsWiden(e1, lo, hi, lo', hi'); ConstantsWiden(e2, lo, hi, lo', hi');
  }

  /** Colours stay in [-1, 1]: if the coordinates, the constants and the
      sine are in the unit range, so is every node's value. */
  lemma {:induction false} EvalInUnitRange(e: Expr, sine: real -> real, x: real, y: real)
    requires InUnitRange(x) && InUnitRange(y)
    requires forall v :: InUnitRange(sine(v))
    requires ConstantsWithin(e, -1.0, 1.0)
    ensures ChannelsInUnitRange(Eval(e, sine, x, y))
    decreases e
  {
    match e
    case VariableX =>
    case VariableY =>
    case Constant(_) =>
    case Sum(e1, e2) =>
      EvalInUnitRange(e1, sine, x, y);
      EvalInUnitRange(e2, sine, x, y);
      AverageInRange(Eval(e1, sine, x, y), Eval(e2, sine, x, y), 0.5);
    case Product(e1, e2) =>
      EvalInUnitRange(e1, sine, x, y);
      EvalInUnitRange(e2, sine, x, y);
      ProductInRange(Eval(e1, sine, x, y), Eval(e2, sine, x, y));
    case Mod(e1, e2) =>
      ModEvalIsZero(e1, e2, sine, x, y);
    case Well(e1) =>
      EvalInUnitRange(e1, sine, x, y);
      OperatorsPreserveUnitRange(Eval(e1, sine, x, y), 0.0, 0.0, sine);
    case Tent(e1) =>
      EvalInUnitRange(e1, sine, x, y);
      OperatorsPreserveUnitRange(Eval(e1, sine, x, y), 0.0, 0.0, sine);
    case Sin(phase, freq, e1) =>
      EvalInUnitRange(e1, sine, x, y);
      OperatorsPreserveUnitRange(Eval(e1, sine, x, y), phase, freq, sine);
    case Level(t, l, e1, e2) =>
      EvalInUnitRange(e1, sine, x, y);
      EvalInUnitRange(e2, sine, x, y);
    case Mix(w, e1, e2) =>
      EvalInUnitRange(w, sine, x, y);
      EvalInUnitRange(e1, sine, x, y);
      EvalInUnitRange(e2, sine, x, y);
      AverageInRange(Eval(e1, sine, x, y), Eval(e2, sine, x, y), 0.5 * (Eval(w, sine, x, y).r + 1.0));
  }

  // ---------------------------------------------------------------------
  // Reification

  /** The `reify` methods: each node becomes the same-kind native node,
      children reified in order, parameters forwarded unchanged. */
  function Reify(e: Expr): (info: Native.Info)
    ensures Native.Wired(info)
    decreases e
  {
    match e
    case VariableX => Native.RaVariableX()
    case VariableY => Native.RaVariableY()
    case Constant(c) => Native.RaConstant(c.r, c.g, c.b)
    case Sum(e1, e2) => Native.RaSum(Reify(e1), Reify(e2))
    case Product(e1, e2) => Native.RaProduct(Reify(e1), Reify(e2))
    case Mod(e1, e2) => Native.RaMod(Reify(e1), Reify(e2))
    case Well(e1) => Native.RaWell(Reify(e1))
    case Tent(e1) => Native.RaTent(Reify(e1))
    case Sin(phase, freq, e1) => Native.RaSin(phase, freq, Reify(e1))
    case Level(t, l, e1, e2) => Native.RaLevel(t, Reify(l), Reify(e1), Reify(e2))
    case Mix(w, e1, e2) => Native.RaMix(Reify(w), Reify(e1), Reify(e2))
  }

  /** The native apply function of each node class. */
  function ApplyOf(op: Op): Native.Apply {
    match op
    case OpVariableX => Native.ApplyVariableX
    case OpVariableY => Native.ApplyVariableY
    case OpConstant => Native.ApplyConstant
    case OpSum => Native.ApplySum
    case OpProduct => Native.ApplyProduct
    case OpMod => Native.ApplyMod
    case OpWell => Native.ApplyWell
    case OpTent => Native.ApplyTent
    case OpSin => Native.ApplySin
    case OpLevel => Native.ApplyLevel
    case OpMix => Native.ApplyMix
  }

  /** `reify` keeps the node class: the native node's apply function is
      the class's, and it fills as many slots as the class has children. */
  lemma ReifyKeepsKind(e: Expr)
    ensures Reify(e).apply == ApplyOf(OpOf(e))
    ensures Native.SlotCount(Reify(e).apply) == Arity(OpOf(e))
  {
  }

  /** Slot `i` of the native node holds the reification of child `i`
      (no class has more than three children). */
  lemma ReifyKeepsChildren(e: Expr)
    ensures |Reify(e).subslots| == |Children(e)| <= 3
    ensures |Children(e)| > 0 ==> Reify(e).subslots[0] == Reify(Children(e)[0])
    ensures |Children(e)| > 1 ==> Reify(e).subslots[1] == Reify(Children(e)[1])
    ensures |Children(e)| > 2 ==> Reify(e).subslots[2] == Reify(Children(e)[2])
  {
  }

  /** The native node's data are the node's own parameters in constructor
      order, and empty for the classes that draw none. */
  lemma ReifyKeepsData(e: Expr)
    ensures e.Constant? ==> Reify(e).data == [e.c.r, e.c.g, e.c.b]
    ensures e.Sin? ==> Reify(e).data == [e.phase, e.freq]
    ensures e.Level? ==> Reify(e).data == [e.threshold]
    ensures !e.Constant? && !e.Sin? && !e.Level? ==> Reify(e).data == []
  {
  }

  /** Reads a native tree back as an expression: slot `i` is child `i`,
      and the data are the parameters. */
  function Unreify(info: Native.Info): Expr
    requires Native.Wired(info)
    decreases info
  {
    var s := info.subslots;
    var d := info.data;
    match info.apply
    case ApplyVariableX => VariableX
    case ApplyVariableY => VariableY
    case ApplyConstant => Constant(QColor(d[0], d[1], d[2]))
    case ApplySum => Sum(Unreify(s[0]), Unreify(s[1]))
    case ApplyProduct => Product(Unreify(s[0]), Unreify(s[1]))
    case ApplyMod => Mod(Unreify(s[0]), Unreify(s[1]))
    case ApplyWell => Well(Unreify(s[0]))
    case ApplyTent => Tent(Unreify(s[0]))
    case ApplySin => Sin(d[0], d[1], Unreify(s[0]))
    case ApplyLevel => Level(d[0], Unreify(s[0]), Unreify(s[1]), Unreify(s[2]))
    case ApplyMix => Mix(Unreify(s[0]), Unreify(s[1]), Unreify(s[2]))
  }

  /** Reification loses nothing: the node kinds, the order of the children
      and every parameter survive, so the expression can be read back. */
  lemma {:induction false} ReifyRoundTrip(e: Expr)
    ensures Unreify(Reify(e)) == e
    decreases e
  {
    match e
    case VariableX =>
    case VariableY =>
    case Constant(_) =>
    case Sum(e1, e2) =>
      ReifyRoundTrip(e1); ReifyRoundTrip(e2);
      ReifySum(e1, e2);
      UnreifySum(Reify(e1), Reify(e2));
    case Product(e1, e2) =>
      ReifyRoundTrip(e1); ReifyRoundTrip(e2);
      ReifyProduct(e1, e2);
      UnreifyProduct(Reify(e1), Reify(e2));
    case Mod(e1, e2) =>
      ReifyRoundTrip(e1); ReifyRoundTrip(e2);
      ReifyMod(e1, e2);
      UnreifyMod(Reify(e1), Reify(e2));
    case Well(e1) =>
      ReifyRoundTrip(e1);
      ReifyWell(e1);
      UnreifyWell(Reify(e1));
    case Tent(e1) =>
      ReifyRoundTrip(e1);
      ReifyTent(e1);
      UnreifyTent(Reify(e1));
    case Sin(phase, freq, e1) =>
      ReifyRoundTrip(e1);
      ReifySin(phase, freq, e1);
      UnreifySin(phase, freq, Reify(e1));
    case Level(t, l, e1, e2) =>
      ReifyRoundTrip(l); ReifyRoundTrip(e1); ReifyRoundTrip(e2);
      ReifyLevel(t, l, e1, e2);
      UnreifyLevel(t, Reify(l), Reify(e1), Reify(e2));
    case Mix(w, e1, e2) =>
      ReifyRoundTrip(w); ReifyRoundTrip(e1); ReifyRoundTrip(e2);
      ReifyMix(w, e1, e2);
      UnreifyMix(Reify(w), Reify(e1), Reify(e2));
  }

  /** And every fully wired native tree is the reification of some
      expression, namely the one read back from it. The inner nodes are
      handled by the three lemmas after it, one per slot count. */
  lemma {:induction false} UnreifyRoundTrip(info: Native.Info)
    requires Native.Wired(info)
    ensures Reify(Unreify(info)) == info
    decreases info, 1
  {
    match info.apply
    case ApplyVariableX =>
    case ApplyVariableY =>
    case ApplyConstant =>
    case ApplySum => UnreifyRoundTrip2(info);
    case ApplyProduct => UnreifyRoundTrip2(info);
    case ApplyMod => UnreifyRoundTrip2(info);
    case ApplyWell => UnreifyRoundTrip1(info);
    case ApplyTent => UnreifyRoundTrip1(info);
    case ApplySin => UnreifyRoundTrip1(info);
    case ApplyLevel => UnreifyRoundTrip3(info);
    case ApplyMix => UnreifyRoundTrip3(info);
  }

  lemma {:induction false} UnreifyRoundTrip1(info: Native.Info)
    requires Native.Wired(info)
    requires info.apply == Native.ApplyWell || info.apply == Native.ApplyTent || info.apply == Native.ApplySin
    ensures Reify(Unreify(info)) == info
    decreases info, 0
  {
    var s := info.subslots;
    var d := info.data;
    UnreifyRoundTrip(s[0]);
    match info.apply
    case ApplyWell =>
      assert info == Native.RaWell(s[0]);
      UnreifyWell(s[0]);
      ReifyWell(Unreify(s[0]));
    case ApplyTent =>
      assert info == Native.RaTent(s[0]);
      UnreifyTent(s[0]);
      ReifyTent(Unreify(s[0]));
    case ApplySin =>
      assert info == Native.RaSin(d[0], d[1], s[0]);
      UnreifySin(d[0], d[1], s[0]);
      ReifySin(d[0], d[1], Unreify(s[0]));
  }

  lemma {:induction false} UnreifyRoundTrip2(info: Native.Info)
    requires Native.Wired(info)
    requires info.apply == Native.ApplySum || info.apply == Native.ApplyProduct || info.apply == Native.ApplyMod
    ensures Reify(Unreify(info)) == info
    decreases info, 0
  {
    var s := info.subslots;
    UnreifyRoundTrip(s[0]);
    UnreifyRoundTrip(s[1]);
    match info.apply
    case ApplySum =>
      assert info == Native.RaSum(s[0], s[1]);
      UnreifySum(s[0], s[1]);
      ReifySum(Unreify(s[0]), Unreify(s[1]));
    case ApplyProduct =>
      assert info == Native.RaProduct(s[0], s[1]);
      UnreifyProduct(s[0], s[1]);
      ReifyProduct(Unreify(s[0]), Unreify(s[1]));
    case ApplyMod =>
      assert info == Native.RaMod(s[0], s[1]);
      UnreifyMod(s[0], s[1]);
      ReifyMod(Unreify(s[0]), Unreify(s[1]));
  }

  lemma {:induction false} UnreifyRoundTrip3(info: Native.Info)
    requires Native.Wired(info)
    requires info.apply == Native.ApplyLevel || info.apply == Native.ApplyMix
    ensures Reify(Unreify(info)) == info
    decreases info, 0
  {
    var s := info.subslots;
    var d := info.data;
    UnreifyRoundTrip(s[0]);
    UnreifyRoundTrip(s[1]);
    UnreifyRoundTrip(s[2]);
    match info.apply
    case ApplyLevel =>
      assert info == Native.RaLevel(d[0], s[0], s[1], s[2]);
      UnreifyLevel(d[0], s[0], s[1], s[2]);
      ReifyLevel(d[0], Unreify(s[0]), Unreify(s[1]), Unreify(s[2]));
    case ApplyMix =>
      assert info == Native.RaMix(s[0], s[1], s[2]);
      UnreifyMix(s[0], s[1], s[2]);
      ReifyMix(Unreify(s[0]), Unreify(s[1]), Unreify(s[2]));
  }

  // Reading back one native node whose slots are already wired.

  lemma UnreifySum(i1: Native.Info, i2: Native.Info)
    requires Native.Wired(i1) && Native.Wired(i2)
    ensures Unreify(Native.RaSum(i1, i2)) == Sum(Unreify(i1), Unreify(i2))
  {
    var info := Native.RaSum(i1, i2);
    assert info.subslots[0] == i1 && info.subslots[1] == i2;
  }

  lemma UnreifyProduct(i1: Native.Info, i2: Native.Info)
    requires Native.Wired(i1) && Native.Wired(i2)
    ensures Unreify(Native.RaProduct(i1, i2)) == Product(Unreify(i1), Unreify(i2))
  {
    var info := Native.RaProduct(i1, i2);
    assert info.subslots[0] == i1 && info.subslots[1] == i2;
  }

  lemma UnreifyMod(i1: Native.Info, i2: Native.Info)
    requires Native.Wired(i1) && Native.Wired(i2)
    ensures Unreify(Native.RaMod(i1, i2)) == Mod(Unreify(i1), Unreify(i2))
  {
    var info := Native.RaMod(i1, i2);
    assert info.subslots[0] == i1 && info.subslots[1] == i2;
  }

  lemma UnreifyWell(i1: Native.Info)
    requires Native.Wired(i1)
    ensures Unreify(Native.RaWell(i1)) == Well(Unreify(i1))
  {
    var info := Native.RaWell(i1);
    assert info.subslots[0] == i1;
  }

  lemma UnreifyTent(i1: Native.Info)
    requires Native.Wired(i1)
    ensures Unreify(Native.RaTent(i1)) == Tent(Unreify(i1))
  {
    var info := Native.RaTent(i1);
    assert info.subslots[0] == i1;
  }

  lemma UnreifySin(phase: real, freq: real, i1: Native.Info)
    requires Native.Wired(i1)
    ensures Unreify(Native.RaSin(phase, freq, i1)) == Sin(phase, freq, Unreify(i1))
  {
    var info := Native.RaSin(phase, freq, i1);
    assert info.subslots[0] == i1;
  }

  lemma UnreifyLevel(t: real, il: Native.Info, i1: Native.Info, i2: Native.Info)
    requires Native.Wired(il) && Native.Wired(i1) && Native.Wired(i2)
    ensures Unreify(Native.RaLevel(t, il, i1, i2)) == Level(t, Unreify(il), Unreify(i1), Unreify(i2))
  {
    var info := Native.RaLevel(t, il, i1, i2);
    assert info.subslots[0] == il && info.subslots[1] == i1 && info.subslots[2] == i2;
  }

  lemma UnreifyMix(iw: Native.Info, i1: Native.Info, i2: Native.Info)
    requires Native.Wired(iw) && Native.Wired(i1) && Native.Wired(i2)
    ensures Unreify(Native.RaMix(iw, i1, i2)) == Mix(Unreify(iw), Unreify(i1), Unreify(i2))
  {
    var info := Native.RaMix(iw, i1, i2);
    assert info.subslots[0] == iw && info.subslots[1] == i1 && info.subslots[2] == i2;
  }

  // Reifying one node whose children are given.

  lemma ReifySum(a: Expr, b: Expr)
    ensures Reify(Sum(a, b)) == Native.RaSum(Reify(a), Reify(b))
  {
  }

  lemma ReifyProduct(a: Expr, b: Expr)
    ensures Reify(Product(a, b)) == Native.RaProduct(Reify(a), Reify(b))
  {
  }

  lemma ReifyMod(a: Expr, b: Expr)
    ensures Reify(Mod(a, b)) == Native.RaMod(Reify(a), Reify(b))
  {
  }

  lemma ReifyWell(a: Expr)
    ensures Reify(Well(a)) == Native.RaWell(Reify(a))
  {
  }

  lemma ReifyTent(a: Expr)
    ensures Reify(Tent(a)) == Native.RaTent(Reify(a))
  {
  }

  lemma ReifySin(phase: real, freq: real, a: Expr)
    ensures Reify(Sin(phase, freq, a)) == Native.RaSin(phase, freq, Reify(a))
  {
  }

  lemma ReifyLevel(t: real, l: Expr, a: Expr, b: Expr)
    ensures Reify(Level(t, l, a, b)) == Native.RaLevel(t, Reify(l), Reify(a), Reify(b))
  {
  }

  lemma ReifyMix(w: Expr, a: Expr, b: Expr)
    ensures Reify(Mix(w, a, b)) == Native.RaMix(Reify(w), Reify(a), Reify(b))
  {
  }
}
