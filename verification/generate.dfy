/** `generate(k)` of `randomart/__init__.py`, with its random draws made
    explicit.

    Every draw the generator and the node constructors make is read from a
    `Choices` record, indexed by the path of the node being built (the
    child positions from the root). Which path a draw belongs to matters
    only for naming it; the shape of the recursion — which budgets the
    children get — is exactly the source's. */
module Generator {
  import opened Colors
  import opened RandomArt

  /** Child positions from the root down to a node. */
  type Path = seq<nat>

  /** The random draws, one of each kind per node:
      `leaf` and `inner` are the indices `random.choice` picks from
      `operators0` and `operators1`; `cut(p, l, k)` is the `l`-th
      `random.randrange(k)`; the rest are the constructors' `uniform` draws. */
  datatype Choices = Choices(
    leaf: Path -> nat,
    inner: Path -> nat,
    cut: (Path, int, nat) -> nat,
    constant: Path -> QColor,
    phase: Path -> real,
    freq: Path -> real,
    threshold: Path -> real)

  /** `math.pi` as a double. */
  const Pi: real := 3.141592653589793

  /** Every draw lies in the range the source draws it from. */
  ghost predicate ValidChoices(ch: Choices) {
    (forall p :: ch.leaf(p) < 3) &&
    (forall p :: ch.inner(p) < 8) &&
    (forall p, l, k :: 0 < k ==> ch.cut(p, l, k) < k) &&
    (forall p :: 0.0 <= ch.constant(p).r <= 1.0 && 0.0 <= ch.constant(p).g <= 1.0
                 && 0.0 <= ch.constant(p).b <= 1.0) &&
    (forall p :: 0.0 <= ch.phase(p) <= Pi) &&
    (forall p :: 1.0 <= ch.freq(p) <= 6.0) &&
    (forall p :: -1.0 <= ch.threshold(p) <= 1.0)
  }

  // ---------------------------------------------------------------------
  // `sorted`

  predicate Sorted(s: seq<int>) {
    forall i, j :: 0 <= i < j < |s| ==> s[i] <= s[j]
  }

  function Insert(x: int, s: seq<int>): (r: seq<int>)
    requires Sorted(s)
    ensures Sorted(r)
    ensures multiset(r) == multiset(s) + multiset{x}
    ensures |r| == |s| + 1
    ensures r[0] == x || (|s| > 0 && r[0] == s[0])
  {
    if |s| == 0 then [x]
    else if x <= s[0] then
      ConsSorted(x, s);
      [x] + s
    else
      var rest := Insert(x, s[1..]);
      assert s == [s[0]] + s[1..];
      ConsSorted(s[0], rest);
      [s[0]] + rest
  }

  /** A head no larger than the first element keeps a sorted sequence sorted. */
  lemma ConsSorted(h: int, s: seq<int>)
    requires Sorted(s) && (|s| > 0 ==> h <= s[0])
    ensures Sorted([h] + s)
  {
    var r := [h] + s;
    forall i, j | 0 <= i < j < |r|
      ensures r[i] <= r[j]
    {
      assert r[j] == s[j - 1];
    }
  }

  /** `sorted(list)`: the same elements, in non-decreasing order. */
  function Sort(s: seq<int>): (r: seq<int>)
    ensures Sorted(r)
    ensures multiset(r) == multiset(s)
    ensures |r| == |s|
  {
    if |s| == 0 then []
    else
      assert s == [s[0]] + s[1..];
      Insert(s[0], Sort(s[1..]))
  }

  // ---------------------------------------------------------------------
  // Budgets

  function SeqSum(s: seq<int>): int {
    if |s| == 0 then 0 else s[0] + SeqSum(s[1..])
  }

  /** The loop `for j in cuts: args.append(generate(j - i)); i = j`
      followed by `generate(k - 1 - i)`, as the list of budgets it hands
      out, starting from `i == prev`. */
  function Budgets(cuts: seq<int>, prev: int, k: int): (b: seq<int>)
    ensures |b| == |cuts| + 1
  {
    if |cuts| == 0 then [k - 1 - prev]
    else [cuts[0] - prev] + Budgets(cuts[1..], cuts[0], k)
  }

  /** The children's budgets add up to what is left after the node itself
      and, when the cuts are sorted and drawn from `[prev, k)`, each lies in
      `[0, k - prev)`. */
  lemma {:induction false} BudgetsProperties(cuts: seq<int>, prev: int, k: int)
    ensures SeqSum(Budgets(cuts, prev, k)) == k - 1 - prev
    ensures Sorted(cuts) && 0 <= prev < k && (forall i :: 0 <= i < |cuts| ==> prev <= cuts[i] < k) ==>
      forall i :: 0 <= i < |cuts| + 1 ==> 0 <= Budgets(cuts, prev, k)[i] < k - prev
  {
    if |cuts| > 0 {
      BudgetsProperties(cuts[1..], cuts[0], k);
      var b := Budgets(cuts, prev, k);
      if Sorted(cuts) && 0 <= prev < k && (forall i :: 0 <= i < |cuts| ==> prev <= cuts[i] < k) {
        var rest := cuts[1..];
        assert forall i :: 0 <= i < |rest| ==> rest[i] == cuts[i + 1];
        assert Sorted(rest) && 0 <= cuts[0] < k;
        assert forall i :: 0 <= i < |rest| ==> cuts[0] <= rest[i] < k;
        forall i | 0 <= i < |cuts| + 1
          ensures 0 <= b[i] < k - prev
        {
          if i > 0 {
            assert b[i] == Budgets(rest, cuts[0], k)[i - 1];
          }
        }
      }
    }
  }

  /** The `arity - 1` values `randrange(k)` drawn at node `p`, sorted. */
  function Cuts(ch: Choices, p: Path, n: nat, k: nat): (cuts: seq<int>)
    requires ValidChoices(ch) && 0 < k
    ensures |cuts| == n && Sorted(cuts)
    ensures multiset(cuts) == multiset(seq(n, l => ch.cut(p, l, k)))
    ensures forall i :: 0 <= i < n ==> 0 <= cuts[i] < k
  {
    var cuts := Sort(seq(n, l => ch.cut(p, l, k)));
    DrawsInRange(ch, p, n, k, cuts);
    cuts
  }

  /** Any rearrangement of the draws at `p` holds only values in [0, k). */
  lemma DrawsInRange(ch: Choices, p: Path, n: nat, k: nat, s: seq<int>)
    requires ValidChoices(ch) && 0 < k
    requires multiset(s) == multiset(seq(n, l => ch.cut(p, l, k)))
    ensures forall i :: 0 <= i < |s| ==> 0 <= s[i] < k
  {
    var drawn := seq(n, l => ch.cut(p, l, k));
    forall i | 0 <= i < |s|
      ensures 0 <= s[i] < k
    {
      assert s[i] in multiset(drawn);
      var j :| 0 <= j < n && drawn[j] == s[i];
    }
  }

  /** `random.choice(operators0)` at node `p`. */
  function LeafOp(ch: Choices, p: Path): (op: Op)
    requires ValidChoices(ch)
    ensures op in Operators0 && Arity(op) == 0
  {
    Operators0[ch.leaf(p)]
  }

  /** `random.choice(operators1)` at node `p`. */
  function InnerOp(ch: Choices, p: Path): (op: Op)
    requires ValidChoices(ch)
    ensures op in Operators1 && 0 < Arity(op)
  {
    Operators1[ch.inner(p)]
  }

  /** The budgets `generate(k)` hands to the children of the node at `p`:
      one per child, each in `[0, k)`, adding up to `k - 1`. */
  function ChildBudgets(ch: Choices, p: Path, k: nat): (b: seq<int>)
    requires ValidChoices(ch) && 0 < k
    ensures |b| == Arity(InnerOp(ch, p))
    ensures SeqSum(b) == k - 1
    ensures forall i :: 0 <= i < |b| ==> 0 <= b[i] < k
  {
    var cuts := Cuts(ch, p, Arity(InnerOp(ch, p)) - 1, k);
    BudgetsProperties(cuts, 0, k);
    Budgets(cuts, 0, k)
  }

  /** The constructor arguments a node draws for itself. */
  function ParamsAt(ch: Choices, p: Path): Params {
    Params(ch.constant(p), ch.phase(p), ch.freq(p), ch.threshold(p))
  }

  function Max0(k: int): nat {
    if k < 0 then 0 else k
  }

  /** `generate(k)` for the node at path `p`: a leaf from `operators0` when
      the budget is used up, otherwise an operator from `operators1` whose
      children share the remaining budget `k - 1`. */
  function Generate(ch: Choices, p: Path, k: int): (e: Expr)
    requires ValidChoices(ch)
    ensures k <= 0 ==> Arity(OpOf(e)) == 0 && OpOf(e) in Operators0
    ensures k > 0 ==> Arity(OpOf(e)) >= 1 && OpOf(e) in Operators1
    decreases Max0(k), 1, 0
  {
    if k <= 0 then
      Build(LeafOp(ch, p), [], ParamsAt(ch, p))
    else
      Build(InnerOp(ch, p), GenerateKids(ch, p, ChildBudgets(ch, p, k), k, 0), ParamsAt(ch, p))
  }

  /** The children, generated left to right, child `start + i` with
      budget `budgets[i]`. */
  function GenerateKids(ch: Choices, p: Path, budgets: seq<int>, bound: nat, start: nat): (kids: seq<Expr>)
    requires ValidChoices(ch)
    requires forall i :: 0 <= i < |budgets| ==> 0 <= budgets[i] < bound
    ensures |kids| == |budgets|
    decreases bound, 0, |budgets|
  {
    if |budgets| == 0 then []
    else [Generate(ch, p + [start], budgets[0])] + GenerateKids(ch, p, budgets[1..], bound, start + 1)
  }
}

/** What `generate` promises about the trees it builds: how many nodes,
    and that every constant stays in the colour range. */
module GeneratorFacts {
  import opened Colors
  import opened RandomArt
  import opened Generator

  /** The number of nodes of arity at least one. */
  function InternalNodes(e: Expr): nat {
    match e
    case VariableX => 0
    case VariableY => 0
    case Constant(_) => 0
    case Sum(e1, e2) => 1 + InternalNodes(e1) + InternalNodes(e2)
    case Product(e1, e2) => 1 + InternalNodes(e1) + InternalNodes(e2)
    case Mod(e1, e2) => 1 + InternalNodes(e1) + InternalNodes(e2)
    case Well(e1) => 1 + InternalNodes(e1)
    case Tent(e1) => 1 + InternalNodes(e1)
    case Sin(_, _, e1) => 1 + InternalNodes(e1)
    case Level(_, l, e1, e2) => 1 + InternalNodes(l) + InternalNodes(e1) + InternalNodes(e2)
    case Mix(w, e1, e2) => 1 + InternalNodes(w) + InternalNodes(e1) + InternalNodes(e2)
  }

  /** All nodes. */
  function Size(e: Expr): nat {
    match e
    case VariableX => 1
    case VariableY => 1
    case Constant(_) => 1
    case Sum(e1, e2) => 1 + Size(e1) + Size(e2)
    case Product(e1, e2) => 1 + Size(e1) + Size(e2)
    case Mod(e1, e2) => 1 + Size(e1) + Size(e2)
    case Well(e1) => 1 + Size(e1)
    case Tent(e1) => 1 + Size(e1)
    case Sin(_, _, e1) => 1 + Size(e1)
    case Level(_, l, e1, e2) => 1 + Size(l) + Size(e1) + Size(e2)
    case Mix(w, e1, e2) => 1 + Size(w) + Size(e1) + Size(e2)
  }

  function SumInternalNodes(kids: seq<Expr>): nat {
    if |kids| == 0 then 0 else InternalNodes(kids[0]) + SumInternalNodes(kids[1..])
  }

  /** A node is internal exactly when its arity is positive, and then it
      adds one to its children's internal nodes. */
  lemma InternalNodesByChildren(e: Expr)
    ensures InternalNodes(e) ==
      if Arity(OpOf(e)) == 0 then 0 else 1 + SumInternalNodes(Children(e))
  {
    match e
    case VariableX =>
    case VariableY =>
    case Constant(_) =>
    case Sum(e1, e2) => SumInternalNodesPair(e1, e2);
    case Product(e1, e2) => SumInternalNodesPair(e1, e2);
    case Mod(e1, e2) => SumInternalNodesPair(e1, e2);
    case Well(e1) => assert [e1][1..] == [];
    case Tent(e1) => assert [e1][1..] == [];
    case Sin(_, _, e1) => assert [e1][1..] == [];
    case Level(_, l, e1, e2) => assert [l, e1, e2][1..] == [e1, e2]; SumInternalNodesPair(e1, e2);
    case Mix(w, e1, e2) => assert [w, e1, e2][1..] == [e1, e2]; SumInternalNodesPair(e1, e2);
  }

  lemma SumInternalNodesPair(e1: Expr, e2: Expr)
    ensures SumInternalNodes([e1, e2]) == InternalNodes(e1) + InternalNodes(e2)
  {
    assert [e1, e2][1..] == [e2];
    assert [e2][1..] == [];
    assert SumInternalNodes([e2]) == InternalNodes(e2) + SumInternalNodes([]);
  }

  lemma SumInternalNodesCons(first: Expr, rest: seq<Expr>)
    ensures SumInternalNodes([first] + rest) == InternalNodes(first) + SumInternalNodes(rest)
  {
    assert ([first] + rest)[1..] == rest;
  }

  /** Every node `generate` makes carries the parameters drawn at its own
      path: a constant's colour, a sine's phase and frequency, a level's
      threshold. */
  lemma GenerateParams(ch: Choices, p: Path, k: int)
    requires ValidChoices(ch)
    ensures var e := Generate(ch, p, k);
      && (e.Constant? ==> e.c == ch.constant(p))
      && (e.Sin? ==> e.phase == ch.phase(p) && e.freq == ch.freq(p))
      && (e.Level? ==> e.threshold == ch.threshold(p))
  {
    if k <= 0 {
      assert Generate(ch, p, k) == Build(LeafOp(ch, p), [], ParamsAt(ch, p));
      BuildUsesParams(LeafOp(ch, p), [], ParamsAt(ch, p));
    } else {
      var kids := GenerateKids(ch, p, ChildBudgets(ch, p, k), k, 0);
      assert Generate(ch, p, k) == Build(InnerOp(ch, p), kids, ParamsAt(ch, p));
      BuildUsesParams(InnerOp(ch, p), kids, ParamsAt(ch, p));
    }
  }

  /** An inner node made by `generate` holds the generated children. */
  lemma GenerateInner(ch: Choices, p: Path, k: int)
    requires ValidChoices(ch) && 0 < k
    ensures OpOf(Generate(ch, p, k)) == InnerOp(ch, p)
    ensures Children(Generate(ch, p, k)) == GenerateKids(ch, p, ChildBudgets(ch, p, k), k, 0)
  {
  }

  /** `generate(k)` builds exactly `k` internal nodes (none for `k <= 0`):
      each node with a positive budget is internal, and its children's
      budgets add up to its own minus one. */
  lemma {:induction false} GenerateInternalNodes(ch: Choices, p: Path, k: int)
    requires ValidChoices(ch)
    ensures InternalNodes(Generate(ch, p, k)) == Max0(k)
    decreases Max0(k), 1, 0
  {
    InternalNodesByChildren(Generate(ch, p, k));
    if k > 0 {
      GenerateInner(ch, p, k);
      GenerateKidsInternalNodes(ch, p, ChildBudgets(ch, p, k), k, 0);
    }
  }

  lemma {:induction false} GenerateKidsInternalNodes(ch: Choices, p: Path, budgets: seq<int>, bound: nat, start: nat)
    requires ValidChoices(ch)
    requires forall i :: 0 <= i < |budgets| ==> 0 <= budgets[i] < bound
    ensures SumInternalNodes(GenerateKids(ch, p, budgets, bound, start)) == SeqSum(budgets)
    decreases bound, 0, |budgets|
  {
    if |budgets| > 0 {
      GenerateInternalNodes(ch, p + [start], budgets[0]);
      GenerateKidsInternalNodes(ch, p, budgets[1..], bound, start + 1);
      var first := Generate(ch, p + [start], budgets[0]);
      var rest := GenerateKids(ch, p, budgets[1..], bound, start + 1);
      assert GenerateKids(ch, p, budgets, bound, start) == [first] + rest;
      SumInternalNodesCons(first, rest);
    }
  }

  /** Since no node has more than three children, a tree with `n` internal
      nodes has at most `3n + 1` nodes. */
  lemma {:induction false} SizeBound(e: Expr)
    ensures Size(e) <= 3 * InternalNodes(e) + 1
  {
    match e
    case VariableX =>
    case VariableY =>
    case Constant(_) =>
    case Sum(e1, e2) => SizeBound(e1); SizeBound(e2);
    case Product(e1, e2) => SizeBound(e1); SizeBound(e2);
    case Mod(e1, e2) => SizeBound(e1); SizeBound(e2);
    case Well(e1) => SizeBound(e1);
    case Tent(e1) => SizeBound(e1);
    case Sin(_, _, e1) => SizeBound(e1);
    case Level(_, l, e1, e2) => SizeBound(l); SizeBound(e1); SizeBound(e2);
    case Mix(w, e1, e2) => SizeBound(w); SizeBound(e1); SizeBound(e2);
  }

  /** So `generate(k)` builds at most `3k + 1` nodes. */
  lemma GenerateSize(ch: Choices, p: Path, k: int)
    requires ValidChoices(ch)
    ensures Size(Generate(ch, p, k)) <= 3 * Max0(k) + 1
  {
    GenerateInternalNodes(ch, p, k);
    SizeBound(Generate(ch, p, k));
  }

  /** Every constant `generate` creates has its channels drawn from
      [0, 1]. */
  lemma {:induction false} GenerateConstantsInColourRange(ch: Choices, p: Path, k: int)
    requires ValidChoices(ch)
    ensures ConstantsWithin(Generate(ch, p, k), 0.0, 1.0)
    decreases Max0(k), 1, 0
  {
    var e := Generate(ch, p, k);
    GenerateParams(ch, p, k);
    if !e.Constant? {
      ConstantsByChildren(e, 0.0, 1.0);
      if k > 0 {
        GenerateInner(ch, p, k);
        GenerateKidsConstantsInColourRange(ch, p, ChildBudgets(ch, p, k), k, 0);
      }
    }
  }

  lemma {:induction false} GenerateKidsConstantsInColourRange(ch: Choices, p: Path, budgets: seq<int>, bound: nat, start: nat)
    requires ValidChoices(ch)
    requires forall i :: 0 <= i < |budgets| ==> 0 <= budgets[i] < bound
    ensures AllConstantsWithin(GenerateKids(ch, p, budgets, bound, start), 0.0, 1.0)
    decreases bound, 0, |budgets|
  {
    if |budgets| > 0 {
      GenerateConstantsInColourRange(ch, p + [start], budgets[0]);
      GenerateKidsConstantsInColourRange(ch, p, budgets[1..], bound, start + 1);
      var first := Generate(ch, p + [start], budgets[0]);
      var rest := GenerateKids(ch, p, budgets[1..], bound, start + 1);
      assert GenerateKids(ch, p, budgets, bound, start) == [first] + rest;
      AllConstantsCons(first, rest, 0.0, 1.0);
    }
  }

  /** Generated trees satisfy the hypothesis of `RandomArt.EvalInUnitRange`:
      on the evaluation square, with a `sin` bounded by 1, every generated
      tree evaluates into the unit cube. */
  lemma GeneratedEvalInUnitRange(ch: Choices, p: Path, k: int, sine: real -> real, x: real, y: real)
    requires ValidChoices(ch)
    requires InUnitRange(x) && InUnitRange(y)
    requires forall v :: InUnitRange(sine(v))
    ensures ChannelsInUnitRange(Eval(Generate(ch, p, k), sine, x, y))
  {
    GenerateConstantsInColourRange(ch, p, k);
    ConstantsWiden(Generate(ch, p, k), 0.0, 1.0, -1.0, 1.0);
    EvalInUnitRange(Generate(ch, p, k), sine, x, y);
  }
}
