# randomart in Dafny

A model of the core of the `randomart` image generator. It covers random expression trees over the
two screen coordinates, the two ways of evaluating them, and the raster that turns a tree into a
square of packed pixels.

- **Expressions** (`expr.dfy`, module `RandomArt`). `Expr` has the eleven node classes of
  `randomart/__init__.py`: `VariableX`, `VariableY`, `Constant`, `Sum`, `Product`, `Mod`, `Well`,
  `Tent`, `Sin`, `Level` and `Mix`.
  - `Arity`, `Children` and `Build` give each class's `arity` and constructor.
  - `Operators0` and `Operators1` are `operators0` and `operators1`.
  - `Eval` is the `eval` methods.
  - `Reify` is the `reify` methods.
- **Channel operators**:
  - `transforms.dfy` holds the Python ones: `_well`, `_tent` and the `_py_*_impl` functions.
  - `native.dfy` holds the C ones in `_randomart.c`: `well`, `tent` and the `qcolor_*` functions.
- **Native trees** (`native.dfy`). A `transforminfo` becomes an `Info`: the apply function, the
  filled `subslots` and the doubles stored in `data`. The `Ra*` functions are the `formats.py`
  wrapper constructors together with the `ra_*_init` they call. `Native.Eval` is the `ra_*` apply
  functions.
- **Agreement** (`agreement.dfy`). On trees without `Mod` and `Tent`, evaluating the reified tree
  gives exactly the colour that direct evaluation gives (`Agreement.ReifiedEvalAgrees`). The two
  exceptions are stated, not repaired:
  - **`Mod`.** `Mod.eval` divides its first child by itself and never evaluates the second, so it is
    always the zero colour. `ra_mod` computes `fmod` of slot 0 by slot 1, with a `0.0001` guard.
  - **`Tent`.** The C `tent` passes a `double` to the `int` function `abs`. It therefore agrees with
    `_tent` only on integers, and on [-1, 1] it takes only the values 1 and -1.
- **Colours** (`colors.dfy`). `_color_quantize`, `to_color`, `apply_filter`, `pack_rgb`,
  `pack_rgba` and `to_html`, each paired with its inverse or a characterisation.
- **Generator** (`generate.dfy`). `generate(k)` becomes a pure function of a `Choices` record. Every
  random call at the node reached by path `p` is answered by a field of the record applied to `p`:
  - `random.choice` and `random.randrange`;
  - the `random.uniform` calls in `Constant`, `Sin` and `Level`.

  `ValidChoices` states the ranges those calls draw from. The budget arithmetic gives:
  - children's budgets lie in [0, k) and sum to k - 1, which is also the termination measure;
  - a tree generated with budget k has exactly k internal nodes;
  - every constant has its channels in [0, 1], so a generated tree evaluated on the square
    [-1, 1]² lands in the unit cube.
- **Raster** (`raster.dfy`). Covers `BaseArt` and `MemorySlabArt`:
  - `set_art`, `reify` and `get_pixel`;
  - the `_do_draw_rounds` pass, as a method with loop invariants over the pixel array;
  - `set_pixel` and `_draw_rectangle`;
  - `save`, with a reader for what it writes.

Channels are Dafny `real`s, and the unit cube means every channel in [-1, 1]. `math.sin` and the
C `sin` are one function parameter `sine`, shared by both evaluators.

### Behaviour worth knowing

- **Quantisation.** `_color_quantize` uses `int()`, which truncates toward zero; it does not round.
  `Colors.QuantizeCharacterisation` gives the exact buckets.
- **Pixel coordinates.** `get_pixel` computes `d / 2` with Python 2 integer division. For the block
  size `d = 1` that the drawing pass uses, this is 0, so a pixel is evaluated at its corner
  `2x/S - 1`, not at its centre (`Raster.CoordOfPixel`).
- **`Mod`.** The direct `Mod` never divides by its second child (see above). The reified and direct
  evaluations therefore do not agree for every node class.

## Model

| member | source | states |
|---|---|---|
| Numeric.Abs | randomart/transforms.py:62-64 | the absolute value used by `_tent` is non-negative and is either x or -x |
| Numeric.IntAbs | _randomart.c:49-51 | the C `abs` on an `int` gives n or -n, never negative |
| Numeric.Trunc | randomart/formats.py:53-55 | conversion to an integer drops the fraction toward zero: for x ≥ 0 the result is the largest integer ≤ x, for x < 0 the smallest integer ≥ x |
| Numeric.TruncExactIffIntegral | _randomart.c:49-51 | converting a double to `int` loses nothing exactly when the value is an integer |
| Numeric.TruncShrinks | _randomart.c:49-51 | truncation never increases the magnitude, and strictly decreases it exactly on non-integers |
| Numeric.TruncMonotone | randomart/formats.py:53-55 | `int()` is monotone non-decreasing |
| Numeric.PowAtLeastOne | randomart/transforms.py:57-59 | the `_well` denominator `(1 + x*x)**8` is at least 1, so `_well` never divides by zero |
| Numeric.PyFloatMod | randomart/transforms.py:124-127 | Python float `%`: ZeroDivisionError exactly on a zero divisor; otherwise the result has the divisor's sign, is smaller in magnitude, and differs from the dividend by an integer multiple of the divisor |
| Numeric.Fmod | _randomart.c:94-96 | C `fmod`: no result on a zero divisor; otherwise the result has the dividend's sign, is smaller in magnitude than the divisor, and differs from the dividend by an integer multiple of it |
| Numeric.PyFloatModVersusFmod | randomart/transforms.py:124-127 | Python `%` and `fmod` agree when the quotient is non-negative; with a negative non-integral quotient they differ by exactly the divisor |
| Numeric.PyFloatModUnique | randomart/transforms.py:124-127 | any r with the divisor's sign, smaller than the divisor, and differing from a by a whole multiple of b is Python's `a % b`, so those three facts determine `%` |
| Numeric.FmodUnique | _randomart.c:94-96 | any r with the dividend's sign, smaller than the divisor, and differing from a by a whole multiple of b is `fmod(a, b)` |
| Numeric.RemaindersEqual | randomart/transforms.py:124-127 | two remainders of a by b that differ by less than the divisor are equal |
| Numeric.PyFloatModSelf | randomart/__init__.py:210-215 | a non-zero value modulo itself is 0, which is what `Mod.eval` computes in every channel |
| Colors.Quantize | randomart/formats.py:53-55 | `_color_quantize` always gives a byte; at or below -1 it gives 0, at or above 1 it gives 255 |
| Colors.QuantizeCharacterisation | randomart/formats.py:53-55 | the byte is n exactly when 128·(v+1) lies in [n, n+1), with everything below 1 mapped to 0 and everything from 255 up mapped to 255 |
| Colors.QuantizeMonotone | randomart/formats.py:53-55 | quantisation is monotone non-decreasing |
| Colors.ToColor | randomart/formats.py:57-62 | `to_color` quantises every channel the same way: equal input channels give equal bytes, a colour at or below -1 everywhere is black and one at or above 1 everywhere is white |
| Colors.ToColorIndependentChannels | randomart/formats.py:57-62 | each channel of `to_color` depends only on the same input channel |
| Colors.ToColorMonotone | randomart/formats.py:57-62 | a channel-wise larger colour quantises to a channel-wise larger or equal colour |
| Colors.ApplyFilter | randomart/formats.py:67-72 | `apply_filter` with the identity function returns the colour unchanged, and equal input channels stay equal |
| Colors.ApplyFilterCompose | randomart/formats.py:67-72 | filtering twice is filtering once with the composed function, and the identity filter changes nothing |
| Colors.PackRgb | randomart/formats.py:33-38 | `pack_rgb` of byte channels is below 2^24, so the top byte is zero |
| Colors.PackRgbRoundTrip | randomart/formats.py:33-38 | shifting and masking the packed value recovers r, g and b |
| Colors.PackRgbInjective | randomart/formats.py:33-38 | two colours pack to the same value exactly when they are equal |
| Colors.PackRgba | randomart/formats.py:26-31 | `pack_rgba` is below 2^32 and its low byte is zero |
| Colors.PackRgbaRoundTrip | randomart/formats.py:26-31 | the three channels are recovered from the `pack_rgba` value |
| Colors.PackRgbaIsShiftedRgb | randomart/formats.py:26-38 | `pack_rgba` is `pack_rgb` shifted left by one byte |
| Colors.ToHtml | randomart/formats.py:23-24 | `to_html` is `#` followed by six lower-case hex digits |
| Colors.HexValue | randomart/formats.py:23-24 | a character has a value exactly when it is a lower-case hex digit, and that value is below 16 and prints as the same character |
| Colors.Hex2RoundTrip | randomart/formats.py:23-24 | the two `%02x` digits of a byte parse back to that byte |
| Colors.ParseHex2Inverse | randomart/formats.py:23-24 | any two lower-case hex digits are the `%02x` rendering of the byte they denote |
| Colors.ToHtmlRoundTrip | randomart/formats.py:23-24 | the `to_html` string determines the colour, channels in r, g, b order |
| Colors.ParseHtmlInverse | randomart/formats.py:23-24 | every well-formed `#rrggbb` string is `to_html` of the colour it denotes, so the format is a bijection |
| Transforms.WellShape | randomart/transforms.py:57-59 | `_well` is even, is -1 at 0, and stays in [-1, 1) |
| Transforms.TentShape | randomart/transforms.py:62-64 | `_tent` is even, is 1 at 0 and -1 at ±1, never exceeds 1, and maps [-1, 1] into itself |
| Transforms.PyWell | randomart/transforms.py:57-59 | `_well` always lies in [-1, 1) |
| Transforms.PyTent | randomart/transforms.py:62-64 | `_tent` never exceeds 1 and reaches 1 exactly at 0 |
| Transforms.AverageImpl | randomart/transforms.py:67-81 | `_py_average_impl` with weight 1 gives c1, with weight 0 gives c2, and averages a colour with itself to that colour |
| Transforms.MixImpl | randomart/__init__.py:318-325 | `Mix.eval`'s weight maps a red channel of 1 to the first branch and -1 to the second |
| Transforms.ProdImpl | randomart/transforms.py:110-122 | `_py_prod_impl` by the zero colour is zero and by (1, 1, 1) is the identity |
| Transforms.SinImpl | randomart/transforms.py:138-149 | with a `sin` bounded by 1, `_py_sin_impl` lands in the unit cube |
| Transforms.WellImpl | randomart/transforms.py:97-107 | every channel of `_py_well_impl` lies in [-1, 1), and equal input channels stay equal |
| Transforms.TentImpl | randomart/transforms.py:84-94 | no channel of `_py_tent_impl` exceeds 1, and the result is (1, 1, 1) exactly for the zero colour |
| Transforms.LevelImpl | randomart/transforms.py:152-164 | every channel of `_py_level_impl` is taken from c2 or from c3, so with c2 = c3 the selector does not matter |
| Transforms.AverageEndpoints | randomart/transforms.py:67-72 | weight 1 gives c1, weight 0 gives c2, and at weight 0.5 the order does not matter |
| Transforms.AverageInRange | randomart/transforms.py:67-72 | a weighted average with weight in [0, 1] of two colours in the unit cube stays in it |
| Transforms.ProductInRange | randomart/transforms.py:110-113 | the product is commutative and keeps colours in the unit cube |
| Transforms.ModImpl | randomart/transforms.py:124-127 | `_py_mod_impl` raises exactly when a divisor channel is 0; otherwise each channel lies between 0 and its divisor, on the divisor's side, and differs from the dividend's channel by a whole multiple of the divisor |
| Transforms.ModImplUnique | randomart/transforms.py:124-127 | the bounds and the congruence of `ModImpl` pin it down: any colour meeting them is the channel-wise Python `%` that `_py_mod_impl` computes |
| Transforms.UnaryImplsAreFilters | randomart/transforms.py:84-100 | the well and tent operators transform each channel on its own with `_well` and `_tent` |
| Transforms.LevelIsChannelwiseAverage | randomart/transforms.py:152-155 | each level channel is the c2 channel when the selector is below the threshold and the c3 channel otherwise |
| Transforms.OperatorsPreserveUnitRange | randomart/transforms.py:84-141 | well, tent, and sine with a bounded `sin` keep colours in the unit cube |
| Native.CTentOnUnitRange | _randomart.c:49-51 | on the open interval (-1, 1) the native tent is constantly 1, and at ±1 it is -1 |
| Native.CWell | _randomart.c:44-46 | the C `well` always lies in [-1, 1) |
| Native.CTent | _randomart.c:49-51 | the C `tent` never exceeds 1, and is 1 exactly on the open interval (-1, 1), because `abs` truncates first |
| Native.QcolorAverage | _randomart.c:59-63 | `qcolor_average` with weight 1 gives c1, with weight 0 gives c2, and averages a colour with itself to that colour |
| Native.QcolorTent | _randomart.c:66-70 | no channel of `qcolor_tent` exceeds 1, and a channel is 1 exactly when the input channel lies in (-1, 1) |
| Native.QcolorWell | _randomart.c:73-77 | every channel of `qcolor_well` lies in [-1, 1), and equal input channels stay equal |
| Native.QcolorProduct | _randomart.c:80-84 | `qcolor_product` by the zero colour is zero and by (1, 1, 1) is the identity |
| Native.QcolorSin | _randomart.c:101-105 | with a `sin` bounded by 1, `qcolor_sin` lands in the unit cube |
| Native.QcolorLevel | _randomart.c:108-116 | every channel of `qcolor_level` is taken from c2 or from c3, so with c2 = c3 the selector does not matter |
| Native.QcolorMod | _randomart.c:87-98 | the zero colour if any divisor channel is below 0.0001, negative divisors included; otherwise `fmod` in every channel, each result smaller in magnitude than its divisor |
| Native.RaVariableX | _randomart.c:133-136 | `ra_variable_x_init` gives a complete node reading `x` |
| Native.RaVariableY | _randomart.c:153-156 | `ra_variable_y_init` gives a complete node reading `y` |
| Native.RaConstant | _randomart.c:177-185 | `ra_constant_init` gives a complete constant node |
| Native.RaSum | _randomart.c:203-212 | the sum node is fully wired exactly when both children are |
| Native.RaProduct | _randomart.c:230-241 | the product node is fully wired exactly when both children are |
| Native.RaMod | _randomart.c:258-267 | the mod node is fully wired exactly when both children are |
| Native.RaWell | _randomart.c:283-290 | the well node is fully wired exactly when its child is |
| Native.RaTent | _randomart.c:306-313 | the tent node is fully wired exactly when its child is |
| Native.RaSin | _randomart.c:331-344 | the sine node is fully wired exactly when its child is |
| Native.RaLevel | _randomart.c:365-380 | the level node is fully wired exactly when selector and both branches are |
| Native.RaMix | _randomart.c:399-410 | the mix node is fully wired exactly when weight and both branches are |
| Native.MixByWeight | _randomart.c:383-391 | the mix weight maps red -1 to the second branch and red 1 to the first |
| Native.Eval | _randomart.c:54-391 | the apply dispatch: a well node lies in [-1, 1) and a tent node never exceeds 1 on every channel |
| Native.SinNodeInUnitRange | _randomart.c:316-323 | `ra_sin` with a `sin` bounded by 1 lands in the unit cube, whatever its child evaluates to |
| Native.LeavesIgnoreTheOtherCoordinate | _randomart.c:119-166 | `ra_variable_x` is (x, x, x) whatever y is, `ra_variable_y` is (y, y, y) whatever x is, and `ra_constant` is its stored channels at every point |
| Native.SumOfLeaves | _randomart.c:188-195 | sum(x, y) is (x+y)/2 in every channel, and sum(constant c, y) is (c+y)/2 channel by channel |
| Native.ModDividesFirstBySecond | _randomart.c:244-250 | `ra_mod` is zero when slot 1 has a small channel, and otherwise is, in each of r, g and b, `fmod` of slot 0 by slot 1, smaller in size than slot 1 |
| Native.LevelSelectsPerChannel | _randomart.c:347-356 | each channel of `ra_level` comes from slot 1 when slot 0's channel is below the threshold and from slot 2 otherwise |
| Native.MixReadsOnlyRedOfWeight | _randomart.c:383-391 | two weight trees with the same red channel give the same `ra_mix` |
| RandomArt.Children | randomart/__init__.py:101-325 | every node holds exactly its class's `arity` children, each a proper subtree |
| RandomArt.Arity | randomart/__init__.py:101-302 | the `arity` attribute of every class is at most 3 |
| RandomArt.ArityZeroExactlyForLeaves | randomart/__init__.py:330-338 | a class has arity 0 exactly when it is listed in `operators0`, and positive arity exactly when it is listed in `operators1` |
| RandomArt.Build | randomart/__init__.py:101-325 | calling a class's constructor with `arity` children gives a node of that class with those children in that order |
| RandomArt.BuildUsesParams | randomart/__init__.py:101-325 | a built node is a constant exactly when its class is `Constant`; a constant carries the drawn colour, a sine the drawn phase and frequency, a level the drawn threshold |
| RandomArt.BuildInvertsChildren | randomart/__init__.py:101-325 | taking a node apart and calling its class's constructor again gives the same node |
| RandomArt.ByArity | randomart/__init__.py:337-338 | filtering the operator list by arity never lengthens it |
| RandomArt.ByArityMembers | randomart/__init__.py:337-338 | an operator is kept exactly when it is listed and its arity is 0 (for `operators0`) or positive (for `operators1`) |
| RandomArt.ByArityAppend | randomart/__init__.py:337-338 | filtering a concatenation by arity is concatenating the filtered parts |
| RandomArt.ByArityUniform | randomart/__init__.py:337-338 | the filter keeps a list whose classes all have the requested arity and empties one where none has |
| RandomArt.SplitByArity | randomart/__init__.py:337-338 | leaves followed by inner classes split back into exactly those leaves and those inner classes |
| RandomArt.OperatorsPartition | randomart/__init__.py:330-338 | the two comprehensions over `operators` give VariableX, VariableY, Constant for `operators0` and the other eight, in the order of `operators`, for `operators1` |
| RandomArt.Eval | randomart/__init__.py:113-325 | the `eval` methods: `VariableX` gives (x, x, x) through the native node, and a `Well` lies in [-1, 1) and a `Tent` never exceeds 1 on every channel |
| RandomArt.SinNodeInUnitRange | randomart/__init__.py:268-271 | `Sin.eval` with a `sin` bounded by 1 lands in the unit cube, whatever its child evaluates to |
| RandomArt.ModEvalIsZero | randomart/__init__.py:210-215 | direct evaluation of `Mod(e1, e2)` is the zero colour at every point, whatever e2 is |
| RandomArt.MixWeightFromRed | randomart/__init__.py:318-325 | the mix weight is in [0, 1] when the weight tree's red channel is in [-1, 1], and only that red channel matters |
| RandomArt.LeafEval | randomart/__init__.py:113-153 | the variables evaluate to (x, x, x) and (y, y, y), and a constant to its colour at every point |
| RandomArt.ConstantsWiden | randomart/__init__.py:133-153 | a tree whose constants lie in an interval has them in every larger interval |
| RandomArt.EvalInUnitRange | randomart/__init__.py:156-325 | with coordinates in [-1, 1], constants in the unit cube and a `sin` bounded by 1, every tree evaluates into the unit cube |
| RandomArt.Reify | randomart/__init__.py:110-316 | reifying any tree gives a native tree whose every slot and datum is set |
| RandomArt.ReifyKeepsKind | randomart/__init__.py:110-316 | the native node has the apply function of the node's class and fills as many slots as the class has children |
| RandomArt.ReifyKeepsChildren | randomart/__init__.py:110-316 | slot i of the native node holds the reification of child i, for every child |
| RandomArt.ReifyKeepsData | randomart/__init__.py:110-316 | the native data are the node's constant channels, its phase and frequency, or its threshold, and are empty for the other classes |
| RandomArt.ReifyRoundTrip | randomart/__init__.py:110-316 | the expression can be read back from its reified tree, so reification loses no class, child order or parameter |
| RandomArt.UnreifyRoundTrip | randomart/formats.py:113-324 | every fully wired native tree is the reification of the expression read back from it |
| Generator.Insert | randomart/__init__.py:353 | inserting into a sorted list keeps it sorted and adds exactly the one element |
| Generator.Sort | randomart/__init__.py:353 | `sorted` returns a sorted permutation of its argument |
| Generator.Budgets | randomart/__init__.py:351-356 | one budget per cut plus one for the last child |
| Generator.BudgetsProperties | randomart/__init__.py:350-356 | the budgets sum to k - 1 - (the starting cut), and for sorted cuts in range each budget is in [0, k) |
| Generator.Cuts | randomart/__init__.py:353 | the cuts are exactly the `arity - 1` draws from `randrange(k)` (the same multiset), sorted, each in [0, k) |
| Generator.DrawsInRange | randomart/__init__.py:353 | any rearrangement of the `randrange(k)` draws holds only values in [0, k) |
| Generator.LeafOp | randomart/__init__.py:343-346 | the leaf class comes from `operators0` and has arity 0 |
| Generator.InnerOp | randomart/__init__.py:349 | the inner operator comes from `operators1` and has positive arity |
| Generator.ChildBudgets | randomart/__init__.py:350-356 | a node with budget k > 0 hands out exactly `arity` budgets, each in [0, k), summing to k - 1 |
| Generator.Generate | randomart/__init__.py:341-357 | budget ≤ 0 gives a leaf from `operators0`; a positive budget gives a root from `operators1` |
| Generator.GenerateKids | randomart/__init__.py:353-356 | one subtree per budget |
| GeneratorFacts.GenerateParams | randomart/__init__.py:341-357 | every generated node carries the draws made at its own path: a constant's colour, a sine's phase and frequency, a level's threshold |
| GeneratorFacts.GenerateInner | randomart/__init__.py:347-357 | for a positive budget the root is the chosen inner operator and its children are generated from the computed budgets |
| GeneratorFacts.GenerateInternalNodes | randomart/__init__.py:341-357 | `generate(k)` has exactly max(k, 0) internal nodes |
| GeneratorFacts.GenerateKidsInternalNodes | randomart/__init__.py:350-356 | the subtrees' internal nodes add up to the sum of their budgets |
| GeneratorFacts.SizeBound | randomart/__init__.py:101-325 | with arities at most 3, a tree has at most 3·(internal nodes) + 1 nodes |
| GeneratorFacts.GenerateSize | randomart/__init__.py:341-357 | `generate(k)` has at most 3k + 1 nodes |
| GeneratorFacts.GenerateConstantsInColourRange | randomart/__init__.py:136-143 | every constant of a generated tree has its three channels in [0, 1] |
| GeneratorFacts.GenerateKidsConstantsInColourRange | randomart/__init__.py:350-356 | every generated subtree has its constants' channels in [0, 1] |
| GeneratorFacts.GeneratedEvalInUnitRange | randomart/__init__.py:341-357 | a generated tree, evaluated on the square [-1, 1]² with a `sin` bounded by 1, lands in the unit cube |
| Agreement.SharedOperatorsAgree | _randomart.c:59-116 | the native average, product, well, sine and level compute what the Python operators compute, for every input |
| Agreement.ReifiedEvalAgrees | randomart/__init__.py:156-325 | on trees without `Mod` and `Tent`, native evaluation of the reified tree equals direct evaluation at every point |
| Agreement.MixAgrees | _randomart.c:383-391 | `ra_mix`'s weighting of its branches by the red channel of its weight computes what `Mix.eval` computes, for every weight and pair of colours |
| Agreement.SumStep | _randomart.c:188-195 | if both children agree natively and directly, so does `Sum` |
| Agreement.ProductStep | _randomart.c:215-222 | if both children agree, so does `Product` |
| Agreement.WellStep | _randomart.c:270-276 | if the child agrees, so does `Well` |
| Agreement.SinStep | _randomart.c:316-323 | if the child agrees, so does `Sin`, with its phase and frequency |
| Agreement.LevelStep | _randomart.c:347-356 | if the selector and both branches agree, so does `Level` with its threshold |
| Agreement.MixStep | _randomart.c:383-391 | if the weight and both branches agree, so does `Mix` |
| Agreement.TentAgreesIffIntegral | _randomart.c:49-51 | the native and Python tents agree exactly on integers |
| Agreement.TentNodeAgreesIffIntegral | _randomart.c:293-298 | a `Tent` node agrees on both sides exactly when its argument's channels are all integers |
| Agreement.TentDiverges | _randomart.c:49-51 | `Tent(Constant(0.5, 0.5, 0.5))` is 0 directly and 1 natively |
| Agreement.ModNodeSides | randomart/__init__.py:210-215 | `Mod(e1, e2)` is zero directly but `qcolor_mod` of e1 by e2 natively |
| Agreement.ModDiverges | _randomart.c:87-98 | `Mod(Constant(0.5, …), Constant(0.3, …))` is 0 directly and 0.2 natively |
| Raster.NewSlabArt | randomart/__init__.py:425-427 | a new slab keeps its side length, has `size * size` zero pixels and no cached native tree |
| Raster.SetArt | randomart/__init__.py:372-374 | after `set_art` the cache is consistent with the expression |
| Raster.ReifyArt | randomart/__init__.py:376-377 | after `reify` there is a cached tree, fully wired and consistent with the expression |
| Raster.SetArtThenReify | randomart/__init__.py:372-377 | `set_art` then `reify` caches exactly the new expression's native tree, keeps the pixels and size, and `set_art` discards any earlier cache |
| Raster.Coord | randomart/__init__.py:384-385 | a coordinate is undefined (ZeroDivisionError) exactly when the size is 0 |
| Raster.CoordOfPixel | randomart/__init__.py:383-396 | with d = 1, `d / 2` is 0, so pixel x maps to 2x/S - 1, strictly increasing in x and within [-1, 1) |
| Raster.GetPixel | randomart/__init__.py:383-389 | `get_pixel` has a colour exactly when the size is non-zero |
| Raster.ReifyKeepsPixels | randomart/__init__.py:383-389 | after `set_art` the expression is evaluated directly, after `reify` the native tree is; on trees without `Mod` and `Tent` both give the same pixel |
| Raster.SlabIndexInRange | randomart/__init__.py:429-430 | pixel (x, y) of the square has index `x*S + y` in [0, S·S), with row and column recovered by division and remainder |
| Raster.SlabIndexInjective | randomart/__init__.py:429-430 | different pixels never share an index |
| Raster.SlabIndexOnto | randomart/__init__.py:427-430 | every index of the array belongs to a pixel of the square |
| Raster.SetPixel | randomart/__init__.py:429-430 | `set_pixel` succeeds exactly when the index is a valid Python index of the array, negative ones included, and keeps its length |
| Raster.SetPixelInSquare | randomart/__init__.py:429-430 | inside the square, `set_pixel` changes the pixel's own cell to the packed colour and no other cell |
| Raster.DrawRectangle | randomart/__init__.py:432-436 | a rectangle inside the square paints exactly its own cells with the packed colour and leaves every other cell unchanged |
| Raster.Pixel | randomart/__init__.py:395-399 | the value the pass stores for a pixel is a packed colour, below 2^24 |
| Raster.DrawStep | randomart/__init__.py:395-399 | painting the one-pixel square of the next pixel with its colour extends the drawn prefix by exactly that pixel |
| Raster.DrawRow | randomart/__init__.py:395-399 | one pass of the inner loop paints every pixel of row x and leaves later rows untouched |
| Raster.DrawRounds | randomart/__init__.py:391-402 | one pass yields S times and leaves every cell holding the packed, quantised colour of its own pixel |
| Raster.DrawnCell | randomart/__init__.py:395-401 | after the pass, cell `x*S + y` holds the colour of pixel (x, y), a value below 2^24 |
| Raster.Be32 | randomart/__init__.py:439 | `struct.pack('!I', v)` is four bytes |
| Raster.Be32RoundTrip | randomart/__init__.py:439 | the four big-endian bytes determine the word |
| Raster.PackWords | randomart/__init__.py:441-442 | the pixels pack exactly when each is in [0, 2^32), to four bytes apiece |
| Raster.PackWordsRoundTrip | randomart/__init__.py:441-442 | the packed pixels are recovered from the bytes |
| Raster.Save | randomart/__init__.py:438-442 | `save` succeeds exactly when the size and the first S·S pixels are 32-bit unsigned values; its output is 8 + 4·S·S bytes and starts with S twice |
| Raster.SaveLoadRoundTrip | randomart/__init__.py:438-442 | the side length and all S·S pixels are recovered from the saved bytes |
| Raster.CreateImage | randomart/__init__.py:457-464 | creating an image sets the expression, leaves no cached tree, gives every pixel its packed colour, and produces a savable slab whenever the side length fits in 32 bits |

## Left out

- **Floating point.** Channels are reals, with no rounding, NaN or infinity. Python `%` and C `fmod`
  get their exact real-number definitions, as a - b·floor(a/b) and a - b·trunc(a/b). A zero
  divisor gives no result. `fmod` is exact in IEEE arithmetic. Python's `%` adds the divisor back
  when the signs differ, and that addition can round (`-1e-20 % 1.0` is `1.0`); this rounding is
  not modelled.
- **`math.sin` and the C `sin`.** These are one parameter `sine`; only its boundedness is ever
  assumed.
- **The `_loadcomponent` switches.** `RA_NONATIVE`, `RA_COMPARE`, `blacklist_natives` and
  `_compare_factory` are configuration, not behaviour. Direct evaluation is modelled with the
  `_py_*` operators. When the library is present, `_loadcomponent` substitutes the `qcolor_*`
  operators into direct evaluation.
  - For average, product, well, sine and level these compute the same thing
    (`Agreement.SharedOperatorsAgree`).
  - For mod and tent the native behaviour is the one in `Native.QcolorMod` and `Native.QcolorTent`.
- **ctypes plumbing.** This covers library loading, the `_pins` tuples, and the fixed 4-slot,
  80-byte `transforminfo` layout. Slots and data are sequences of exactly the length each init
  fills, and `Native.Wired` says they were filled.
- **Conversion out of `int` range.** The double-to-`int` conversion in the C `tent` is undefined
  outside the `int` range. `Trunc` is unbounded.
- **Printing.** The `__repr__` methods and the `*_inspect` functions are string formatting only.
- **Randomness.** Distributions are not modelled; `ValidChoices` gives only the ranges.
  `setup_art`'s `randrange(20, 150)` budget is a caller's choice of k.
- **The image library and serialisation.** PIL (`_PILArt`, `pil_create_image`) and `pickle` loading
  are out. `Raster.CreateImage` takes the expression that `pickle.load` would return.
- **The progress coroutine.** The `yield` in `_do_draw_rounds` is modelled as a count of rounds.
  `redraw`, which runs the coroutine to its end, is `DrawRounds` itself.
- **The output file.** `save` writes to a file handle. The model returns the bytes. The header bytes
  written before a `struct.error` are not modelled.
- **The pixel array's integer width.** The `array('i')` 32-bit range is not enforced on stores. Every
  value the drawing pass stores is a `pack_rgb` value below 2^24.
- **Unused fields.** `BaseArt.d` and `BaseArt.y` are set but never read by the modelled code.
- **Scripts.** `batch_render.py` and `speedtest.py` are I/O drivers and timing. The commented-out Tk
  interface is out as well.
- Raster.DrawRectangle: the contract characterises only rectangles inside the square. Negative
  Python indices are modelled in `Raster.SetPixel`, but what a rectangle partly outside the square
  paints (wrapped cells, or an IndexError part-way) is not stated.
- Raster.GetPixel: its contract states only when a colour exists. Which evaluator is used is stated
  by `Raster.ReifyKeepsPixels`.
- Raster.NewSlabArt: `BaseArt.__init__` sets neither `art` nor `art_reified`, so `get_pixel`,
  `reify` or a drawing pass before `set_art` raises AttributeError. The model gives a new slab the
  placeholder expression `VariableX` instead and does not model that error; every modelled path
  (`Raster.CreateImage`) calls `set_art` first.
- Raster.NewSlabArt: side lengths are taken as non-negative (`size: nat`). The source never
  checks the sign. `MemorySlabArt(-2)` builds a 4-cell array, because (-2)·(-2) = 4. A drawing pass
  on it draws nothing, since `range(-2)` is empty, and `save` raises `struct.error` on the first
  `'!I'` pack. None of this is modelled.
