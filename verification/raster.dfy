/** `BaseArt` and `MemorySlabArt` of `randomart/__init__.py`: drawing an
    expression into a square of pixels.

    A `MemorySlabArt` of side `S` keeps its pixels in an `array('i')` of
    `S * S` packed colours, pixel `(x, y)` at index `x * S + y`. Drawing
    visits every pixel once, maps it into the evaluation square [-1, 1]²,
    evaluates the expression there (natively when a reified tree is cached)
    and stores the packed colour. `save` writes the side length twice and
    then every pixel, each as a big-endian unsigned 32-bit word. */
module Raster {
  import opened Wrappers
  import opened Numeric
  import opened Colors
  import opened RandomArt
  import Native
  import Agreement

  /** The fields the drawing code uses: `size`, `art`, `art_reified` and
      the pixel array `target`. */
  datatype SlabArt = SlabArt(size: nat, art: Expr, reified: Option<Native.Info>, target: seq<int>)

  /** The cached native tree, when there is one, is a reification of the
      current expression. */
  predicate Cached(a: SlabArt) {
    a.reified.Some? ==> a.reified.value == Reify(a.art)
  }

  /** `MemorySlabArt.__init__`: a zeroed array of `size * size` pixels and
      no cached native tree. No expression is set yet; `art` holds a
      placeholder until `set_art`. */
  function NewSlabArt(size: nat): (a: SlabArt)
    ensures a.size == size && a.reified == None
    ensures |a.target| == size * size && forall i :: 0 <= i < |a.target| ==> a.target[i] == 0
    ensures Cached(a)
  {
    SlabArt(size, VariableX, None, seq(size * size, _ => 0))
  }

  /** `set_art`: install an expression and drop the cached native tree. */
  function SetArt(a: SlabArt, art: Expr): (b: SlabArt)
    ensures Cached(b)
  {
    a.(art := art, reified := None)
  }

  /** `reify`: cache the native tree of the current expression. */
  function ReifyArt(a: SlabArt): (b: SlabArt)
    ensures Cached(b)
    ensures b.reified.Some? && Native.Wired(b.reified.value)
  {
    a.(reified := Some(Reify(a.art)))
  }

  /** `set_art` followed by `reify` caches exactly the new expression's
      native tree, and neither touches the pixels or the side length. */
  lemma SetArtThenReify(a: SlabArt, art: Expr)
    ensures ReifyArt(SetArt(a, art)).reified == Some(Reify(art))
    ensures ReifyArt(SetArt(a, art)).art == art
    ensures ReifyArt(SetArt(a, art)).target == a.target
    ensures ReifyArt(SetArt(a, art)).size == a.size
    ensures SetArt(ReifyArt(a), art) == SetArt(a, art)
  {
  }

  // ---------------------------------------------------------------------
  // Pixel coordinates

  /** One coordinate of `get_pixel`: `2 * float(x + d / 2) / size - 1.0`,
      where `d / 2` is Python 2 integer (floor) division. A zero size
      raises ZeroDivisionError (`None`). */
  function Coord(x: int, d: int, size: nat): (u: Option<real>)
    ensures u.None? <==> size == 0
  {
    if size == 0 then None
    else Some(2.0 * ((x + d / 2) as real) / (size as real) - 1.0)
  }

  /** With the square size 1 the drawing pass uses, `d / 2` is 0: the
      pixel's corner, not its centre, is evaluated, and the `size` pixels
      of a row land in [-1, 1), evenly spaced and increasing. */
  lemma CoordOfPixel(x: int, x': int, size: nat)
    requires 0 <= x < size && 0 <= x' < size
    ensures Coord(x, 1, size) == Coord(x, 0, size)
    ensures -1.0 <= Coord(x, 1, size).value < 1.0
    ensures x < x' ==> Coord(x, 1, size).value < Coord(x', 1, size).value
    ensures Coord(x, 1, size).value == 2.0 * (x as real) / (size as real) - 1.0
  {
    var s := size as real;
    assert 1 / 2 == 0;
    DivLess(2.0 * (x as real), 2.0 * s, s);
    assert 2.0 * s / s == 2.0;
    if x < x' {
      DivLess(2.0 * (x as real), 2.0 * (x' as real), s);
    }
  }

  lemma DivLess(a: real, b: real, s: real)
    requires a < b && 0.0 < s
    ensures a / s < b / s
  {
    assert b / s - a / s == (b - a) / s;
  }

  /** `get_pixel`: the colour at pixel `(x, y)` for square size `d`; the
      cached native tree is evaluated when there is one, the expression
      itself otherwise. */
  function GetPixel(a: SlabArt, x: int, y: int, d: int, sine: real -> real): (c: Option<QColor>)
    requires a.reified.Some? ==> Native.Wired(a.reified.value)
    ensures c.None? <==> a.size == 0
  {
    match (Coord(x, d, a.size), Coord(y, d, a.size))
    case (Some(u), Some(v)) =>
      Some(if a.reified.Some? then Native.Eval(a.reified.value, sine, u, v)
           else Eval(a.art, sine, u, v))
    case _ => None
  }

  /** `set_art` makes `get_pixel` evaluate the new expression directly;
      after `reify`, pixels come from the native tree. For an expression
      without `Mod` and `Tent` the two give the same picture. */
  lemma ReifyKeepsPixels(a: SlabArt, art: Expr, x: int, y: int, d: int, sine: real -> real)
    requires 0 < a.size
    ensures var u := Coord(x, d, a.size).value;
      var v := Coord(y, d, a.size).value;
      GetPixel(SetArt(a, art), x, y, d, sine) == Some(Eval(art, sine, u, v)) &&
      GetPixel(ReifyArt(SetArt(a, art)), x, y, d, sine) == Some(Native.Eval(Reify(art), sine, u, v))
    ensures Agreement.SharedFormulas(art) ==>
      GetPixel(ReifyArt(SetArt(a, art)), x, y, d, sine) == GetPixel(SetArt(a, art), x, y, d, sine)
  {
    if Agreement.SharedFormulas(art) {
      Agreement.ReifiedEvalAgrees(art, sine, Coord(x, d, a.size).value, Coord(y, d, a.size).value);
    }
  }

  // ---------------------------------------------------------------------
  // The slab

  /** Where pixel `(x, y)` lives in the array. */
  function SlabIndex(x: int, y: int, size: nat): int {
    x * size + y
  }

  /** Every pixel of the square has an index in the array, and the index
      determines the pixel: the row is the quotient by `size`, the column
      the remainder. */
  lemma SlabIndexInRange(x: int, y: int, size: nat)
    requires 0 <= x < size && 0 <= y < size
    ensures 0 <= SlabIndex(x, y, size) < size * size
    ensures SlabIndex(x, y, size) / size == x && SlabIndex(x, y, size) % size == y
  {
    MulMonotone(x, size - 1, size);
    assert (size - 1) * size == size * size - size;
    DivModUnique(SlabIndex(x, y, size), size, x, y);
  }

  /** Two different pixels never share an index. */
  lemma SlabIndexInjective(x: int, y: int, x': int, y': int, size: nat)
    requires 0 <= x < size && 0 <= y < size && 0 <= x' < size && 0 <= y' < size
    ensures SlabIndex(x, y, size) == SlabIndex(x', y', size) <==> x == x' && y == y'
  {
    SlabIndexInRange(x, y, size);
    SlabIndexInRange(x', y', size);
  }

  /** And every index belongs to a pixel. */
  lemma SlabIndexOnto(i: int, size: nat)
    requires 0 <= i < size * size
    ensures 0 <= i / size < size && 0 <= i % size < size
    ensures SlabIndex(i / size, i % size, size) == i
  {
    var q := i / size;
    assert i == q * size + i % size;
    MulCancelLess(q, size, size);
    MulAtLeast(q, size);
  }

  /** `set_pixel`: store the packed colour at `x * size + y`. The array
      follows Python indexing: a negative index counts from the end, and an
      index outside `[-len, len)` raises IndexError (`None`). */
  function SetPixel(target: seq<int>, size: nat, x: int, y: int, fill: Color): (r: Option<seq<int>>)
    ensures var i := SlabIndex(x, y, size);
      r.Some? <==> -|target| <= i < |target|
    ensures r.Some? ==> |r.value| == |target|
  {
    var i := SlabIndex(x, y, size);
    if 0 <= i < |target| then Some(target[i := PackRgb(fill)])
    else if -|target| <= i < 0 then Some(target[i + |target| := PackRgb(fill)])
    else None
  }

  /** Inside the square, `set_pixel` changes exactly the pixel's cell. */
  lemma SetPixelInSquare(target: seq<int>, size: nat, x: int, y: int, fill: Color)
    requires |target| == size * size && 0 <= x < size && 0 <= y < size
    ensures SetPixel(target, size, x, y, fill).Some?
    ensures forall i :: 0 <= i < |target| ==>
      SetPixel(target, size, x, y, fill).value[i] ==
        if i / size == x && i % size == y then PackRgb(fill) else target[i]
  {
    SlabIndexInRange(x, y, size);
    forall i | 0 <= i < |target|
      ensures SetPixel(target, size, x, y, fill).value[i] ==
        if i / size == x && i % size == y then PackRgb(fill) else target[i]
    {
      SlabIndexOnto(i, size);
    }
  }

  /** Cell `i` holds a pixel of the rectangle `[x0, x1) × [y0, y1)`. */
  predicate Covered(i: int, size: nat, x0: int, y0: int, x1: int, y1: int) {
    0 < size && x0 <= i / size < x1 && y0 <= i % size < y1
  }

  /** `MemorySlabArt._draw_rectangle`: `set_pixel` for every pixel of the
      rectangle, row by row. A rectangle inside the square paints exactly
      its own cells and leaves every other cell as it was. */
  method DrawRectangle(target: seq<int>, size: nat, x0: int, y0: int, x1: int, y1: int, fill: Color)
    returns (r: Option<seq<int>>)
    ensures |target| == size * size && 0 <= x0 && 0 <= y0 && x1 <= size && y1 <= size ==>
      && r.Some? && |r.value| == |target|
      && forall i :: 0 <= i < |target| ==>
           r.value[i] == if Covered(i, size, x0, y0, x1, y1) then PackRgb(fill) else target[i]
  {
    var inSquare := |target| == size * size && 0 <= x0 && 0 <= y0 && x1 <= size && y1 <= size;
    var v := PackRgb(fill);
    var t := target;
    var x := x0;
    while x < x1
      invariant x == x0 || x0 <= x <= x1
      invariant |t| == |target|
      invariant inSquare ==> forall i :: 0 <= i < |t| ==>
        t[i] == if Covered(i, size, x0, y0, x, y1) then v else target[i]
    {
      var y := y0;
      while y < y1
        invariant y == y0 || y0 <= y <= y1
        invariant |t| == |target|
        invariant inSquare ==> forall i :: 0 <= i < |t| ==>
          t[i] == if Covered(i, size, x0, y0, x, y1) || Covered(i, size, x, y0, x + 1, y) then v else target[i]
      {
        if inSquare {
          SetPixelInSquare(t, size, x, y, fill);
        }
        var next := SetPixel(t, size, x, y, fill);
        if next.None? {
          return None;
        }
        t := next.value;
        y := y + 1;
      }
      if inSquare {
        forall i | 0 <= i < |t|
          ensures Covered(i, size, x0, y0, x, y1) || Covered(i, size, x, y0, x + 1, y)
                  <==> Covered(i, size, x0, y0, x + 1, y1)
        {
        }
      }
      x := x + 1;
    }
    if inSquare {
      forall i | 0 <= i < |t|
        ensures Covered(i, size, x0, y0, x, y1) <==> Covered(i, size, x0, y0, x1, y1)
      {
      }
    }
    return Some(t);
  }

  /** The packed colour of pixel `(x, y)` as the drawing pass stores it. */
  function Pixel(a: SlabArt, x: int, y: int, sine: real -> real): (v: int)
    requires 0 < a.size
    requires a.reified.Some? ==> Native.Wired(a.reified.value)
    ensures 0 <= v < 0x100_0000
  {
    PackRgb(ToColor(GetPixel(a, x, y, 1, sine).value))
  }

  /** The cells of the pixels before `(x, y)` in drawing order (earlier
      rows, then the start of row `x`) hold their packed colour; every
      other cell still holds what the slab held. */
  predicate DrawnBefore(a: SlabArt, target: seq<int>, x: int, y: int, sine: real -> real)
    requires 0 < a.size
    requires a.reified.Some? ==> Native.Wired(a.reified.value)
  {
    && |target| == |a.target|
    && forall i :: 0 <= i < |target| ==>
         target[i] == if i / a.size < x || (i / a.size == x && i % a.size < y)
                      then Pixel(a, i / a.size, i % a.size, sine) else a.target[i]
  }

  /** Painting the one-pixel square of `(x, y)` with its colour moves the
      drawn prefix on by one pixel. */
  lemma DrawStep(a: SlabArt, t: seq<int>, t': seq<int>, x: int, y: int, sine: real -> real)
    requires 0 <= x < a.size && 0 <= y < a.size && |t| == |t'| == a.size * a.size
    requires a.reified.Some? ==> Native.Wired(a.reified.value)
    requires DrawnBefore(a, t, x, y, sine)
    requires forall i :: 0 <= i < |t| ==>
      t'[i] == if Covered(i, a.size, x, y, x + 1, y + 1) then Pixel(a, x, y, sine) else t[i]
    ensures DrawnBefore(a, t', x, y + 1, sine)
  {
    forall i | 0 <= i < |t'|
      ensures t'[i] == if i / a.size < x || (i / a.size == x && i % a.size < y + 1)
                       then Pixel(a, i / a.size, i % a.size, sine) else a.target[i]
    {
      if Covered(i, a.size, x, y, x + 1, y + 1) {
        assert i / a.size == x && i % a.size == y;
      }
    }
  }

  /** The inner loop of `_do_draw_rounds`: evaluate every pixel `(x, y)` of
      row `x` and paint its one-pixel square. */
  method DrawRow(a: SlabArt, target: seq<int>, x: int, sine: real -> real) returns (t: seq<int>)
    requires 0 <= x < a.size && |target| == a.size * a.size
    requires a.reified.Some? ==> Native.Wired(a.reified.value)
    requires DrawnBefore(a, target, x, 0, sine)
    ensures |t| == |target|
    ensures DrawnBefore(a, t, x + 1, 0, sine)
  {
    var size := a.size;
    t := target;
    var y := 0;
    while y < size
      invariant y <= size
      invariant |t| == size * size
      invariant DrawnBefore(a, t, x, y, sine)
    {
      var color := GetPixel(a, x, y, 1, sine).value;
      var r := DrawRectangle(t, size, x, y, x + 1, y + 1, ToColor(color));
      assert PackRgb(ToColor(color)) == Pixel(a, x, y, sine);
      DrawStep(a, t, r.value, x, y, sine);
      t := r.value;
      y := y + 1;
    }
  }

  /** `_do_draw_rounds` (and `redraw`, which runs it to the end): for each
      row `x`, evaluate and store every pixel `(x, y)`, then yield once.
      Returns the pixel array and the number of yields. */
  method DrawRounds(a: SlabArt, sine: real -> real) returns (target: seq<int>, rounds: nat)
    requires |a.target| == a.size * a.size
    requires a.reified.Some? ==> Native.Wired(a.reified.value)
    ensures rounds == a.size
    ensures |target| == |a.target|
    ensures forall i :: 0 <= i < |target| ==> target[i] == Pixel(a, i / a.size, i % a.size, sine)
  {
    var size := a.size;
    target := a.target;
    rounds := 0;
    if size == 0 {
      return;
    }
    var x := 0;
    DrawnNothing(a, sine);
    while x < size
      invariant x <= size && rounds == x
      invariant |target| == size * size
      invariant DrawnBefore(a, target, x, 0, sine)
    {
      target := DrawRow(a, target, x, sine);
      rounds := rounds + 1;
      x := x + 1;
    }
    DrawnAll(a, target, sine);
  }

  /** Before the first row every cell holds what it held. */
  lemma DrawnNothing(a: SlabArt, sine: real -> real)
    requires 0 < a.size
    requires a.reified.Some? ==> Native.Wired(a.reified.value)
    ensures DrawnBefore(a, a.target, 0, 0, sine)
  {
    forall i | 0 <= i < |a.target|
      ensures i / a.size >= 0
    {
    }
  }

  /** Once every row is drawn, every cell holds its own pixel. */
  lemma DrawnAll(a: SlabArt, target: seq<int>, sine: real -> real)
    requires 0 < a.size && |a.target| == a.size * a.size
    requires a.reified.Some? ==> Native.Wired(a.reified.value)
    requires DrawnBefore(a, target, a.size, 0, sine)
    ensures forall i :: 0 <= i < |target| ==> target[i] == Pixel(a, i / a.size, i % a.size, sine)
  {
    forall i | 0 <= i < |target|
      ensures target[i] == Pixel(a, i / a.size, i % a.size, sine)
    {
      SlabIndexOnto(i, a.size);
    }
  }

  /** After drawing, the cell of every pixel `(x, y)` holds that pixel's
      packed colour: every index is written, and with the right value. */
  lemma DrawnCell(a: SlabArt, target: seq<int>, x: int, y: int, sine: real -> real)
    requires 0 <= x < a.size && 0 <= y < a.size
    requires a.reified.Some? ==> Native.Wired(a.reified.value)
    requires |target| == a.size * a.size
    requires forall i :: 0 <= i < |target| ==> target[i] == Pixel(a, i / a.size, i % a.size, sine)
    ensures 0 <= SlabIndex(x, y, a.size) < |target|
    ensures target[SlabIndex(x, y, a.size)] == Pixel(a, x, y, sine)
    ensures 0 <= target[SlabIndex(x, y, a.size)] < 0x100_0000
  {
    var i := SlabIndex(x, y, a.size);
    SlabIndexInRange(x, y, a.size);
    assert target[i] == Pixel(a, i / a.size, i % a.size, sine);
  }

  // ---------------------------------------------------------------------
  // `save`

  /** `struct.pack('!I', v)`. */
  function Be32(v: int): (bs: seq<Byte>)
    requires 0 <= v < 0x1_0000_0000
    ensures |bs| == 4
  {
    [v / 0x100_0000, (v / 0x1_0000) % 0x100, (v / 0x100) % 0x100, v % 0x100]
  }

  /** `struct.unpack('!I', bs)`. */
  function UnBe32(bs: seq<Byte>): int
    requires |bs| == 4
  {
    (bs[0] as int) * 0x100_0000 + (bs[1] as int) * 0x1_0000 + (bs[2] as int) * 0x100 + bs[3] as int
  }

  lemma Be32RoundTrip(v: int)
    requires 0 <= v < 0x1_0000_0000
    ensures UnBe32(Be32(v)) == v
  {
    // v written in base 256 as b0 b1 b2 b3
    var b0, r0 := v / 0x100_0000, v % 0x100_0000;
    var b1, r1 := r0 / 0x1_0000, r0 % 0x1_0000;
    var b2, b3 := r1 / 0x100, r1 % 0x100;
    assert v == b0 * 0x100_0000 + b1 * 0x1_0000 + b2 * 0x100 + b3;
    DivModUnique(v, 0x1_0000, b0 * 0x100 + b1, b2 * 0x100 + b3);
    DivModUnique(b0 * 0x100 + b1, 0x100, b0, b1);
    DivModUnique(v, 0x100, b0 * 0x1_0000 + b1 * 0x100 + b2, b3);
    DivModUnique(b0 * 0x1_0000 + b1 * 0x100 + b2, 0x100, b0 * 0x100 + b1, b2);
    assert Be32(v) == [b0, b1, b2, b3];
  }

  predicate IsWord(v: int) {
    0 <= v < 0x1_0000_0000
  }

  /** One `struct.pack('!I', w)` per word; `struct.error` (`None`) when a
      word is negative or does not fit in 32 bits. */
  function PackWords(ws: seq<int>): (r: Option<seq<Byte>>)
    ensures r.Some? <==> forall i :: 0 <= i < |ws| ==> IsWord(ws[i])
    ensures r.Some? ==> |r.value| == 4 * |ws|
  {
    if |ws| == 0 then Some([])
    else if !IsWord(ws[0]) then None
    else
      match PackWords(ws[1..])
      case None => None
      case Some(rest) => Some(Be32(ws[0]) + rest)
  }

  function UnpackWords(bs: seq<Byte>): (ws: seq<int>)
    requires |bs| % 4 == 0
    ensures |ws| == |bs| / 4
  {
    if |bs| == 0 then [] else [UnBe32(bs[..4])] + UnpackWords(bs[4..])
  }

  lemma {:induction false} PackWordsRoundTrip(ws: seq<int>)
    requires PackWords(ws).Some?
    ensures UnpackWords(PackWords(ws).value) == ws
  {
    if |ws| > 0 {
      var rest := PackWords(ws[1..]).value;
      PackWordsRoundTrip(ws[1..]);
      Be32RoundTrip(ws[0]);
      var bs := Be32(ws[0]) + rest;
      assert bs[..4] == Be32(ws[0]);
      assert bs[4..] == rest;
    }
  }

  /** `MemorySlabArt.save`: the side length twice, then the first
      `size * size` pixels. IndexError or `struct.error` give `None`. */
  function Save(a: SlabArt): (r: Option<seq<Byte>>)
    ensures r.Some? <==>
      IsWord(a.size) && a.size * a.size <= |a.target| &&
      forall i :: 0 <= i < a.size * a.size ==> IsWord(a.target[i])
    ensures r.Some? ==> |r.value| == 8 + 4 * (a.size * a.size)
    ensures r.Some? ==> r.value[..4] == Be32(a.size) && r.value[4..8] == Be32(a.size)
  {
    if !IsWord(a.size) || a.size * a.size > |a.target| then None
    else
      match PackWords(a.target[..a.size * a.size])
      case None => None
      case Some(body) => Some(Be32(a.size) + Be32(a.size) + body)
  }

  /** Reads a saved slab back: its side length and its pixels. */
  function Load(bs: seq<Byte>): Option<(nat, seq<int>)> {
    if |bs| < 8 || (|bs| - 8) % 4 != 0 then None
    else
      var size := UnBe32(bs[..4]);
      if size != UnBe32(bs[4..8]) || |bs| != 8 + 4 * (size * size) then None
      else Some((size, UnpackWords(bs[8..])))
  }

  /** What `save` writes determines the side length and every pixel. */
  lemma SaveLoadRoundTrip(a: SlabArt)
    requires Save(a).Some?
    ensures Load(Save(a).value) == Some((a.size, a.target[..a.size * a.size]))
  {
    var ws := a.target[..a.size * a.size];
    var body := PackWords(ws).value;
    var bs := Save(a).value;
    var n := a.size * a.size;
    assert |bs| - 8 == 4 * n && (4 * n) % 4 == 0;
    assert bs == Be32(a.size) + Be32(a.size) + body;
    assert bs[..4] == Be32(a.size);
    assert bs[4..8] == Be32(a.size);
    assert bs[8..] == body;
    Be32RoundTrip(a.size);
    PackWordsRoundTrip(ws);
  }

  // ---------------------------------------------------------------------
  // `memoryslab_create_image` with a given expression

  /** A new slab, the expression set, and one full drawing pass. The result
      can always be saved: every stored pixel is a packed colour. */
  method CreateImage(size: nat, art: Expr, sine: real -> real) returns (a: SlabArt)
    ensures a == SetArt(NewSlabArt(size), art).(target := a.target)
    ensures |a.target| == size * size
    ensures forall x, y :: 0 <= x < size && 0 <= y < size ==>
      0 <= SlabIndex(x, y, size) < |a.target| &&
      a.target[SlabIndex(x, y, size)] == PackRgb(ToColor(GetPixel(a, x, y, 1, sine).value))
    ensures size < 0x1_0000_0000 ==> Save(a).Some?
  {
    a := SetArt(NewSlabArt(size), art);
    var target, rounds := DrawRounds(a, sine);
    forall x, y | 0 <= x < size && 0 <= y < size
      ensures 0 <= SlabIndex(x, y, size) < |target| && target[SlabIndex(x, y, size)] == Pixel(a, x, y, sine)
    {
      DrawnCell(a, target, x, y, sine);
    }
    forall i | 0 <= i < size * size
      ensures IsWord(target[i])
    {
      SlabIndexOnto(i, size);
    }
    assert target[..size * size] == target;
    a := a.(target := target);
  }
}
