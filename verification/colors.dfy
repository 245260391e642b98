/** The two colour records of `randomart/formats.py`.

    `qcolor` is the continuous colour every expression node produces: three
    doubles, conventionally in [-1, 1]. `color` is the displayable colour:
    three `c_ubyte` channels. `qcolor.to_color` is the only way from the
    first to the second, and `color` knows how to pack itself into an
    integer or print itself as an HTML colour. */
module Colors {
  import opened Numeric
  import opened Wrappers

  /** A `c_ubyte` channel. */
  type Byte = n: int | 0 <= n < 256

  datatype QColor = QColor(r: real, g: real, b: real)

  datatype Color = Color(r: Byte, g: Byte, b: Byte)

  /** `qcolor()` with its default arguments. */
  const Zero: QColor := QColor(0.0, 0.0, 0.0)

  predicate InUnitRange(v: real) {
    -1.0 <= v <= 1.0
  }

  predicate ChannelsInUnitRange(c: QColor) {
    InUnitRange(c.r) && InUnitRange(c.g) && InUnitRange(c.b)
  }

  /** Every channel in [-1, 1), the range of the well shape. */
  predicate ChannelsInWellRange(c: QColor) {
    -1.0 <= c.r < 1.0 && -1.0 <= c.g < 1.0 && -1.0 <= c.b < 1.0
  }

  /** No channel above 1, the bound of the tent shape. */
  predicate ChannelsAtMostOne(c: QColor) {
    c.r <= 1.0 && c.g <= 1.0 && c.b <= 1.0
  }

  /** Each channel of `c` is the same channel of `a` or of `b`. */
  predicate ChannelsFrom(c: QColor, a: QColor, b: QColor) {
    (c.r == a.r || c.r == b.r) && (c.g == a.g || c.g == b.g) && (c.b == a.b || c.b == b.b)
  }

  // ---------------------------------------------------------------------
  // Quantisation

  /** `qcolor._color_quantize`: scale [-1, 1] onto [0, 256), convert with
      `int()` (toward zero) and clamp into a byte. */
  function Quantize(v: real): (n: Byte)
    ensures v <= -1.0 ==> n == 0
    ensures v >= 1.0 ==> n == 255
  {
    var t := Trunc(128.0 * (v + 1.0));
    if t > 255 then 255 else if t < 0 then 0 else t
  }

  /** Which scaled values land on which byte, stated without truncation:
      byte `n` collects the scaled values in `[n, n + 1)`, except that 0 and
      255 also absorb everything below and above the scale. */
  lemma QuantizeCharacterisation(v: real, n: Byte)
    ensures Quantize(v) == n <==>
      var t := 128.0 * (v + 1.0);
      if n == 0 then t < 1.0
      else if n == 255 then t >= 255.0
      else n as real <= t < n as real + 1.0
  {
  }

  lemma QuantizeMonotone(v: real, w: real)
    requires v <= w
    ensures Quantize(v) <= Quantize(w)
  {
    TruncMonotone(128.0 * (v + 1.0), 128.0 * (w + 1.0));
  }

  /** `qcolor.to_color`: quantise the three channels separately. */
  function ToColor(c: QColor): (col: Color)
    ensures c.r == c.g ==> col.r == col.g
    ensures c.g == c.b ==> col.g == col.b
    ensures c.r <= -1.0 && c.g <= -1.0 && c.b <= -1.0 ==> col == Color(0, 0, 0)
    ensures c.r >= 1.0 && c.g >= 1.0 && c.b >= 1.0 ==> col == Color(255, 255, 255)
  {
    Color(Quantize(c.r), Quantize(c.g), Quantize(c.b))
  }

  /** Each output channel of `to_color` depends on its own input channel
      and on nothing else. */
  lemma ToColorIndependentChannels(c: QColor, d: QColor)
    ensures c.r == d.r ==> ToColor(c).r == ToColor(d).r
    ensures c.g == d.g ==> ToColor(c).g == ToColor(d).g
    ensures c.b == d.b ==> ToColor(c).b == ToColor(d).b
  {
  }

  lemma ToColorMonotone(c: QColor, d: QColor)
    requires c.r <= d.r && c.g <= d.g && c.b <= d.b
    ensures ToColor(c).r <= ToColor(d).r
    ensures ToColor(c).g <= ToColor(d).g
    ensures ToColor(c).b <= ToColor(d).b
  {
    QuantizeMonotone(c.r, d.r);
    QuantizeMonotone(c.g, d.g);
    QuantizeMonotone(c.b, d.b);
  }

  /** `qcolor.apply_filter`. */
  function ApplyFilter(c: QColor, f: real -> real): (r: QColor)
    ensures (forall v :: f(v) == v) ==> r == c
    ensures c.r == c.g ==> r.r == r.g
  {
    QColor(f(c.r), f(c.g), f(c.b))
  }

  /** Filtering twice is filtering once with the composition, and the
      identity filter changes nothing. */
  lemma ApplyFilterCompose(c: QColor, f: real -> real, g: real -> real)
    ensures ApplyFilter(ApplyFilter(c, f), g) == ApplyFilter(c, x => g(f(x)))
    ensures ApplyFilter(c, x => x) == c
  {
  }

  // ---------------------------------------------------------------------
  // Packing (Python `<<` on non-negative integers is multiplication by a
  // power of two; `>> k` then `& 0xff` is division then remainder)

  /** `color.pack_rgb`: 0x00RRGGBB. */
  function PackRgb(c: Color): (p: nat)
    ensures p < 0x100_0000
  {
    c.r * 0x1_0000 + c.g * 0x100 + c.b
  }

  function UnpackRgb(p: nat): Color {
    Color((p / 0x1_0000) % 0x100, (p / 0x100) % 0x100, p % 0x100)
  }

  lemma PackRgbRoundTrip(c: Color)
    ensures UnpackRgb(PackRgb(c)) == c
  {
    var p := PackRgb(c);
    DivModUnique(p, 0x1_0000, c.r, c.g * 0x100 + c.b);
    DivModUnique(c.r, 0x100, 0, c.r);
    DivModUnique(p, 0x100, c.r * 0x100 + c.g, c.b);
    DivModUnique(c.r * 0x100 + c.g, 0x100, c.r, c.g);
  }

  lemma PackRgbInjective(c: Color, d: Color)
    ensures PackRgb(c) == PackRgb(d) <==> c == d
  {
    PackRgbRoundTrip(c);
    PackRgbRoundTrip(d);
  }

  /** `color.pack_rgba`: 0xRRGGBB00. */
  function PackRgba(c: Color): (p: nat)
    ensures p < 0x1_0000_0000
    ensures p % 0x100 == 0
  {
    c.r * 0x100_0000 + c.g * 0x1_0000 + c.b * 0x100
  }

  function UnpackRgba(p: nat): Color {
    Color((p / 0x100_0000) % 0x100, (p / 0x1_0000) % 0x100, (p / 0x100) % 0x100)
  }

  lemma PackRgbaRoundTrip(c: Color)
    ensures UnpackRgba(PackRgba(c)) == c
  {
    var p := PackRgba(c);
    DivModUnique(p, 0x100_0000, c.r, c.g * 0x1_0000 + c.b * 0x100);
    DivModUnique(c.r, 0x100, 0, c.r);
    DivModUnique(p, 0x1_0000, c.r * 0x100 + c.g, c.b * 0x100);
    DivModUnique(c.r * 0x100 + c.g, 0x100, c.r, c.g);
    DivModUnique(p, 0x100, PackRgb(c), 0);
    PackRgbRoundTrip(c);
  }

  /** The two packings hold the same channels one byte apart. */
  lemma PackRgbaIsShiftedRgb(c: Color)
    ensures PackRgba(c) == PackRgb(c) * 0x100
  {
  }

  // ---------------------------------------------------------------------
  // HTML colour strings

  /** A lowercase hexadecimal digit, as `format` prints them. */
  predicate IsHexDigit(ch: char) {
    '0' <= ch <= '9' || 'a' <= ch <= 'f'
  }

  /** The digit `format` prints for `d < 16`. */
  function HexDigit(d: nat): (ch: char)
    requires d < 16
    ensures IsHexDigit(ch)
  {
    if d < 10 then ('0' as int + d) as char else ('a' as int + d - 10) as char
  }

  /** `'{:02x}'.format(n)` for a byte. */
  function Hex2(n: Byte): string {
    [HexDigit(n / 16), HexDigit(n % 16)]
  }

  /** `color.to_html`. */
  function ToHtml(c: Color): (s: string)
    ensures |s| == 7 && s[0] == '#'
    ensures forall i :: 1 <= i < 7 ==> IsHexDigit(s[i])
  {
    "#" + Hex2(c.r) + Hex2(c.g) + Hex2(c.b)
  }

  /** The value of a lowercase hexadecimal digit. */
  function HexValue(ch: char): (v: Option<nat>)
    ensures v.Some? <==> IsHexDigit(ch)
    ensures v.Some? ==> v.value < 16 && HexDigit(v.value) == ch
  {
    if '0' <= ch <= '9' then Some(ch as int - '0' as int)
    else if 'a' <= ch <= 'f' then Some(ch as int - 'a' as int + 10)
    else None
  }

  function ParseHex2(s: string): (v: Option<Byte>)
    requires |s| == 2
  {
    var hi := HexValue(s[0]);
    var lo := HexValue(s[1]);
    if hi.Some? && lo.Some? then Some(hi.value * 16 + lo.value) else None
  }

  /** Reads back a `#rrggbb` string as written by `to_html`. */
  function ParseHtml(s: string): Option<Color> {
    if |s| != 7 || s[0] != '#' then None
    else
      var r := ParseHex2(s[1..3]);
      var g := ParseHex2(s[3..5]);
      var b := ParseHex2(s[5..7]);
      if r.Some? && g.Some? && b.Some? then Some(Color(r.value, g.value, b.value)) else None
  }

  lemma Hex2RoundTrip(n: Byte)
    ensures ParseHex2(Hex2(n)) == Some(n)
  {
    ParseDigitPair(n / 16, n % 16);
    assert (n / 16) * 16 + n % 16 == n;
  }

  /** Two digits read back as the byte they spell. */
  lemma ParseDigitPair(hi: nat, lo: nat)
    requires hi < 16 && lo < 16
    ensures ParseHex2([HexDigit(hi), HexDigit(lo)]) == Some(hi * 16 + lo)
  {
    HexValueOfDigit(hi);
    HexValueOfDigit(lo);
  }

  /** Digit `d` reads back as `d`. */
  lemma HexValueOfDigit(d: nat)
    requires d < 16
    ensures HexValue(HexDigit(d)) == Some(d)
  {
  }

  lemma ParseHex2Inverse(s: string, n: Byte)
    requires |s| == 2 && ParseHex2(s) == Some(n)
    ensures Hex2(n) == s
  {
    var hi := HexValue(s[0]).value;
    var lo := HexValue(s[1]).value;
    assert n / 16 == hi && n % 16 == lo;
  }

  /** `to_html` is inverted by `ParseHtml`: the string carries the three
      channels in red, green, blue order. */
  lemma ToHtmlRoundTrip(c: Color)
    ensures ParseHtml(ToHtml(c)) == Some(c)
  {
    var s := ToHtml(c);
    assert s == "#" + Hex2(c.r) + Hex2(c.g) + Hex2(c.b);
    assert s[1..3] == Hex2(c.r);
    assert s[3..5] == Hex2(c.g);
    assert s[5..7] == Hex2(c.b);
    Hex2RoundTrip(c.r);
    Hex2RoundTrip(c.g);
    Hex2RoundTrip(c.b);
  }

  /** Conversely, every string `ParseHtml` accepts is exactly what
      `to_html` prints for the colour it reads. */
  lemma ParseHtmlInverse(s: string, c: Color)
    requires ParseHtml(s) == Some(c)
    ensures ToHtml(c) == s
  {
    ParsedFields(s, c);
    ParseHex2Inverse(s[1..3], c.r);
    ParseHex2Inverse(s[3..5], c.g);
    ParseHex2Inverse(s[5..7], c.b);
    SplitSeven(s);
  }

  /** What `ParseHtml` accepting a string says about its three fields. */
  lemma ParsedFields(s: string, c: Color)
    requires ParseHtml(s) == Some(c)
    ensures |s| == 7 && s[0] == '#'
    ensures ParseHex2(s[1..3]) == Some(c.r)
    ensures ParseHex2(s[3..5]) == Some(c.g)
    ensures ParseHex2(s[5..7]) == Some(c.b)
  {
  }

  lemma SplitSeven(s: string)
    requires |s| == 7 && s[0] == '#'
    ensures s == "#" + s[1..3] + s[3..5] + s[5..7]
  {
    assert s[..1] == "#";
    assert s == s[..1] + s[1..3] + s[3..5] + s[5..7];
  }
}
