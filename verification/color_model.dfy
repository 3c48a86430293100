/**
 * Colour values shared by the extractor and the serialisers: the RGB triple,
 * its `#rrggbb` encoding (`rgbToHex` in src/utils/colorExtractor.ts), its
 * `rgb(r, g, b)` text, and the `Color` record `{hex, rgb, name}` of
 * src/pages/Index.tsx.
 */
module ColorModel {
  import opened Wrappers
  import opened Text

  datatype Rgb = Rgb(r: int, g: int, b: int)

  predicate IsChannel(x: int) {
    0 <= x <= 255
  }

  predicate IsValid(c: Rgb) {
    IsChannel(c.r) && IsChannel(c.g) && IsChannel(c.b)
  }

  /** A colour record as the page shows and exports it. */
  datatype Color = Color(hex: string, rgb: string, name: string)

  // ---------------------------------------------------------------- hex digits

  predicate IsHexDigit(ch: char) {
    '0' <= ch <= '9' || 'a' <= ch <= 'f'
  }

  /** The digit `Number.prototype.toString(16)` writes for `d`: lower-case letters. */
  function HexDigit(d: int): (ch: char)
    requires 0 <= d < 16
    ensures IsHexDigit(ch)
  {
    if d < 10 then ('0' as int + d) as char else ('a' as int + d - 10) as char
  }

  function HexDigitValue(ch: char): (d: int)
    requires IsHexDigit(ch)
    ensures 0 <= d < 16 && HexDigit(d) == ch
  {
    if ch <= '9' then ch as int - '0' as int else ch as int - 'a' as int + 10
  }

  lemma HexDigitValueOf(d: int)
    requires 0 <= d < 16
    ensures HexDigitValue(HexDigit(d)) == d
  {
  }

  function Pow16(k: nat): (p: nat)
    ensures p >= 1
  {
    if k == 0 then 1 else 16 * Pow16(k - 1)
  }

  /** `n.toString(16)` for a non-negative integer `n`. */
  function ToHexString(n: nat): (s: string)
    ensures |s| >= 1
    decreases n
  {
    if n < 16 then [HexDigit(n)] else ToHexString(n / 16) + [HexDigit(n % 16)]
  }

  /** The last `width` hexadecimal digits of `x`, zero-padded. */
  function PaddedHex(x: nat, width: nat): (s: string)
    ensures |s| == width
    ensures forall i | 0 <= i < width :: IsHexDigit(s[i])
    decreases width
  {
    if width == 0 then "" else PaddedHex(x / 16, width - 1) + [HexDigit(x % 16)]
  }

  /** `(1 << 24) + (r << 16) + (g << 8) + b`; for channels in 0..255 no shift overflows 32 bits. */
  function Packed(c: Rgb): int {
    0x100_0000 + c.r * 0x1_0000 + c.g * 0x100 + c.b
  }

  /** `rgbToHex`: `"#" + Packed(c).toString(16).slice(1)`. */
  function RgbToHex(c: Rgb): (hex: string)
    requires IsValid(c)
    ensures hex == "#" + PaddedHex(c.r, 2) + PaddedHex(c.g, 2) + PaddedHex(c.b, 2)
  {
    PackedLow(c);
    LowDigits(c);
    assert ToHexString(Packed(c))[1..] == PaddedHex(c.r * 0x1_0000 + c.g * 0x100 + c.b, 6);
    "#" + ToHexString(Packed(c))[1..]
  }

  // ------------------------------------------------------------ hex arithmetic

  lemma DivModSixteen(p: nat, x: nat)
    ensures (16 * p + x) / 16 == p + x / 16
    ensures (16 * p + x) % 16 == x % 16
  {
    var q, m := x / 16, x % 16;
    assert x == 16 * q + m;
    assert 16 * p + x == 16 * (p + q) + m;
  }

  /** Writing `16^w + x` in hexadecimal gives a `1` followed by `x` padded to `w` digits. */
  lemma {:induction false} LeadingOne(w: nat, x: nat)
    requires x < Pow16(w)
    ensures ToHexString(Pow16(w) + x) == "1" + PaddedHex(x, w)
    decreases w
  {
    if w > 0 {
      var p := Pow16(w - 1);
      DivModSixteen(p, x);
      assert x / 16 < p;
      LeadingOne(w - 1, x / 16);
    }
  }

  /** Padded digits of `a * 16^w + y` split into those of `a` and those of `y`. */
  lemma {:induction false} PaddedHexSplit(a: nat, v: nat, y: nat, w: nat)
    requires y < Pow16(w)
    ensures PaddedHex(a * Pow16(w) + y, v + w) == PaddedHex(a, v) + PaddedHex(y, w)
    decreases w
  {
    if w > 0 {
      var p := Pow16(w - 1);
      var ap := a * p;
      assert a * Pow16(w) == 16 * ap by {
        assert Pow16(w) == 16 * p;
      }
      var n := 16 * ap + y;
      DivModSixteen(ap, y);
      assert y / 16 < p;
      PaddedHexSplit(a, v, y / 16, w - 1);
      assert PaddedHex(n, v + w) == PaddedHex(ap + y / 16, v + w - 1) + [HexDigit(y % 16)];
    }
  }

  function HexPairValue(s: string): (v: int)
    requires |s| == 2 && IsHexDigit(s[0]) && IsHexDigit(s[1])
    ensures 0 <= v < 256
  {
    16 * HexDigitValue(s[0]) + HexDigitValue(s[1])
  }

  lemma HexPairRoundTrip(x: int)
    requires IsChannel(x)
    ensures HexPairValue(PaddedHex(x, 2)) == x
  {
    var s := PaddedHex(x, 2);
    assert s == [HexDigit(x / 16 % 16), HexDigit(x % 16)];
    HexDigitValueOf(x / 16 % 16);
    HexDigitValueOf(x % 16);
  }

  lemma Pow16Values()
    ensures Pow16(2) == 0x100 && Pow16(4) == 0x1_0000 && Pow16(6) == 0x100_0000
  {
    assert Pow16(1) == 16;
    assert Pow16(3) == 0x1000;
    assert Pow16(5) == 0x10_0000;
  }

  /** The packed value is `16^6` plus the 24 bits of the channels. */
  lemma PackedLow(c: Rgb)
    requires IsValid(c)
    ensures ToHexString(Packed(c)) == "1" + PaddedHex(c.r * 0x1_0000 + c.g * 0x100 + c.b, 6)
  {
    Pow16Values();
    var low := c.r * 0x1_0000 + c.g * 0x100 + c.b;
    assert low < 0x100_0000;
    assert Packed(c) == Pow16(6) + low;
    LeadingOne(6, low);
  }

  /** The 24 low bits are six digits: two for each channel. */
  lemma LowDigits(c: Rgb)
    requires IsValid(c)
    ensures PaddedHex(c.r * 0x1_0000 + c.g * 0x100 + c.b, 6)
      == PaddedHex(c.r, 2) + PaddedHex(c.g, 2) + PaddedHex(c.b, 2)
  {
    Pow16Values();
    var gb := c.g * 0x100 + c.b;
    assert gb < 0x1_0000;
    PaddedHexSplit(c.g, 2, c.b, 2);
    PaddedHexSplit(c.r, 2, gb, 4);
  }

  // ------------------------------------------------------------- hex decoding

  /** Reads a `#rrggbb` string with lower-case digits; anything else is rejected. */
  function HexToRgb(hex: string): (c: Option<Rgb>)
    ensures c.Some? ==> IsValid(c.value)
  {
    if |hex| == 7 && hex[0] == '#' && forall i | 1 <= i < 7 :: IsHexDigit(hex[i]) then
      Some(Rgb(HexPairValue(hex[1..3]), HexPairValue(hex[3..5]), HexPairValue(hex[5..7])))
    else
      None
  }

  /** `rgbToHex` writes exactly `#` and six lower-case hex digits, and they decode to the triple. */
  lemma {:induction false} HexRoundTrip(c: Rgb)
    requires IsValid(c)
    ensures |RgbToHex(c)| == 7 && RgbToHex(c)[0] == '#'
    ensures forall i | 1 <= i < 7 :: IsHexDigit(RgbToHex(c)[i])
    ensures HexToRgb(RgbToHex(c)) == Some(c)
  {
    var hex := RgbToHex(c);
    assert hex[1..3] == PaddedHex(c.r, 2);
    assert hex[3..5] == PaddedHex(c.g, 2);
    assert hex[5..7] == PaddedHex(c.b, 2);
    HexPairRoundTrip(c.r);
    HexPairRoundTrip(c.g);
    HexPairRoundTrip(c.b);
  }

  lemma HexPairCanonical(s: string)
    requires |s| == 2 && IsHexDigit(s[0]) && IsHexDigit(s[1])
    ensures PaddedHex(HexPairValue(s), 2) == s
  {
    var v := HexPairValue(s);
    var hi, lo := HexDigitValue(s[0]), HexDigitValue(s[1]);
    DivModSixteen(hi, lo);
    assert v / 16 == hi && v % 16 == lo;
    assert v / 16 % 16 == hi;
  }

  /** Every string the decoder accepts is exactly what `rgbToHex` writes for the decoded triple. */
  lemma {:induction false} HexCanonical(hex: string)
    requires HexToRgb(hex).Some?
    ensures RgbToHex(HexToRgb(hex).value) == hex
  {
    var c := HexToRgb(hex).value;
    HexPairCanonical(hex[1..3]);
    HexPairCanonical(hex[3..5]);
    HexPairCanonical(hex[5..7]);
    assert hex == hex[..1] + hex[1..3] + hex[3..5] + hex[5..7];
  }

  /** Distinct triples never share a hex string. */
  lemma RgbToHexInjective(c: Rgb, d: Rgb)
    requires IsValid(c) && IsValid(d)
    requires RgbToHex(c) == RgbToHex(d)
    ensures c == d
  {
    HexRoundTrip(c);
    HexRoundTrip(d);
  }

  // -------------------------------------------------------------- rgb() text

  /**
   * The template `rgb(${r}, ${g}, ${b})`: its digit runs are the three
   * channels' decimals, in order.
   */
  function RgbText(c: Rgb): (t: string)
    requires IsValid(c)
    ensures DigitRuns(t) == [Decimal(c.r), Decimal(c.g), Decimal(c.b)]
  {
    var t := "rgb(" + Decimal(c.r) + ", " + Decimal(c.g) + ", " + Decimal(c.b) + ")";
    assert t == Fields(Decimal(c.r), Decimal(c.g), Decimal(c.b));
    FieldsDigitRuns(Decimal(c.r), Decimal(c.g), Decimal(c.b));
    t
  }

  /** Reads the three digit runs of an `rgb(...)` text; `None` unless there are exactly three. */
  function RgbFromText(s: string): (c: Option<Rgb>)
    ensures c.Some? ==> c.value.r >= 0 && c.value.g >= 0 && c.value.b >= 0
  {
    var runs := DigitRuns(s);
    if |runs| == 3 then
      Some(Rgb(ParseDecimal(runs[0]), ParseDecimal(runs[1]), ParseDecimal(runs[2])))
    else
      None
  }

  /** A digit run followed by a non-empty separator without digits. */
  lemma {:induction false} DigitRunsField(d: string, sep: string, rest: string)
    requires |d| >= 1 && AllDigits(d)
    requires |sep| >= 1 && forall i | 0 <= i < |sep| :: !IsDigit(sep[i])
    ensures DigitRuns(d + (sep + rest)) == [d] + DigitRuns(rest)
  {
    DigitRunsTake(d, sep + rest);
    DigitRunsSkip(sep, rest);
  }

  /** The `rgb(...)` text around three fields, with every concatenation nested to the right. */
  function Fields(r: string, g: string, b: string): string {
    "rgb(" + (r + (", " + (g + (", " + (b + (")" + ""))))))
  }

  /** Three digit runs in the `rgb(...)` frame are read back in order. */
  lemma {:induction false} FieldsDigitRuns(r: string, g: string, b: string)
    requires |r| >= 1 && AllDigits(r) && |g| >= 1 && AllDigits(g) && |b| >= 1 && AllDigits(b)
    ensures DigitRuns(Fields(r, g, b)) == [r, g, b]
  {
    var tail3 := b + (")" + "");
    var tail2 := g + (", " + tail3);
    var tail1 := r + (", " + tail2);
    DigitRunsField(b, ")", "");
    DigitRunsField(g, ", ", tail3);
    DigitRunsField(r, ", ", tail2);
    DigitRunsSkip("rgb(", tail1);
  }

  /** The `rgb` text encodes the same triple as the hex string. */
  lemma RgbTextRoundTrip(c: Rgb)
    requires IsValid(c)
    ensures RgbFromText(RgbText(c)) == Some(c)
    ensures RgbFromText(RgbText(c)) == HexToRgb(RgbToHex(c))
  {
    ParseDecimalOfDecimal(c.r);
    ParseDecimalOfDecimal(c.g);
    ParseDecimalOfDecimal(c.b);
    HexRoundTrip(c);
  }
}
