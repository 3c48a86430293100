/**
 * The exporters applied to a palette `extractColors` produced: every name is
 * a colour-table name or an override, so no slug collides with an alias key,
 * every hex is a non-empty single line, and every `rgb` field's digit runs are
 * the channels of the colour its hex encodes.
 */
module Exports {
  import opened Wrappers
  import opened ColorModel
  import opened Text
  import opened ColorNaming
  import opened Histogram
  import opened Ranking
  import opened Extractor
  import opened Slugs
  import opened ColorObject
  import opened CodeOutput

  predicate NotAnAlias(slug: string) {
    slug != Primary && slug != Secondary && slug != Accent
  }

  lemma NotTheAlias(slug: string, index: nat)
    requires NotAnAlias(slug) && AliasAt(index).Some?
    ensures slug != AliasAt(index).value
  {
  }

  /** The first two characters rule out the three alias names. */
  predicate SafeStart(name: string) {
    && |name| >= 2 && !IsWhitespace(name[0]) && !IsWhitespace(name[1])
    && name[0] !in "PpAa" && (name[0] in "Ss" ==> name[1] !in "Ee")
  }

  lemma NameNotAnAlias(name: string)
    requires SafeStart(name)
    ensures NotAnAlias(Slug(name))
  {
    SlugStart(name);
  }

  lemma TableStartsFirstHalf()
    ensures forall k | 0 <= k < 6 :: SafeStart(Table[k].name)
  {
  }

  lemma TableStartsSecondHalf()
    ensures forall k | 6 <= k < |Table| :: SafeStart(Table[k].name)
  {
  }

  lemma TableStarts()
    ensures forall k | 0 <= k < |Table| :: SafeStart(Table[k].name)
  {
    TableStartsFirstHalf();
    TableStartsSecondHalf();
  }

  /** No name `getColorName` can return slugs to `primary`, `secondary` or `accent`. */
  lemma ColorNameSlug(c: Rgb)
    ensures NotAnAlias(Slug(ColorName(c)))
  {
    var name := ColorName(c);
    if name == DarkName || name == LightName {
      NameNotAnAlias(name);
    } else {
      TableStarts();
      assert name in TableNames();
      var k :| 0 <= k < |Table| && Table[k].name == name;
      NameNotAnAlias(Table[k].name);
    }
  }

  /** Every hex is a non-empty single line and no slug is an alias name. */
  predicate Exportable(colors: seq<Color>) {
    && SingleLineHexes(colors)
    && (forall j | 0 <= j < |colors| :: colors[j].hex != "")
    && (forall j | 0 <= j < |colors| :: NotAnAlias(Slug(colors[j].name)))
  }

  /**
   * On a palette, every hex is a non-empty single line and no slug is an
   * alias name, so the document and alias lemmas apply without side conditions.
   */
  lemma PaletteExportable(data: seq<int>)
    requires IsPixelBuffer(data)
    ensures Exportable(Palette(data))
  {
    var colors := Palette(data);
    forall j | 0 <= j < |colors|
      ensures NoNewline(colors[j].hex) && colors[j].hex != "" && NotAnAlias(Slug(colors[j].name))
    {
      PaletteRecord(data, j);
      RecordExportable(TopBuckets(data)[j].key);
    }
  }

  /** The record of one bucket: a seven-character hex without newline, and a slug that is no alias. */
  lemma RecordExportable(c: Rgb)
    requires IsValid(c)
    ensures NoNewline(Record(c).hex) && Record(c).hex != ""
    ensures NotAnAlias(Slug(Record(c).name))
  {
    var hex := RgbToHex(c);
    assert Record(c).hex == hex;
    HexRoundTrip(c);
    assert forall k | 0 <= k < |hex| :: hex[k] != '\n' by {
      forall k | 0 <= k < |hex| ensures hex[k] != '\n' {
        if k > 0 { assert IsHexDigit(hex[k]); }
      }
    }
    ColorNameSlug(c);
  }

  /**
   * For exportable colours, `primary`, `secondary` and `accent` are the hexes
   * of the first three colours where they exist, in all three documents, and
   * the CSS and Sass fall back to their defaults exactly where they do not.
   */
  lemma ExportableAliases(colors: seq<Color>, index: nat, fallback: string)
    requires Exportable(colors) && AliasAt(index).Some?
    ensures Lookup(ColorObj(colors), AliasAt(index).value)
      == if index < |colors| then Some(colors[index].hex) else None
    ensures Alias(colors, index, fallback) == if index < |colors| then colors[index].hex else fallback
  {
    forall j | 0 <= j < |colors| ensures Slug(colors[j].name) != AliasAt(index).value {
      NotTheAlias(Slug(colors[j].name), index);
    }
    AliasesAgree(colors, index, fallback);
  }

  /** The aliases of an extracted palette. */
  lemma PaletteAliases(data: seq<int>, index: nat, fallback: string)
    requires IsPixelBuffer(data) && AliasAt(index).Some?
    ensures Lookup(ColorObj(Palette(data)), AliasAt(index).value)
      == if index < |Palette(data)| then Some(Palette(data)[index].hex) else None
    ensures Alias(Palette(data), index, fallback)
      == if index < |Palette(data)| then Palette(data)[index].hex else fallback
  {
    PaletteExportable(data);
    ExportableAliases(Palette(data), index, fallback);
  }

  /** The `-rgb` line of a palette colour lists the channels its hex encodes, in decimal. */
  lemma PaletteRgbDigits(data: seq<int>, i: int)
    requires IsPixelBuffer(data) && 0 <= i < |Palette(data)|
    ensures HexToRgb(Palette(data)[i].hex).Some?
    ensures var c := HexToRgb(Palette(data)[i].hex).value;
      RgbDigits(Palette(data)[i].rgb) == Decimal(c.r) + ", " + Decimal(c.g) + ", " + Decimal(c.b)
  {
    PaletteRecord(data, i);
    var key := TopBuckets(data)[i].key;
    HexRoundTrip(key);
    RgbDigitsOfText(key);
  }
}
