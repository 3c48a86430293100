/**
 * `extractColors` (src/utils/colorExtractor.ts) from the decoded RGBA bytes
 * on: the strided counting loop over a local insertion-ordered map, the sort
 * by count, the cut to eight entries, and one `{hex, rgb, name}` record per
 * kept bucket. Decoding and resizing the image on a canvas is not modelled;
 * the buffer `getImageData` would return is the input, and a missing 2D
 * context is the input `None`.
 */
module Extractor {
  import opened Wrappers
  import opened ColorModel
  import opened ColorNaming
  import opened Sequences
  import opened Histogram
  import opened Ranking

  /** Record `rec` stands for bucket `c`: both of its colour strings read back as `c`, and it carries `c`'s name. */
  ghost predicate Describes(rec: Color, c: Rgb) {
    && HexToRgb(rec.hex) == Some(c)
    && RgbFromText(rec.rgb) == Some(c)
    && rec.name == ColorName(c)
  }

  /** The record the final `.map` builds for a bucket. */
  function Record(c: Rgb): (rec: Color)
    requires IsValid(c)
    ensures Describes(rec, c)
  {
    HexRoundTrip(c);
    RgbTextRoundTrip(c);
    Color(RgbToHex(c), RgbText(c), ColorName(c))
  }

  predicate AllValid(bs: seq<Bucket>) {
    forall b | b in bs :: IsValid(b.key)
  }

  function Records(bs: seq<Bucket>): (rs: seq<Color>)
    requires AllValid(bs)
    ensures |rs| == |bs|
    ensures forall i | 0 <= i < |rs| :: Describes(rs[i], bs[i].key)
  {
    seq(|bs|, i requires 0 <= i < |bs| => Record(bs[i].key))
  }

  lemma TopBucketsValid(data: seq<int>)
    requires IsPixelBuffer(data)
    ensures AllValid(TopBuckets(data))
  {
    TopBucketsBounded(data);
  }

  /** The palette `extractColors` resolves with for a decoded buffer. */
  function Palette(data: seq<int>): seq<Color>
    requires IsPixelBuffer(data)
  {
    TopBucketsValid(data);
    Records(TopBuckets(data))
  }

  /** Record `i` of the palette is built from kept bucket `i`. */
  lemma PaletteRecord(data: seq<int>, i: int)
    requires IsPixelBuffer(data) && 0 <= i < |Palette(data)|
    ensures IsValid(TopBuckets(data)[i].key)
    ensures Palette(data)[i] == Record(TopBuckets(data)[i].key)
    ensures Describes(Palette(data)[i], TopBuckets(data)[i].key)
  {
    TopBucketsValid(data);
    assert TopBuckets(data)[i] in TopBuckets(data);
  }

  /**
   * The counting loop of `extractColors` and `Array.from(colorMap.entries())`:
   * every 16th byte offset starts a pixel, pixels with alpha below 128 are
   * skipped, the others bump their bucket's count or add the bucket at the end.
   */
  method CountBuckets(data: seq<int>) returns (entries: seq<Bucket>)
    requires IsPixelBuffer(data)
    ensures entries == Buckets(data)
  {
    var order: seq<Rgb> := [];
    var counts: map<Rgb, nat> := map[];
    var i := 0;
    assert KeysBelow(data, 0) == [];
    while i < |data|
      invariant 0 <= i <= ScanEnd(|data|) && i % Stride == 0
      invariant Tally(KeysBelow(data, i), order, counts)
    {
      SampleInPixel(|data|, i);
      ScanNext(|data|, i);
      KeysBelowStep(data, i);
      ghost var seen := KeysBelow(data, i);
      var r, g, b, alpha := data[i], data[i + 1], data[i + 2], data[i + 3];
      if alpha >= AlphaCutoff {
        var key := Rgb(Quantize(r), Quantize(g), Quantize(b));
        assert KeysBelow(data, i + Stride) == seen + [key];
        if key in counts {
          TallyBump(seen, order, counts, key);
          counts := counts[key := counts[key] + 1];
        } else {
          TallyInsert(seen, order, counts, key);
          counts := counts[key := 1];
          order := order + [key];
        }
      } else {
        assert KeysBelow(data, i + Stride) == seen;
      }
      i := i + Stride;
    }
    ScanEndUnique(|data|, i);
    EntriesAreBuckets(data, order, counts);
    entries := seq(|order|, j requires 0 <= j < |order| => Bucket(order[j], counts[order[j]]));
  }

  /** After the last pass, listing the map's entries gives `Buckets(data)`. */
  lemma EntriesAreBuckets(data: seq<int>, order: seq<Rgb>, counts: map<Rgb, nat>)
    requires IsPixelBuffer(data) && Tally(Keys(data), order, counts)
    ensures forall j | 0 <= j < |order| :: order[j] in counts
    ensures seq(|order|, j requires 0 <= j < |order| => Bucket(order[j], counts[order[j]])) == Buckets(data)
  {
    assert forall j | 0 <= j < |order| :: order[j] in Dedup(Keys(data));
  }

  /** The final `.map`: one record per kept bucket, named by `getColorName`. */
  method MakeRecords(top: seq<Bucket>) returns (palette: seq<Color>)
    requires AllValid(top)
    ensures palette == Records(top)
  {
    palette := [];
    for j := 0 to |top|
      invariant palette == Records(top[..j])
    {
      var c := top[j].key;
      var name := GetColorName(c);
      palette := palette + [Color(RgbToHex(c), RgbText(c), name)];
      assert top[..j + 1] == top[..j] + [top[j]];
    }
    assert top[..|top|] == top;
  }

  /**
   * `extractColors`: `None` stands for a canvas without a 2D context, which
   * resolves with no colours.
   */
  method ExtractColors(pixels: Option<seq<int>>) returns (palette: seq<Color>)
    requires pixels.Some? ==> IsPixelBuffer(pixels.value)
    ensures pixels.None? ==> palette == []
    ensures pixels.Some? ==> palette == Palette(pixels.value)
  {
    if pixels.None? {
      return [];
    }
    var data := pixels.value;
    var entries := CountBuckets(data);
    var sorted := SortByCount(entries);
    var top := if |sorted| <= PaletteSize then sorted else sorted[..PaletteSize];
    TopBucketsValid(data);
    palette := MakeRecords(top);
  }

  /** At most eight colours; exactly eight when the image has that many buckets. */
  lemma PaletteBounded(data: seq<int>)
    requires IsPixelBuffer(data)
    ensures |Palette(data)| <= PaletteSize
    ensures |Palette(data)| == if |Buckets(data)| < PaletteSize then |Buckets(data)| else PaletteSize
  {
    TopBucketsBounded(data);
  }

  /**
   * Each record's `hex` and `rgb` read back as the same triple, a bucket
   * (multiple of 10 in 0..250 per channel) that some counted pixel fell in;
   * `name` is the naming function of that triple.
   */
  lemma PaletteRecordsAgree(data: seq<int>)
    requires IsPixelBuffer(data)
    ensures forall rec | rec in Palette(data) ::
      && HexToRgb(rec.hex).Some?
      && RgbFromText(rec.rgb) == HexToRgb(rec.hex)
      && IsAligned(HexToRgb(rec.hex).value)
      && HexToRgb(rec.hex).value in Keys(data)
      && rec.name == ColorName(HexToRgb(rec.hex).value)
  {
    TopBucketsBounded(data);
    var top := TopBuckets(data);
    forall rec | rec in Palette(data)
      ensures HexToRgb(rec.hex).Some? && RgbFromText(rec.rgb) == HexToRgb(rec.hex)
      ensures IsAligned(HexToRgb(rec.hex).value) && HexToRgb(rec.hex).value in Keys(data)
      ensures rec.name == ColorName(HexToRgb(rec.hex).value)
    {
      var i :| 0 <= i < |Palette(data)| && Palette(data)[i] == rec;
      PaletteRecord(data, i);
    }
  }

  /** No two records come from the same bucket: their hex strings differ. */
  lemma PaletteHexDistinct(data: seq<int>)
    requires IsPixelBuffer(data)
    ensures forall i, j | 0 <= i < j < |Palette(data)| :: Palette(data)[i].hex != Palette(data)[j].hex
  {
    TopBucketsBounded(data);
    var top := TopBuckets(data);
    forall i, j | 0 <= i < j < |Palette(data)| ensures Palette(data)[i].hex != Palette(data)[j].hex {
      PaletteRecord(data, i);
      PaletteRecord(data, j);
      assert top[i].key != top[j].key;
    }
  }

  /** How many counted pixels fell in bucket `c`. */
  function CountIn(data: seq<int>, c: Rgb): nat
    requires IsPixelBuffer(data)
  {
    multiset(Keys(data))[c]
  }

  /** Records `i` before `j` decode to buckets ranked by count, ties by first sighting. */
  ghost predicate RankedRecords(data: seq<int>, x: Color, y: Color)
    requires IsPixelBuffer(data)
  {
    var cx, cy := HexToRgb(x.hex), HexToRgb(y.hex);
    && cx.Some? && cy.Some? && cx.value in Keys(data) && cy.value in Keys(data)
    && (|| CountIn(data, cx.value) > CountIn(data, cy.value)
        || (CountIn(data, cx.value) == CountIn(data, cy.value)
            && FirstIndex(Keys(data), cx.value) < FirstIndex(Keys(data), cy.value)))
  }

  lemma PalettePairRanked(data: seq<int>, i: int, j: int)
    requires IsPixelBuffer(data)
    requires 0 <= i < j < |Palette(data)|
    ensures RankedRecords(data, Palette(data)[i], Palette(data)[j])
  {
    TopBucketsBounded(data);
    TopPairRanked(data, i, j);
    var top := TopBuckets(data);
    var bi, bj := top[i], top[j];
    PaletteRecord(data, i);
    PaletteRecord(data, j);
    assert CountIn(data, bi.key) == bi.count && CountIn(data, bj.key) == bj.count;
  }

  /**
   * Records come in non-increasing pixel count; equal counts keep the order in
   * which the scan first met their buckets.
   */
  lemma PaletteRanked(data: seq<int>)
    requires IsPixelBuffer(data)
    ensures forall i, j | 0 <= i < j < |Palette(data)| ::
      RankedRecords(data, Palette(data)[i], Palette(data)[j])
  {
    forall i, j | 0 <= i < j < |Palette(data)|
      ensures RankedRecords(data, Palette(data)[i], Palette(data)[j])
    {
      PalettePairRanked(data, i, j);
    }
  }

  /** A buffer whose inspected pixels are all below the alpha cut-off yields no colours. */
  lemma TransparentPalette(data: seq<int>)
    requires IsPixelBuffer(data) && AllSkipped(data)
    ensures Palette(data) == []
  {
    AllSkippedNoBuckets(data);
  }

  /** Bytes outside the sampled pixels, and the colour of skipped pixels, do not matter. */
  lemma PaletteDependsOnSamplesOnly(data: seq<int>, other: seq<int>)
    requires IsPixelBuffer(data) && IsPixelBuffer(other) && SameSamples(data, other)
    ensures Palette(data) == Palette(other)
  {
    SameSamplesSameKeys(data, other, ScanEnd(|data|));
  }

  /** An image of one opaque colour gives one record: that colour's bucket. */
  lemma UniformPalette(data: seq<int>, c: Rgb)
    requires IsPixelBuffer(data) && Uniform(data, c) && |data| > 0
    ensures IsValid(QuantizeRgb(c))
    ensures Palette(data) == [Record(QuantizeRgb(c))]
  {
    UniformOneBucket(data, c);
    var sorted := SortByCount(Buckets(data));
    assert |sorted| == 1 && sorted[0] in multiset(Buckets(data));
    TopBucketsBounded(data);
  }

  /** Two padded hex digits: the high nibble, then the low one. */
  lemma PaddedPair(x: int, hi: int, lo: int)
    requires 0 <= hi < 16 && 0 <= lo < 16 && x == 16 * hi + lo
    ensures PaddedHex(x, 2) == [HexDigit(hi), HexDigit(lo)]
  {
    assert x / 16 == hi && x % 16 == lo;
    assert PaddedHex(hi / 16, 0) == "";
  }

  /** The bucket (10, 20, 30) is already aligned and writes as `#0a141e`. */
  lemma HexExample(c: Rgb)
    requires c.r == 10 && c.g == 20 && c.b == 30
    ensures IsValid(c) && RgbToHex(c) == "#0a141e"
  {
    PaddedPair(c.r, 0, 10);
    PaddedPair(c.g, 1, 4);
    PaddedPair(c.b, 1, 14);
    assert [HexDigit(0), HexDigit(10)] == "0a";
    assert [HexDigit(1), HexDigit(4)] == "14";
    assert [HexDigit(1), HexDigit(14)] == "1e";
  }
}
