/**
 * The counting half of `extractColors` (src/utils/colorExtractor.ts): which
 * bytes of the RGBA buffer are inspected, which pixels are skipped, how a pixel
 * is quantised into a bucket, and the buckets with their counts in the order
 * the source's `Map` holds them after the scan.
 */
module Histogram {
  import opened ColorModel
  import opened Sequences

  /** The loop steps `i += 16`: one pixel in four, four bytes per pixel. */
  const Stride := 16
  /** Pixels whose alpha is below this are skipped. */
  const AlphaCutoff := 128
  /** Channels are floored to a multiple of this. */
  const BucketWidth := 10

  /** What `getImageData` hands over: RGBA bytes, four per pixel. */
  predicate IsPixelBuffer(data: seq<int>) {
    |data| % 4 == 0 && forall i | 0 <= i < |data| :: IsChannel(data[i])
  }

  /** `Math.floor(x / 10) * 10`; Dafny's division by a positive number already rounds down. */
  function Quantize(x: int): (q: int)
    ensures q % BucketWidth == 0 && q <= x < q + BucketWidth
    ensures IsChannel(x) ==> 0 <= q <= 250
  {
    x / BucketWidth * BucketWidth
  }

  predicate IsAlignedChannel(x: int) {
    0 <= x <= 250 && x % BucketWidth == 0
  }

  /** A bucket key: every channel a multiple of 10 in 0..250. */
  predicate IsAligned(c: Rgb) {
    IsAlignedChannel(c.r) && IsAlignedChannel(c.g) && IsAlignedChannel(c.b)
  }

  /** The bucket of the pixel whose red byte is at offset `p`. */
  function BucketAt(data: seq<int>, p: int): Rgb
    requires 0 <= p && p + 3 < |data|
  {
    Rgb(Quantize(data[p]), Quantize(data[p + 1]), Quantize(data[p + 2]))
  }

  /** What one pass of the loop body at offset `p` counts: its bucket, or nothing. */
  function SampleKeys(data: seq<int>, p: int): seq<Rgb>
    requires 0 <= p
  {
    if p + 3 < |data| && data[p + 3] >= AlphaCutoff then [BucketAt(data, p)] else []
  }

  /** The buckets counted by the loop passes at offsets below `i`, in scan order. */
  function KeysBelow(data: seq<int>, i: int): (keys: seq<Rgb>)
    requires IsPixelBuffer(data)
    requires 0 <= i && i % Stride == 0
    ensures forall k | k in keys :: IsAligned(k)
    decreases i
  {
    if i == 0 then [] else KeysBelow(data, i - Stride) + SampleKeys(data, i - Stride)
  }

  /** The offset at which the loop stops: the first multiple of 16 not below `n`. */
  function ScanEnd(n: nat): (e: nat)
    ensures e % Stride == 0 && n <= e < n + Stride
  {
    (n + 15) / Stride * Stride
  }

  /** A multiple of 16 between `n` and the scan end is the scan end. */
  lemma ScanEndUnique(n: nat, i: int)
    requires i % Stride == 0 && n <= i <= ScanEnd(n)
    ensures i == ScanEnd(n)
  {
  }

  /** The next offset after one below `n` is still within the scan. */
  lemma ScanNext(n: nat, i: int)
    requires i % Stride == 0 && 0 <= i < n
    ensures (i + Stride) % Stride == 0 && i + Stride <= ScanEnd(n)
  {
    var q := i / Stride;
    assert i == Stride * q;
    assert (n + 15) / Stride >= q + 1;
  }

  /** A sampled offset is a pixel's first byte, so its whole pixel lies inside the buffer. */
  lemma SampleInPixel(n: nat, p: int)
    requires n % 4 == 0 && 0 <= p < n && p % Stride == 0
    ensures p % 4 == 0 && p + 3 < n
  {
    var q := p / Stride;
    assert p == 4 * (4 * q);
    var m := n / 4;
    assert n == 4 * m;
  }

  /** The bucket of every counted pixel, in scan order: each a triple of multiples of 10. */
  function Keys(data: seq<int>): (keys: seq<Rgb>)
    requires IsPixelBuffer(data)
    ensures forall k | k in keys :: IsAligned(k)
  {
    KeysBelow(data, ScanEnd(|data|))
  }

  /** One entry of the colour map: a bucket and how many counted pixels fell in it. */
  datatype Bucket = Bucket(key: Rgb, count: nat)

  /** The map's entries: keys in insertion order, each with its count. */
  function Tabulate(order: seq<Rgb>, counts: multiset<Rgb>): (t: seq<Bucket>)
    ensures |t| == |order|
    ensures forall j | 0 <= j < |t| :: t[j] == Bucket(order[j], counts[order[j]])
  {
    seq(|order|, j requires 0 <= j < |order| => Bucket(order[j], counts[order[j]]))
  }

  /** `Array.from(colorMap.entries())` after the scan. */
  function Buckets(data: seq<int>): seq<Bucket>
    requires IsPixelBuffer(data)
  {
    var keys := Keys(data);
    Tabulate(Dedup(keys), multiset(keys))
  }

  predicate DistinctKeys(bs: seq<Bucket>) {
    forall i, j | 0 <= i < j < |bs| :: bs[i].key != bs[j].key
  }

  /**
   * The entries have one bucket each, aligned keys in first-seen scan order,
   * and each count is the number of counted pixels in that bucket.
   */
  lemma {:induction false} BucketsFacts(data: seq<int>)
    requires IsPixelBuffer(data)
    ensures DistinctKeys(Buckets(data)) && Distinct(Buckets(data))
    ensures forall b | b in Buckets(data) :: IsAligned(b.key) && b.key in Keys(data)
    ensures forall b | b in Buckets(data) :: b.count == multiset(Keys(data))[b.key] && b.count >= 1
    ensures forall k | k in Keys(data) :: Bucket(k, multiset(Keys(data))[k]) in Buckets(data)
    ensures forall i, j | 0 <= i < j < |Buckets(data)| ::
      FirstIndex(Keys(data), Buckets(data)[i].key) < FirstIndex(Keys(data), Buckets(data)[j].key)
  {
    var keys := Keys(data);
    var d := Dedup(keys);
    var bs := Buckets(data);
    DedupFirstSeenOrder(keys);
    forall k | k in keys ensures Bucket(k, multiset(keys)[k]) in bs {
      var j := FirstIndex(d, k);
      assert bs[j] == Bucket(k, multiset(keys)[k]);
    }
  }

  /** No entry of the map is listed twice. */
  lemma BucketsDistinct(data: seq<int>)
    requires IsPixelBuffer(data)
    ensures Distinct(Buckets(data))
  {
    BucketsFacts(data);
  }

  /** Two buffers inspect the same at offset `p`: both skip it, or its four bytes agree. */
  predicate SamePixelAt(data: seq<int>, other: seq<int>, p: int)
    requires 0 <= p && p + 3 < |data| && |other| == |data|
  {
    || (data[p + 3] < AlphaCutoff && other[p + 3] < AlphaCutoff)
    || (data[p] == other[p] && data[p + 1] == other[p + 1]
        && data[p + 2] == other[p + 2] && data[p + 3] == other[p + 3])
  }

  predicate SameSamples(data: seq<int>, other: seq<int>) {
    && |other| == |data|
    && forall p | 0 <= p && p % Stride == 0 && p + 3 < |data| :: SamePixelAt(data, other, p)
  }

  /**
   * Only offsets 0, 16, 32, ... are read, and a skipped pixel's bytes are not
   * looked at: buffers that agree there count the same buckets.
   */
  lemma {:induction false} SameSamplesSameKeys(data: seq<int>, other: seq<int>, i: int)
    requires IsPixelBuffer(data) && IsPixelBuffer(other) && SameSamples(data, other)
    requires 0 <= i && i % Stride == 0
    ensures KeysBelow(data, i) == KeysBelow(other, i)
    decreases i
  {
    if i > 0 {
      SameSamplesSameKeys(data, other, i - Stride);
      var p := i - Stride;
      if p + 3 < |data| {
        assert SamePixelAt(data, other, p);
      }
    }
  }

  lemma SameSamplesSameBuckets(data: seq<int>, other: seq<int>)
    requires IsPixelBuffer(data) && IsPixelBuffer(other) && SameSamples(data, other)
    ensures Buckets(data) == Buckets(other)
  {
    SameSamplesSameKeys(data, other, ScanEnd(|data|));
  }

  /** Every inspected pixel is below the alpha cut-off. */
  predicate AllSkipped(data: seq<int>) {
    forall p | 0 <= p && p % Stride == 0 && p + 3 < |data| :: data[p + 3] < AlphaCutoff
  }

  lemma {:induction false} AllSkippedNoKeys(data: seq<int>, i: int)
    requires IsPixelBuffer(data) && AllSkipped(data)
    requires 0 <= i && i % Stride == 0
    ensures KeysBelow(data, i) == []
    decreases i
  {
    if i > 0 {
      AllSkippedNoKeys(data, i - Stride);
    }
  }

  /** When every inspected pixel is skipped the map stays empty. */
  lemma AllSkippedNoBuckets(data: seq<int>)
    requires IsPixelBuffer(data) && AllSkipped(data)
    ensures Buckets(data) == []
  {
    AllSkippedNoKeys(data, ScanEnd(|data|));
  }

  /** Every pixel is `c` and opaque enough to count. */
  predicate Uniform(data: seq<int>, c: Rgb) {
    forall p | 0 <= p && p % 4 == 0 && p + 3 < |data| ::
      data[p] == c.r && data[p + 1] == c.g && data[p + 2] == c.b && data[p + 3] >= AlphaCutoff
  }

  function QuantizeRgb(c: Rgb): Rgb {
    Rgb(Quantize(c.r), Quantize(c.g), Quantize(c.b))
  }

  lemma {:induction false} UniformKeys(data: seq<int>, c: Rgb, i: int)
    requires IsPixelBuffer(data) && Uniform(data, c)
    requires 0 <= i && i % Stride == 0
    ensures forall j | 0 <= j < |KeysBelow(data, i)| :: KeysBelow(data, i)[j] == QuantizeRgb(c)
    ensures i > 0 && |data| > 0 ==> |KeysBelow(data, i)| >= 1
    decreases i
  {
    if i > 0 {
      UniformKeys(data, c, i - Stride);
      var p := i - Stride;
      if p < |data| {
        SampleInPixel(|data|, p);
        assert data[p + 3] >= AlphaCutoff;
      }
    }
  }

  /** An image of one opaque colour has exactly one bucket: that colour, quantised. */
  lemma UniformOneBucket(data: seq<int>, c: Rgb)
    requires IsPixelBuffer(data) && Uniform(data, c) && |data| > 0
    ensures |Buckets(data)| == 1 && Buckets(data)[0].key == QuantizeRgb(c)
  {
    UniformKeys(data, c, ScanEnd(|data|));
    DedupConstant(Keys(data), QuantizeRgb(c));
  }

  // ------------------------------------------------------- the counting map

  /**
   * The state of the counting map after the buckets `seen` were counted: its
   * keys in insertion order are the distinct buckets of `seen`, and each key's
   * count is how often `seen` holds it.
   */
  ghost predicate Tally(seen: seq<Rgb>, order: seq<Rgb>, counts: map<Rgb, nat>) {
    && order == Dedup(seen)
    && (forall k :: k in counts <==> k in seen)
    && (forall k | k in counts :: counts[k] == multiset(seen)[k])
  }

  lemma SnocMultiset(seen: seq<Rgb>, key: Rgb)
    ensures forall k :: multiset(seen + [key])[k] == multiset(seen)[k] + (if k == key then 1 else 0)
  {
    assert multiset(seen + [key]) == multiset(seen) + multiset{key};
  }

  /** Counting a key already in the map bumps its count. */
  lemma TallyBump(seen: seq<Rgb>, order: seq<Rgb>, counts: map<Rgb, nat>, key: Rgb)
    requires Tally(seen, order, counts) && key in counts
    ensures Tally(seen + [key], order, counts[key := counts[key] + 1])
  {
    DedupSnoc(seen, key);
    SnocMultiset(seen, key);
    var counts' := counts[key := counts[key] + 1];
    forall k | k in counts' ensures counts'[k] == multiset(seen + [key])[k] {
    }
  }

  /** Counting a new key inserts it, with count one, at the end of the map. */
  lemma TallyInsert(seen: seq<Rgb>, order: seq<Rgb>, counts: map<Rgb, nat>, key: Rgb)
    requires Tally(seen, order, counts) && key !in counts
    ensures Tally(seen + [key], order + [key], counts[key := 1])
  {
    DedupSnoc(seen, key);
    SnocMultiset(seen, key);
    var counts' := counts[key := 1];
    forall k | k in counts' ensures counts'[k] == multiset(seen + [key])[k] {
    }
  }

  /** One more pass of the loop adds what the pixel at offset `i` contributes. */
  lemma KeysBelowStep(data: seq<int>, i: int)
    requires IsPixelBuffer(data) && 0 <= i && i % Stride == 0
    ensures KeysBelow(data, i + Stride) == KeysBelow(data, i) + SampleKeys(data, i)
  {
  }
}
