/**
 * The ranking half of `extractColors`: `sort((a, b) => b[1].count - a[1].count)`
 * followed by `slice(0, 8)`. `Array.prototype.sort` is stable, so the result
 * is the unique arrangement by non-increasing count that keeps equal counts in
 * input order; the model computes it by insertion and proves the uniqueness.
 */
module Ranking {
  import opened ColorModel
  import opened Sequences
  import opened Histogram

  const PaletteSize := 8

  ghost predicate NonIncreasing(r: seq<Bucket>) {
    forall i, j | 0 <= i < j < |r| :: r[i].count >= r[j].count
  }

  /** If `x` and `y` tie, `x` comes first in `s`. */
  ghost predicate TieOrdered(s: seq<Bucket>, x: Bucket, y: Bucket) {
    x.count == y.count && x in s && y in s ==> FirstIndex(s, x) < FirstIndex(s, y)
  }

  /** Buckets with equal counts appear in the order they have in `s`. */
  ghost predicate TiesInInputOrder(r: seq<Bucket>, s: seq<Bucket>) {
    forall i, j | 0 <= i < j < |r| :: TieOrdered(s, r[i], r[j])
  }

  /** Where insertion puts `x`: after every bucket counting at least as much. */
  function InsertPos(r: seq<Bucket>, x: Bucket): (p: nat)
    ensures p <= |r|
    ensures forall a | 0 <= a < p :: r[a].count >= x.count
    ensures p < |r| ==> r[p].count < x.count
    decreases |r|
  {
    if r == [] || r[0].count < x.count then 0 else 1 + InsertPos(r[1..], x)
  }

  function Insert(r: seq<Bucket>, x: Bucket): (t: seq<Bucket>)
    ensures |t| == |r| + 1 && multiset(t) == multiset(r) + multiset{x}
  {
    var p := InsertPos(r, x);
    assert r == r[..p] + r[p..];
    r[..p] + [x] + r[p..]
  }

  lemma InsertNonIncreasing(r: seq<Bucket>, x: Bucket)
    requires NonIncreasing(r)
    ensures NonIncreasing(Insert(r, x))
  {
    var p := InsertPos(r, x);
    var t := Insert(r, x);
    forall i, j | 0 <= i < j < |t| ensures t[i].count >= t[j].count {
      InsertIndex(r, x, i);
      InsertIndex(r, x, j);
      if j <= p {
      } else if i < p {
        assert r[i].count >= r[j - 1].count;
      } else if i == p {
        assert r[p].count >= r[j - 1].count;
      } else {
        assert r[i - 1].count >= r[j - 1].count;
      }
    }
  }

  /** The stable sort by descending count. */
  function SortByCount(s: seq<Bucket>): (r: seq<Bucket>)
    ensures |r| == |s| && multiset(r) == multiset(s)
    ensures NonIncreasing(r)
    decreases |s|
  {
    if s == [] then []
    else
      var init, last := s[..|s| - 1], s[|s| - 1];
      assert s == init + [last];
      var sorted := SortByCount(init);
      InsertNonIncreasing(sorted, last);
      Insert(sorted, last)
  }

  /** Renaming the reference sequence to an extension of it keeps tie order. */
  lemma TiesExtend(r: seq<Bucket>, init: seq<Bucket>, last: Bucket)
    requires forall y | y in r :: y in init
    requires TiesInInputOrder(r, init)
    ensures TiesInInputOrder(r, init + [last])
  {
    forall y | y in r ensures FirstIndex(init + [last], y) == FirstIndex(init, y) {
      FirstIndexPrefix(init, [last], y);
    }
    forall i, j | 0 <= i < j < |r| ensures TieOrdered(init + [last], r[i], r[j]) {
      assert TieOrdered(init, r[i], r[j]);
    }
  }

  /** Inserting a bucket seen after all others keeps ties in input order. */
  lemma InsertKeepsTies(r: seq<Bucket>, x: Bucket, s: seq<Bucket>)
    requires NonIncreasing(r) && TiesInInputOrder(r, s)
    requires x in s
    requires forall y | y in r :: y in s && FirstIndex(s, y) < FirstIndex(s, x)
    ensures TiesInInputOrder(Insert(r, x), s)
  {
    var t := Insert(r, x);
    forall i, j | 0 <= i < j < |t| ensures TieOrdered(s, t[i], t[j]) {
      InsertPairTie(r, x, s, i, j);
    }
  }

  /** Where each element of `Insert(r, x)` comes from. */
  lemma InsertIndex(r: seq<Bucket>, x: Bucket, k: int)
    requires 0 <= k <= |r|
    ensures var p := InsertPos(r, x);
      Insert(r, x)[k] == if k < p then r[k] else if k == p then x else r[k - 1]
  {
  }

  lemma InsertPairTie(r: seq<Bucket>, x: Bucket, s: seq<Bucket>, i: int, j: int)
    requires NonIncreasing(r) && TiesInInputOrder(r, s)
    requires x in s
    requires forall y | y in r :: y in s && FirstIndex(s, y) < FirstIndex(s, x)
    requires 0 <= i < j <= |r|
    ensures TieOrdered(s, Insert(r, x)[i], Insert(r, x)[j])
  {
    var p := InsertPos(r, x);
    InsertIndex(r, x, i);
    InsertIndex(r, x, j);
    if j < p {
      assert TieOrdered(s, r[i], r[j]);
    } else if i < p && j == p {
      assert r[i] in r;
    } else if i < p {
      assert TieOrdered(s, r[i], r[j - 1]);
    } else if i == p {
      assert r[p].count >= r[j - 1].count;
    } else {
      assert TieOrdered(s, r[i - 1], r[j - 1]);
    }
  }

  /** Equal counts keep their input order (for inputs without repeated buckets). */
  lemma {:induction false} SortByCountStable(s: seq<Bucket>)
    requires Distinct(s)
    ensures TiesInInputOrder(SortByCount(s), s)
    decreases |s|
  {
    if s != [] {
      var init, last := s[..|s| - 1], s[|s| - 1];
      assert s == init + [last];
      SortByCountStable(init);
      var sorted := SortByCount(init);
      forall y | y in sorted ensures y in init {
        assert y in multiset(sorted);
      }
      TiesExtend(sorted, init, last);
      assert last !in init;
      forall y | y in sorted ensures y in s && FirstIndex(s, y) < FirstIndex(s, last) {
        FirstIndexPrefix(init, [last], y);
      }
      InsertKeepsTies(sorted, last, s);
    }
  }

  lemma TailRanked(r: seq<Bucket>, s: seq<Bucket>)
    requires |r| >= 1 && NonIncreasing(r) && TiesInInputOrder(r, s)
    ensures NonIncreasing(r[1..]) && TiesInInputOrder(r[1..], s)
  {
    forall i, j | 0 <= i < j < |r| - 1 ensures TieOrdered(s, r[1..][i], r[1..][j]) {
      assert TieOrdered(s, r[i + 1], r[j + 1]);
    }
  }

  /** Two ranked arrangements of the same buckets start with the same bucket. */
  lemma HeadsAgree(s: seq<Bucket>, r1: seq<Bucket>, r2: seq<Bucket>)
    requires |r1| >= 1 && |r2| >= 1 && multiset(r1) == multiset(r2)
    requires forall x | x in r1 :: x in s
    requires NonIncreasing(r1) && NonIncreasing(r2)
    requires TiesInInputOrder(r1, s) && TiesInInputOrder(r2, s)
    ensures r1[0] == r2[0]
  {
    var a, b := r1[0], r2[0];
    assert a in multiset(r2) && b in multiset(r1);
    var i :| 0 <= i < |r2| && r2[i] == a;
    var j :| 0 <= j < |r1| && r1[j] == b;
    assert j > 0 ==> a.count >= b.count && TieOrdered(s, r1[0], r1[j]);
    assert i > 0 ==> b.count >= a.count && TieOrdered(s, r2[0], r2[i]);
  }

  /** Removing the same head from two arrangements of the same buckets leaves arrangements of the same buckets. */
  lemma SameTails(r1: seq<Bucket>, r2: seq<Bucket>)
    requires |r1| >= 1 && |r2| >= 1 && r1[0] == r2[0] && multiset(r1) == multiset(r2)
    ensures multiset(r1[1..]) == multiset(r2[1..])
  {
    assert r1 == [r1[0]] + r1[1..] && r2 == [r2[0]] + r2[1..];
    assert multiset(r1[1..]) == multiset(r1) - multiset{r1[0]};
    assert multiset(r2[1..]) == multiset(r2) - multiset{r2[0]};
  }

  /**
   * Any two arrangements of the same buckets that are both non-increasing and
   * keep ties in the order of `s` are equal: every stable sort by descending
   * count gives the model's result.
   */
  lemma {:induction false} StableSortUnique(s: seq<Bucket>, r1: seq<Bucket>, r2: seq<Bucket>)
    requires multiset(r1) == multiset(r2)
    requires forall x | x in r1 :: x in s
    requires NonIncreasing(r1) && NonIncreasing(r2)
    requires TiesInInputOrder(r1, s) && TiesInInputOrder(r2, s)
    ensures r1 == r2
    decreases |r1|
  {
    assert |r1| == |multiset(r1)| == |r2|;
    if r1 != [] {
      HeadsAgree(s, r1, r2);
      SameTails(r1, r2);
      TailRanked(r1, s);
      TailRanked(r2, s);
      forall x | x in r1[1..] ensures x in s {
        assert x in r1;
      }
      StableSortUnique(s, r1[1..], r2[1..]);
    }
  }

  /** The model's sort agrees with every stable sort by descending count. */
  lemma SortByCountIsTheStableSort(s: seq<Bucket>, r: seq<Bucket>)
    requires Distinct(s)
    requires multiset(r) == multiset(s) && NonIncreasing(r) && TiesInInputOrder(r, s)
    ensures r == SortByCount(s)
  {
    SortByCountStable(s);
    forall x | x in r ensures x in s {
      assert x in multiset(r);
    }
    StableSortUnique(s, r, SortByCount(s));
  }

  /** `slice(0, 8)`. */
  function Top(sorted: seq<Bucket>): (top: seq<Bucket>)
    ensures |top| <= PaletteSize
  {
    if |sorted| <= PaletteSize then sorted else sorted[..PaletteSize]
  }

  /** The buckets `extractColors` turns into records. */
  function TopBuckets(data: seq<int>): (top: seq<Bucket>)
    requires IsPixelBuffer(data)
    ensures |top| == if |Buckets(data)| < PaletteSize then |Buckets(data)| else PaletteSize
  {
    Top(SortByCount(Buckets(data)))
  }

  lemma SortedFromBuckets(data: seq<int>)
    requires IsPixelBuffer(data)
    ensures Distinct(SortByCount(Buckets(data)))
    ensures forall x | x in SortByCount(Buckets(data)) :: x in Buckets(data)
    ensures TopBuckets(data) == SortByCount(Buckets(data))[..|TopBuckets(data)|]
  {
    var bs := Buckets(data);
    var sorted := SortByCount(bs);
    BucketsDistinct(data);
    DistinctPermutation(bs, sorted);
    forall x | x in sorted ensures x in bs {
      assert x in multiset(sorted);
    }
  }

  /** At most eight buckets, the eight largest when there are more, each aligned, counted right and kept once. */
  lemma TopBucketsBounded(data: seq<int>)
    requires IsPixelBuffer(data)
    ensures |TopBuckets(data)| == if |Buckets(data)| < PaletteSize then |Buckets(data)| else PaletteSize
    ensures DistinctKeys(TopBuckets(data))
    ensures forall b | b in TopBuckets(data) ::
      IsAligned(b.key) && b.key in Keys(data) && b.count == multiset(Keys(data))[b.key]
  {
    var bs := Buckets(data);
    var top := TopBuckets(data);
    BucketsFacts(data);
    SortedFromBuckets(data);
    forall i, j | 0 <= i < j < |top| ensures top[i].key != top[j].key {
      TopKeysDistinct(data, i, j);
    }
  }

  lemma TopKeysDistinct(data: seq<int>, i: int, j: int)
    requires IsPixelBuffer(data) && 0 <= i < j < |TopBuckets(data)|
    ensures TopBuckets(data)[i].key != TopBuckets(data)[j].key
  {
    var bs := Buckets(data);
    var top := TopBuckets(data);
    BucketsFacts(data);
    SortedFromBuckets(data);
    assert top[i] in bs && top[j] in bs && top[i] != top[j];
  }

  /** Buckets listed earlier in the map were first seen earlier in the scan. */
  lemma TieToFirstSeen(data: seq<int>, x: Bucket, y: Bucket)
    requires IsPixelBuffer(data)
    requires x in Buckets(data) && y in Buckets(data)
    requires FirstIndex(Buckets(data), x) < FirstIndex(Buckets(data), y)
    ensures FirstIndex(Keys(data), x.key) < FirstIndex(Keys(data), y.key)
  {
    var bs := Buckets(data);
    BucketsFacts(data);
    var fx, fy := FirstIndex(bs, x), FirstIndex(bs, y);
    assert bs[fx].key == x.key && bs[fy].key == y.key;
  }

  /** Ranked by count; equal counts in the order their buckets were first seen in the scan. */
  ghost predicate RankedPair(keys: seq<Rgb>, x: Bucket, y: Bucket)
    requires x.key in keys && y.key in keys
  {
    x.count > y.count || (x.count == y.count && FirstIndex(keys, x.key) < FirstIndex(keys, y.key))
  }

  /** Any two positions of the sorted map entries are ranked, ties broken by first sighting. */
  lemma SortedPairRanked(data: seq<int>, i: int, j: int)
    requires IsPixelBuffer(data)
    requires 0 <= i < j < |SortByCount(Buckets(data))|
    ensures SortByCount(Buckets(data))[i].key in Keys(data) && SortByCount(Buckets(data))[j].key in Keys(data)
    ensures RankedPair(Keys(data), SortByCount(Buckets(data))[i], SortByCount(Buckets(data))[j])
  {
    var bs := Buckets(data);
    var sorted := SortByCount(bs);
    BucketsFacts(data);
    SortedFromBuckets(data);
    SortByCountStable(bs);
    var bi, bj := sorted[i], sorted[j];
    assert bi in bs && bj in bs;
    if bi.count == bj.count {
      assert TieOrdered(bs, sorted[i], sorted[j]);
      TieToFirstSeen(data, bi, bj);
    }
  }

  lemma TopPairRanked(data: seq<int>, i: int, j: int)
    requires IsPixelBuffer(data)
    requires 0 <= i < j < |TopBuckets(data)|
    ensures TopBuckets(data)[i].key in Keys(data) && TopBuckets(data)[j].key in Keys(data)
    ensures RankedPair(Keys(data), TopBuckets(data)[i], TopBuckets(data)[j])
  {
    SortedFromBuckets(data);
    SortedPairRanked(data, i, j);
  }

  lemma TopBucketsOrdered(data: seq<int>)
    requires IsPixelBuffer(data)
    ensures forall b | b in TopBuckets(data) :: b.key in Keys(data)
    ensures forall i, j | 0 <= i < j < |TopBuckets(data)| ::
      RankedPair(Keys(data), TopBuckets(data)[i], TopBuckets(data)[j])
  {
    TopBucketsBounded(data);
    forall i, j | 0 <= i < j < |TopBuckets(data)|
      ensures RankedPair(Keys(data), TopBuckets(data)[i], TopBuckets(data)[j])
    {
      TopPairRanked(data, i, j);
    }
  }

  /** `t` outranks `b`, both being buckets of the scan. */
  ghost predicate Outranks(data: seq<int>, t: Bucket, b: Bucket)
    requires IsPixelBuffer(data)
  {
    t.key in Keys(data) && b.key in Keys(data) && RankedPair(Keys(data), t, b)
  }

  /**
   * Every bucket kept in the top eight outranks every bucket left out: it has a
   * larger count, or the same count and was seen first.
   */
  lemma TopBucketsDominate(data: seq<int>)
    requires IsPixelBuffer(data)
    ensures forall b, t | b in Buckets(data) && b !in TopBuckets(data) && t in TopBuckets(data) ::
      Outranks(data, t, b)
  {
    forall b, t | b in Buckets(data) && b !in TopBuckets(data) && t in TopBuckets(data)
      ensures Outranks(data, t, b)
    {
      DominatePair(data, b, t);
    }
  }

  lemma DominatePair(data: seq<int>, b: Bucket, t: Bucket)
    requires IsPixelBuffer(data)
    requires b in Buckets(data) && b !in TopBuckets(data) && t in TopBuckets(data)
    ensures Outranks(data, t, b)
  {
    var sorted := SortByCount(Buckets(data));
    var top := TopBuckets(data);
    SortedFromBuckets(data);
    assert b in multiset(sorted);
    var j :| 0 <= j < |sorted| && sorted[j] == b;
    var i :| 0 <= i < |top| && top[i] == t;
    assert sorted[i] == t;
    SortedPairRanked(data, i, j);
  }
}
