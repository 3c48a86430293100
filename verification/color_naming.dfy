/**
 * `getColorName` of src/utils/colorExtractor.ts: a nearest-neighbour search
 * over a fixed table of twelve named anchor colours, overridden for very dark
 * and very light inputs.
 *
 * The source compares Euclidean distances `Math.sqrt(dr² + dg² + db²)`; the
 * model compares the squared distances, which order the table entries the same
 * way because the square root is strictly increasing.
 */
module ColorNaming {
  import opened Wrappers
  import opened ColorModel

  datatype NamedColor = NamedColor(name: string, anchor: Rgb)

  /** The `colorNames` table, in source order (the order decides ties). */
  const Table: seq<NamedColor> := [
    NamedColor("Deep Blue", Rgb(0, 120, 200)),
    NamedColor("Ocean Blue", Rgb(30, 144, 255)),
    NamedColor("Sky Blue", Rgb(135, 206, 235)),
    NamedColor("Mint Green", Rgb(152, 251, 152)),
    NamedColor("Forest Green", Rgb(34, 139, 34)),
    NamedColor("Sunset Orange", Rgb(255, 140, 0)),
    NamedColor("Coral Pink", Rgb(255, 127, 80)),
    NamedColor("Deep Purple", Rgb(147, 0, 211)),
    NamedColor("Royal Purple", Rgb(120, 81, 169)),
    NamedColor("Charcoal", Rgb(54, 69, 79)),
    NamedColor("Warm Gray", Rgb(128, 128, 128)),
    NamedColor("Cream", Rgb(255, 253, 208))
  ]

  /** The initial value of `closestName`, replaced on the first table entry. */
  const DefaultName := "Custom Color"
  const DarkName := "Dark Charcoal"
  const LightName := "Light Gray"

  predicate IsDark(c: Rgb) {
    c.r < 50 && c.g < 50 && c.b < 50
  }

  predicate IsLight(c: Rgb) {
    c.r > 200 && c.g > 200 && c.b > 200
  }

  function Square(x: int): nat {
    x * x
  }

  function SquaredDistance(c: Rgb, d: Rgb): nat {
    Square(c.r - d.r) + Square(c.g - d.g) + Square(c.b - d.b)
  }

  /** Squared distance from `c` to the anchor of table entry `k`. */
  function Dist(c: Rgb, k: int): nat
    requires 0 <= k < |Table|
  {
    SquaredDistance(c, Table[k].anchor)
  }

  /** The squared distances from `c` to the anchors, in table order. */
  function Distances(c: Rgb): seq<nat> {
    seq(|Table|, k requires 0 <= k < |Table| => Dist(c, k))
  }

  /** `k` is the first index among the first `n` of `ds` holding their minimum. */
  ghost predicate IsFirstMinimum(ds: seq<nat>, k: int, n: int)
    requires n <= |ds|
  {
    && 0 <= k < n
    && (forall j | 0 <= j < n :: ds[k] <= ds[j])
    && (forall j | 0 <= j < k :: ds[k] < ds[j])
  }

  /**
   * The index a left-to-right scan over the first `n` distances keeps when a
   * later one replaces it only if strictly smaller.
   */
  function FirstMinimum(ds: seq<nat>, n: int): (k: int)
    requires 1 <= n <= |ds|
    ensures IsFirstMinimum(ds, k, n)
    decreases n
  {
    if n == 1 then 0
    else
      var k := FirstMinimum(ds, n - 1);
      if ds[n - 1] < ds[k] then n - 1 else k
  }

  /** The table entry `getColorName` settles on before the overrides. */
  function Nearest(c: Rgb): int {
    FirstMinimum(Distances(c), |Table|)
  }

  /** What `getColorName(r, g, b)` returns. */
  function ColorName(c: Rgb): (name: string)
    ensures name == DarkName || name == LightName || name in TableNames()
    ensures name != DefaultName
  {
    if IsDark(c) then DarkName
    else if IsLight(c) then LightName
    else
      var k := Nearest(c);
      assert Table[k].name in TableNames();
      TableNamesAreNotDefault();
      Table[k].name
  }

  /**
   * `getColorName`: scans the table keeping the nearest entry seen so far
   * (`None` stands for the initial `Infinity`), then applies the overrides.
   */
  method GetColorName(c: Rgb) returns (name: string)
    ensures IsDark(c) ==> name == DarkName
    ensures !IsDark(c) && IsLight(c) ==> name == LightName
    ensures !IsDark(c) && !IsLight(c) ==>
      exists k :: IsFirstMinimum(Distances(c), k, |Table|) && name == Table[k].name
    ensures name == ColorName(c)
  {
    var closestName := DefaultName;
    var minDistance: Option<nat> := None;
    ghost var closest := 0;
    for i := 0 to |Table|
      invariant i == 0 ==> closestName == DefaultName && minDistance == None
      invariant i > 0 ==> closest == FirstMinimum(Distances(c), i)
      invariant i > 0 ==> closestName == Table[closest].name && minDistance == Some(Distances(c)[closest])
    {
      var entry := Table[i];
      var distance := SquaredDistance(c, entry.anchor);
      if minDistance.None? || distance < minDistance.value {
        minDistance := Some(distance);
        closestName := entry.name;
        closest := i;
      }
    }
    if IsDark(c) {
      return DarkName;
    }
    if IsLight(c) {
      return LightName;
    }
    return closestName;
  }

  /** At most one index is the first minimum: the name outside the overrides is determined. */
  lemma FirstMinimumUnique(ds: seq<nat>, n: int, k1: int, k2: int)
    requires n <= |ds|
    requires IsFirstMinimum(ds, k1, n) && IsFirstMinimum(ds, k2, n)
    ensures k1 == k2
  {
    assert ds[k1] == ds[k2];
  }

  /** The names of the table entries. */
  function TableNames(): set<string> {
    set k | 0 <= k < |Table| :: Table[k].name
  }

  lemma TableNamesAreNotDefault()
    ensures DefaultName !in TableNames()
  {
    forall k | 0 <= k < |Table| ensures Table[k].name != DefaultName {
      assert Table[k].name[0] != DefaultName[0] || |Table[k].name| != |DefaultName|;
    }
  }

  /** Black falls under the dark override and white under the light one. */
  lemma OverrideExamples()
    ensures ColorName(Rgb(0, 0, 0)) == "Dark Charcoal"
    ensures ColorName(Rgb(255, 255, 255)) == "Light Gray"
  {
  }

  /** An anchor colour outside the overrides is named after its own entry. */
  lemma AnchorNamesItself()
    ensures ColorName(Rgb(0, 120, 200)) == "Deep Blue"
  {
    var c := Rgb(0, 120, 200);
    var ds := Distances(c);
    assert ds[0] == 0;
    assert IsFirstMinimum(ds, 0, |Table|);
    FirstMinimumUnique(ds, |Table|, Nearest(c), 0);
  }

  /** A bucket colour near an anchor takes that anchor's name. */
  lemma NearAnchorExample()
    ensures ColorName(Rgb(120, 80, 170)) == "Royal Purple"
  {
    var c := Rgb(120, 80, 170);
    var k := Nearest(c);
    assert Distances(c)[8] == 2;
    assert Distances(c)[k] <= 2;
    forall j | 0 <= j < |Table| && j != 8 ensures Distances(c)[j] > 2 {
    }
  }
}
