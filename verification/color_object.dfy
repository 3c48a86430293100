/**
 * The `colorObj` that `generateTailwindConfig` (src/components/CodeOutput.tsx)
 * builds with `reduce`: a plain object with string keys, whose entries
 * `Object.entries` lists in insertion order. Assigning a key the object
 * already has overwrites the value and keeps the key where it was.
 */
module ColorObject {
  import opened Wrappers
  import opened Sequences
  import opened ColorModel
  import opened Slugs

  /** An object with string keys and string values, as its entries in insertion order. */
  type Entries = seq<(string, string)>

  function EntryKeys(obj: Entries): seq<string> {
    seq(|obj|, i requires 0 <= i < |obj| => obj[i].0)
  }

  /** `obj[k]`, or `None` for a key the object does not have. */
  function Lookup(obj: Entries, k: string): Option<string> {
    if obj == [] then None
    else if obj[0].0 == k then Some(obj[0].1)
    else Lookup(obj[1..], k)
  }

  /** `obj[k] = v`. */
  function Assign(obj: Entries, k: string, v: string): (r: Entries)
    ensures AssignedFrom(obj, k, v, r)
  {
    if obj == [] then
      assert EntryKeys([(k, v)]) == [k];
      [(k, v)]
    else if obj[0].0 == k then
      var r := [(k, v)] + obj[1..];
      assert EntryKeys(r) == EntryKeys(obj);
      assert EntryKeys(obj)[0] == k;
      assert forall x | x != k :: Lookup(r, x) == Lookup(obj[1..], x);
      r
    else
      var rest := Assign(obj[1..], k, v);
      AssignCons(obj[0], obj[1..], rest, k, v);
      assert obj == [obj[0]] + obj[1..];
      [obj[0]] + rest
  }

  /**
   * `r` is `obj` after `obj[k] = v`: `k` holds `v`, every other key is
   * unchanged, an existing key keeps its place and a new key is appended,
   * and no entry other than `(k, v)` is invented.
   */
  ghost predicate AssignedFrom(obj: Entries, k: string, v: string, r: Entries) {
    && Lookup(r, k) == Some(v)
    && (forall x | x != k :: Lookup(r, x) == Lookup(obj, x))
    && EntryKeys(r) == (if k in EntryKeys(obj) then EntryKeys(obj) else EntryKeys(obj) + [k])
    && (forall e | e in r :: e in obj || e == (k, v))
  }

  /** Assigning past a first entry with another key keeps that entry in front. */
  lemma AssignCons(e: (string, string), tail: Entries, rest: Entries, k: string, v: string)
    requires e.0 != k && AssignedFrom(tail, k, v, rest)
    ensures AssignedFrom([e] + tail, k, v, [e] + rest)
  {
    ConsLookup(e, tail);
    ConsLookup(e, rest);
    ConsKeys(e, tail);
    ConsKeys(e, rest);
    assert forall x | x in [e] + rest :: x == e || x in rest;
  }

  lemma ConsLookup(e: (string, string), tail: Entries)
    ensures forall x :: Lookup([e] + tail, x) == if e.0 == x then Some(e.1) else Lookup(tail, x)
  {
    assert ([e] + tail)[1..] == tail;
  }

  lemma ConsKeys(e: (string, string), tail: Entries)
    ensures EntryKeys([e] + tail) == [e.0] + EntryKeys(tail)
  {
  }

  const Primary := "primary"
  const Secondary := "secondary"
  const Accent := "accent"

  /** The alias the colour at `index` is also stored under, if any. */
  function AliasAt(index: nat): Option<string> {
    if index == 0 then Some(Primary)
    else if index == 1 then Some(Secondary)
    else if index == 2 then Some(Accent)
    else None
  }

  /**
   * One call of the `reduce` callback: the slug key, then the alias for the
   * first three. Both end up holding the colour's hex, and every other key
   * keeps its value.
   */
  function ReduceStep(acc: Entries, c: Color, index: nat): (r: Entries)
    ensures Lookup(r, Slug(c.name)) == Some(c.hex)
    ensures AliasAt(index).Some? ==> Lookup(r, AliasAt(index).value) == Some(c.hex)
    ensures forall x | x != Slug(c.name) && AliasAt(index) != Some(x) :: Lookup(r, x) == Lookup(acc, x)
  {
    var acc := Assign(acc, Slug(c.name), c.hex);
    if index == 0 then Assign(acc, Primary, c.hex)
    else if index == 1 then Assign(acc, Secondary, c.hex)
    else if index == 2 then Assign(acc, Accent, c.hex)
    else acc
  }

  /** The assignments that callback makes, in order. */
  function ColorWrites(c: Color, index: nat): Entries {
    [(Slug(c.name), c.hex)] + (if AliasAt(index).Some? then [(AliasAt(index).value, c.hex)] else [])
  }

  /** Every assignment the whole `reduce` makes, in order. */
  function Writes(colors: seq<Color>): Entries
    decreases |colors|
  {
    if colors == [] then []
    else Writes(colors[..|colors| - 1]) + ColorWrites(colors[|colors| - 1], |colors| - 1)
  }

  /** `colors.reduce(..., {})`. */
  function ColorObj(colors: seq<Color>): (obj: Entries)
    ensures forall e | e in obj :: e in Writes(colors)
    decreases |colors|
  {
    if colors == [] then []
    else
      var n := |colors| - 1;
      var acc := ColorObj(colors[..n]);
      var obj := ReduceStep(acc, colors[n], n);
      assert forall e | e in acc :: e in Writes(colors);
      obj
  }

  // ----------------------------------------------------- reference definition

  /** The value the last of `writes` that assigns `k` stores, if any does. */
  function LastWrite(writes: Entries, k: string): Option<string>
    decreases |writes|
  {
    if writes == [] then None
    else if writes[|writes| - 1].0 == k then Some(writes[|writes| - 1].1)
    else LastWrite(writes[..|writes| - 1], k)
  }

  /** `obj` is what performing `writes` on an empty object produces. */
  ghost predicate Tracks(obj: Entries, writes: Entries) {
    && EntryKeys(obj) == Dedup(EntryKeys(writes))
    && forall k :: Lookup(obj, k) == LastWrite(writes, k)
  }

  lemma AssignTracks(obj: Entries, writes: Entries, k: string, v: string)
    requires Tracks(obj, writes)
    ensures Tracks(Assign(obj, k, v), writes + [(k, v)])
  {
    AssignKeys(obj, writes, k, v);
    forall x ensures Lookup(Assign(obj, k, v), x) == LastWrite(writes + [(k, v)], x) {
      AssignLookup(obj, writes, k, v, x);
    }
  }

  lemma AssignKeys(obj: Entries, writes: Entries, k: string, v: string)
    requires EntryKeys(obj) == Dedup(EntryKeys(writes))
    ensures EntryKeys(Assign(obj, k, v)) == Dedup(EntryKeys(writes + [(k, v)]))
  {
    assert EntryKeys(writes + [(k, v)]) == EntryKeys(writes) + [k];
    DedupSnoc(EntryKeys(writes), k);
  }

  lemma AssignLookup(obj: Entries, writes: Entries, k: string, v: string, x: string)
    requires Lookup(obj, x) == LastWrite(writes, x)
    ensures Lookup(Assign(obj, k, v), x) == LastWrite(writes + [(k, v)], x)
  {
    var ws := writes + [(k, v)];
    assert ws[..|ws| - 1] == writes;
  }

  /** What one colour's assignments store under `k`. */
  lemma LastWriteOfColor(c: Color, index: nat, k: string)
    ensures LastWrite(ColorWrites(c, index), k)
      == if AliasAt(index) == Some(k) || Slug(c.name) == k then Some(c.hex) else None
  {
    var ws := ColorWrites(c, index);
    assert ws[..1] == [(Slug(c.name), c.hex)];
    assert LastWrite([(Slug(c.name), c.hex)][..0], k) == None;
  }

  /** The callback assigns the slug, then the alias if the index has one. */
  lemma ReduceStepAssigns(acc: Entries, c: Color, index: nat)
    ensures ReduceStep(acc, c, index)
      == if AliasAt(index).Some? then Assign(Assign(acc, Slug(c.name), c.hex), AliasAt(index).value, c.hex)
         else Assign(acc, Slug(c.name), c.hex)
  {
  }

  /** One call of the callback performs that colour's assignments. */
  lemma ReduceStepTracks(acc: Entries, writes: Entries, c: Color, index: nat)
    requires Tracks(acc, writes)
    ensures Tracks(ReduceStep(acc, c, index), writes + ColorWrites(c, index))
  {
    var slug := (Slug(c.name), c.hex);
    AssignTracks(acc, writes, slug.0, slug.1);
    ReduceStepAssigns(acc, c, index);
    if AliasAt(index).Some? {
      var alias := (AliasAt(index).value, c.hex);
      AssignTracks(Assign(acc, slug.0, slug.1), writes + [slug], alias.0, alias.1);
      assert writes + [slug] + [alias] == writes + ColorWrites(c, index);
    } else {
      assert writes + [slug] == writes + ColorWrites(c, index);
    }
  }

  /**
   * The object is the fold of its assignments: its keys in the order they
   * were first assigned, each with the value assigned to it last.
   */
  lemma {:induction false} ColorObjTracks(colors: seq<Color>)
    ensures Tracks(ColorObj(colors), Writes(colors))
    decreases |colors|
  {
    if colors != [] {
      var n := |colors| - 1;
      ColorObjTracks(colors[..n]);
      ReduceStepTracks(ColorObj(colors[..n]), Writes(colors[..n]), colors[n], n);
    }
  }

  lemma {:induction false} LastWriteAppend(a: Entries, b: Entries, k: string)
    ensures LastWrite(a + b, k) == if LastWrite(b, k).Some? then LastWrite(b, k) else LastWrite(a, k)
    decreases |b|
  {
    if b == [] {
      assert a + b == a;
    } else {
      var n := |b| - 1;
      assert (a + b)[..|a + b| - 1] == a + b[..n];
      LastWriteAppend(a, b[..n], k);
    }
  }

  /** The assignments of colour `j` and what it stores. */
  ghost predicate WrittenBy(colors: seq<Color>, j: int, e: (string, string)) {
    && 0 <= j < |colors| && e.1 == colors[j].hex
    && (e.0 == Slug(colors[j].name) || AliasAt(j) == Some(e.0))
  }

  lemma {:induction false} WritesFromColors(colors: seq<Color>)
    ensures forall e | e in Writes(colors) :: exists j :: WrittenBy(colors, j, e)
    ensures forall j | 0 <= j < |colors| :: Slug(colors[j].name) in EntryKeys(Writes(colors))
    decreases |colors|
  {
    if colors != [] {
      var n := |colors| - 1;
      var init := colors[..n];
      WritesFromColors(init);
      var ws := ColorWrites(colors[n], n);
      forall e | e in Writes(colors) ensures exists j :: WrittenBy(colors, j, e) {
        if e in Writes(init) {
          var j :| WrittenBy(init, j, e);
          assert WrittenBy(colors, j, e);
        } else {
          assert e in ws;
          assert WrittenBy(colors, n, e);
        }
      }
      forall j | 0 <= j < |colors| ensures Slug(colors[j].name) in EntryKeys(Writes(colors)) {
        var k := Slug(colors[j].name);
        if j < n {
          assert k == Slug(init[j].name);
          var p :| 0 <= p < |Writes(init)| && EntryKeys(Writes(init))[p] == k;
          assert Writes(colors)[p] == Writes(init)[p];
          assert EntryKeys(Writes(colors))[p] == k;
        } else {
          var p := |Writes(init)|;
          assert Writes(colors)[p] == (k, colors[j].hex);
          assert EntryKeys(Writes(colors))[p] == k;
        }
      }
    }
  }

  /**
   * Every colour's slug is a key, and every entry holds the hex of a colour,
   * under that colour's slug or under that colour's alias.
   */
  lemma ColorObjEntries(colors: seq<Color>)
    ensures forall j | 0 <= j < |colors| :: Slug(colors[j].name) in EntryKeys(ColorObj(colors))
    ensures forall e | e in ColorObj(colors) :: exists j :: WrittenBy(colors, j, e)
  {
    ColorObjTracks(colors);
    WritesFromColors(colors);
  }

  /** No two entries share a key. */
  lemma ColorObjDistinct(colors: seq<Color>)
    ensures Distinct(EntryKeys(ColorObj(colors)))
  {
    ColorObjTracks(colors);
  }

  /**
   * Every colour's slug is a key; it holds the hex of the last colour with
   * that slug, unless the slug is one of the alias names.
   */
  lemma {:induction false} LastColorWins(colors: seq<Color>, i: int)
    requires 0 <= i < |colors|
    requires Slug(colors[i].name) !in [Primary, Secondary, Accent]
    requires forall j | i < j < |colors| :: Slug(colors[j].name) != Slug(colors[i].name)
    ensures Lookup(ColorObj(colors), Slug(colors[i].name)) == Some(colors[i].hex)
  {
    ColorObjTracks(colors);
    SlugLastWrite(colors, i);
  }

  lemma {:induction false} SlugLastWrite(colors: seq<Color>, i: int)
    requires 0 <= i < |colors|
    requires Slug(colors[i].name) !in [Primary, Secondary, Accent]
    requires forall j | i < j < |colors| :: Slug(colors[j].name) != Slug(colors[i].name)
    ensures LastWrite(Writes(colors), Slug(colors[i].name)) == Some(colors[i].hex)
    decreases |colors|
  {
    var n := |colors| - 1;
    var k := Slug(colors[i].name);
    var ws := ColorWrites(colors[n], n);
    LastWriteAppend(Writes(colors[..n]), ws, k);
    LastWriteOfColor(colors[n], n, k);
    if i < n {
      SlugLastWrite(colors[..n], i);
    }
  }

  /**
   * With no colour slugged to `alias`, the alias is present exactly when the
   * colour at its index exists, and holds that colour's hex.
   */
  lemma AliasBinding(colors: seq<Color>, index: nat)
    requires AliasAt(index).Some?
    requires forall j | 0 <= j < |colors| :: Slug(colors[j].name) != AliasAt(index).value
    ensures Lookup(ColorObj(colors), AliasAt(index).value)
      == if index < |colors| then Some(colors[index].hex) else None
  {
    ColorObjTracks(colors);
    AliasLastWrite(colors, index);
  }

  lemma {:induction false} AliasLastWrite(colors: seq<Color>, index: nat)
    requires AliasAt(index).Some?
    requires forall j | 0 <= j < |colors| :: Slug(colors[j].name) != AliasAt(index).value
    ensures LastWrite(Writes(colors), AliasAt(index).value)
      == if index < |colors| then Some(colors[index].hex) else None
    decreases |colors|
  {
    if colors != [] {
      var n := |colors| - 1;
      var k := AliasAt(index).value;
      var ws := ColorWrites(colors[n], n);
      LastWriteAppend(Writes(colors[..n]), ws, k);
      LastWriteOfColor(colors[n], n, k);
      var init := colors[..n];
      assert forall j | 0 <= j < n :: init[j] == colors[j];
      AliasLastWrite(init, index);
      if index < n {
        assert init[index] == colors[index];
      }
    }
  }
}
