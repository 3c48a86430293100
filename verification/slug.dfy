/**
 * The slug rule the three exporters of src/components/CodeOutput.tsx share:
 * `name.toLowerCase().replace(/\s+/g, '-')`.
 */
module Slugs {
  import opened Text

  /** The length of the whitespace run `s` starts with (what `\s+` matches there, or nothing). */
  function WhitespaceRun(s: string): (n: nat)
    ensures n <= |s|
    ensures forall i | 0 <= i < n :: IsWhitespace(s[i])
    ensures n < |s| ==> !IsWhitespace(s[n])
  {
    if s == [] || !IsWhitespace(s[0]) then 0 else 1 + WhitespaceRun(s[1..])
  }

  /** `s.replace(/\s+/g, '-')`: every maximal whitespace run becomes one hyphen. */
  function Hyphenate(s: string): (t: string)
    ensures forall i | 0 <= i < |t| :: !IsWhitespace(t[i])
    ensures forall i | 0 <= i < |t| :: t[i] == '-' || t[i] in s
    decreases |s|
  {
    if s == [] then ""
    else if IsWhitespace(s[0]) then
      var rest := Hyphenate(s[WhitespaceRun(s)..]);
      assert forall i | 0 <= i < |rest| :: rest[i] == '-' || rest[i] in s;
      "-" + rest
    else
      var rest := Hyphenate(s[1..]);
      assert forall i | 0 <= i < |rest| :: rest[i] == '-' || rest[i] in s;
      [s[0]] + rest
  }

  /** The key a colour name gets in every exported document. */
  function Slug(name: string): (slug: string)
    ensures forall i | 0 <= i < |slug| :: !IsWhitespace(slug[i]) && !IsUpper(slug[i])
  {
    var lower := Lower(name);
    var slug := Hyphenate(lower);
    assert forall i | 0 <= i < |slug| :: slug[i] == '-' || slug[i] in lower;
    slug
  }

  /** `s.split(/\s+/)`: the pieces between the maximal whitespace runs. */
  function WhitespaceSplit(s: string): (parts: seq<string>)
    ensures |parts| >= 1
    ensures forall i, j | 0 <= i < |parts| && 0 <= j < |parts[i]| :: !IsWhitespace(parts[i][j])
    decreases |s|
  {
    if s == [] then [""]
    else if IsWhitespace(s[0]) then [""] + WhitespaceSplit(s[WhitespaceRun(s)..])
    else
      var rest := WhitespaceSplit(s[1..]);
      [[s[0]] + rest[0]] + rest[1..]
  }

  lemma JoinExtendFirst(c: char, parts: seq<string>, sep: string)
    requires |parts| >= 1
    ensures Join([[c] + parts[0]] + parts[1..], sep) == [c] + Join(parts, sep)
  {
    var q := [[c] + parts[0]] + parts[1..];
    if |parts| > 1 {
      assert q[1..] == parts[1..];
    }
  }

  /**
   * Replacing each whitespace run by a hyphen is joining the pieces between
   * the runs with hyphens.
   */
  lemma {:induction false} HyphenateIsJoin(s: string)
    ensures Hyphenate(s) == Join(WhitespaceSplit(s), "-")
    decreases |s|
  {
    if s == [] {
    } else if IsWhitespace(s[0]) {
      var rest := s[WhitespaceRun(s)..];
      HyphenateIsJoin(rest);
      var parts := [""] + WhitespaceSplit(rest);
      assert parts[1..] == WhitespaceSplit(rest);
    } else {
      HyphenateIsJoin(s[1..]);
      JoinExtendFirst(s[0], WhitespaceSplit(s[1..]), "-");
    }
  }

  /** The whitespace run at the front of `w + t` is all of `w` when `t` does not start with whitespace. */
  lemma {:induction false} WhitespaceRunOf(w: string, t: string)
    requires forall i | 0 <= i < |w| :: IsWhitespace(w[i])
    requires t == [] || !IsWhitespace(t[0])
    ensures WhitespaceRun(w + t) == |w|
    decreases |w|
  {
    if w != [] {
      assert (w + t)[1..] == w[1..] + t;
      WhitespaceRunOf(w[1..], t);
    } else {
      assert w + t == t;
    }
  }

  /** A maximal whitespace run, of any length, becomes exactly one hyphen. */
  lemma HyphenateRun(w: string, t: string)
    requires |w| >= 1 && forall i | 0 <= i < |w| :: IsWhitespace(w[i])
    requires t == [] || !IsWhitespace(t[0])
    ensures Hyphenate(w + t) == "-" + Hyphenate(t)
  {
    WhitespaceRunOf(w, t);
    assert (w + t)[|w|..] == t;
  }

  /** Any other character is kept as it is. */
  lemma HyphenateKeeps(c: char, t: string)
    requires !IsWhitespace(c)
    ensures Hyphenate([c] + t) == [c] + Hyphenate(t)
  {
    assert ([c] + t)[1..] == t;
  }

  /** Text without whitespace is left alone. */
  lemma {:induction false} HyphenateNoWhitespace(s: string)
    requires forall i | 0 <= i < |s| :: !IsWhitespace(s[i])
    ensures Hyphenate(s) == s
    decreases |s|
  {
    if s != [] {
      HyphenateNoWhitespace(s[1..]);
    }
  }

  /** A slug is its own slug. */
  lemma SlugIdempotent(name: string)
    ensures Slug(Slug(name)) == Slug(name)
  {
    var slug := Slug(name);
    assert Lower(slug) == slug;
    HyphenateNoWhitespace(slug);
  }

  /** A name starting with two non-space characters keeps them, lower-cased, at the front of its slug. */
  lemma SlugStart(name: string)
    requires |name| >= 2 && !IsWhitespace(name[0]) && !IsWhitespace(name[1])
    ensures |Slug(name)| >= 2
    ensures Slug(name)[0] == LowerChar(name[0]) && Slug(name)[1] == LowerChar(name[1])
  {
    var lower := Lower(name);
    assert lower == [lower[0]] + ([lower[1]] + lower[2..]);
    HyphenateKeeps(lower[0], [lower[1]] + lower[2..]);
    HyphenateKeeps(lower[1], lower[2..]);
  }
}
