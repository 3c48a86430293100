/**
 * The three code generators of src/components/CodeOutput.tsx, as pure string
 * builders over the ordered colour list: the Tailwind config, the CSS custom
 * properties and the Sass variables. Each document is stated line by line
 * (`Split` on the newline) so that the per-colour lines, their order and the
 * fixed alias lines can be read off.
 */
module CodeOutput {
  import opened Wrappers
  import opened Text
  import opened ColorModel
  import opened Slugs
  import opened ColorObject

  predicate NoNewline(s: string) {
    '\n' !in s
  }

  predicate AllNoNewline(lines: seq<string>) {
    forall i | 0 <= i < |lines| :: NoNewline(lines[i])
  }

  /** The hex fields carry no line break (every hex `rgbToHex` writes qualifies). */
  predicate SingleLineHexes(colors: seq<Color>) {
    forall i | 0 <= i < |colors| :: NoNewline(colors[i].hex)
  }

  /**
   * `colors[index]?.hex || fallback`: the hex of the colour at `index` or the
   * fallback, and never empty unless the fallback is, since a missing colour
   * and an empty hex both fall back.
   */
  function Alias(colors: seq<Color>, index: nat, fallback: string): (a: string)
    ensures a == fallback || (index < |colors| && a == colors[index].hex)
    ensures a == "" ==> fallback == ""
  {
    if index < |colors| && colors[index].hex != "" then colors[index].hex else fallback
  }

  /** The lines a joined block occupies between two line breaks: joining nothing still leaves one empty line. */
  function Block(lines: seq<string>): seq<string> {
    if lines == [] then [""] else lines
  }

  lemma JoinBlock(lines: seq<string>, sep: string)
    ensures Join(Block(lines), sep) == Join(lines, sep)
  {
    if lines == [] {
      assert Join([""], sep) == "";
    }
  }

  /** A document written as `head`, a line break, the block, a line break and `tail`. */
  lemma {:induction false} Framed(head: seq<string>, body: seq<string>, tail: seq<string>)
    requires |head| >= 1 && |tail| >= 1
    ensures Join(head, "\n") + "\n" + Join(body, "\n") + "\n" + Join(tail, "\n")
      == Join(head + Block(body) + tail, "\n")
  {
    JoinBlock(body, "\n");
    JoinAppend(head, Block(body), "\n");
    JoinAppend(head + Block(body), tail, "\n");
  }

  lemma {:induction false} JoinNoNewline(parts: seq<string>, sep: string)
    requires AllNoNewline(parts) && NoNewline(sep)
    ensures NoNewline(Join(parts, sep))
    decreases |parts|
  {
    if |parts| > 1 {
      JoinNoNewline(parts[1..], sep);
      assert parts[0] + sep + Join(parts[1..], sep) == Join(parts, sep);
    }
  }

  lemma AllNoNewlineFramed(head: seq<string>, body: seq<string>, tail: seq<string>)
    requires AllNoNewline(head) && AllNoNewline(body) && AllNoNewline(tail)
    ensures AllNoNewline(head + Block(body) + tail)
  {
    var lines := head + Block(body) + tail;
    forall i | 0 <= i < |lines| ensures NoNewline(lines[i]) {
      if i < |head| {
        assert lines[i] == head[i];
      } else if i < |head| + |Block(body)| {
        assert lines[i] == Block(body)[i - |head|];
      } else {
        assert lines[i] == tail[i - |head| - |Block(body)|];
      }
    }
  }

  /** A framed document of single lines splits back into its lines. */
  lemma SplitFramed(head: seq<string>, body: seq<string>, tail: seq<string>)
    requires |head| >= 1 && |tail| >= 1
    requires AllNoNewline(head) && AllNoNewline(body) && AllNoNewline(tail)
    ensures Split(Join(head, "\n") + "\n" + Join(body, "\n") + "\n" + Join(tail, "\n"), '\n')
      == head + Block(body) + tail
  {
    Framed(head, body, tail);
    AllNoNewlineFramed(head, body, tail);
    SplitJoin(head + Block(body) + tail, '\n');
  }

  lemma NoNewlineConcat(a: string, b: string)
    requires NoNewline(a) && NoNewline(b)
    ensures NoNewline(a + b)
  {
    assert forall ch | ch in a + b :: ch in a || ch in b;
  }

  lemma Line3(a: string, b: string, c: string)
    requires NoNewline(a) && NoNewline(b) && NoNewline(c)
    ensures NoNewline(a + b + c)
  {
    NoNewlineConcat(a, b);
    NoNewlineConcat(a + b, c);
  }

  lemma Line5(a: string, b: string, c: string, d: string, e: string)
    requires NoNewline(a) && NoNewline(b) && NoNewline(c) && NoNewline(d) && NoNewline(e)
    ensures NoNewline(a + b + c + d + e)
  {
    Line3(a, b, c);
    Line3(a + b + c, d, e);
  }

  lemma SlugNoNewline(name: string)
    ensures NoNewline(Slug(name))
  {
    assert IsWhitespace('\n');
  }

  // ------------------------------------------------------- generateTailwindConfig

  /** One line of the `colors` block. */
  function EntryLine(e: (string, string)): string {
    "        '" + e.0 + "': '" + e.1 + "',"
  }

  function EntryLines(obj: Entries): seq<string> {
    seq(|obj|, i requires 0 <= i < |obj| => EntryLine(obj[i]))
  }

  const TailwindHead: seq<string> :=
    ["// tailwind.config.ts", "export default {", "  theme: {", "    extend: {", "      colors: {"]
  const TailwindTail: seq<string> := ["      }", "    }", "  }", "}"]

  /**
   * `generateTailwindConfig`: the template literal, whose fixed lines are
   * `TailwindHead` and `TailwindTail`, around the entry lines joined by line
   * breaks. Read line by line it is the fixed head, one entry line per key of
   * the colour object in its insertion order (one empty line when it has
   * none), and the fixed tail.
   */
  function TailwindConfig(colors: seq<Color>): (doc: string)
    ensures SingleLineHexes(colors) ==>
      Split(doc, '\n') == TailwindHead + Block(EntryLines(ColorObj(colors))) + TailwindTail
  {
    var body := EntryLines(ColorObj(colors));
    var doc := Join(TailwindHead, "\n") + "\n" + Join(body, "\n") + "\n" + Join(TailwindTail, "\n");
    assert SingleLineHexes(colors) ==> Split(doc, '\n') == TailwindHead + Block(body) + TailwindTail by {
      if SingleLineHexes(colors) {
        TailwindFrameSingle();
        EntryLinesSingle(colors);
        SplitFramed(TailwindHead, body, TailwindTail);
      }
    }
    doc
  }

  lemma TailwindFrameSingle()
    ensures AllNoNewline(TailwindHead) && AllNoNewline(TailwindTail)
  {
  }

  /** Keys are slugs or alias names and values are hexes, so no entry line breaks. */
  lemma EntryLinesSingle(colors: seq<Color>)
    requires SingleLineHexes(colors)
    ensures AllNoNewline(EntryLines(ColorObj(colors)))
  {
    var obj := ColorObj(colors);
    ColorObjEntries(colors);
    forall i | 0 <= i < |obj| ensures NoNewline(EntryLine(obj[i])) {
      var e := obj[i];
      assert e in obj;
      var j :| WrittenBy(colors, j, e);
      EntryLineSingle(colors, j, e);
    }
  }

  lemma EntryLineSingle(colors: seq<Color>, j: int, e: (string, string))
    requires SingleLineHexes(colors) && WrittenBy(colors, j, e)
    ensures NoNewline(EntryLine(e))
  {
    SlugNoNewline(colors[j].name);
    assert NoNewline(Primary) && NoNewline(Secondary) && NoNewline(Accent);
    assert NoNewline(e.0) && NoNewline(e.1);
    assert NoNewline("        '") && NoNewline("': '") && NoNewline("',");
    Line5("        '", e.0, "': '", e.1, "',");
  }

  /** No colours: the `colors` block holds one empty line and nothing else. */
  lemma TailwindEmpty()
    ensures Split(TailwindConfig([]), '\n') == TailwindHead + [""] + TailwindTail
  {
    assert EntryLines(ColorObj([])) == [];
  }

  // -------------------------------------------------------- generateCSSVariables

  /** `rgb.match(/\d+/g)?.join(', ') || ''`: no match and an empty join both give "". */
  function RgbDigits(rgb: string): (digits: string)
    ensures NoNewline(digits)
    ensures DigitRuns(rgb) == [] ==> digits == ""
  {
    DigitRunsSingle(rgb);
    JoinNoNewline(DigitRuns(rgb), ", ");
    Join(DigitRuns(rgb), ", ")
  }

  /** For a record `extractColors` builds, the digit runs are the three channels in decimal. */
  lemma RgbDigitsOfText(c: Rgb)
    requires IsValid(c)
    ensures RgbDigits(RgbText(c)) == Decimal(c.r) + ", " + Decimal(c.g) + ", " + Decimal(c.b)
  {
    var r, g, b := Decimal(c.r), Decimal(c.g), Decimal(c.b);
    JoinCons(g, [b], ", ");
    assert [g, b] == [g] + [b];
    JoinCons(r, [g, b], ", ");
    assert [r, g, b] == [r] + [g, b];
  }

  /**
   * What the `.map` callback returns for one colour: for a single-line hex,
   * exactly two lines, the hex variable and then the `-rgb` variable.
   */
  function CssEntry(c: Color): (entry: string)
    ensures NoNewline(c.hex) ==> Split(entry, '\n') == [CssHexLine(c), CssRgbLine(c)]
  {
    var name := Slug(c.name);
    var entry := "  --color-" + name + ": " + c.hex + ";" + "\n" + "  --color-" + name + "-rgb: " + RgbDigits(c.rgb) + ";";
    assert NoNewline(c.hex) ==> Split(entry, '\n') == [CssHexLine(c), CssRgbLine(c)] by {
      if NoNewline(c.hex) {
        var pair := [CssHexLine(c), CssRgbLine(c)];
        CssColorSingle(c);
        JoinCons(CssHexLine(c), [CssRgbLine(c)], "\n");
        assert pair == [CssHexLine(c)] + [CssRgbLine(c)];
        assert entry == CssHexLine(c) + "\n" + CssRgbLine(c);
        assert Join(pair, "\n") == entry;
        SplitJoin(pair, '\n');
      }
    }
    entry
  }

  function CssEntries(colors: seq<Color>): seq<string> {
    seq(|colors|, i requires 0 <= i < |colors| => CssEntry(colors[i]))
  }

  /**
   * `generateCSSVariables`: `:root {`, the entries joined by line breaks, the
   * three alias lines and the closing brace (`CssTail`). Read line by line it
   * is `:root {`, two lines per colour in list order (one empty line when
   * there are none), the alias lines and the brace.
   */
  function CssVariables(colors: seq<Color>): (doc: string)
    ensures SingleLineHexes(colors) ==>
      Split(doc, '\n') == CssHead + Block(CssLines(colors)) + CssTail(colors)
  {
    var doc := Join(CssHead, "\n") + "\n" + Join(CssEntries(colors), "\n") + "\n" + Join(CssTail(colors), "\n");
    assert SingleLineHexes(colors) ==> Split(doc, '\n') == CssHead + Block(CssLines(colors)) + CssTail(colors) by {
      if SingleLineHexes(colors) {
        CssDocumentSplit(colors);
      }
    }
    doc
  }

  const CssHead: seq<string> := [":root {"]

  function CssHexLine(c: Color): string {
    "  --color-" + Slug(c.name) + ": " + c.hex + ";"
  }

  function CssRgbLine(c: Color): string {
    "  --color-" + Slug(c.name) + "-rgb: " + RgbDigits(c.rgb) + ";"
  }

  /** The two lines of every colour, colour after colour. */
  function CssLines(colors: seq<Color>): (lines: seq<string>)
    ensures |lines| == 2 * |colors|
  {
    if colors == [] then []
    else [CssHexLine(colors[0]), CssRgbLine(colors[0])] + CssLines(colors[1..])
  }

  /** Colour `i` owns lines `2i` and `2i + 1`. */
  lemma {:induction false} CssLinesAt(colors: seq<Color>, i: int)
    requires 0 <= i < |colors|
    ensures CssLines(colors)[2 * i] == CssHexLine(colors[i])
    ensures CssLines(colors)[2 * i + 1] == CssRgbLine(colors[i])
    decreases |colors|
  {
    if i > 0 {
      CssLinesAt(colors[1..], i - 1);
    }
  }

  function CssTail(colors: seq<Color>): seq<string> {
    [ "  --color-primary: " + Alias(colors, 0, "#000000") + ";",
      "  --color-secondary: " + Alias(colors, 1, "#666666") + ";",
      "  --color-accent: " + Alias(colors, 2, "#999999") + ";",
      "}" ]
  }

  /** One entry is its two lines joined by a line break. */
  lemma CssEntryJoin(c: Color)
    ensures CssEntry(c) == Join([CssHexLine(c), CssRgbLine(c)], "\n")
  {
    JoinCons(CssHexLine(c), [CssRgbLine(c)], "\n");
    assert [CssHexLine(c), CssRgbLine(c)] == [CssHexLine(c)] + [CssRgbLine(c)];
  }

  lemma {:induction false} CssEntriesJoin(colors: seq<Color>)
    ensures Join(CssEntries(colors), "\n") == Join(CssLines(colors), "\n")
    decreases |colors|
  {
    if colors != [] {
      var c := colors[0];
      var rest := colors[1..];
      CssEntriesJoin(rest);
      assert CssEntries(colors) == [CssEntry(c)] + CssEntries(rest);
      var pair := [CssHexLine(c), CssRgbLine(c)];
      CssEntryJoin(c);
      if rest == [] {
        assert CssEntries(colors) == [CssEntry(c)];
        assert CssLines(colors) == pair;
      } else {
        JoinAppend([CssEntry(c)], CssEntries(rest), "\n");
        JoinAppend(pair, CssLines(rest), "\n");
      }
    }
  }

  lemma DigitRunsSingle(rgb: string)
    ensures AllNoNewline(DigitRuns(rgb))
  {
    var runs := DigitRuns(rgb);
    forall i | 0 <= i < |runs| ensures NoNewline(runs[i]) {
      assert forall j | 0 <= j < |runs[i]| :: IsDigit(runs[i][j]);
    }
  }

  /** An alias line: a fixed prefix, the alias value and `;`. */
  lemma AliasLineSingle(prefix: string, colors: seq<Color>, index: nat, fallback: string)
    requires NoNewline(prefix) && SingleLineHexes(colors) && NoNewline(fallback)
    ensures NoNewline(prefix + Alias(colors, index, fallback) + ";")
  {
    Line3(prefix, Alias(colors, index, fallback), ";");
  }

  lemma CssColorSingle(c: Color)
    requires NoNewline(c.hex)
    ensures NoNewline(CssHexLine(c)) && NoNewline(CssRgbLine(c))
  {
    SlugNoNewline(c.name);
    assert NoNewline("  --color-") && NoNewline(": ") && NoNewline("-rgb: ") && NoNewline(";");
    Line5("  --color-", Slug(c.name), ": ", c.hex, ";");
    Line5("  --color-", Slug(c.name), "-rgb: ", RgbDigits(c.rgb), ";");
  }

  lemma CssTailSingle(colors: seq<Color>)
    requires SingleLineHexes(colors)
    ensures AllNoNewline(CssTail(colors))
  {
    var defaults := ["#000000", "#666666", "#999999"];
    var names := ["  --color-primary: ", "  --color-secondary: ", "  --color-accent: "];
    forall k | 0 <= k < 3 ensures NoNewline(CssTail(colors)[k]) {
      assert NoNewline(defaults[k]) && NoNewline(names[k]);
      AliasLineSingle(names[k], colors, k, defaults[k]);
    }
  }

  lemma CssLinesSingle(colors: seq<Color>)
    requires SingleLineHexes(colors)
    ensures AllNoNewline(CssLines(colors))
  {
    var lines := CssLines(colors);
    forall k | 0 <= k < |lines| ensures NoNewline(lines[k]) {
      var i := k / 2;
      CssLinesAt(colors, i);
      CssColorSingle(colors[i]);
    }
  }

  /** The CSS template, split at its line breaks, gives back its lines. */
  lemma CssDocumentSplit(colors: seq<Color>)
    requires SingleLineHexes(colors)
    ensures var doc := Join(CssHead, "\n") + "\n" + Join(CssEntries(colors), "\n") + "\n" + Join(CssTail(colors), "\n");
      Split(doc, '\n') == CssHead + Block(CssLines(colors)) + CssTail(colors)
  {
    CssEntriesJoin(colors);
    CssLinesSingle(colors);
    CssTailSingle(colors);
    assert AllNoNewline(CssHead);
    SplitFramed(CssHead, CssLines(colors), CssTail(colors));
  }

  // ------------------------------------------------------- generateSassVariables

  /** One `$color-` variable: a single line whenever the hex is one. */
  function SassLine(c: Color): (line: string)
    ensures NoNewline(c.hex) ==> NoNewline(line)
  {
    var line := "$color-" + Slug(c.name) + ": " + c.hex + ";";
    assert NoNewline(c.hex) ==> NoNewline(line) by {
      if NoNewline(c.hex) {
        SlugNoNewline(c.name);
        assert NoNewline("$color-") && NoNewline(": ") && NoNewline(";");
        Line5("$color-", Slug(c.name), ": ", c.hex, ";");
      }
    }
    line
  }

  function SassLines(colors: seq<Color>): seq<string> {
    seq(|colors|, i requires 0 <= i < |colors| => SassLine(colors[i]))
  }

  /**
   * `generateSassVariables`: the colour lines joined by line breaks, then the
   * semantic block (`SassTail`, which starts with an empty line). Read line by
   * line it is one `$color-` line per colour in list order (one empty line
   * when there are none), an empty line, the comment and the three semantic
   * variables.
   */
  function SassVariables(colors: seq<Color>): (doc: string)
    ensures SingleLineHexes(colors) ==>
      Split(doc, '\n') == Block(SassLines(colors)) + SassTail(colors)
  {
    var doc := Join(SassLines(colors), "\n") + "\n" + Join(SassTail(colors), "\n");
    var lines := Block(SassLines(colors)) + SassTail(colors);
    assert SingleLineHexes(colors) ==> Split(doc, '\n') == lines by {
      if SingleLineHexes(colors) {
        JoinBlock(SassLines(colors), "\n");
        JoinAppend(Block(SassLines(colors)), SassTail(colors), "\n");
        SassLinesSingle(colors);
        SplitJoin(lines, '\n');
      }
    }
    doc
  }

  function SassTail(colors: seq<Color>): seq<string> {
    [ "", "// Semantic variables",
      "$primary: " + Alias(colors, 0, "#000000") + ";",
      "$secondary: " + Alias(colors, 1, "#666666") + ";",
      "$accent: " + Alias(colors, 2, "#999999") + ";" ]
  }

  lemma SassTailSingle(colors: seq<Color>)
    requires SingleLineHexes(colors)
    ensures AllNoNewline(SassTail(colors))
  {
    var tail := SassTail(colors);
    var defaults := ["#000000", "#666666", "#999999"];
    var names := ["$primary: ", "$secondary: ", "$accent: "];
    assert NoNewline("") && NoNewline("// Semantic variables");
    forall k | 2 <= k < 5 ensures NoNewline(tail[k]) {
      assert NoNewline(defaults[k - 2]) && NoNewline(names[k - 2]);
      AliasLineSingle(names[k - 2], colors, k - 2, defaults[k - 2]);
    }
  }

  lemma SassLinesSingle(colors: seq<Color>)
    requires SingleLineHexes(colors)
    ensures AllNoNewline(Block(SassLines(colors)) + SassTail(colors))
  {
    var lines := SassLines(colors);
    forall k | 0 <= k < |lines| ensures NoNewline(lines[k]) {
      assert NoNewline(colors[k].hex);
    }
    SassTailSingle(colors);
    assert AllNoNewline(Block(lines));
  }

  // ----------------------------------------------------------------- the aliases

  /**
   * The Tailwind alias keys and the CSS and Sass alias lines follow one rule:
   * when every hex is non-empty and no colour's slug is the alias name, the
   * Tailwind key exists exactly when the colour at its index does, holding
   * the value the CSS and Sass lines show; otherwise those lines show the
   * default.
   */
  lemma AliasesAgree(colors: seq<Color>, index: nat, fallback: string)
    requires AliasAt(index).Some?
    requires forall j | 0 <= j < |colors| :: colors[j].hex != ""
    requires forall j | 0 <= j < |colors| :: Slug(colors[j].name) != AliasAt(index).value
    ensures Lookup(ColorObj(colors), AliasAt(index).value)
      == if index < |colors| then Some(Alias(colors, index, fallback)) else None
    ensures Alias(colors, index, fallback) == if index < |colors| then colors[index].hex else fallback
  {
    AliasBinding(colors, index);
  }

  /**
   * `||` treats an empty hex as missing: the CSS and Sass alias falls back to
   * the default while the Tailwind object stores the empty string.
   */
  lemma EmptyHexFallsBack(colors: seq<Color>, index: nat, fallback: string)
    requires AliasAt(index).Some? && index < |colors| && colors[index].hex == ""
    requires forall j | 0 <= j < |colors| :: Slug(colors[j].name) != AliasAt(index).value
    ensures Alias(colors, index, fallback) == fallback
    ensures Lookup(ColorObj(colors), AliasAt(index).value) == Some("")
  {
    AliasBinding(colors, index);
  }
}
