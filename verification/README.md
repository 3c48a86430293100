# Colorsnap palette extraction and code export, in Dafny

Colorsnap takes an uploaded image and produces a palette of up to eight
named colours. It then renders the palette in three forms: a Tailwind
configuration, CSS custom properties and Sass variables. This project models
the two places where that happens and proves what they guarantee.

- `src/utils/colorExtractor.ts` has four parts:
  - the table of twelve named anchor colours;
  - `rgbToHex`;
  - `getColorName`, the nearest-anchor naming with its dark and light overrides;
  - the histogram at the heart of `extractColors`. It visits every fourth pixel (byte offsets 0, 16, 32, ...) and skips pixels whose alpha is below 128. It quantises each channel down to a multiple of 10 and counts buckets in a map kept in first-seen order. Then it sorts the buckets by count, keeps the top eight and turns each into a `{hex, rgb, name}` record.
- `src/components/CodeOutput.tsx` has the three generators:
  - `generateTailwindConfig`, which builds a colour object with `reduce` and prints its entries;
  - `generateCSSVariables`;
  - `generateSassVariables`.
  All three share the same slug rule, and the first three colours are also exported under the `primary`, `secondary` and `accent` aliases.

Modules, one concept each:

| module | file | what it holds |
|---|---|---|
| `Wrappers` | `wrappers.dfy` | `Option` |
| `Text` | `text.dfy` | decimal text, `join`, `split`, the `\d+` digit runs, the JavaScript `\s` whitespace set, lower-casing |
| `ColorModel` | `color_model.dfy` | RGB triples, `rgbToHex` and its decoder, the `rgb(r, g, b)` text |
| `ColorNaming` | `color_naming.dfy` | the anchor table, `getColorName` as a loop and as a function |
| `Sequences` | `sequences.dfy` | first-seen order (`Dedup`), which is the key order of a `Map` |
| `Histogram` | `histogram.dfy` | the sampling, quantisation and counting of `extractColors`, as functions |
| `Ranking` | `ranking.dfy` | the stable descending sort by count and the top-eight slice |
| `Extractor` | `extractor.dfy` | the counting loop, the record loop, `extractColors` itself, and palette lemmas |
| `Slugs` | `slug.dfy` | `toLowerCase().replace(/\s+/g, '-')` |
| `ColorObject` | `color_object.dfy` | the object `reduce` builds: an association list in insertion order |
| `CodeOutput` | `code_output.dfy` | the three documents, each as its lines joined with line breaks |
| `Exports` | `exports.dfy` | what holds when the documents are rendered from an extracted palette |

The image decode step is handled by a parameter. `ExtractColors` takes the
RGBA bytes that `getImageData` would return, as an `Option`. `None` stands
for the missing 2D context, which resolves to an empty palette.

Four facts about the code that the model keeps:
- `getColorName` has exactly two overrides. All channels below 50 give "Dark Charcoal", and all channels above 200 give "Light Gray". It adds no prefix to any name.
- The slug rule replaces every maximal run of any whitespace with one hyphen.
- Buckets with equal counts come out in first-seen order.
- Buckets are never merged beyond the 10-wide quantisation.

A template literal in the generators is modelled as its lines joined with
`"\n"`. The line-level lemmas then state, line by line, what
splitting the document at its line breaks yields.

## Model

| member | source | states |
|---|---|---|
| `ColorModel.HexRoundTrip` | src/utils/colorExtractor.ts:20-22 | for channels in 0..255 the result is `#` followed by six hex digits, and decoding those digits gives back the same triple |
| `ColorModel.RgbToHex` | src/utils/colorExtractor.ts:20-22 | the result is `#` followed by r, g and b in that order, each as two zero-padded lower-case hex digits |
| `ColorModel.LeadingOne` | src/utils/colorExtractor.ts:21 | adding 16^w before `toString(16)` yields a `1` followed by the value padded to w digits, and `slice(1)` removes exactly that `1` |
| `ColorModel.HexToRgb` | src/utils/colorExtractor.ts:20-22 | the decoder used as the partner of `rgbToHex`: whatever it accepts decodes to channels in 0..255 |
| `ColorModel.HexCanonical` | src/utils/colorExtractor.ts:20-22 | every string the decoder accepts is exactly the `rgbToHex` of the triple it decodes to |
| `ColorModel.RgbToHexInjective` | src/utils/colorExtractor.ts:20-22 | different triples never share a hex string |
| `ColorModel.RgbText` | src/utils/colorExtractor.ts:108 | the digit runs of the `rgb(r, g, b)` text are exactly the three channel decimals, in order |
| `ColorModel.RgbTextRoundTrip` | src/utils/colorExtractor.ts:107-108 | reading the numbers back out of a record's `rgb` text gives the same triple that its `hex` encodes |
| `Text.Decimal` | src/utils/colorExtractor.ts:108 | interpolating a channel gives one or more decimal digits with no leading zero |
| `Text.ParseDecimalOfDecimal` | src/utils/colorExtractor.ts:108 | the decimal text of a number reads back as that number |
| `ColorNaming.FirstMinimum` | src/utils/colorExtractor.ts:28-39 | the scan over the anchor distances keeps the first index holding the smallest distance, because a later anchor must be strictly nearer to replace it |
| `ColorNaming.GetColorName` | src/utils/colorExtractor.ts:24-52 | the loop returns "Dark Charcoal" when all channels are below 50, otherwise "Light Gray" when all are above 200, otherwise the name of the first nearest anchor; it agrees with `ColorName` |
| `ColorNaming.FirstMinimumUnique` | src/utils/colorExtractor.ts:28-39 | at most one index is the first minimum, so the anchor the scan picks is determined |
| `ColorNaming.ColorName` | src/utils/colorExtractor.ts:24-52 | every name is one of the two override names or a table name, and the `'Custom Color'` default is never returned |
| `ColorNaming.TableNamesAreNotDefault` | src/utils/colorExtractor.ts:5-18 | no anchor is named `'Custom Color'` |
| `ColorNaming.OverrideExamples` | src/utils/colorExtractor.ts:41-49 | black is "Dark Charcoal" and white is "Light Gray" |
| `ColorNaming.AnchorNamesItself` | src/utils/colorExtractor.ts:6 | the Deep Blue anchor (0,120,200) is named "Deep Blue" |
| `ColorNaming.NearAnchorExample` | src/utils/colorExtractor.ts:14 | (120,80,170), one step from the Royal Purple anchor, is named "Royal Purple" |
| `Sequences.Dedup` | src/utils/colorExtractor.ts:93-99 | the map's key list holds no key twice and contains exactly the keys that were inserted |
| `Sequences.DedupSnoc` | src/utils/colorExtractor.ts:95-98 | re-inserting a known key leaves the key order unchanged, and a new key goes at the end |
| `Sequences.DedupFirstSeenOrder` | src/utils/colorExtractor.ts:76 | keys are ordered by where they first occur |
| `Histogram.Quantize` | src/utils/colorExtractor.ts:89-91 | the grouped value is the multiple of 10 at or below the channel (within 10 of it), and it lies in 0..250 |
| `Histogram.ScanEnd` | src/utils/colorExtractor.ts:79 | the loop index ends at the first multiple of 16 at or past the buffer length |
| `Histogram.SampleInPixel` | src/utils/colorExtractor.ts:79-83 | every inspected offset starts a pixel whose four bytes are all inside the buffer |
| `Histogram.Keys` | src/utils/colorExtractor.ts:79-93 | every key the scan counts is a triple of multiples of 10 |
| `Histogram.KeysBelow` | src/utils/colorExtractor.ts:79-93 | every key the scan produces is a triple of multiples of 10 |
| `Histogram.KeysBelowStep` | src/utils/colorExtractor.ts:79-93 | one loop iteration adds that offset's key, or nothing when the pixel is transparent |
| `Histogram.TallyBump` | src/utils/colorExtractor.ts:95-96 | incrementing a known key's count keeps the map equal to the first-seen keys with their occurrence counts |
| `Histogram.TallyInsert` | src/utils/colorExtractor.ts:97-98 | inserting a new key with count 1 at the end keeps the same invariant |
| `Histogram.BucketsFacts` | src/utils/colorExtractor.ts:93-103 | the entries have distinct keys. Each count is that key's number of sampled opaque pixels (at least 1). Every sampled key has an entry. Entries come in first-seen order |
| `Histogram.SameSamplesSameBuckets` | src/utils/colorExtractor.ts:79-86 | two buffers that agree on the sampled opaque pixels give the same buckets |
| `Histogram.AllSkippedNoBuckets` | src/utils/colorExtractor.ts:86 | if every sampled pixel is transparent, there are no buckets |
| `Histogram.UniformOneBucket` | src/utils/colorExtractor.ts:79-99 | a non-empty image of one opaque colour gives exactly one bucket, the quantised colour |
| `Ranking.Insert` | src/utils/colorExtractor.ts:104 | inserting into the sorted prefix adds exactly one element |
| `Ranking.InsertNonIncreasing` | src/utils/colorExtractor.ts:104 | inserting keeps counts non-increasing |
| `Ranking.SortByCount` | src/utils/colorExtractor.ts:103-104 | the sorted entries are a permutation of the input, ordered by non-increasing count |
| `Ranking.SortByCountStable` | src/utils/colorExtractor.ts:103-104 | entries with equal counts keep their input order, as a stable `Array.prototype.sort` does |
| `Ranking.StableSortUnique` | src/utils/colorExtractor.ts:103-104 | only one ordering is a non-increasing, stable permutation |
| `Ranking.SortByCountIsTheStableSort` | src/utils/colorExtractor.ts:103-104 | any stable sort by descending count produces exactly `SortByCount` |
| `Ranking.Top` | src/utils/colorExtractor.ts:105 | `slice(0, 8)` keeps at most eight entries |
| `Ranking.TopBuckets` | src/utils/colorExtractor.ts:103-105 | eight buckets are kept, or all of them when there are fewer |
| `Ranking.TopBucketsBounded` | src/utils/colorExtractor.ts:103-105 | eight buckets are kept, or all of them when there are fewer. Keys are distinct. Each count is the number of that key's occurrences |
| `Ranking.TieToFirstSeen` | src/utils/colorExtractor.ts:76 | entry order is the order in which the keys were first seen in the scan |
| `Ranking.TopBucketsOrdered` | src/utils/colorExtractor.ts:103-105 | of any two kept buckets, the earlier has the larger count, or an equal count and a key seen first |
| `Ranking.TopBucketsDominate` | src/utils/colorExtractor.ts:103-105 | every kept bucket outranks every dropped one: it has a larger count, or the same count and was seen first in the scan |
| `Extractor.CountBuckets` | src/utils/colorExtractor.ts:76-100 | the counting loop leaves the map holding exactly `Buckets(data)`: first-seen order, occurrence counts |
| `Extractor.EntriesAreBuckets` | src/utils/colorExtractor.ts:103 | `Array.from(colorMap.entries())` of the counted map equals `Buckets(data)` |
| `Extractor.Record` | src/utils/colorExtractor.ts:106-116 | the record of a bucket has a hex and an `rgb` text that both read back as that bucket, and the bucket's name |
| `Extractor.Records` | src/utils/colorExtractor.ts:106-116 | one record per bucket, in bucket order, each with a hex and `rgb` text that read back as its bucket and with that bucket's name |
| `Extractor.PaletteRecord` | src/utils/colorExtractor.ts:106-116 | palette entry i is the record of the i-th kept bucket, so its hex and `rgb` text read back as that bucket |
| `Extractor.MakeRecords` | src/utils/colorExtractor.ts:106-116 | the record loop produces one `{hex, rgb, name}` per kept bucket, in the same order |
| `Extractor.ExtractColors` | src/utils/colorExtractor.ts:54-120 | with no 2D context the palette is empty. Otherwise it is `Palette(data)`: counted, sorted, cut to eight, turned into records |
| `Extractor.PaletteBounded` | src/utils/colorExtractor.ts:105 | the palette holds min(8, number of buckets) colours |
| `Extractor.PaletteRecordsAgree` | src/utils/colorExtractor.ts:106-116 | each record's `hex` decodes, and its `rgb` text names the same triple. That triple is a sampled bucket of multiples of 10, and `name` is its colour name |
| `Extractor.PaletteHexDistinct` | src/utils/colorExtractor.ts:93-107 | no two palette colours share a hex string |
| `Extractor.PaletteRanked` | src/utils/colorExtractor.ts:103-116 | for any two palette colours, the earlier was sampled more often, or equally often and seen first |
| `Extractor.TransparentPalette` | src/utils/colorExtractor.ts:86 | an image whose sampled pixels are all transparent yields an empty palette |
| `Extractor.PaletteDependsOnSamplesOnly` | src/utils/colorExtractor.ts:79-86 | bytes outside the sampled opaque pixels do not affect the palette |
| `Extractor.UniformPalette` | src/utils/colorExtractor.ts:79-116 | a non-empty image of one opaque colour gives a one-colour palette, the quantised colour |
| `Extractor.HexExample` | src/utils/colorExtractor.ts:21 | (10, 20, 30) is written `#0a141e`, with both leading zeros kept |
| `Text.Lower` | src/components/CodeOutput.tsx:19 | lower-casing keeps the length, maps each character, leaves no upper-case letter and keeps whitespace as whitespace |
| `Slugs.WhitespaceRun` | src/components/CodeOutput.tsx:19 | the length of what `\s+` matches at the front: all whitespace, stopping before a non-whitespace character |
| `Slugs.Hyphenate` | src/components/CodeOutput.tsx:19 | the result has no whitespace, and every character in it is a hyphen or a character of the input |
| `Slugs.Slug` | src/components/CodeOutput.tsx:19 | a slug contains no whitespace and no upper-case letter |
| `Slugs.HyphenateIsJoin` | src/components/CodeOutput.tsx:19 | replacing whitespace runs with `-` is the same as joining the pieces of `split(/\s+/)` with `-` |
| `Slugs.HyphenateRun` | src/components/CodeOutput.tsx:19 | a maximal whitespace run of any length becomes exactly one hyphen |
| `Slugs.HyphenateKeeps` | src/components/CodeOutput.tsx:19 | a non-whitespace character is copied unchanged |
| `Slugs.HyphenateNoWhitespace` | src/components/CodeOutput.tsx:19 | text without whitespace is left unchanged |
| `Slugs.SlugIdempotent` | src/components/CodeOutput.tsx:19 | slugging a slug changes nothing |
| `Slugs.SlugStart` | src/components/CodeOutput.tsx:19 | a name that starts with two non-space characters keeps them, lower-cased, at the start of its slug |
| `ColorObject.Assign` | src/components/CodeOutput.tsx:20-23 | `acc[k] = v` binds k to v and leaves every other key alone. An existing key keeps its position; a new key goes at the end. No other entry is invented |
| `ColorObject.ColorObj` | src/components/CodeOutput.tsx:18-25 | every entry of the reduced object is one of the assignments the callback makes |
| `ColorObject.ReduceStep` | src/components/CodeOutput.tsx:18-24 | after one callback the colour's slug holds its hex, its alias (for the first three) holds its hex too, and every other key keeps its value |
| `ColorObject.AssignTracks` | src/components/CodeOutput.tsx:20-23 | one assignment keeps the object equal to the fold of all assignments so far |
| `ColorObject.ReduceStepTracks` | src/components/CodeOutput.tsx:19-24 | one call of the `reduce` callback performs that colour's assignments: its slug, then its alias if it has one |
| `ColorObject.ColorObjTracks` | src/components/CodeOutput.tsx:18-25 | keys appear in the order they were first assigned, and each holds the value assigned to it last |
| `ColorObject.ColorObjEntries` | src/components/CodeOutput.tsx:18-25 | every colour's slug is a key, and every entry holds some colour's hex under that colour's slug or alias |
| `ColorObject.ColorObjDistinct` | src/components/CodeOutput.tsx:32 | `Object.entries` lists each key once |
| `ColorObject.LastColorWins` | src/components/CodeOutput.tsx:19-20 | when two colours share a slug, the later one's hex is kept (unless the slug is an alias name) |
| `ColorObject.AliasBinding` | src/components/CodeOutput.tsx:21-23 | if no slug equals an alias, the alias exists exactly when its colour exists, and it holds that colour's hex |
| `CodeOutput.TailwindConfig` | src/components/CodeOutput.tsx:17-37 | for single-line hexes, the document's lines are the five header lines, one `'key': 'value',` line per object entry in entry order (a single empty line if there are none), then the four closing lines |
| `CodeOutput.EntryLinesSingle` | src/components/CodeOutput.tsx:32 | each entry line contains no line break when keys and values contain none |
| `CodeOutput.TailwindEmpty` | src/components/CodeOutput.tsx:27-36 | with no colours, one empty line separates the header from the closing lines |
| `CodeOutput.RgbDigitsOfText` | src/components/CodeOutput.tsx:42 | `rgb(r, g, b)` becomes `r, g, b` |
| `CodeOutput.RgbDigits` | src/components/CodeOutput.tsx:42 | the joined digits contain no line break, and text without digits gives the empty string |
| `CodeOutput.CssEntry` | src/components/CodeOutput.tsx:40-43 | for a single-line hex, one colour's entry is exactly two lines: `--color-<slug>: <hex>;`, then `--color-<slug>-rgb: <digits>;` |
| `CodeOutput.CssLines` | src/components/CodeOutput.tsx:40-44 | each colour contributes two lines |
| `CodeOutput.CssLinesAt` | src/components/CodeOutput.tsx:43 | colour i owns lines 2i and 2i+1: `--color-<slug>: <hex>;` then `--color-<slug>-rgb: <digits>;` |
| `CodeOutput.CssEntriesJoin` | src/components/CodeOutput.tsx:43-44 | joining the two-line entries gives the same text as joining the per-colour lines |
| `CodeOutput.CssVariables` | src/components/CodeOutput.tsx:39-52 | for single-line hexes, the document's lines are `:root {`, two lines per colour in list order (a single empty line if there are none), the three alias lines, then `}` |
| `CodeOutput.SassVariables` | src/components/CodeOutput.tsx:54-64 | for single-line hexes, the document's lines are one `$color-<slug>: <hex>;` per colour in list order (a single empty line if there are none), an empty line, the comment, then the three alias lines |
| `CodeOutput.SassLine` | src/components/CodeOutput.tsx:55-57 | a colour's Sass variable is a single line whenever its hex is |
| `CodeOutput.SassLinesSingle` | src/components/CodeOutput.tsx:57 | every Sass colour line contains no line break |
| `CodeOutput.AliasesAgree` | src/components/CodeOutput.tsx:48-50 | for non-empty hexes, the alias that the CSS and Sass documents print agrees with the Tailwind object's alias entry. It is the colour's hex when the colour exists and the fallback otherwise |
| `CodeOutput.Alias` | src/components/CodeOutput.tsx:48-50 | `colors[i]?.hex \|\| fallback` is the hex of colour i or the fallback, and it is empty only when the fallback is |
| `CodeOutput.EmptyHexFallsBack` | src/components/CodeOutput.tsx:48-50 | an empty hex is falsy: the CSS and Sass documents print the fallback, while the Tailwind object stores the empty string |
| `Exports.ColorNameSlug` | src/components/CodeOutput.tsx:19-23 | no colour name slugs to `primary`, `secondary` or `accent`, so an alias never overwrites a named entry |
| `Exports.PaletteExportable` | src/components/CodeOutput.tsx:17-64 | an extracted palette has single-line, non-empty hexes and no slug equal to an alias name |
| `Exports.RecordExportable` | src/components/CodeOutput.tsx:17-64 | the record of any bucket has a non-empty, single-line hex and a slug that is no alias name |
| `Exports.ExportableAliases` | src/components/CodeOutput.tsx:21-23 | for colours with non-empty single-line hexes and no slug equal to an alias name, alias i holds colour i's hex if that colour exists and is absent otherwise. The CSS and Sass aliases print that hex or the fallback |
| `Exports.PaletteAliases` | src/components/CodeOutput.tsx:21-23 | for an extracted palette, alias i holds colour i's hex if it exists and is absent otherwise. The CSS and Sass aliases print that hex or the fallback |
| `Exports.PaletteRgbDigits` | src/components/CodeOutput.tsx:42 | for an extracted colour, the CSS `-rgb` digits are the decimal channels of the triple its hex encodes |

## Left out

- Drawing the image on a canvas, the 200-pixel resize and `getImageData` (src/utils/colorExtractor.ts:56-73) are not modelled. The model starts from the RGBA bytes, a sequence of values in 0..255 whose length is a multiple of 4. The `Promise` wrapper is not modelled either.
- `ColorNaming.GetColorName`: compares squared integer distances instead of `Math.sqrt` of them. The square root is monotone, so the first nearest anchor is the same. The initial `Infinity` is modelled as "no anchor yet".
- `Histogram.Buckets`: the map is keyed by the quantised triple rather than by the string `"r,g,b"`. Decimal formatting is injective on such triples, so both keyings group pixels identically.
- `Ranking.SortByCount`: the engine's sorting algorithm is modelled as a stable insertion sort. `Ranking.SortByCountIsTheStableSort` shows that any stable sort gives the same order.
- `Text.LowerChar`: maps only `A`-`Z` to lower case. The full Unicode case mapping of `toLowerCase` is not modelled. Every name the extractor produces is ASCII.
- `Text.Lower`: lower-cases ASCII letters only, one character for one. `toLowerCase` can also change non-ASCII letters and the length of the text.
- `Slugs.Slug`: its "no upper-case letter" guarantee covers ASCII letters only, because it lower-cases with `Text.Lower`.
- `ColorObject.Assign`: models string keys that are not integer-like, and no `__proto__` key. JavaScript lists integer-like keys first and treats `__proto__` specially. No slug of a name the extractor produces is of either kind.
- In the generated documents, keys and values are interpolated without escaping, as the source does. The line-by-line contracts of the three generators therefore hold when no hex contains a line break (a slug never does). `Exports.PaletteExportable` shows this holds for extracted palettes.
- The React component is not part of this model: state, tabs, copy-to-clipboard and toasts (src/components/CodeOutput.tsx:13-15, 66 onwards).
- The `|| ''` after `match(/\d+/g)?.join(', ')` (src/components/CodeOutput.tsx:42) is modelled as joining the digit runs. No match and no digits both give the empty string.
