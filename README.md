# book-formatter quality tools, modelled in Dafny

book-formatter builds Markdown books and ships a set of checkers that run in
the books' CI. This project models the deterministic core of those checkers
and proves what each promises:

- **Link checker** (`scripts/check-links.js`). Modules `LinkCheck` and
  `LinkChecking` cover the site root and repository name, the links pulled
  from markdown-it tokens, and the four link kinds. For internal links they
  cover the `#`/`?` cut, percent-decoding, `<…>` unwrapping, baseurl
  stripping and the order in which files are tried. They also cover the
  external HEAD-then-GET status rule with its per-URL cache, heading slugs
  with `-k` duplicates (`Anchors`), and the report and its `success` flag.
  `LinkChecker` is a class whose fields are the lists and caches the script
  pushes to.
- **Unicode checker** (`src/UnicodeChecker.js`, `scripts/check-unicode.js`).
  Modules `UnicodeChecking` and `CheckUnicode` cover codepoint normalisation
  and classification, allowlists, and the line and column scan over LF, CR
  and CRLF. They also cover the runner that collects per-file issues, its
  report, the display name of a character, and the fail level.
- **Markdown structure checker** (`scripts/check-markdown-structure.js`).
  `MarkdownStructure` models front matter, fence open and close, ATX
  headings, and the per-file state machine that reports skipped levels,
  several h1 headings and unclosed fences. `CheckMarkdownStructure` models
  the runner class with its `addIssue` counters.
- **Layout-risk scanner** (`scripts/check-layout-risk.js`). `LayoutLines`,
  `LayoutAssets`, `LayoutHtml`, `LayoutScan` and `CheckLayoutRisk` cover the
  fence and table helpers, column counting, snippet clamping, local-asset
  resolution and image de-duplication. They also cover the line loop with
  table consumption, and issue capping with the truncation flag. Per-file
  results are aggregated into the global maxima and sums.
- **SVG fonts** (`scripts/svg-font-normalize.js`,
  `scripts/svg-font-inventory.js`). `FontValues`, `SvgFontNormalize` and
  `SvgFontRewrite` model value normalisation, replacement of the sans and
  mono stacks, the `font` shorthand, and the change count of
  `rewriteSvgFonts`. `SvgFontExtract` and `SvgFontInventory` model the
  `font-family` extraction loop, the inventory counters and its sort order.
- **Book navigation and UX rollout** (`src/BookGenerator.js`,
  `src/UxRollout.js`). `BookNav` models the default navigation order,
  prev/next data, page titles and the config format chosen by extension.
  `UxRollout` models registry normalisation, repository names, the
  three-step registry lookup, the "update `ux` only if different" rule, the
  object spread that writes the new configuration, the rollout counters and
  the error thrown on a `book-config.json` that holds `null`.
- **textlint runner** (`scripts/check-textlint.js`). `CheckTextlint` models
  the repository root, the PRH dictionary list (order, de-duplication and
  existence), and the report built from the linter's messages.

The shared modules are:

- `Wrappers`: `Option` and `Result`.
- `Text`: JavaScript whitespace, `trim`, case, split and search.
- `Seqs`: maps, filters and counts.
- `Paths`: POSIX `path.resolve`/`join`/`dirname`/`relative`, and a file
  system given as files and directories.
- `Percent`: `decodeURIComponent`, percent-decoding and UTF-8 as in section
  2.1 of RFC 3986, with failure as `None`.
- `Tokens`: the markdown-it tokens the tools read.
- `SiteRoots`: the `docs/_config.yml` rule and baseurl stripping, shared by
  two scripts.
- `FailPolicy`: `--fail-on`.
- `JsMap`: objects and `Map`s with insertion order.
- `MdLines`: line splitting.

Collaborators are inputs. The file system is a value. markdown-it, the YAML
and JSON parsers and the textlint linter are function parameters or given
results. The network is a function from URL to a HEAD or GET outcome. Each
checker's loop over files takes the list that `glob` would return.

## Model

| member | source | states |
|---|---|---|
| `Text.TrimmedShape` | scripts/check-links.js:423 | `trim()` leaves a string that neither starts nor ends with `\s` and is no longer than its input |
| `Text.TrimOfTrimmed` | scripts/check-markdown-structure.js:86 | a string with no leading or trailing `\s` is unchanged by `trim()` |
| `Text.TrimIdempotent` | scripts/check-links.js:474 | trimming twice is trimming once |
| `Text.TrimEmpty` | scripts/check-markdown-structure.js:64 | `trim()` yields the empty string exactly when every character is `\s` |
| `Text.TrimAfterSpacePrefix` | scripts/check-layout-risk.js:66-70 | dropping a prefix made only of `\s` does not change the trimmed result |
| `Text.LowerChar` | scripts/check-links.js:419 | the lower-cased character is never an ASCII capital, and is `\s` exactly when its input is |
| `Text.LowerCharIdempotent` | scripts/check-links.js:424 | lower-casing a lower-cased character changes nothing |
| `Text.UpperChar` | src/UnicodeChecker.js:26 | the upper-cased character is never an ASCII small letter |
| `Text.Lower` | scripts/check-links.js:419 | `toLowerCase()` keeps the length and lower-cases position by position |
| `Text.LowerWord` | scripts/check-markdown-structure.js:12 | a word of ASCII small letters is its own trimmed lower case (so the level names parse back) |
| `Text.Upper` | src/UnicodeChecker.js:26 | `toUpperCase()` keeps the length and upper-cases position by position |
| `Text.Utf16Length` | scripts/check-layout-risk.js:329 | `line.length` counts UTF-16 code units: between one and two per character |
| `Text.Utf16LengthBmp` | scripts/check-layout-risk.js:351 | for text without astral characters the UTF-16 length is the character count |
| `Text.Utf16Prefix` | scripts/check-layout-risk.js:158-161 | the prefix kept by `slice(0, max)` is a prefix of the line within `max` code units, and no longer prefix fits |
| `Text.FindFrom` | scripts/check-layout-risk.js:145 | the first index at or after `from` where the needle occurs, or `None` when it occurs nowhere after `from` |
| `Text.IndexOfChar` | scripts/check-layout-risk.js:74 | the index of the first occurrence of a character, or the length when the character is absent, in both directions |
| `Text.IndexOfCharUnique` | scripts/check-layout-risk.js:74 | the three facts of `IndexOfChar` determine the index |
| `Text.BeforeChar` | scripts/check-layout-risk.js:74-75 | `s.split(c, 1)[0]` is a prefix of `s` without `c` |
| `Text.Split` | scripts/check-layout-risk.js:154 | `split(c)` gives at least one part |
| `Text.SplitPartsFree` | scripts/check-links.js:325 | no part of `split(c)` contains `c` |
| `Text.SplitAt` | scripts/check-links.js:285 | `split` cuts at the first separator and continues after it |
| `Text.SplitWhole` | scripts/check-links.js:285 | a string without the separator splits into itself alone |
| `Text.SplitAppend` | scripts/check-markdown-structure.js:167 | splitting at a separator splits each side separately |
| `Text.SplitJoin` | scripts/check-layout-risk.js:154 | splitting a join of separator-free parts gives the parts back |
| `Text.SplitLength` | scripts/check-layout-risk.js:154 | `split(c)` has one part more than `c` has occurrences |
| `Text.NatToString` | src/UnicodeChecker.js:33 | the decimal rendering is a non-empty run of digits |
| `Text.DecimalValueOf` | src/UnicodeChecker.js:33 | the decimal rendering of a number reads back as that number |
| `Text.NatToStringInjective` | src/UxRollout.js:181 | distinct numbers are rendered differently, so the index keys `"0"`, `"1"`, … never clash |
| `Text.PadStart` | src/UnicodeChecker.js:33 | `padStart(width, c)` reaches at least `width` characters and ends with its input |
| `Text.ReplaceChar` | scripts/check-links.js:111 | `replace(/\\/g, '/')` keeps the length and swaps exactly the matching characters |
| `Seqs.Map` | scripts/check-markdown-structure.js:131-133 | mapping keeps the length |
| `Seqs.MapSnoc` | scripts/check-layout-risk.js:225-227 | mapping a sequence extended by one element extends the map by that element's image |
| `Seqs.MapAt` | scripts/check-unicode.js:70-72 | the i-th element of a map is the image of the i-th element |
| `Seqs.MapPointwise` | scripts/check-unicode.js:70-72 | a sequence that agrees with `f` at every position is the map of `f` |
| `Seqs.FlatMapAppend` | scripts/check-links.js:93-95 | collecting per-item results over two runs concatenates the two collections |
| `Seqs.DistinctSnoc` | scripts/check-textlint.js:66-70 | appending an element not yet present keeps a sequence free of duplicates |
| `Seqs.CountWhereExists` | scripts/check-unicode.js:111-112 | a count of matching items is positive exactly when some item matches |
| `Paths.KeepNamed` | scripts/check-links.js:319 | path normalisation drops empty and `.` segments |
| `Paths.LastDot` | scripts/check-links.js:337 | the index of the last `.` of a name, or its length when it has none, in both directions |
| `Paths.Extname` | scripts/check-links.js:337 | `path.extname` is empty or starts with `.` |
| `Paths.CommonPrefix` | scripts/check-links.js:111 | the shared prefix of two segment lists fits in both |
| `Paths.RelativeName` | scripts/check-links.js:111 | `path.relative(...).replace(/\\/g, '/')` holds no backslash |
| `Paths.KeepNamedAppend` | scripts/check-links.js:319 | dropping empty segments distributes over concatenation |
| `Paths.SplitName` | scripts/check-links.js:355-356 | a name without `/` is one segment |
| `Paths.SegmentsAppendName` | scripts/check-links.js:355-356 | `path.join(dir, name)` appends exactly one segment |
| `Paths.ClimbAppendName` | scripts/check-links.js:355-356 | resolving `..` over a list ending in a name keeps that name last |
| `Paths.ClimbOfNames` | scripts/check-links.js:319 | a list of plain names is already resolved |
| `Paths.ClimbGivesNames` | scripts/check-links.js:319 | resolution leaves only plain names (no `..`) |
| `Paths.SegmentsAreSegments` | scripts/check-links.js:319 | every segment is a non-empty name other than `.`, without `/` |
| `Paths.KeepNamedKeeps` | scripts/check-links.js:319 | every kept segment comes from the input |
| `Paths.KeepNamedOfNames` | scripts/check-links.js:319 | names survive normalisation unchanged |
| `Paths.SegmentsRender` | scripts/check-links.js:316-319 | rendering plain names as a path and cutting it back into segments gives the names |
| `Paths.SegmentsRoot` | scripts/check-links.js:316 | the root path has no segments |
| `Paths.CanonNames` | scripts/check-links.js:319 | the segments of a normalised path are plain names, those of the resolved input |
| `Paths.CanonIdempotent` | scripts/check-links.js:319 | normalising a normalised path changes nothing |
| `Paths.JoinName` | scripts/check-links.js:355-356 | `path.join(dir, name)` is the normalised dir with `name` appended; its basename is `name` and its dirname the normalised dir |
| `Paths.ReadFile` | scripts/check-links.js:109 | `fs.readFile` succeeds only on an existing file and returns its content |
| `Paths.Stat` | scripts/check-links.js:371 | `fs.stat` answers exactly for existing paths |
| `Percent.EscapeAt` | scripts/check-links.js:291 | an escape `%XX` gives an octet below 256 read from three characters starting at `%` |
| `Percent.Continuations` | scripts/check-links.js:291 | a successful read of `count` continuation escapes uses three characters each |
| `Percent.DecodeWithoutPercent` | scripts/check-links.js:289-292 | `decodeURIComponent` leaves text without `%` unchanged |
| `Percent.DecodeShortens` | scripts/check-layout-risk.js:77-80 | decoding never lengthens the text |
| `Percent.DecodeFacts` | scripts/check-links.js:289-292 | `decodeURIComponent` of text without `%` is that text, and a decoding is never longer than its input |
| `Percent.Decode` | scripts/check-links.js:291 | `decodeURIComponent`, `None` where it throws a URIError; characterised by `DecodeFacts`, `EscapeAt` and `Continuations` |
| `MdLines.DropCarriageReturn` | scripts/check-markdown-structure.js:167 | the piece before a line feed loses exactly its one trailing carriage return, if any |
| `MdLines.SplitLines` | scripts/check-markdown-structure.js:167 | `content.split(/\r?\n/)` gives at least one line and no line holds a line feed |
| `MdLines.SplitLinesCount` | scripts/check-layout-risk.js:286 | there is one line per line feed, plus the last |
| `MdLines.SplitLinesJoin` | scripts/check-markdown-structure.js:167 | without carriage returns, joining the lines with line feeds gives the text back |
| `MdLines.CrLfEndsLine` | scripts/check-layout-risk.js:286 | a CRLF ends a line as a lone LF does, and the carriage return is not part of the line |
| `MdLines.RunLength` | scripts/check-markdown-structure.js:61 | the run of one character starting at an index: all of it that character, and the next one different |
| `MdLines.FenceMarker` | scripts/check-layout-risk.js:121-126 | a fence marker, after any indentation, is a run of three or more backticks or tildes, in both directions, with its indentation, character and length |
| `MdLines.AfterMarker` | scripts/check-markdown-structure.js:64 | the text after the marker is the rest of the line |
| `MdLines.MarkerOfParts` | scripts/check-layout-risk.js:121-126 | indentation, a run of three or more fence characters and a rest make a marker of that length, read back exactly |
| `MdLines.RunExact` | scripts/check-markdown-structure.js:61 | a run of `n` copies followed by a different character has length `n` |
| `SiteRoots.ResolveRoots` | scripts/check-links.js:66-79 | the base directory is kept and the repository name is the basename of the repository root |
| `SiteRoots.RootsShape` | scripts/check-layout-risk.js:40-61 | the three cases: `docs/_config.yml` makes `docs` the site root; a base named `docs` holding `_config.yml` is the site root under its parent; otherwise the base is both |
| `SiteRoots.SlashRun` | scripts/check-links.js:305 | the run of leading `/`: all slashes, followed by something else |
| `SiteRoots.RelativeFromRoot` | scripts/check-links.js:305-313 | the site-relative part is a suffix of the link |
| `SiteRoots.BaseurlStripping` | scripts/check-layout-risk.js:103-115 | after the leading slashes, `/<repo>` or `/<repo>/` maps to the site root, `/<repo>/rest` to `rest`, and anything else is kept whole |
| `FailPolicy.NormalizeFailOn` | scripts/check-markdown-structure.js:11-15 | a level exactly when the trimmed, lower-cased value is `none`, `warn` or `error`, and then the level of that name |
| `FailPolicy.NormalizeFailOnName` | scripts/check-layout-risk.js:24-28 | every level is read back from its own name |
| `FailPolicy.LevelNameNormal` | scripts/check-textlint.js:25-29 | the level names are already trimmed and in lower case |
| `FailPolicy.NormalizeFailOnLoose` | scripts/check-markdown-structure.js:12 | leading whitespace does not change the level read |
| `FailPolicy.ShouldFail` | scripts/check-layout-risk.js:30-38 | `none` never fails, `warn` fails on any error or warning, `error` only on errors |
| `FailPolicy.WarnStricterThanError` | scripts/check-layout-risk.js:30-38 | whatever fails at `error` fails at `warn`, and a clean report fails at neither |
| `JsMap.IndexFrom` | scripts/check-markdown-structure.js:107 | the first position at or after `from` holding the key, or the length |
| `JsMap.IndexOf` | scripts/check-markdown-structure.js:107 | the position of the key, below the length exactly when the key is present |
| `JsMap.Get` | scripts/check-links.js:255 | `map.get(k)` answers exactly for present keys, with that key's value |
| `JsMap.Set` | scripts/check-links.js:266 | `map.set(k, v)` grows the map by one exactly when the key is new |
| `JsMap.SetKeys` | scripts/check-markdown-structure.js:109 | `set` keeps the insertion order of existing keys and appends a new key last |
| `JsMap.GetSetSame` | scripts/check-links.js:266 | after `set(k, v)`, `get(k)` is `v` |
| `JsMap.GetSetOther` | scripts/check-links.js:266 | `set(k, v)` leaves every other key's value alone |
| `JsMap.SetDistinct` | scripts/check-markdown-structure.js:109 | `set` never makes a key appear twice |
| `JsMap.InKeys` | scripts/check-unicode.js:99 | a key is among the keys exactly when the map has it |
| `JsMap.SetKeySet` | scripts/check-markdown-structure.js:109 | `set(k, v)` adds `k` to the keys and nothing else |
| `JsMap.DistinctKeysCount` | scripts/check-markdown-structure.js:130 | the map's `size` is its number of keys |
| `Anchors.HyphenRun` | scripts/check-links.js:427 | the run of leading `-`: all hyphens, followed by something else |
| `Anchors.KeepSlugCharsShape` | scripts/check-links.js:425 | removing `[^\p{L}\p{N}\s-]` leaves only letters, numbers, whitespace and hyphens |
| `Anchors.SpacesToHyphensShape` | scripts/check-links.js:426 | replacing `\s+` by `-` leaves only slug characters |
| `Anchors.CollapseHyphensShape` | scripts/check-links.js:427 | `-+` to `-` leaves no two hyphens in a row, keeps the text non-empty when it was, and keeps whether it starts with a hyphen |
| `Anchors.SlugCharNotSpace` | scripts/check-links.js:425-426 | a slug character is never whitespace |
| `Anchors.StripEdgeShape` | scripts/check-links.js:428 | removing one hyphen at each edge of a collapsed text leaves a slug |
| `Anchors.SlugBaseIsSlug` | scripts/check-links.js:421-429 | every result of `normalizeSlugBase` is a slug: slug characters only, no doubled hyphen, no hyphen at either end |
| `Anchors.KeepSlugCharsOfSlug` | scripts/check-links.js:425 | a slug loses nothing to the character filter |
| `Anchors.SpacesToHyphensNoSpace` | scripts/check-links.js:426 | text without whitespace is unchanged by the `\s+` replacement |
| `Anchors.CollapseNoDouble` | scripts/check-links.js:427 | text without doubled hyphens is unchanged by `-+` to `-` |
| `Anchors.LowerOfLowered` | scripts/check-links.js:424 | lower-cased text is unchanged by `toLowerCase` |
| `Anchors.SlugBaseOfSlug` | scripts/check-links.js:421-429 | a slug is its own slug base |
| `Anchors.SlugBaseIdempotent` | scripts/check-links.js:430-436 | `normalizeSlugBase` is idempotent, so `normalizeAnchorSlug` of a slug finds the slug |
| `Anchors.SlugsFrom` | scripts/check-links.js:446-478 | one anchor per heading |
| `Anchors.Bases` | scripts/check-links.js:449 | one slug base per heading |
| `Anchors.HeadingSlugs` | scripts/check-links.js:446-478 | one anchor per heading of the file |
| `Anchors.CountSnoc` | scripts/check-links.js:453-459 | appending a heading adds one to its base's count and nothing to the others |
| `Anchors.ExpectedAtPrefix` | scripts/check-links.js:462-478 | a heading's anchor depends only on the headings up to it |
| `Anchors.SeenAfterStep` | scripts/check-links.js:451-460 | one `slugify` call returns the base suffixed by its earlier count and keeps the `seen` map equal to the counts minus one |
| `Anchors.ExpectedAtSplit` | scripts/check-links.js:451-460 | the next heading's anchor is its base suffixed by the count of that base among the earlier ones |
| `Anchors.SlugsFromExpected` | scripts/check-links.js:462-478 | the per-heading results of the `slugify` loop are the expected anchors, whatever was seen before |
| `Anchors.HeadingSlugsAt` | scripts/check-links.js:446-478 | the k-th heading's anchor: empty for an empty base, the bare base the first time, `base-c` when c earlier headings had the same base |
| `Anchors.IdRun` | scripts/check-links.js:473 | the run of leading `[A-Za-z0-9_-]` characters, followed by something else |
| `Anchors.BraceIdPrefix` | scripts/check-links.js:473 | a `{#id}` match at the start is non-empty, fits the text and captures a non-empty id |
| `Anchors.KramdownIdPrefix` | scripts/check-links.js:492 | a `{: #id}` match at the start is non-empty, fits the text and captures a non-empty id |
| `Anchors.CleanAll` | scripts/check-links.js:480 | one cleaned text per heading |
| `Anchors.BraceIdsOfSnoc` | scripts/check-links.js:473-476 | the explicit ids of the headings so far, plus those of the next heading |
| `Anchors.IdSetAppend` | scripts/check-links.js:486-495 | the id set of two runs of ids is the union of their sets |
| `Anchors.SlugSet` | scripts/check-links.js:481-482 | the anchors added are exactly the non-empty slugs |
| `Anchors.SuffixedSlug` | scripts/check-links.js:458-459 | a slug followed by `-` and a count is still a slug |
| `Anchors.SlugFormsAreSlugs` | scripts/check-links.js:451-460 | every anchor `slugify` returns is a slug |
| `Anchors.BasesAreSlugs` | scripts/check-links.js:449 | every slug base is a slug |
| `Anchors.SlugIsNormalized` | scripts/check-links.js:413-419 | a slug is unchanged by the anchor normalisation (trim, decode, lower case) |
| `Anchors.HeadingAnchorAccepted` | scripts/check-links.js:498-500 | every heading can be linked by the anchor it is registered under |
| `Anchors.ExpectedAtExtend` | scripts/check-links.js:462-478 | later headings do not change an earlier heading's anchor |
| `Anchors.HeadingTextsStep` | scripts/check-links.js:462-467 | a `heading_open` followed by an `inline` token contributes that token's content, any other token nothing |
| `Anchors.AnchorStep` | scripts/check-links.js:473-482 | one heading adds its explicit ids and its non-empty slug to the anchor set |
| `Anchors.HeadingSlugsSnoc` | scripts/check-links.js:451-460 | one more heading appends the next `slugify` result |
| `Anchors.CollectSkip` | scripts/check-links.js:463-466 | a token that does not open a heading followed by an inline token changes nothing |
| `Anchors.CollectHeading` | scripts/check-links.js:467-482 | a heading adds its explicit ids and its slug, and advances `seen` |
| `Anchors.CollectDone` | scripts/check-links.js:485-495 | the HTML and kramdown ids complete the anchor set |
| `Anchors.CollectAnchors` | scripts/check-links.js:441-495 | the loop's anchor set is the heading ids and slugs, the HTML ids and the kramdown ids of the file |
| `Anchors.SlugifyShape` | scripts/check-links.js:446-460 | one `slugify` call returns an empty anchor exactly for an empty slug base, otherwise a slug starting with the base, and adds only the base to the `seen` keys |
| `Anchors.SlugBase` | scripts/check-links.js:421-429 | `normalizeSlugBase`; characterised by `SlugBaseIsSlug`, `SlugBaseOfSlug` and `SlugBaseIdempotent` |
| `Anchors.Slugify` | scripts/check-links.js:446-460 | the `slugify` closure on one heading text; characterised by `SlugifyShape`, `SeenAfterStep` and `HeadingSlugsAt` |
| `LinkCheck.CloseIndex` | scripts/check-links.js:182-187 | the scan for the link text stops at the first `link_close` after the opener, or at the end of the children |
| `LinkCheck.LineOf` | scripts/check-links.js:170 | a link's line is `map[0] + 1`, or 1 without a source map, and so at least 1 |
| `LinkCheck.ChildLinksShape` | scripts/check-links.js:172-211 | one record per `link_open` with an `href` and per `image` with a `src`, each at column 1 with trimmed text and URL |
| `LinkCheck.LinksShape` | scripts/check-links.js:163-215 | `extractLinks` returns one well-formed record per link-making child of the inline tokens, and no other |
| `LinkCheck.NoLinkChildrenNoLinks` | scripts/check-links.js:167 | tokens with no link-making children give no links |
| `LinkCheck.CheckExternalUrl` | scripts/check-links.js:503-540 | without `fetch` the check passes with the reason `fetch is not available`; otherwise it passes exactly when HEAD succeeds or one of 400/403/405/501 is followed by a successful GET; a passing check has no reason, a timeout gives `timeout`, and a failure gives the deciding request's `HTTP <status>`, `timeout` or error message |
| `LinkCheck.ExternalVerdict` | scripts/check-links.js:245-273 | an http(s) link is always valid; its `externalOk` is set exactly when external checks are on |
| `LinkCheck.HashPart` | scripts/check-links.js:285 | the part after the first `#` contains no `#` |
| `LinkCheck.StripAngles` | scripts/check-links.js:296-299 | the path changes only when it is wrapped in `<` and `>`, and never grows |
| `LinkCheck.Locate` | scripts/check-links.js:333-367 | the target is the path itself when it exists; otherwise `.md`, `.html` (only without an extension), `index.md`, `index.html` in that order; `None`, the `File not found` case, exactly when none of these exists |
| `LinkCheck.DirectoryIndex` | scripts/check-links.js:370-378 | an existing directory stands for its `index.md` or `index.html` when it has one; anything that is not a directory stands for itself |
| `LinkCheck.AnchorLookup` | scripts/check-links.js:409-410 | a target that is not a `.md` file accepts every anchor; the lookup fails exactly when a `.md` target cannot be read |
| `LinkCheck.InternalVerdict` | scripts/check-links.js:280-400 | valid exactly when `Locate` finds the target and there is no anchor or the anchor is found in the target's index file; invalid with type `internal` exactly when `Locate` finds nothing, with `File not found`; an anchor miss gives `Anchor #… not found` |
| `LinkCheck.SameFileVerdict` | scripts/check-links.js:226-244 | a `#…` link is valid exactly when the anchor is found in the linking file; its type is `anchor`, or `error` when the file cannot be read |
| `LinkCheck.LinkVerdict` | scripts/check-links.js:223-400 | http(s) links are valid external results, `mailto:` links valid email results, same-file anchors valid exactly when found, internal links valid exactly when the target is located and the anchor found, and broken as `File not found` exactly when nothing is located; every invalid verdict has a reason |
| `LinkCheck.ExistingFileHolds` | scripts/check-links.js:333-398 | a link to an existing file without an anchor is valid |
| `LinkCheck.NonMarkdownAnchorHolds` | scripts/check-links.js:381-384 | with a non-Markdown target found, any anchor is accepted |
| `LinkCheck.MissingAnchorBroken` | scripts/check-links.js:381-393 | a readable Markdown target without the anchor makes the link broken with `Anchor #… not found` |
| `LinkCheck.CheckedLinks` | scripts/check-links.js:128-156 | one verdict per link, in order |
| `LinkCheck.BrokenAndWarningsDisjoint` | scripts/check-links.js:136-155 | a link is never both broken and an external warning |
| `LinkCheck.NoBrokenIffAllValid` | scripts/check-links.js:136-145 | a file adds no broken link exactly when every verdict is valid |
| `LinkCheck.NoBrokenIffLogValid` | scripts/check-links.js:136-145 | a run has no broken links exactly when every recorded verdict is valid |
| `LinkCheck.ExternalNeverBroken` | scripts/check-links.js:246-273 | http(s) links never count as broken, whether or not they are checked |
| `LinkCheck.Classify` | scripts/check-links.js:227-278 | the first of `#`, `http://` or `https://`, `mailto:` and anything else that the URL starts with; characterised by `LinkVerdict` |
| `LinkChecking.FileEntries` | scripts/check-links.js:122-126 | a file adds at most one entry to `fileLinks` |
| `LinkChecking.ReadErrors` | scripts/check-links.js:108-115 | a file adds at most one read error |
| `LinkChecking.RecordAppend` | scripts/check-links.js:93-95 | recording two runs of files one after the other is recording their concatenation |
| `LinkChecking.ChecksIff` | scripts/check-links.js:128-156 | the links were checked in order exactly when the results are their verdicts |
| `LinkChecking.EntryCount` | scripts/check-links.js:120-126 | a file without links adds no entry (the early return), otherwise one |
| `LinkChecking.FileRecordedIff` | scripts/check-links.js:106-157 | a file was recorded exactly when its entries are those `checkFile` gives |
| `LinkChecking.LogAppend` | scripts/check-links.js:136-155 | recording more files appends their broken links and warnings after the earlier ones |
| `LinkChecking.BrokenLogAppend` | scripts/check-links.js:136-145 | broken links of two runs are those of the first, then those of the second |
| `LinkChecking.WarningsLogAppend` | scripts/check-links.js:146-155 | warnings of two runs are those of the first, then those of the second |
| `LinkChecking.SummarySuccess` | scripts/check-links.js:558-563 | `success` holds exactly when every checked link was valid and every file was read; failed external checks do not count |
| `LinkChecking.LinkChecker.constructor` | scripts/check-links.js:16-38 | a new checker has empty result lists and caches, external checks off and unset roots |
| `LinkChecking.LinkChecker.ValidateAnchor` | scripts/check-links.js:409-501 | the answer is the anchor lookup of the file, and the cache gains the file's anchor set the first time a Markdown file is read |
| `LinkChecking.LinkChecker.ValidateLink` | scripts/check-links.js:223-402 | the verdict is `LinkVerdict`; an external URL is fetched only when checks are on and it is not cached, and then cached |
| `LinkChecking.LinkChecker.CheckFile` | scripts/check-links.js:106-157 | a read error is recorded, otherwise the file's results are set in `fileLinks`, its broken links and warnings appended, and the caches stay valid |
| `LinkChecking.LinkChecker.SetState` | scripts/check-links.js:16-38 | the fields take the given state |
| `LinkChecking.LinkChecker.CheckDirectory` | scripts/check-links.js:40-98 | the roots are resolved first, then every file is checked in order, and the report is the summary of the resulting lists |
| `LinkChecking.LinkChecker.SetRoots` | scripts/check-links.js:55-79 | external checking, the site root and the repository name are those of `resolveRoots` |
| `LinkChecking.LinkChecker.CheckAll` | scripts/check-links.js:93-95 | every file is checked in order with the roots fixed |
| `LinkChecking.FetchUrl` | scripts/check-links.js:265-266 | caching a fresh result of an uncached URL keeps the cache equal to fresh checks, each URL fetched once |
| `LinkChecking.CacheAnchors` | scripts/check-links.js:497 | caching a file's own anchor set keeps the anchor cache valid |
| `LinkChecking.LookupCached` | scripts/check-links.js:432-437 | a lookup in a valid cache entry is the uncached answer |
| `LinkChecking.LookupAnchor` | scripts/check-links.js:409-501 | the answer is the anchor lookup; the cache is extended by at most the file's own anchor set |
| `LinkChecking.CachedAnchors` | scripts/check-links.js:432-497 | the cached set is reused or built once; an unreadable file leaves the cache alone and reports the read error |
| `LinkChecking.CachedAfterLookup` | scripts/check-links.js:497 | the cache after a lookup is the one `CachedAfter` describes |
| `LinkChecking.BuildAnchors` | scripts/check-links.js:439-495 | the built set is the anchor set of the file's text and tokens |
| `LinkChecking.CheckInternalLink` | scripts/check-links.js:280-400 | the verdict of an internal link is `InternalVerdict`, and the anchor cache only grows and stays valid |
| `LinkChecking.ResolveTarget` | scripts/check-links.js:281-330 | the target and the anchor are those of `SplitTarget` on the resolved decoded path |
| `LinkChecking.LocateTarget` | scripts/check-links.js:333-367 | the candidate loop finds `Locate`'s answer |
| `LinkChecking.IndexOfDirectory` | scripts/check-links.js:370-378 | a found directory stands for its index file, as `DirectoryIndex` says |
| `LinkChecking.ExtractLinks` | scripts/check-links.js:163-215 | the links are those of the page's inline tokens, in order |
| `LinkChecking.TokenLinksOf` | scripts/check-links.js:166-171 | only `inline` tokens with children contribute links |
| `LinkChecking.CheckFileIn` | scripts/check-links.js:106-157 | a file's read errors, entries, broken links and warnings are those the file gives, with valid caches |
| `LinkChecking.RecordDistinct` | scripts/check-links.js:126 | recording a file keeps the keys of `fileLinks` distinct |
| `LinkChecking.CheckFileInto` | scripts/check-links.js:106-157 | `checkFile` on a state appends the file's entries and errors and keeps the state valid |
| `LinkChecking.RecordOne` | scripts/check-links.js:126 | recording at most one entry is one `fileLinks.set` |
| `LinkChecking.AddEntries` | scripts/check-links.js:136-155 | adding a file's broken links and warnings with valid caches keeps the state valid |
| `LinkChecking.CheckFiles` | scripts/check-links.js:93-95 | the directory loop's log, read errors and `fileLinks` are those of the run over the files |
| `LinkChecking.RunLogStep` | scripts/check-links.js:93-95 | one more file extends the run's log by that file's entries |
| `LinkChecking.RunErrorsStep` | scripts/check-links.js:108-115 | one more file extends the run's read errors by that file's |
| `LinkChecking.RunStep` | scripts/check-links.js:93-95 | after one more file, the log is the run's log up to it |
| `LinkChecking.ValidateLinkIn` | scripts/check-links.js:223-402 | the verdict is `LinkVerdict` and the URL cache changes only by a first fetch |
| `LinkChecking.ScanLinks` | scripts/check-links.js:128-156 | every link of a file is validated in order, and the broken links and warnings are those of the verdicts |
| `LinkChecking.ScanStep` | scripts/check-links.js:136-155 | one more verdict is filed as broken, as a warning, or neither |
| `LinkChecking.BrokenOfSnoc` | scripts/check-links.js:136-145 | a further broken verdict appends its report to `brokenLinks` |
| `LinkChecking.WarningsOfSnoc` | scripts/check-links.js:146-155 | a further failed external check appends its report to `externalWarnings` |
| `LinkChecking.InlineLinks` | scripts/check-links.js:172-211 | the inner loop over one inline token's children gives that token's links |
| `LinkChecking.ChildLinkAt` | scripts/check-links.js:175-210 | a `link_open` with an `href` or an `image` with a `src` gives one link, any other child none |
| `LinkChecking.LinkTextFrom` | scripts/check-links.js:181-187 | the link text is the text, code and image content up to the next `link_close` |
| `LinkChecking.CloseIndexAt` | scripts/check-links.js:182-184 | the scan for `link_close` stops at the first one |
| `MarkdownStructure.WordRun` | scripts/check-markdown-structure.js:65 | the run of leading non-whitespace characters, followed by whitespace or the end |
| `MarkdownStructure.FirstWord` | scripts/check-markdown-structure.js:65 | the first word has no whitespace and is empty exactly when the text is all whitespace |
| `MarkdownStructure.FirstWordOfParts` | scripts/check-markdown-structure.js:65 | a word followed by whitespace or nothing is the first word |
| `MarkdownStructure.WordRunExact` | scripts/check-markdown-structure.js:65 | a word ending at whitespace or the end has exactly its length as run |
| `MarkdownStructure.DetectFenceOpen` | scripts/check-markdown-structure.js:60-73 | an opener exactly when the line is at most three whitespace characters, three or more backticks or tildes, and a rest without line breaks; it has that marker, and its language is empty exactly when the info string is |
| `MarkdownStructure.CloseMarker` | scripts/check-markdown-structure.js:77 | a closing marker exactly when the line is an indented marker followed only by whitespace |
| `MarkdownStructure.CloseIsBareOpen` | scripts/check-markdown-structure.js:75-81 | a line closes a fence exactly when it would open a fence of the same character, with an empty info string and a run at least as long |
| `MarkdownStructure.OpenOfParts` | scripts/check-markdown-structure.js:60-73 | indentation of at most three, a run of three or more fence characters and an info string give the fence with the trimmed info string and its first word, lowercased, as language |
| `MarkdownStructure.HeadingText` | scripts/check-markdown-structure.js:84-86 | the heading text follows at least one whitespace character and is trimmed |
| `MarkdownStructure.HashHeading` | scripts/check-markdown-structure.js:84 | a heading has one to six `#`, fewer than the characters after the indentation |
| `MarkdownStructure.ParseHeading` | scripts/check-markdown-structure.js:83-87 | a heading exactly when the indentation is at most three and the rest is a `#` run heading |
| `MarkdownStructure.HeadingTextOfParts` | scripts/check-markdown-structure.js:86 | a whitespace gap and a text give that text, trimmed |
| `MarkdownStructure.HeadingOfParts` | scripts/check-markdown-structure.js:83-87 | up to three whitespace characters, one to six `#`, a whitespace gap and a text parse as a heading of that level with the trimmed text |
| `MarkdownStructure.HashHeadingOfParts` | scripts/check-markdown-structure.js:84-86 | `#` run, gap and text parse as a heading of the run's length |
| `MarkdownStructure.HashAndSpaces` | scripts/check-markdown-structure.js:84 | `#` and two whitespace characters make an h1 with empty text, `#` and one make no heading |
| `MarkdownStructure.IndentedIsNeither` | scripts/check-markdown-structure.js:61 | more than three leading whitespace characters make neither a heading, nor an opening fence, nor a closing one |
| `MarkdownStructure.CloseFrom` | scripts/check-markdown-structure.js:37-48 | the first line at or after `from` equal to `---` or `...` after trimming, or the number of lines |
| `MarkdownStructure.CloseFromExact` | scripts/check-markdown-structure.js:37-48 | the three facts `CloseFrom` promises determine it |
| `MarkdownStructure.FrontMatterOf` | scripts/check-markdown-structure.js:28-58 | front matter exactly when the first line trims to `---`; unclosed exactly when no later line trims to `---` or `...`, with the body after the last line; otherwise the body starts two lines after the first closing line |
| `MarkdownStructure.FindFrontMatter` | scripts/check-markdown-structure.js:28-58 | the scan for the closing delimiter returns `FrontMatterOf` |
| `MarkdownStructure.BodyStart` | scripts/check-markdown-structure.js:168-181 | the body scan starts on a line from 1 to one past the last |
| `MarkdownStructure.Shapes` | scripts/check-markdown-structure.js:198-203 | one line shape per line |
| `MarkdownStructure.ShapeAt` | scripts/check-markdown-structure.js:198-203 | the j-th shape is what the three line patterns say about line j |
| `MarkdownStructure.ShapedAsAt` | scripts/check-markdown-structure.js:198-203 | shapes that describe the lines give each line's own shape |
| `MarkdownStructure.ShapesShaped` | scripts/check-markdown-structure.js:198-203 | the computed shapes describe the lines |
| `MarkdownStructure.StepInsideFence` | scripts/check-markdown-structure.js:259-263 | inside a fence a line reports nothing, leaves the heading state alone, and ends the fence exactly when it closes it |
| `MarkdownStructure.StepOpensFence` | scripts/check-markdown-structure.js:200-217 | outside a fence, an opener starts a fence on its line and reports a missing language exactly when its info string is empty |
| `MarkdownStructure.StepHeading` | scripts/check-markdown-structure.js:220-241 | outside a fence, a heading becomes the previous heading, counts when it is an h1, and is reported exactly when it is more than one level deeper than the previous one |
| `MarkdownStructure.ScanLinesTracksFence` | scripts/check-markdown-structure.js:196-264 | after the loop, an open fence was opened on `fenceStartLine` and no later line closes it |
| `MarkdownStructure.UnclosedFenceAtOpener` | scripts/check-markdown-structure.js:266-275 | an unclosed fence is reported exactly when a fence is still open, on the line that opened it, with no closing line after it |
| `MarkdownStructure.MultipleH1Reported` | scripts/check-markdown-structure.js:277-286 | several h1 headings are reported exactly when the count exceeds one |
| `MarkdownStructure.H1CountBound` | scripts/check-markdown-structure.js:224-226 | the h1 count is at most the number of h1 lines, and equal to it when no line opens a fence |
| `MarkdownStructure.ScanLinesAbout` | scripts/check-markdown-structure.js:196-264 | every issue of the line loop is about the file, in column 1, with its kind's severity |
| `MarkdownStructure.AllAboutAppend` | scripts/check-markdown-structure.js:105-116 | issues about the file stay about the file when appended |
| `MarkdownStructure.FrontMatterIssuesAbout` | scripts/check-markdown-structure.js:170-192 | the front-matter issues are about the file, in column 1, with their severity |
| `MarkdownStructure.EndIssuesAbout` | scripts/check-markdown-structure.js:266-286 | the end-of-scan issues are about the file, in column 1, with their severity |
| `MarkdownStructure.AllAbout3` | scripts/check-markdown-structure.js:105-116 | three runs of issues about the file, appended, are about the file |
| `MarkdownStructure.FileIssuesAbout` | scripts/check-markdown-structure.js:147-287 | every issue of a readable file is about that file, in column 1, with its kind's severity, and none is a read failure |
| `MarkdownStructure.UnclosedFrontMatterAlone` | scripts/check-markdown-structure.js:170-180 | front matter that never closes is the file's only issue, because the body scan starts after the last line |
| `CheckMarkdownStructure.WithIssuesSnoc` | scripts/check-markdown-structure.js:105-116 | filing one more issue is one more `addIssue` |
| `CheckMarkdownStructure.WithIssuesAppend` | scripts/check-markdown-structure.js:105-116 | filing two lists one after the other is filing their concatenation |
| `CheckMarkdownStructure.OfFile` | scripts/check-markdown-structure.js:107-109 | a file's list holds only issues about that file, no more than there are |
| `CheckMarkdownStructure.OfFileNonEmpty` | scripts/check-markdown-structure.js:107-109 | a file has a non-empty list exactly when some issue names it |
| `CheckMarkdownStructure.OfFileSnoc` | scripts/check-markdown-structure.js:107-109 | a new issue is appended to its own file's list and to no other |
| `CheckMarkdownStructure.CountSeverity` | scripts/check-markdown-structure.js:111-115 | a severity count is at most the number of issues |
| `CheckMarkdownStructure.ReadErrorCount` | scripts/check-markdown-structure.js:153-163 | the number of read failures is at most the number of issues |
| `CheckMarkdownStructure.FiledGet` | scripts/check-markdown-structure.js:107-109 | a file's `fileIssues` entry is its issues in order, or absent when it has none |
| `CheckMarkdownStructure.WithIssueFiled` | scripts/check-markdown-structure.js:105-116 | `addIssue` keeps `issues`, `fileIssues` and the error and warning counters consistent |
| `CheckMarkdownStructure.WithIssueEntry` | scripts/check-markdown-structure.js:107-109 | after `addIssue`, each entry is still its file's issues |
| `CheckMarkdownStructure.WithIssueKeys` | scripts/check-markdown-structure.js:107-109 | after `addIssue`, every issue's file has an entry |
| `CheckMarkdownStructure.WithIssuesFiled` | scripts/check-markdown-structure.js:105-116 | filing a readable file's issues keeps the lists consistent and records no read error |
| `CheckMarkdownStructure.AfterFileValid` | scripts/check-markdown-structure.js:147-287 | scanning one file keeps the runner's lists and counters consistent |
| `CheckMarkdownStructure.AfterFilesStep` | scripts/check-markdown-structure.js:131-133 | the directory loop handles one file after the other |
| `CheckMarkdownStructure.AfterFilesValid` | scripts/check-markdown-structure.js:131-133 | scanning any list of files keeps the lists and counters consistent |
| `CheckMarkdownStructure.SeveritiesPartition` | scripts/check-markdown-structure.js:111-115 | every issue is an error or a warning, so the two counts add up to the total |
| `CheckMarkdownStructure.ReadErrorsAreErrors` | scripts/check-markdown-structure.js:155-162 | a read failure is an error issue, so there are no more read failures than errors |
| `CheckMarkdownStructure.IssueFilesBound` | scripts/check-markdown-structure.js:137 | no more files with issues than issues |
| `CheckMarkdownStructure.FiledKeys` | scripts/check-markdown-structure.js:137 | the files with an entry are exactly those named by some issue |
| `CheckMarkdownStructure.ReportSummary` | scripts/check-markdown-structure.js:135-144 | in the report, total issues are errors plus warnings, read failures are among the errors, `filesWithIssues` counts the files named, and each file's details are its issues in order |
| `CheckMarkdownStructure.RunReportSummary` | scripts/check-markdown-structure.js:118-145 | the report of a run has `scannedFiles` equal to the number of files and obeys `ReportSummary` |
| `CheckMarkdownStructure.ReadErrorOf` | scripts/check-markdown-structure.js:151-164 | a file adds one read error when its read fails, none otherwise |
| `CheckMarkdownStructure.AfterFileScanned` | scripts/check-markdown-structure.js:147-164 | scanning a file keeps `scannedFiles` and appends its read error, if any |
| `CheckMarkdownStructure.AfterFilesScanned` | scripts/check-markdown-structure.js:127-136 | the loop never changes `scannedFiles` and appends the read errors of the unreadable files, in order |
| `CheckMarkdownStructure.WithIssuesAppendOnly` | scripts/check-markdown-structure.js:105-116 | filing issues changes neither the read errors nor `scannedFiles` |
| `CheckMarkdownStructure.ReadErrorsCount` | scripts/check-markdown-structure.js:154 | a run has one read error per unreadable file |
| `CheckMarkdownStructure.UnreadableExists` | scripts/check-markdown-structure.js:151-164 | some file cannot be read exactly when the unreadable count is positive |
| `CheckMarkdownStructure.UnreadableFileReported` | scripts/check-markdown-structure.js:136 | `fileReadErrors` is positive exactly when some file cannot be read, and equals the length of the error list |
| `CheckMarkdownStructure.FileIssuesParts` | scripts/check-markdown-structure.js:167-287 | a readable file's issues are its front-matter issue, then the line loop's, then the end-of-scan ones |
| `CheckMarkdownStructure.ScanLinesFrom` | scripts/check-markdown-structure.js:196 | the loop's start index may be given as any equal number |
| `CheckMarkdownStructure.ScanLinesStep` | scripts/check-markdown-structure.js:196-264 | the loop over one more line is the loop so far followed by one step |
| `CheckMarkdownStructure.WithOne` | scripts/check-markdown-structure.js:105-116 | filing a one-issue list is one `addIssue` |
| `CheckMarkdownStructure.FiledInThree` | scripts/check-markdown-structure.js:167-287 | filing three lists in turn is filing their concatenation |
| `CheckMarkdownStructure.MarkdownStructureRunner.constructor` | scripts/check-markdown-structure.js:90-103 | a new runner has no issues, no entries, no read errors and zero counters |
| `CheckMarkdownStructure.MarkdownStructureRunner.AddIssue` | scripts/check-markdown-structure.js:105-116 | `addIssue` appends to `issues` and to the file's entry and counts the issue as an error or a warning |
| `CheckMarkdownStructure.MarkdownStructureRunner.ScanLine` | scripts/check-markdown-structure.js:196-264 | one pass of the line loop gives the next loop state and files that step's issues |
| `CheckMarkdownStructure.MarkdownStructureRunner.ScanShape` | scripts/check-markdown-structure.js:200-263 | the branches of one pass, given what the three patterns matched |
| `CheckMarkdownStructure.MarkdownStructureRunner.ScanBody` | scripts/check-markdown-structure.js:196-264 | the line loop ends in the state of `ScanLines` and files exactly its issues |
| `CheckMarkdownStructure.MarkdownStructureRunner.ScanLineAt` | scripts/check-markdown-structure.js:196-264 | one more pass extends the loop's state and issues by one line |
| `CheckMarkdownStructure.MarkdownStructureRunner.ScanFile` | scripts/check-markdown-structure.js:147-287 | `scanFile` files a read error, or the file's issues, as `AfterFile` says |
| `CheckMarkdownStructure.MarkdownStructureRunner.ScanContent` | scripts/check-markdown-structure.js:167-287 | a readable file's issues are filed in order |
| `CheckMarkdownStructure.MarkdownStructureRunner.ScanFrontMatter` | scripts/check-markdown-structure.js:167-193 | the front-matter issue is filed and the body starts on `BodyStart` |
| `CheckMarkdownStructure.MarkdownStructureRunner.ReportFrontMatter` | scripts/check-markdown-structure.js:170-193 | unclosed front matter is reported and moves the body past the last line; invalid YAML reports the first error on its line |
| `CheckMarkdownStructure.MarkdownStructureRunner.ScanEnd` | scripts/check-markdown-structure.js:266-286 | an open fence, then several h1 headings, are reported after the loop |
| `CheckMarkdownStructure.MarkdownStructureRunner.ScanDirectory` | scripts/check-markdown-structure.js:118-145 | `scannedFiles` is set, every file is scanned in order, the totals are filled in, and the report is that of the final state |
| `CheckMarkdownStructure.ShouldFailPolicy` | scripts/check-markdown-structure.js:17-26 | on a level name, the shared policy with read failures added to the errors; any other value never fails |
| `CheckMarkdownStructure.RunFailsOn` | scripts/check-markdown-structure.js:17-26 | since read failures are also error issues, a run fails on `error` exactly when it has an error and on `warn` exactly when it has any issue |
| `CheckMarkdownStructure.ExitCode` | scripts/check-markdown-structure.js:336-358 | exit 2 exactly for an invalid `--fail-on` value, 1 exactly when the report fails under a valid level |
| `CheckMarkdownStructure.DefaultExit` | scripts/check-markdown-structure.js:333 | with the default `--fail-on error` a run exits 1 exactly when some issue is an error, in particular when a file cannot be read |
| `LayoutLines.FenceOpenOfParts` | scripts/check-layout-risk.js:121-126 | any whitespace, a run of three or more backticks or tildes and a rest give a marker with that indentation, character and length (indentation is not limited) |
| `LayoutLines.FenceOpenNeedsRun` | scripts/check-layout-risk.js:121-126 | a marker starts right after the leading whitespace with three equal fence characters |
| `LayoutLines.FenceCloseOfParts` | scripts/check-layout-risk.js:128-135 | inside a fence, whitespace, a run and trailing whitespace close it exactly when the character matches and the run is at least as long |
| `LayoutLines.FenceCloseIsBare` | scripts/check-layout-risk.js:128-135 | a closing line carries only whitespace after its marker, of the fence's character and at least its length |
| `LayoutLines.DelimiterWithoutDashTest` | scripts/check-layout-risk.js:137-147 | a delimiter row is a non-empty trimmed line of whitespace, pipes, colons and dashes holding `---` and a pipe: the separate single-dash test adds nothing |
| `LayoutLines.DelimiterOfParts` | scripts/check-layout-risk.js:137-147 | delimiter characters around a run of three or more dashes, holding a pipe and not edged by whitespace, make a delimiter row |
| `LayoutLines.PartsTrimmed` | scripts/check-layout-risk.js:140 | such a row is unchanged by `trim()` |
| `LayoutLines.PartsDashes` | scripts/check-layout-risk.js:142-146 | such a row holds a dash and a run of three |
| `LayoutLines.PartsDelimiterChars` | scripts/check-layout-risk.js:144 | such a row is made only of whitespace, pipes, colons and dashes |
| `LayoutLines.PartsPipe` | scripts/check-layout-risk.js:146 | such a row holds a pipe |
| `LayoutLines.DelimiterRejectsText` | scripts/check-layout-risk.js:144 | a line holding a character other than whitespace, a pipe, a colon or a dash is never a delimiter row |
| `LayoutLines.ColumnsCountPipes` | scripts/check-layout-risk.js:149-156 | a row has no columns exactly when it holds no pipe, and otherwise one more than the pipes between its outer ones |
| `LayoutLines.PipeLineHasColumns` | scripts/check-layout-risk.js:149-156 | a pipe anywhere on a line gives it at least one column |
| `LayoutLines.StripPiped` | scripts/check-layout-risk.js:153 | removing the leading and the trailing pipe around `x` leaves `x` |
| `LayoutLines.PipedRowColumns` | scripts/check-layout-risk.js:149-156 | a row of cells, each preceded by a pipe and the last followed by one, has one column per cell |
| `LayoutLines.ClampSnippet` | scripts/check-layout-risk.js:158-161 | a line of at most `maxLen` UTF-16 code units is kept whole; a longer one becomes its longest prefix within `maxLen` code units followed by `...` |
| `LayoutLines.Utf16LengthPrefixed` | scripts/check-layout-risk.js:160 | a line longer than `maxLen` code units loses at least its last character |
| `LayoutLines.ClampSnippetBmp` | scripts/check-layout-risk.js:158-161 | without astral characters, a long line keeps exactly its first `maxLen` characters and gains `...` |
| `LayoutAssets.BeforeCharWhole` | scripts/check-layout-risk.js:74 | a link without `#` is kept whole by `split('#', 1)[0]` |
| `LayoutAssets.BeforeCharPast` | scripts/check-layout-risk.js:74-75 | cutting a concatenation whose left part has no separator keeps that part |
| `LayoutAssets.DecodePlain` | scripts/check-layout-risk.js:77-83 | trimmed text without escapes decodes and trims to itself |
| `LayoutAssets.UnwrapPlain` | scripts/check-layout-risk.js:69-71 | a trimmed link not wrapped in `<…>` is not unwrapped |
| `LayoutAssets.CleanPlainLink` | scripts/check-layout-risk.js:64-84 | a trimmed plain path without `#`, `?`, `%` or angle brackets is its own cleaned form |
| `LayoutAssets.CutSuffix` | scripts/check-layout-risk.js:74-75 | a fragment or a query after a part holding neither is cut off |
| `LayoutAssets.CleanDropsSuffix` | scripts/check-layout-risk.js:64-84 | `normalizePathLikeLink` drops a fragment or a query string, whatever it holds |
| `LayoutAssets.CleanUnwraps` | scripts/check-layout-risk.js:69-71 | `<path>` is cleaned as `path` |
| `LayoutAssets.AssetPath` | scripts/check-layout-risk.js:95-119 | a source names a file exactly when, cleaned, it is non-empty, not external (`http:`, `https:`, `mailto:`, `data:`) and holds no `{{` or `{%` |
| `LayoutAssets.AssetOf` | scripts/check-layout-risk.js:97-118 | a cleaned source names a file exactly when it is static |
| `LayoutAssets.AssetUnderBaseurl` | scripts/check-layout-risk.js:103-115 | `/<repoName>/rest` is looked up as `rest` below the site root |
| `LayoutAssets.AssetRelative` | scripts/check-layout-risk.js:118 | a relative source is resolved against the Markdown file's directory |
| `LayoutHtml.UnquotedRun` | scripts/check-layout-risk.js:373 | the `[^\s>]+` run: no whitespace or `>` inside, and one of them or the end after it |
| `LayoutHtml.OpenRun` | scripts/check-layout-risk.js:373 | the `[^>]*` run: no `>` inside, and `>` or the end after it |
| `LayoutHtml.ValueAt` | scripts/check-layout-risk.js:373 | a value match is non-empty, starts at a non-space character and ends inside the text |
| `LayoutHtml.SrcAt` | scripts/check-layout-risk.js:373 | a `\bsrc\s*=\s*` match ends after its start and inside the text |
| `LayoutHtml.LastSrc` | scripts/check-layout-risk.js:373 | the backtracking search for `src` ends after the tag name and inside the text |
| `LayoutHtml.ImgAt` | scripts/check-layout-risk.js:373 | a match starting at a position ends after it, so `matchAll` moves forward |
| `LayoutHtml.SourcesNonEmpty` | scripts/check-layout-risk.js:374-375 | every source pushed is non-empty (`if (src)`) |
| `LayoutHtml.NoTagNoSources` | scripts/check-layout-risk.js:373 | HTML without `<img`, in any case, gives no sources |
| `LayoutHtml.LastSrcSkips` | scripts/check-layout-risk.js:373 | the backtracking from `>` passes over positions where `src` does not match |
| `LayoutHtml.LastSrcStep` | scripts/check-layout-risk.js:373 | one position without a `src` match is passed over |
| `LayoutHtml.TagIsTag` | scripts/check-layout-risk.js:373 | `<img` + attributes + `src=` + value + `>` has those characters at those positions |
| `LayoutHtml.TagSourceOf` | scripts/check-layout-risk.js:372-376 | in an `<img` tag, whatever `src` attributes come before, the source read is the value after the last `src=` before `>` |
| `LayoutHtml.SourcesOfOne` | scripts/check-layout-risk.js:373-375 | a text whose only match is one `src=` with its value up to the last character gives that value, when non-empty |
| `LayoutHtml.SrcAtWord` | scripts/check-layout-risk.js:373 | `src=` after a non-word character matches `\bsrc\s*=\s*` and reads the value right after `=` |
| `LayoutHtml.LastCharNoSources` | scripts/check-layout-risk.js:373 | nothing matches from the last character of a text on |
| `LayoutHtml.TagSearch` | scripts/check-layout-risk.js:373 | in a tag the greedy `[^>]*` backtracks from the character before `>` down to the last `src=` |
| `LayoutHtml.NotSrcWordInTag` | scripts/check-layout-risk.js:373 | no `src` starts inside a value that holds none |
| `LayoutHtml.OpenRunExact` | scripts/check-layout-risk.js:373 | a run of non-`>` characters ended by `>` or the end is the `[^>]*` run |
| `LayoutHtml.QuotedSource` | scripts/check-layout-risk.js:372-375 | `<img … src="v">` and `<img … src='v'>` give `v` when it is non-empty and nothing otherwise |
| `LayoutHtml.QuotedSourceOf` | scripts/check-layout-risk.js:372-375 | a text laid out as a tag with a quoted value gives that value when non-empty |
| `LayoutHtml.QuotedNoSrcWord` | scripts/check-layout-risk.js:373 | quotes around a value add no `>` and no `src` |
| `LayoutHtml.UnquotedSource` | scripts/check-layout-risk.js:372-375 | `<img … src=v>` with a non-empty unquoted value gives `v` |
| `LayoutHtml.UnquotedSourceOf` | scripts/check-layout-risk.js:372-375 | a text laid out as a tag with an unquoted value gives that value |
| `LayoutHtml.QuotedValue` | scripts/check-layout-risk.js:373 | a quoted value is the text up to the partner quote |
| `LayoutHtml.UnquotedValue` | scripts/check-layout-risk.js:373 | an unquoted value is the run of non-space characters before `>` |
| `LayoutHtml.DataSrcWins` | scripts/check-layout-risk.js:373 | in `<img src="a" data-src="b">` the `\b` before `src` also holds after `-`, so `b` is the source read |
| `LayoutHtml.UnquotedRunExact` | scripts/check-layout-risk.js:373 | a run of non-space, non-`>` characters ended by one of them or the end is the `[^\s>]+` run |
| `LayoutScan.ErrorCount` | scripts/check-layout-risk.js:202-210 | the errors among the issues are no more than the issues |
| `LayoutScan.ErrorCountSnoc` | scripts/check-layout-risk.js:202-210 | one more issue adds one error exactly when it is an error |
| `LayoutScan.ErrorCountAppend` | scripts/check-layout-risk.js:202-210 | the errors of two runs of issues add up |
| `LayoutScan.ErrorCountWarnings` | scripts/check-layout-risk.js:202-210 | warnings only contain no error |
| `LayoutScan.Max` | scripts/check-layout-risk.js:309 | `Math.max` of two counts is one of them and at least both |
| `LayoutScan.Shapes` | scripts/check-layout-risk.js:286-290 | one line shape per line of the split content |
| `LayoutScan.ShapeAt` | scripts/check-layout-risk.js:286-290 | the i-th shape is what the line patterns, the UTF-16 length and the snippet say about line i |
| `LayoutScan.ShapesPipesCounted` | scripts/check-layout-risk.js:304-308 | every line holding a pipe has at least one column |
| `LayoutScan.TableEnd` | scripts/check-layout-risk.js:315-323 | the row loop after a delimiter row stops at a line within the file, never before the delimiter row |
| `LayoutScan.Step` | scripts/check-layout-risk.js:292-363 | one pass of the line loop always moves forward and stays within the lines |
| `LayoutScan.LongLinesSnoc` | scripts/check-layout-risk.js:331-342 | one more issue adds one long line exactly when it is a long line of that kind |
| `LayoutScan.TableEndGrows` | scripts/check-layout-risk.js:315-323 | consuming table rows changes only `tableRows` and `maxTableCols`, and only upwards |
| `LayoutScan.StepSilent` | scripts/check-layout-risk.js:294-326 | a pass that opens a fence or consumes a table reports nothing and keeps the counts in agreement with the issues |
| `LayoutScan.StepValid` | scripts/check-layout-risk.js:292-363 | every pass keeps the issues long-line warnings in line order, at most one per line, and the counts in agreement with them |
| `LayoutScan.StepText` | scripts/check-layout-risk.js:328-342 | a long text line is reported on its own line and counted |
| `LayoutScan.StepCode` | scripts/check-layout-risk.js:351-363 | a long code line is reported on its own line and counted |
| `LayoutScan.FoundLater` | scripts/check-layout-risk.js:289 | issues about lines before `i` are about lines before any later index |
| `LayoutScan.FoundSnoc` | scripts/check-layout-risk.js:332-341 | a warning for line `i + 1` extends the issues of the lines before it, in order |
| `LayoutScan.TalliedText` | scripts/check-layout-risk.js:329-332 | counting a long text line with `Math.max` keeps the counts in agreement |
| `LayoutScan.TalliedCode` | scripts/check-layout-risk.js:351-354 | counting a long code line with `Math.max` keeps the counts in agreement |
| `LayoutScan.ScanLinesValid` | scripts/check-layout-risk.js:289-365 | the whole line loop reports only long-line warnings, one per line at most and in line order, each quoting its line's length and snippet over the limit, with counts that agree |
| `LayoutScan.PlainTextScan` | scripts/check-layout-risk.js:328-342 | outside a fence, lines with no marker and no pipe are text: exactly those longer than the text limit are reported, and the fence stays closed |
| `LayoutScan.OpenFenceScan` | scripts/check-layout-risk.js:343-363 | inside a fence that no later line closes, exactly the lines longer than the code limit are reported |
| `LayoutScan.LongLinesAll` | scripts/check-layout-risk.js:331-362 | when every issue is a long-line warning, the long text and code lines add up to all of them |
| `LayoutScan.ImageSourcesAppend` | scripts/check-layout-risk.js:378-394 | the sources of consecutive tokens are those of each part in turn |
| `LayoutScan.ChildrenImagesNonEmpty` | scripts/check-layout-risk.js:381-389 | no source an `inline` token's children give is empty |
| `LayoutScan.ImageSourcesNonEmpty` | scripts/check-layout-risk.js:378-394 | no source in `imageSrcs` is empty |
| `LayoutScan.Counted` | scripts/check-layout-risk.js:420-446 | counting a source's lookup leaves the set of seen sources alone |
| `LayoutScan.ImagesOfStep` | scripts/check-layout-risk.js:410 | the image loop over one more source is one more pass |
| `LayoutScan.CleanedSnoc` | scripts/check-layout-risk.js:411-415 | one more source adds its trimmed form to the seen set when non-empty |
| `LayoutScan.CleanedMembers` | scripts/check-layout-risk.js:411-415 | a string is in the seen set exactly when it is non-empty and some source trims to it |
| `LayoutScan.TrimmedSnoc` | scripts/check-layout-risk.js:411 | some source of `init + [x]` trims to `y` exactly when one of `init` does or `x` does |
| `LayoutScan.ImageStepAgrees` | scripts/check-layout-risk.js:410-446 | one pass of the image loop keeps `seenSrc` the distinct trimmed sources and the counts in agreement with the image issues |
| `LayoutScan.ImageSkipAgrees` | scripts/check-layout-risk.js:412-413 | an empty or repeated source changes nothing and keeps the agreement |
| `LayoutScan.ImageNewAgrees` | scripts/check-layout-risk.js:414-446 | a new source is counted once and keeps the agreement |
| `LayoutScan.ImageStepNew` | scripts/check-layout-risk.js:414-419 | a new trimmed source is added to `seenSrc`, counted in `imagesTotal`, and looked up |
| `LayoutScan.CountedCounts` | scripts/check-layout-risk.js:420-446 | whatever the lookup gave (not local, missing, a directory, a small or a large file), the counts keep agreeing with the issues |
| `LayoutScan.CountsAdded` | scripts/check-layout-risk.js:425-445 | adding one image issue with its count keeps the agreement |
| `LayoutScan.ImagesOfAgree` | scripts/check-layout-risk.js:409-446 | after the image loop every distinct trimmed source is counted once in `imagesTotal`, local ones among them, and the issues are the missing images (errors) and the large ones (warnings) |
| `LayoutScan.ImageStepRepeat` | scripts/check-layout-risk.js:413 | a source that trims like one already handled changes nothing |
| `LayoutScan.Assemble` | scripts/check-layout-risk.js:449-461 | the line warnings, then the image issues, then the wide-table warning make up a file whose counts account for all of them |
| `LayoutScan.FindingsCounts` | scripts/check-layout-risk.js:286-461 | a file pushes one issue per long text line, long code line, missing and large local image, plus one when the widest table is over the limit; its errors are its missing images, and `imagesTotal` is the number of distinct trimmed sources |
| `LayoutScan.ScanContentCounts` | scripts/check-layout-risk.js:246-461 | the same for `scanFile` on a readable file's content and tokens |
| `CheckLayoutRisk.PushedAllSnoc` | scripts/check-layout-risk.js:202-210 | pushing one more issue is one more `pushIssue` |
| `CheckLayoutRisk.PushedAllAppend` | scripts/check-layout-risk.js:202-210 | pushing two lists one after the other is pushing their concatenation |
| `CheckLayoutRisk.PushedAllKeeps` | scripts/check-layout-risk.js:202-210 | pushing changes only the kept issues and the issue counts, and `totalIssues` grows by the number pushed |
| `CheckLayoutRisk.Cap` | scripts/check-layout-risk.js:207-209 | the number kept out of `n` pushed is at most `n`, and fewer exactly when `n` exceeds `maxIssues` (or 0 when it is negative) |
| `CheckLayoutRisk.PushedTracks` | scripts/check-layout-risk.js:202-210 | after `pushIssue` the kept list is still the first `maxIssues` issues pushed, and the counters count all of them by severity |
| `CheckLayoutRisk.PushedAllTracks` | scripts/check-layout-risk.js:202-210 | the same after pushing any list of issues |
| `CheckLayoutRisk.CombineLaws` | scripts/check-layout-risk.js:463-477 | the aggregation of file counts into the summary is commutative and associative, with the zero counts as identity |
| `CheckLayoutRisk.AfterFilesStep` | scripts/check-layout-risk.js:227-229 | the file loop handles one file after the other |
| `CheckLayoutRisk.Scans` | scripts/check-layout-risk.js:227-229 | one scan outcome per file |
| `CheckLayoutRisk.ScansAt` | scripts/check-layout-risk.js:227-229 | the k-th outcome is that of the k-th file |
| `CheckLayoutRisk.AfterFilesScans` | scripts/check-layout-risk.js:227-229 | the loop's state is the state changes of each file's outcome, in order |
| `CheckLayoutRisk.AfterScannedTracks` | scripts/check-layout-risk.js:246-490 | one more file keeps the state that of the files scanned: the pushes counted, totals added, read errors recorded, `filesWithIssues` counting the readable files with findings, and one `fileDetails` entry per readable file |
| `CheckLayoutRisk.FileDetailsKeys` | scripts/check-layout-risk.js:479 | `fileDetails.set` adds the file's name to the keys |
| `CheckLayoutRisk.AfterAllTracks` | scripts/check-layout-risk.js:227-229 | a fresh scanner after any list of outcomes tracks them all |
| `CheckLayoutRisk.ScanOfAccounted` | scripts/check-layout-risk.js:246-490 | a readable file's counts account for the issues it pushes |
| `CheckLayoutRisk.ScansAccounted` | scripts/check-layout-risk.js:227-229 | every readable file of a run is accounted for |
| `CheckLayoutRisk.AllPushesCount` | scripts/check-layout-risk.js:246-490 | a run pushes one issue per unreadable file, long line, missing and large local image, and file with a wide table; the errors are the read failures and the missing images; files with findings or read failures are no more than the files or the issues |
| `CheckLayoutRisk.ReadFailuresExist` | scripts/check-layout-risk.js:252-264 | some file of a run cannot be read exactly when the run has read failures |
| `CheckLayoutRisk.RunReportCounts` | scripts/check-layout-risk.js:212-244 | the report has `scannedFiles` equal to the files, one read error per unreadable file, `totalIssues` equal to errors plus warnings and to the pushes, the errors equal to read failures plus missing images, the first `maxIssues` pushes kept with `issuesTruncated` exactly when more were pushed, and one `fileDetails` entry per readable file |
| `CheckLayoutRisk.PushedInThree` | scripts/check-layout-risk.js:286-461 | the line, image and wide-table pushes one after the other are a push of their concatenation |
| `CheckLayoutRisk.PushedOne` | scripts/check-layout-risk.js:202-210 | pushing a one-issue list is one `pushIssue` |
| `CheckLayoutRisk.LayoutRiskScanner.constructor` | scripts/check-layout-risk.js:165-200 | a new scanner has the given settings, no issues, no read errors, zero counts and no file details |
| `CheckLayoutRisk.LayoutRiskScanner.PushIssue` | scripts/check-layout-risk.js:202-210 | `pushIssue` counts the issue as an error or a warning and keeps it only while fewer than `maxIssues` are kept |
| `CheckLayoutRisk.LayoutRiskScanner.ScanDirectory` | scripts/check-layout-risk.js:212-244 | every file is scanned in order, `scannedFiles` and `fileReadErrors` are filled in after the loop, and a fresh scanner returns `RunReport` |
| `CheckLayoutRisk.LayoutRiskScanner.ScanFiles` | scripts/check-layout-risk.js:227-229 | the loop scans every file in order |
| `CheckLayoutRisk.LayoutRiskScanner.ScanFile` | scripts/check-layout-risk.js:246-490 | `scanFile` records and pushes a read failure, or scans the readable file |
| `CheckLayoutRisk.LayoutRiskScanner.ScanReadable` | scripts/check-layout-risk.js:267-489 | the file's findings are pushed, its counts added to the summary, its `fileDetails` entry set, and it counts as a file with issues exactly when it pushed one |
| `CheckLayoutRisk.LayoutRiskScanner.ScanFindings` | scripts/check-layout-risk.js:286-461 | the file's counts and issues are those of `ScanContent`, pushed in order |
| `CheckLayoutRisk.LayoutRiskScanner.ScanLineLoop` | scripts/check-layout-risk.js:286-365 | the line loop gives the counts of `ScanLines` and pushes its warnings in order |
| `CheckLayoutRisk.LayoutRiskScanner.ScanLine` | scripts/check-layout-risk.js:289-364 | one pass gives the index, fence state and counts of `Step` and pushes its warning, if any |
| `CheckLayoutRisk.LayoutRiskScanner.ConsumeTable` | scripts/check-layout-risk.js:315-323 | the row loop stops where `TableEnd` does, with its counts |
| `CheckLayoutRisk.LayoutRiskScanner.CollectImageSources` | scripts/check-layout-risk.js:377-394 | the token loop collects the `imageSrcs` of `ImageSources`, in order |
| `CheckLayoutRisk.LayoutRiskScanner.ScanImages` | scripts/check-layout-risk.js:409-446 | the image loop gives the counts of `ImagesOf` and pushes its issues in order |
| `CheckLayoutRisk.LayoutRiskScanner.CheckImage` | scripts/check-layout-risk.js:410-446 | one pass of the image loop is `ImageStep`, its issue pushed |
| `CheckLayoutRisk.LayoutRiskScanner.CountImage` | scripts/check-layout-risk.js:417-446 | a new source is looked up when local, as `Counted` says |
| `CheckLayoutRisk.LayoutRiskScanner.CountLookup` | scripts/check-layout-risk.js:420-445 | a local path that cannot be stat-ed is a missing image, a regular file over the limit a large one |
| `CheckLayoutRisk.ShouldFailPolicy` | scripts/check-layout-risk.js:30-38 | on a level name `shouldFail` is the shared policy on errors and warnings; any other value never fails |
| `CheckLayoutRisk.ExitCode` | scripts/check-layout-risk.js:567-595 | exit 2 exactly for an invalid `--fail-on` value, 1 exactly when the report fails under a valid level |
| `CheckLayoutRisk.RunExit` | scripts/check-layout-risk.js:566-595 | with the default `none` a scan exits 0; with `error` it exits 1 exactly when a file cannot be read or a local image is missing; with `warn` exactly when anything was reported |
| `CheckLayoutRisk.CliSettings` | scripts/check-layout-risk.js:574-580 | finite option values become the thresholds and `maxIssues` |
| `CheckLayoutRisk.CliDefaults` | scripts/check-layout-risk.js:574-580 | without finite options the thresholds are 160, 200, 10 and 1 000 000, and 200 issues are kept |
| `FontValues.PastComma` | scripts/svg-font-normalize.js:23 | the comma replacement resumes after the comma and all the whitespace after it |
| `FontValues.SingleSpacedTail` | scripts/svg-font-normalize.js:22 | a suffix of single-spaced text is single-spaced |
| `FontValues.SingleSpaceRun` | scripts/svg-font-normalize.js:22 | in single-spaced text the leading whitespace is at most one space |
| `FontValues.CommaSpacedIsOpen` | scripts/svg-font-normalize.js:23 | text in the closed comma form, where every comma is followed by exactly one space, is in the open one |
| `FontValues.CommaSpacedEnd` | scripts/svg-font-normalize.js:23 | comma-spaced text ends in a non-blank character other than a comma, or in `", "` |
| `FontValues.CommaSpacedDropSpace` | scripts/svg-font-normalize.js:23 | comma-spaced text ending in `", "` is in the open form without its last space |
| `FontValues.CollapseShape` | scripts/svg-font-normalize.js:22 | `.replace(/\s+/g, ' ')` leaves single-spaced text, keeps a non-blank first and last character, and turns leading and trailing whitespace into one space |
| `FontValues.CollapseFixed` | scripts/svg-font-normalize.js:22 | text in the open comma form has no whitespace run to collapse |
| `FontValues.SpaceCommasShape` | scripts/svg-font-normalize.js:23 | `.replace(/\s*,\s*/g, ', ')` on single-spaced text gives the closed comma form and keeps a non-blank first character |
| `FontValues.SpaceCommasShapeComma` | scripts/svg-font-normalize.js:23 | the same when the text starts with whitespace and a comma |
| `FontValues.AfterComma` | scripts/svg-font-normalize.js:23 | what follows a comma and its whitespace in single-spaced text is single-spaced, with non-blank ends |
| `FontValues.ClosedAfterComma` | scripts/svg-font-normalize.js:23 | `", "` followed by comma-spaced text is comma-spaced |
| `FontValues.SpaceCommasShapeKeep` | scripts/svg-font-normalize.js:23 | the same when the text starts with a character kept as it is |
| `FontValues.SpaceCommasFixed` | scripts/svg-font-normalize.js:23 | the comma replacement leaves text in the open comma form unchanged, up to its trailing space |
| `FontValues.SpaceCommasFixedComma` | scripts/svg-font-normalize.js:23 | the same for text starting with a comma |
| `FontValues.SpaceCommasAtComma` | scripts/svg-font-normalize.js:23 | at a comma the replacement writes `", "` and resumes after its whitespace |
| `FontValues.SpaceCommasKept` | scripts/svg-font-normalize.js:23 | where no comma follows the whitespace, the character is kept and the scan moves on by one |
| `FontValues.SpaceCommasFixedKeep` | scripts/svg-font-normalize.js:23 | the same for text starting with a kept character |
| `FontValues.NormalizeIdempotent` | scripts/svg-font-normalize.js:19-24 | normalising twice is normalising once |
| `FontValues.NormalizedShape` | scripts/svg-font-normalize.js:19-24 | a normal form is in the closed comma form and does not start with whitespace |
| `FontValues.NormalFormFixed` | scripts/svg-font-normalize.js:19-24 | non-empty comma-spaced text not starting with whitespace is its own normal form |
| `FontValues.NormalFormFixedClosed` | scripts/svg-font-normalize.js:19-24 | the same when it ends in a non-blank character |
| `FontValues.NormalFormFixedSpace` | scripts/svg-font-normalize.js:19-24 | the same when it ends in `", "`: trimming and re-spacing give the space back |
| `FontValues.TrailingOneSpace` | scripts/svg-font-normalize.js:21 | `trim()` of text ending in `", "` removes just the last space |
| `FontValues.NormalizeFirst` | scripts/svg-font-normalize.js:19-24 | a normalised value starts with the value's first character when that is not whitespace |
| `FontValues.BareNameOpen` | scripts/svg-font-normalize.js:23 | text without whitespace or commas is in the open comma form |
| `FontValues.NormalizeBareName` | scripts/svg-font-normalize.js:19-24 | a value without whitespace or commas is its own normal form |
| `FontValues.NormalizeEmpty` | scripts/svg-font-normalize.js:19-24 | the normal form is empty exactly when the value is all whitespace |
| `FontValues.NormalizeFontValue` | scripts/svg-font-normalize.js:19-24 | `normalizeFontValue`: trimmed, whitespace runs collapsed, commas spaced; characterised by `NormalizeIdempotent`, `NormalizedShape`, `NormalizeEmpty`, `NormalizeFirst` and `NormalizeBareName` |
| `SvgFontNormalize.ExactIgnoreCase` | scripts/svg-font-normalize.js:68 | an exact occurrence matches under the `i` flag |
| `SvgFontNormalize.ShortNoMath` | scripts/svg-font-normalize.js:68 | text shorter than thirteen characters names no math stack |
| `SvgFontNormalize.MaybeReplaceFontFamily` | scripts/svg-font-normalize.js:63-78 | a replacement is always one of the two canonical stacks |
| `SvgFontNormalize.FamilyNormalOnly` | scripts/svg-font-normalize.js:64 | the replacer looks only at the value's normal form |
| `SvgFontNormalize.FamilyReplacement` | scripts/svg-font-normalize.js:63-78 | a value is replaced exactly when it is not blank, names no math stack, is not a canonical stack up to normalisation and has a listed normal form; the sans stack replaces a sans-serif value, and a replacement always changes the normal form |
| `SvgFontNormalize.FamilyFixpoint` | scripts/svg-font-normalize.js:70-72 | the canonical stacks are never replaced, so a replaced value is left alone by a second pass |
| `SvgFontNormalize.ImportantStart` | scripts/svg-font-normalize.js:85-87 | `\s*!important\s*$` starts at least ten characters before the end |
| `SvgFontNormalize.ImportantOfParts` | scripts/svg-font-normalize.js:85-87 | a value, whitespace, `!important` and trailing whitespace has its suffix start where the value ends |
| `SvgFontNormalize.ImportantAt` | scripts/svg-font-normalize.js:85 | `!important` before trailing whitespace is found with the whitespace before it |
| `SvgFontNormalize.TrailingRunAppend` | scripts/svg-font-normalize.js:85 | an all-whitespace suffix after a non-blank character is the trailing whitespace |
| `SvgFontNormalize.NoImportant` | scripts/svg-font-normalize.js:85 | a value without `!` carries no `!important` |
| `SvgFontNormalize.Base` | scripts/svg-font-normalize.js:87 | the base value is a prefix of the raw value |
| `SvgFontNormalize.DigitRun` | scripts/svg-font-normalize.js:92 | the `\d+` run: digits only, a non-digit or the end after it |
| `SvgFontNormalize.NumberRun` | scripts/svg-font-normalize.js:100 | the `[0-9.]+` run: digits and dots only, and neither after it |
| `SvgFontNormalize.UnitLen` | scripts/svg-font-normalize.js:92 | a unit `px`, `pt`, `em`, `rem` or `%` is at most three characters and inside the text |
| `SvgFontNormalize.NumberEnd` | scripts/svg-font-normalize.js:92 | the number `\d+(?:\.\d+)?` ends after its digits and inside the text |
| `SvgFontNormalize.SizeAt` | scripts/svg-font-normalize.js:92 | a size match starts at a digit after a `\b` and ends after its start |
| `SvgFontNormalize.FirstSize` | scripts/svg-font-normalize.js:93 | `sizeRe.exec` finds a size starting at or after its start position |
| `SvgFontNormalize.NumberLineHeight` | scripts/svg-font-normalize.js:100 | a numeric line height ends after its start and inside the text |
| `SvgFontNormalize.SpacesFrom` | scripts/svg-font-normalize.js:100 | the `\s*` run stops at a non-blank character or the end |
| `SvgFontNormalize.LineHeightEnd` | scripts/svg-font-normalize.js:100-102 | a line height match ends after the size and inside the text |
| `SvgFontNormalize.FamilyStart` | scripts/svg-font-normalize.js:96-102 | the family starts inside the base value |
| `SvgFontNormalize.ShorthandFamily` | scripts/svg-font-normalize.js:104-108 | the family starts inside the base value and is replaced by a canonical stack |
| `SvgFontNormalize.FirstSizeLeftmost` | scripts/svg-font-normalize.js:93 | the size found is the leftmost: none starts before it, and when none is found none starts anywhere |
| `SvgFontNormalize.ShorthandNeedsSize` | scripts/svg-font-normalize.js:94 | nothing is replaced without a size token |
| `SvgFontNormalize.ShorthandKeepsEnds` | scripts/svg-font-normalize.js:110-111 | a replaced shorthand starts with the text before the family, trimmed at its end, and one space, and ends with a canonical stack and the `!important` suffix, empty when there is none |
| `SvgFontNormalize.RebuildEnds` | scripts/svg-font-normalize.js:110-111 | the rebuilt value has that prefix and ends with the stack and the suffix |
| `SvgFontNormalize.DigitRunOf` | scripts/svg-font-normalize.js:92 | digits up to a non-digit are the digit run |
| `SvgFontNormalize.NumberRunOf` | scripts/svg-font-normalize.js:100 | digits and dots up to anything else are the number run |
| `SvgFontNormalize.UnitLenOf` | scripts/svg-font-normalize.js:92 | a unit written out is recognised with its length |
| `SvgFontNormalize.NoUnitAtSpace` | scripts/svg-font-normalize.js:92 | no unit starts with whitespace |
| `SvgFontNormalize.FirstSizeSkip` | scripts/svg-font-normalize.js:93 | the size search passes over positions where none starts |
| `SvgFontNormalize.UnitStart` | scripts/svg-font-normalize.js:92 | a unit starts with neither a digit nor a dot |
| `SvgFontNormalize.SizeOfParts` | scripts/svg-font-normalize.js:92-96 | digits after a non-word character, with no digit before them, and a unit ending at a boundary are the first size |
| `SvgFontNormalize.SizeAtOf` | scripts/svg-font-normalize.js:92 | the size starting at those digits ends after the unit |
| `SvgFontNormalize.LineHeightOfNumber` | scripts/svg-font-normalize.js:100-102 | `/` and a number after the size are the line height |
| `SvgFontNormalize.LineHeightAfterSlash` | scripts/svg-font-normalize.js:100 | right after `/`, a number is the line height's number |
| `SvgFontNormalize.NumberLineHeightAt` | scripts/svg-font-normalize.js:100 | a number run followed by a boundary is a line height |
| `SvgFontNormalize.SpacesFromExact` | scripts/svg-font-normalize.js:100 | whitespace up to a non-blank character is the `\s*` run |
| `SvgFontNormalize.NoLineHeight` | scripts/svg-font-normalize.js:100-102 | whitespace not followed by `/` is no line height |
| `SvgFontNormalize.UnitLastNotSpace` | scripts/svg-font-normalize.js:92 | a unit does not end in whitespace |
| `SvgFontNormalize.UnitLenSame` | scripts/svg-font-normalize.js:92 | the unit at a position depends only on the characters it covers |
| `SvgFontNormalize.LineHeightOfShape` | scripts/svg-font-normalize.js:99-102 | after the size, the family starts where the line height, if any, ends |
| `SvgFontNormalize.FamilyStartOfShape` | scripts/svg-font-normalize.js:96-102 | in a shorthand laid out by positions the family starts where the layout says |
| `SvgFontNormalize.ShapeTransfer` | scripts/svg-font-normalize.js:92-102 | the layout survives any change after the line height that keeps whitespace before the family |
| `SvgFontNormalize.PrefixAgrees` | scripts/svg-font-normalize.js:110 | two values agreeing up to the family start share that prefix |
| `SvgFontNormalize.ShapeEnds` | scripts/svg-font-normalize.js:96-110 | the family start is whitespace after a non-blank character, after the size |
| `SvgFontNormalize.FamilyRawOf` | scripts/svg-font-normalize.js:104 | whitespace before the family is trimmed away with it |
| `SvgFontNormalize.PrefixKept` | scripts/svg-font-normalize.js:110 | the text before the family start has no trailing whitespace to trim |
| `SvgFontNormalize.DigitNotBlank` | scripts/svg-font-normalize.js:82 | a value holding a digit is not blank |
| `SvgFontNormalize.FamilyOfTrim` | scripts/svg-font-normalize.js:64 | trimming a value does not change its replacement |
| `SvgFontNormalize.ShorthandFamilyOfShape` | scripts/svg-font-normalize.js:96-108 | in a shorthand so laid out the family after the start is what the family replacer sees |
| `SvgFontNormalize.ShorthandOfShape` | scripts/svg-font-normalize.js:80-112 | such a shorthand keeps everything up to the size and line height, gets one space and the replacement stack, and keeps its `!important` suffix; it is left alone when its family is not replaced |
| `SvgFontNormalize.PlainCharsAppend` | scripts/svg-font-normalize.js:111 | plain text followed by plain text is plain |
| `SvgFontNormalize.TrailingRunSuffix` | scripts/svg-font-normalize.js:85 | the trailing whitespace of a text ending in a non-blank-terminated suffix is that suffix's |
| `SvgFontNormalize.IgnoreCaseShift` | scripts/svg-font-normalize.js:85 | a pattern matches at the same place of a suffix and of the whole |
| `SvgFontNormalize.TrailingRunSpaces` | scripts/svg-font-normalize.js:85 | a trailing run covering a suffix makes it all whitespace |
| `SvgFontNormalize.ImportantInSuffix` | scripts/svg-font-normalize.js:85-86 | the `!important` suffix of a value is whitespace, `!important` and trailing whitespace |
| `SvgFontNormalize.ImportantFromSuffix` | scripts/svg-font-normalize.js:85-87 | the suffix keeps its place after any text ending in a non-blank, `!`-free character |
| `SvgFontNormalize.ImportantShift` | scripts/svg-font-normalize.js:85-87 | the suffix is found after the rebuilt text as before |
| `SvgFontNormalize.NoImportantAfterStack` | scripts/svg-font-normalize.js:85 | a text ending with a plain stack carries no `!important` |
| `SvgFontNormalize.RebuiltBase` | scripts/svg-font-normalize.js:87-111 | the base value of a rebuilt shorthand is its text without the suffix |
| `SvgFontNormalize.RebuiltShape` | scripts/svg-font-normalize.js:110-111 | a rebuilt shorthand is laid out as the original, with the stack as its family |
| `SvgFontNormalize.RebuiltKeepsShape` | scripts/svg-font-normalize.js:110-111 | the layout is kept with any plain stack written after the prefix |
| `SvgFontNormalize.ShorthandFixpoint` | scripts/svg-font-normalize.js:80-112 | a shorthand laid out by positions whose family was replaced by a plain stack is left alone by a second pass |
| `SvgFontNormalize.PercentSize` | scripts/svg-font-normalize.js:92 | digits and `%` followed by a non-word character or the end: as written the size pattern never matches there, while the corrected reading takes the percentage |
| `SvgFontNormalize.PercentShorthandAsWritten` | scripts/svg-font-normalize.js:80-112 | as written, a shorthand whose only size is a percentage followed by a non-word character is never rewritten |
| `SvgFontNormalize.MaybeReplaceFontShorthand` | scripts/svg-font-normalize.js:80-112 | `maybeReplaceFontShorthand`; characterised by `ShorthandKeepsEnds`, `ShorthandNeedsSize`, `ShorthandFixpoint` and `PercentShorthandAsWritten` |
| `SvgFontNormalize.ScriptStacksPlain` | scripts/svg-font-normalize.js:15-17 | the script's two stacks are plain: at least ten characters, non-blank at both ends, not starting with `/`, and free of `!`, `"`, `;`, `{` and `}` |
| `SvgFontRewrite.ValueRun` | scripts/svg-font-normalize.js:118 | the run of `[^;}{]` characters stops at the end or at one of `;{}` |
| `SvgFontRewrite.SpacesBefore` | scripts/svg-font-normalize.js:118 | the whitespace counted back from the value's end stops at a non-blank character and, when the value starts non-blank, leaves it non-empty |
| `SvgFontRewrite.DeclarationAt` | scripts/svg-font-normalize.js:118-119 | a declaration match has a non-empty value after the name and ends inside the text |
| `SvgFontRewrite.CloseQuote` | scripts/svg-font-normalize.js:125-128 | the closing quote found is a quote character followed by what the lookahead accepts |
| `SvgFontRewrite.AttributeAt` | scripts/svg-font-normalize.js:125-128 | an attribute match has its value after `name=` and the opening quote, and ends one past the closing quote |
| `SvgFontRewrite.MatchAt` | scripts/svg-font-normalize.js:118-128 | every one of the four patterns matches forward of its start, so the global replacement always advances |
| `SvgFontRewrite.ReplaceCounting` | scripts/svg-font-normalize.js:130-161 | one global `replace` with a callback gives the replaced text, adds the number of replaced matches to `changes`, and sets `changed` exactly when something was replaced |
| `SvgFontRewrite.Step` | scripts/svg-font-normalize.js:130-136 | one step of the scan copies one character, hands a match back unchanged, or emits its replacement and counts it |
| `SvgFontRewrite.RewriteSvgFonts` | scripts/svg-font-normalize.js:114-164 | the four replacements in order give the text and the total count of replaced declarations and attributes, and `changed` is true exactly when that count is positive |
| `SvgFontRewrite.SpacesFromCovers` | scripts/svg-font-normalize.js:118 | a `\s*` run reaches every position up to which the text is whitespace |
| `SvgFontRewrite.SpacesFromAll` | scripts/svg-font-normalize.js:118 | every character of a `\s*` run is whitespace |
| `SvgFontRewrite.ValueRunExact` | scripts/svg-font-normalize.js:118 | value characters up to one of `;{}` make a run of exactly that length |
| `SvgFontRewrite.ValueRunAll` | scripts/svg-font-normalize.js:118 | every character of the value run is one of `[^;}{]` |
| `SvgFontRewrite.SpacesBeforeAll` | scripts/svg-font-normalize.js:118 | the trailing whitespace counted back is whitespace |
| `SvgFontRewrite.SpacesBeforeCovers` | scripts/svg-font-normalize.js:118 | the trailing whitespace counted back reaches past any non-blank position |
| `SvgFontRewrite.DeclarationScan` | scripts/svg-font-normalize.js:118-119 | on a laid-out declaration the scan finds its colon and the first of `;{}` after it |
| `SvgFontRewrite.ValueScanInside` | scripts/svg-font-normalize.js:118 | when the whitespace after the colon stops inside the value, the value run reaches the terminator |
| `SvgFontRewrite.ValueScanAfter` | scripts/svg-font-normalize.js:118 | when the whitespace after the colon reaches the value's end, it runs on to the terminator |
| `SvgFontRewrite.DeclarationSound` | scripts/svg-font-normalize.js:118-119 | every match found is a match of `(name\s*:\s*)([^;}{]+?)(\s*;)`, ending after the `;` |
| `SvgFontRewrite.SoundValue` | scripts/svg-font-normalize.js:118 | a value with its trailing whitespace cut off is a regex match |
| `SvgFontRewrite.SoundBlank` | scripts/svg-font-normalize.js:118 | an all-blank value captures the last blank as the value, as the backtracking regex does |
| `SvgFontRewrite.ScanRuns` | scripts/svg-font-normalize.js:118 | the three runs of the scan are whitespace, whitespace and value characters |
| `SvgFontRewrite.DeclarationPreferred` | scripts/svg-font-normalize.js:118-119 | whenever the regex can match, the match found is its preferred one: the most whitespace after the colon, then the shortest value |
| `SvgFontRewrite.CloseQuoteFirst` | scripts/svg-font-normalize.js:126 | the lazy `[\s\S]*?` stops at the first quote the lookahead accepts |
| `SvgFontRewrite.AttributeSound` | scripts/svg-font-normalize.js:125-128 | every attribute match found is a match of the regex, ending one past its closing quote |
| `SvgFontRewrite.AttributePreferred` | scripts/svg-font-normalize.js:125-128 | whenever the attribute regex can match, the match found starts its value after the quote and closes no later |
| `SvgFontRewrite.AttributeFound` | scripts/svg-font-normalize.js:125-128 | a laid-out `font-family="…"` followed by what the lookahead accepts is matched |
| `SvgFontRewrite.AttributeScan` | scripts/svg-font-normalize.js:126 | the scan of an attribute finds its `=` and the opening quote |
| `SvgFontRewrite.DeclarationOfShape` | scripts/svg-font-normalize.js:118-119 | a declaration whose value has no blank at either end captures exactly that value |
| `SvgFontRewrite.SpacesBeforeExact` | scripts/svg-font-normalize.js:118 | whitespace counted back from the end stops exactly at the last non-blank character |
| `SvgFontRewrite.UnterminatedAsWritten` | scripts/svg-font-normalize.js:118-119 | as written, a declaration closed by `}` without `;` is not matched |
| `SvgFontRewrite.UnterminatedCorrected` | scripts/svg-font-normalize.js:118-119 | the corrected regex matches such a declaration and leaves the brace in place |
| `SvgFontRewrite.UnterminatedFamilyAsWritten` | scripts/svg-font-normalize.js:130-136 | as written, the family pass copies such a declaration's first character and leaves the value alone |
| `SvgFontRewrite.UnterminatedFamilyCorrected` | scripts/svg-font-normalize.js:130-136 | corrected, the family pass replaces such a value in place, keeps the brace and counts one change |
| `SvgFontRewrite.ReplaceNoMatch` | scripts/svg-font-normalize.js:130 | where the regex does not match, `replace` copies one character and goes on |
| `SvgFontRewrite.ReplaceReplaced` | scripts/svg-font-normalize.js:130-136 | a match the callback replaces is emitted as the replacement, counted once, and the search goes on after the match |
| `SvgFontRewrite.ReplaceUnchanged` | scripts/svg-font-normalize.js:130-136 | a pass that replaced nothing returns its text unchanged |
| `SvgFontRewrite.RewriteUnchanged` | scripts/svg-font-normalize.js:114-164 | when `changes` is 0 the text returned is the SVG given, so nothing needs writing back |
| `SvgFontRewrite.IgnoreCaseMoved` | scripts/svg-font-normalize.js:118-128 | a case-insensitive name matches wherever the same characters stand |
| `SvgFontRewrite.AttrPrefixMoved` | scripts/svg-font-normalize.js:126 | a copied `font-family\s*=\s*` prefix is a prefix again where it is copied |
| `SvgFontRewrite.CloseQuoteSkips` | scripts/svg-font-normalize.js:126 | the search for the closing quote passes over characters that are not the quote |
| `SvgFontRewrite.AttrEditText` | scripts/svg-font-normalize.js:147-161 | a rewritten attribute is its original prefix and the replacement stack, double-quoted |
| `SvgFontRewrite.AttrRewriteStable` | scripts/svg-font-normalize.js:147-161 | a rewritten attribute, wherever it stands later, is matched again by the double-quoted pattern and left as it is |
| `SvgFontRewrite.AttrRewriteMatch` | scripts/svg-font-normalize.js:125-126 | a rewritten attribute with a quote-free value is matched by the double-quoted pattern, capturing exactly that value |
| `SvgFontRewrite.QuotedCopy` | scripts/svg-font-normalize.js:153 | the characters of `prefix"stack"` where it is copied |
| `SvgFontRewrite.AttrStableAt` | scripts/svg-font-normalize.js:125-126 | a quote-free stack between double quotes after an attribute prefix is matched with exactly that stack captured |
| `SvgFontRewrite.Rewrite` | scripts/svg-font-normalize.js:114-163 | the four global replacements in order with the total count; characterised by `RewriteSvgFonts` and `RewriteUnchanged` |
| `SvgFontExtract.CssRun` | scripts/svg-font-inventory.js:21 | the run of `[^;}{\n]` characters stops at the end or at one of `;{}` or a line feed |
| `SvgFontExtract.CssEnd` | scripts/svg-font-inventory.js:21 | the end of that run, at the end of the text or before a character outside `[^;}{\n]` |
| `SvgFontExtract.SkipSpaces` | scripts/svg-font-inventory.js:21 | the greedy `\s*` stops at the end or at a non-blank character |
| `SvgFontExtract.LastNonNewline` | scripts/svg-font-inventory.js:21 | the last position of a range without a line feed, and only line feeds after it; none exactly when the range is all line feeds |
| `SvgFontExtract.CssAt` | scripts/svg-font-inventory.js:21 | a declaration match has a non-empty capture after the name and ends after it, inside the text |
| `SvgFontExtract.CssAfterName` | scripts/svg-font-inventory.js:21 | after the name, `\s*:` and a value give a non-empty capture ending inside the text |
| `SvgFontExtract.CssValue` | scripts/svg-font-inventory.js:21 | a value match starts at or after the colon, is non-empty and ends before the end of the match |
| `SvgFontExtract.CssBlank` | scripts/svg-font-inventory.js:21 | when `;` follows the colon's whitespace, backtracking captures one character of that whitespace and the match ends after the `;` |
| `SvgFontExtract.CssTail` | scripts/svg-font-inventory.js:21 | after the capture, `\s*;` ends the match after the semicolon |
| `SvgFontExtract.QuoteFreeRun` | scripts/svg-font-inventory.js:28 | the run of `[^"']` characters stops at the end or at a quote |
| `SvgFontExtract.QuoteFreeEnd` | scripts/svg-font-inventory.js:28 | the end of the quote-free run, at the end of the text or at a quote |
| `SvgFontExtract.AttrAt` | scripts/svg-font-inventory.js:28 | an attribute match has a non-empty capture after the name and ends after a closing quote inside the text |
| `SvgFontExtract.AttrAfterName` | scripts/svg-font-inventory.js:28 | after the name, `\s*=` and a quoted value give a non-empty capture |
| `SvgFontExtract.AttrValue` | scripts/svg-font-inventory.js:28 | a quote, a non-empty quote-free run and a quote of either kind |
| `SvgFontExtract.FirstMatch` | scripts/svg-font-inventory.js:23 | `exec` with `lastIndex` at `p` finds the leftmost position from `p` at which the expression matches, and none exactly when there is none |
| `SvgFontExtract.Exec` | scripts/svg-font-inventory.js:23 | one `exec` call returns the leftmost match from `lastIndex` |
| `SvgFontExtract.Collect` | scripts/svg-font-inventory.js:22-25 | the `exec` loop pushes the capture of every successive match, each search starting where the last match ended |
| `SvgFontExtract.ExtractFontFamilies` | scripts/svg-font-inventory.js:16-34 | the result is every CSS capture in text order, then every attribute capture in text order |
| `SvgFontExtract.BlankAt` | scripts/svg-font-inventory.js:21 | each character of a blank stretch is whitespace |
| `SvgFontExtract.CssSpanAt` | scripts/svg-font-inventory.js:21 | each character of a value span is one of `[^;}{\n]` |
| `SvgFontExtract.QuoteFreeAt` | scripts/svg-font-inventory.js:28 | each character of a quote-free span is not a quote |
| `SvgFontExtract.BlankRun` | scripts/svg-font-inventory.js:21 | `\s*` over a blank stretch ending at a non-blank character stops exactly there |
| `SvgFontExtract.RunBlank` | scripts/svg-font-inventory.js:21 | what `\s*` passes over is blank |
| `SvgFontExtract.CssSpanRun` | scripts/svg-font-inventory.js:21 | a value span ending at one of `;{}` or a line feed is exactly the run |
| `SvgFontExtract.RunCssSpan` | scripts/svg-font-inventory.js:21 | what the value run passes over is a value span |
| `SvgFontExtract.QuoteFreeRunExact` | scripts/svg-font-inventory.js:28 | a quote-free span ending at a quote is exactly the quote-free run |
| `SvgFontExtract.RunQuoteFree` | scripts/svg-font-inventory.js:28 | what the quote-free run passes over holds no quote |
| `SvgFontExtract.CssShapeMatch` | scripts/svg-font-inventory.js:21 | `font-family`, `\s*:\s*`, a value starting non-blank and running to one of `;{}` or a line feed, then `\s*;`, is matched with exactly that value captured |
| `SvgFontExtract.CssAtValue` | scripts/svg-font-inventory.js:21 | every declaration match is the name, `\s*:`, and a value match after the colon |
| `SvgFontExtract.CssValueRun` | scripts/svg-font-inventory.js:21 | a value match starting at a value character captures the whole greedy run and ends after `\s*;` |
| `SvgFontExtract.CssValueBlank` | scripts/svg-font-inventory.js:21 | any other value match captures one whitespace character before a `;` |
| `SvgFontExtract.CssValueCases` | scripts/svg-font-inventory.js:21 | a value match is one of the two cases, and its match always ends in `;` |
| `SvgFontExtract.CssMatchShape` | scripts/svg-font-inventory.js:21 | a match whose capture starts non-blank is a declaration of that shape |
| `SvgFontExtract.CssBlankCapture` | scripts/svg-font-inventory.js:21 | a match whose capture starts blank captured one whitespace character, whose normal form is empty |
| `SvgFontExtract.BlankNormal` | scripts/svg-font-inventory.js:9-14 | one whitespace character normalises to the empty string |
| `SvgFontExtract.CssCaptureChars` | scripts/svg-font-inventory.js:21 | every character of a CSS capture is one of `[^;}{\n]` |
| `SvgFontExtract.AttrShapeMatch` | scripts/svg-font-inventory.js:28 | `font-family`, `\s*=\s*`, a quote, a non-empty quote-free text and a quote is matched with that text captured |
| `SvgFontExtract.AttrMatchShape` | scripts/svg-font-inventory.js:28 | every attribute match is of that shape |
| `SvgFontExtract.AttrCaptureChars` | scripts/svg-font-inventory.js:28 | no attribute capture holds a quote |
| `SvgFontExtract.CaptureSource` | scripts/svg-font-inventory.js:22-31 | every collected capture is the capture of a match inside the text |
| `SvgFontExtract.CssCaptureClean` | scripts/svg-font-inventory.js:21-25 | every collected CSS capture is a non-empty run of `[^;}{\n]` |
| `SvgFontExtract.AttrCaptureClean` | scripts/svg-font-inventory.js:28-31 | every collected attribute capture is non-empty and holds no quote |
| `SvgFontInventory.EffectiveLimit` | scripts/svg-font-inventory.js:63 | `Math.max(1, Number(limit) or 5)`: at least 1; a positive number is kept, a missing, non-numeric or zero option gives 5, a negative one gives 1 |
| `SvgFontInventory.Kept` | scripts/svg-font-inventory.js:93-95 | the values that are counted are normalised captures that are not empty, no more than there are captures |
| `SvgFontInventory.Sample` | scripts/svg-font-inventory.js:108 | `files.slice(0, limit)`: a prefix of the files of at most `limit` entries, the whole list when it is no longer |
| `SvgFontInventory.CountFonts` | scripts/svg-font-inventory.js:93-101 | the inner loop records each non-empty normalised value of one file in `fontMap` and counts it in `totalMatches` |
| `SvgFontInventory.CountStep` | scripts/svg-font-inventory.js:94-100 | an empty normalised value is skipped; any other is counted once and recorded |
| `SvgFontInventory.UsesStep` | scripts/svg-font-inventory.js:79-101 | the counted matches of one more file follow those of the files before it |
| `SvgFontInventory.InventoryStep` | scripts/svg-font-inventory.js:79-101 | one more file adds its matches to the counter and the map, and an unreadable file one read error |
| `SvgFontInventory.Inventory` | scripts/svg-font-inventory.js:63-119 | the file loop, the items and their sort give the report that `ReportOf` defines |
| `SvgFontInventory.TallyOntoAppend` | scripts/svg-font-inventory.js:93-100 | recording two runs of matches in turn is recording their concatenation |
| `SvgFontInventory.TallyKeys` | scripts/svg-font-inventory.js:97-100 | the map's keys are distinct, are exactly its entries, and are exactly the values counted |
| `SvgFontInventory.TallyCounts` | scripts/svg-font-inventory.js:97-98 | each entry's `occurrences` is the number of matches of its value, and a value without entry has none |
| `SvgFontInventory.TallyFiles` | scripts/svg-font-inventory.js:99 | each entry's file set holds each file once and is exactly the files with a match of its value |
| `SvgFontInventory.KeySumFresh` | scripts/svg-font-inventory.js:97-100 | writing an entry under a new key leaves the sum over the old keys |
| `SvgFontInventory.KeySumBump` | scripts/svg-font-inventory.js:97-100 | replacing an entry changes the sum over the keys by the change in its count |
| `SvgFontInventory.TallyTotal` | scripts/svg-font-inventory.js:96-100 | the entries' `occurrences` add up to `totalMatches` |
| `SvgFontInventory.LexTotal` | scripts/svg-font-inventory.js:111 | any two values are ordered one way or the other |
| `SvgFontInventory.LexTrans` | scripts/svg-font-inventory.js:111 | the value order is transitive |
| `SvgFontInventory.LexAntisymmetric` | scripts/svg-font-inventory.js:111 | values ordered both ways are equal |
| `SvgFontInventory.PrecedesTotal` | scripts/svg-font-inventory.js:111 | the comparator orders any two items |
| `SvgFontInventory.PrecedesTrans` | scripts/svg-font-inventory.js:111 | the comparator's order is transitive |
| `SvgFontInventory.PrecedesBoth` | scripts/svg-font-inventory.js:111 | items ordered both ways agree on occurrences, file count and value |
| `SvgFontInventory.InsertPerm` | scripts/svg-font-inventory.js:111 | inserting an item adds exactly that item |
| `SvgFontInventory.InsertSorted` | scripts/svg-font-inventory.js:111 | inserting into a sorted list keeps it sorted |
| `SvgFontInventory.SortPerm` | scripts/svg-font-inventory.js:111 | the sort only reorders the items |
| `SvgFontInventory.SortSorted` | scripts/svg-font-inventory.js:111 | the sort puts more occurrences first, then more files, then values in order |
| `SvgFontInventory.InsertSum` | scripts/svg-font-inventory.js:111 | inserting an item adds its occurrences to the sum |
| `SvgFontInventory.SortSum` | scripts/svg-font-inventory.js:111 | the sort keeps the sum of occurrences |
| `SvgFontInventory.ItemsSum` | scripts/svg-font-inventory.js:103-110 | the items' occurrences add up to the entries' counts |
| `SvgFontInventory.SumSnoc` | scripts/svg-font-inventory.js:103-110 | one more item adds its occurrences to the sum |
| `SvgFontInventory.DistinctCard` | scripts/svg-font-inventory.js:107 | a list of distinct files has as many elements as its set, so `files.size` is its length |
| `SvgFontInventory.ReportTotal` | scripts/svg-font-inventory.js:113-119 | `totalFontFamilyMatches` is the sum of the items' occurrences |
| `SvgFontInventory.ReportUnique` | scripts/svg-font-inventory.js:118 | `uniqueFontFamilyValues` is the number of distinct counted values |
| `SvgFontInventory.ReportSorted` | scripts/svg-font-inventory.js:103-111 | the reported items are a sorted permutation of the map's items |
| `SvgFontInventory.KeptInUses` | scripts/svg-font-inventory.js:94-95 | no counted value is empty |
| `SvgFontInventory.FlatMapMember` | scripts/svg-font-inventory.js:79-101 | every counted match has a non-empty value |
| `SvgFontInventory.ItemOfKey` | scripts/svg-font-inventory.js:103-110 | each item, before sorting, states its value's matches, its distinct files and at most `limit` of them |
| `SvgFontInventory.ReportItems` | scripts/svg-font-inventory.js:103-119 | every reported item tells the truth about its value, and every counted value has an item |
| `SvgFontInventory.ReportOf` | scripts/svg-font-inventory.js:103-119 | the JSON report of a run; characterised by `Inventory`, `ReportTotal`, `ReportUnique`, `ReportSorted` and `ReportItems` |
| `UnicodeChecking.HexDigit` | src/UnicodeChecker.js:17 | a digit below 16 is spelled with one of `[0-9A-F]`, as `toString(16).toUpperCase()` spells it |
| `UnicodeChecking.HexDigitValue` | src/UnicodeChecker.js:17 | the value of a hexadecimal digit, which spells that digit again |
| `UnicodeChecking.HexNat` | src/UnicodeChecker.js:17 | `n.toString(16).toUpperCase()` is at least one uppercase hexadecimal digit |
| `UnicodeChecking.Pow16` | src/UnicodeChecker.js:17 | powers of 16 are positive |
| `UnicodeChecking.HexNatValue` | src/UnicodeChecker.js:17 | the digits read back as the number |
| `UnicodeChecking.HexNatLength` | src/UnicodeChecker.js:17 | a number below 16^k takes at most k digits |
| `UnicodeChecking.LeadingZerosValue` | src/UnicodeChecker.js:17 | `padStart(4, '0')` keeps the value of the digits |
| `UnicodeChecking.ToCodepoint` | src/UnicodeChecker.js:32-34 | `toCodepoint` starts with `U+` and pads its digits to at least four |
| `UnicodeChecking.CodepointDigits` | src/UnicodeChecker.js:32-34 | the digits after `U+` are hexadecimal and read back as the codepoint |
| `UnicodeChecking.CodepointWidth` | src/UnicodeChecker.js:32-34 | a Unicode codepoint takes at most six digits |
| `UnicodeChecking.ToCodepointInjective` | src/UnicodeChecker.js:32-34 | distinct codepoints have distinct spellings |
| `UnicodeChecking.SpellsUnprefixed` | src/UnicodeChecker.js:27 | the pattern has exactly one way to match: its group is the text without the `U+` or `0X` prefix |
| `UnicodeChecking.MatchDigits` | src/UnicodeChecker.js:27-28 | the group is found exactly when the pattern of an optional `U+` or `0X` prefix and four to six hex digits matches the whole text, and it is the matched digits |
| `UnicodeChecking.NormalizeCodepoint` | src/UnicodeChecker.js:13-30 | a finite number is spelled as `toCodepoint` does; a string is trimmed, upper-cased and accepted exactly when it matches the pattern, giving `U+` and its digits; `null`, `undefined`, non-finite numbers and other values give nothing |
| `UnicodeChecking.SpellingAccepted` | src/UnicodeChecker.js:25-29 | `U+00A0`, `00A0` and `0X00A0` (any four to six digits) are all accepted and normalised to the `U+` form |
| `UnicodeChecking.UpperHexFixed` | src/UnicodeChecker.js:22-26 | a spelling made of digits, `U`, `+` and `X` is unchanged by `trim` and `toUpperCase` |
| `UnicodeChecking.UpperFixed` | src/UnicodeChecker.js:26 | text without lowercase ASCII letters is its own upper case |
| `UnicodeChecking.NormalizeIdempotent` | src/UnicodeChecker.js:13-30 | normalising a normalised codepoint gives it back |
| `UnicodeChecking.ToCodepointNormal` | src/UnicodeChecker.js:13-34 | what `toCodepoint` reports is already in normal form, so allowlist entries written that way match it |
| `UnicodeChecking.NormalizeIgnoresLeadingSpace` | src/UnicodeChecker.js:22 | leading whitespace does not change the result |
| `UnicodeChecking.ClassifySeverities` | src/UnicodeChecker.js:65-168 | errors are exactly U+FFFD, the C0 controls other than tab, LF and CR, DEL, the C1 controls and the error entries of the invisible table; warnings exactly the warning entries, U+E0100..U+E01EF, the CJK compatibility ranges, the fullwidth digits and letters and U+2212; every other codepoint is not reported |
| `UnicodeChecking.ClassifyKinds` | src/UnicodeChecker.js:65-168 | outside the invisible table a report is an error exactly when it is a replacement, null or control character; inside it the severity and message are the table's |
| `UnicodeChecking.Classify` | src/UnicodeChecker.js:65-168 | `classifyCodepoint`, rule by rule; characterised by `ClassifySeverities`, `ClassifyKinds` and `NotClassified` |
| `UnicodeChecking.NotClassified` | src/UnicodeChecker.js:84-128 | tab, LF, CR and the emoji selectors U+FE00..U+FE0F are never reported |
| `UnicodeChecking.FileKey` | src/UnicodeChecker.js:58 | a normalised file key holds no backslash |
| `UnicodeChecking.NormalizeAllowlist` | src/UnicodeChecker.js:36-63 | the loops give the global set of normalised entries and one set per file key, non-objects and non-arrays giving empty parts |
| `UnicodeChecking.NormalizeEntries` | src/UnicodeChecker.js:53-57 | the inner loop collects exactly the entries that normalise |
| `UnicodeChecking.NormalizedSetStep` | src/UnicodeChecker.js:54-57 | one more entry adds its normal form when it has one |
| `UnicodeChecking.FilesOfKeys` | src/UnicodeChecker.js:51-60 | the per-file table has distinct keys, none with a backslash |
| `UnicodeChecking.FilesOfLast` | src/UnicodeChecker.js:51-60 | a key holds the set of the last array entry whose file name normalises to it |
| `UnicodeChecking.FilesOfAbsent` | src/UnicodeChecker.js:51-60 | a key that no array entry normalises to is absent |
| `UnicodeChecking.GlobalAllowed` | src/UnicodeChecker.js:184 | a global entry is allowed in every file |
| `UnicodeChecking.FileEntryAllowed` | src/UnicodeChecker.js:185-189 | a file entry is allowed in the file it names, whichever slashes either name uses, unless a later entry replaces it |
| `UnicodeChecking.OtherFileGlobalOnly` | src/UnicodeChecker.js:182-190 | a file no entry names is allowed exactly the global codepoints |
| `UnicodeChecking.SecondLookupRedundant` | src/UnicodeChecker.js:187 | the fallback lookup under the unnormalised key never finds anything the first lookup missed |
| `UnicodeChecking.LineOf` | src/UnicodeChecker.js:200-222 | lines are counted from 1 |
| `UnicodeChecking.ColumnOf` | src/UnicodeChecker.js:201-240 | columns are counted from 1 |
| `UnicodeChecking.ScanStep` | src/UnicodeChecker.js:203-242 | the issues of one more character follow those of the text before it |
| `UnicodeChecking.ScanSnoc` | src/UnicodeChecker.js:203-242 | one more character appends its own issues |
| `UnicodeChecking.ScanPrefix` | src/UnicodeChecker.js:203-242 | the issues of a prefix come first among the issues of the text |
| `UnicodeChecking.IssuesStep` | src/UnicodeChecker.js:203-242 | one more character appends the issue at its own line and column |
| `UnicodeChecking.LineFeedBreaks` | src/UnicodeChecker.js:210-215 | an LF not completing a CRLF moves to the next line, column 1 |
| `UnicodeChecking.CarriageReturnBreaks` | src/UnicodeChecker.js:216-222 | CR, and CRLF as a whole, move to the next line, column 1 |
| `UnicodeChecking.OtherCharAdvances` | src/UnicodeChecker.js:240-241 | any other character advances the column by one, whatever its UTF-16 length |
| `UnicodeChecking.IssuesSound` | src/UnicodeChecker.js:224-237 | every issue is a classified, non-newline character that is not allowed, with its `toCodepoint` spelling and its classification |
| `UnicodeChecking.IssuesComplete` | src/UnicodeChecker.js:224-237 | every classified, non-newline, not allowed character is reported at its line and column |
| `UnicodeChecking.WithoutAllowed` | src/UnicodeChecker.js:227 | dropping allowed issues never adds any |
| `UnicodeChecking.IssueForAllowlist` | src/UnicodeChecker.js:224-237 | for one character the allowlist only removes the issue, of which there is at most one |
| `UnicodeChecking.IssueAtAllowlist` | src/UnicodeChecker.js:224-237 | the same at a given line and column |
| `UnicodeChecking.WithoutAllowedOne` | src/UnicodeChecker.js:227 | one issue is kept exactly when its codepoint is not allowed |
| `UnicodeChecking.WithoutAllowedAppend` | src/UnicodeChecker.js:227 | dropping allowed issues distributes over concatenation |
| `UnicodeChecking.AllowlistFilters` | src/UnicodeChecker.js:197-245 | the issues with an allowlist are those without it, minus the allowed ones |
| `UnicodeChecking.GlobalSilences` | src/UnicodeChecker.js:182-190 | a codepoint in the global list is reported in no file |
| `UnicodeChecking.NothingAllowed` | src/UnicodeChecker.js:182-190 | with no allowlist nothing is allowed |
| `UnicodeChecking.IsAllowed` | src/UnicodeChecker.js:182-190 | `isAllowed`; characterised by `GlobalAllowed`, `FileEntryAllowed`, `OtherFileGlobalOnly` and `NothingAllowed` |
| `UnicodeChecking.UnclassifiedSilent` | src/UnicodeChecker.js:210-225 | a newline or unclassified character gives no issue |
| `UnicodeChecking.AllowedSilent` | src/UnicodeChecker.js:227 | an allowed character gives no issue |
| `UnicodeChecking.ClassifiedIssue` | src/UnicodeChecker.js:224-237 | a classified, not allowed character gives its issue at the line and column where it starts |
| `UnicodeChecking.ClassifiedReported` | src/UnicodeChecker.js:224-237 | without an allowlist a classified character gives its issue |
| `UnicodeChecking.ScanThree` | src/UnicodeChecker.js:203-242 | a three-character text's issues, character by character |
| `UnicodeChecking.ScanFour` | src/UnicodeChecker.js:203-242 | a four-character text's issues, character by character |
| `UnicodeChecking.IssuesThree` | src/UnicodeChecker.js:203-242 | the issues of a three-character text |
| `UnicodeChecking.IssuesFour` | src/UnicodeChecker.js:203-242 | the issues of a four-character text |
| `UnicodeChecking.ClassifiedBetween` | src/UnicodeChecker.js:203-242 | `a\u{FFFD}b` gives one issue, on line 1, column 2 |
| `UnicodeChecking.UnclassifiedBetween` | src/UnicodeChecker.js:125-128 | `a\u{FE0F}b` gives no issue |
| `UnicodeChecking.ClassifiedAfterCrLf` | src/UnicodeChecker.js:216-222 | after a character and a CRLF, a classified character is reported on line 2, column 1 |
| `UnicodeChecking.UnicodeChecker.constructor` | src/UnicodeChecker.js:174-176 | the checker holds the normalised allowlist |
| `UnicodeChecking.UnicodeChecker.ScanText` | src/UnicodeChecker.js:197-245 | the loop returns exactly the issues of the text, in order, with their lines and columns |
| `UnicodeChecking.UnicodeChecker.CharIssue` | src/UnicodeChecker.js:224-238 | the classification and allowlist test give the issue of one character at the current line and column |
| `UnicodeChecking.NewlineSilent` | src/UnicodeChecker.js:210-222 | a newline character gives no issue |
| `UnicodeChecking.LineFeedStep` | src/UnicodeChecker.js:210-215 | the LF branch moves to the next line and column 1 and reports nothing |
| `UnicodeChecking.CarriageReturnStep` | src/UnicodeChecker.js:216-219 | the CR branch moves to the next line and column 1 and reports nothing |
| `UnicodeChecking.CrLfStep` | src/UnicodeChecker.js:220 | the LF of a CRLF is skipped: it changes neither line, column, nor issues |
| `UnicodeChecking.CarriageReturnEnds` | src/UnicodeChecker.js:216-221 | the CR branch, with its CRLF check, leaves the loop on the next line at column 1 |
| `UnicodeChecking.FlaggerAt` | src/UnicodeChecker.js:206-207 | the issue of a character is computed at the line and column where it starts |
| `UnicodeChecking.OrdinaryStep` | src/UnicodeChecker.js:224-241 | any other character appends its issue and advances the column by one |
| `CheckUnicode.FirstExistingFrom` | scripts/check-unicode.js:33-36 | the index of the first existing candidate from `from` on, or the number of candidates when none exists |
| `CheckUnicode.FirstExisting` | scripts/check-unicode.js:33-36 | nothing exactly when no candidate exists, otherwise a candidate that exists with none existing before it |
| `CheckUnicode.FindDefaultAllowlist` | scripts/check-unicode.js:28-37 | `findDefaultAllowlist` returns the first existing of its two candidates |
| `CheckUnicode.FirstExistingOf` | scripts/check-unicode.js:33-36 | the loop returns the first candidate that exists |
| `CheckUnicode.FirstExistingAt` | scripts/check-unicode.js:33-36 | an existing candidate after only missing ones is the one returned |
| `CheckUnicode.DefaultAllowlistOrder` | scripts/check-unicode.js:29-32 | `.book-formatter/unicode-allowlist.json` wins over `unicode-allowlist.json`, which is used only when the first is missing |
| `CheckUnicode.FirstOfTwo` | scripts/check-unicode.js:33-36 | of two candidates, the first if it exists, else the second if it exists, else none |
| `CheckUnicode.LoadAllowlist` | scripts/check-unicode.js:16-26 | an allowlist is loaded only from a given path that exists, reads and parses; otherwise `null` |
| `CheckUnicode.FailedLoadAllowsNothing` | scripts/check-unicode.js:16-26 | a missing path or file, a read error or a parse error gives an empty allowlist, so nothing is allowed |
| `CheckUnicode.Tag` | scripts/check-unicode.js:100-105 | each issue of the file, in order, with the file added |
| `CheckUnicode.AfterFileEffect` | scripts/check-unicode.js:79-106 | an unreadable file adds its read error and no issue; a readable one adds no read error and appends exactly its scan's issues |
| `CheckUnicode.AfterFilesStep` | scripts/check-unicode.js:72-74 | the loop scans one file after the other |
| `CheckUnicode.AfterFileValid` | scripts/check-unicode.js:96-105 | a file not scanned before keeps `issues` equal to the per-file lists flattened, with distinct, non-empty entries |
| `CheckUnicode.FileNames` | scripts/check-unicode.js:80-82 | one file name per file, in order |
| `CheckUnicode.AfterFileKeys` | scripts/check-unicode.js:99 | a scan sets at most the entry of its own file |
| `CheckUnicode.AfterFilesKeys` | scripts/check-unicode.js:72-99 | every file with an entry is one of the files scanned |
| `CheckUnicode.AfterFilesValid` | scripts/check-unicode.js:72-105 | scanning files with distinct names from the start keeps the lists consistent |
| `CheckUnicode.FlattenLength` | scripts/check-unicode.js:99-105 | the flat list holds as many issues as the per-file lists together |
| `CheckUnicode.CountSeverity` | scripts/check-unicode.js:111-112 | a severity count is at most the number of issues |
| `CheckUnicode.SeveritiesPartition` | scripts/check-unicode.js:111-112 | every issue is an error or a warning, so the counts add up to the total |
| `CheckUnicode.ReportOf` | scripts/check-unicode.js:108-126 | errors and warnings add up to `totalIssues`, which is the number of issues; `filesWithIssues` is the number of entries; `fileReadErrors` the number of read errors; the lists are the runner's |
| `CheckUnicode.ReportCounts` | scripts/check-unicode.js:109-110 | in a consistent run the total matches the per-file lists, and there are no more files with issues than issues |
| `CheckUnicode.NonEmptyTotal` | scripts/check-unicode.js:97-99 | entries with non-empty lists hold at least one issue each |
| `CheckUnicode.PushTagged` | scripts/check-unicode.js:100-105 | the push loop appends the file's issues, each with its file |
| `CheckUnicode.UnicodeQualityRunner.constructor` | scripts/check-unicode.js:40-45 | a new runner has no issues, no entries and no read errors |
| `CheckUnicode.UnicodeQualityRunner.ScanFile` | scripts/check-unicode.js:79-106 | `scanFile` changes the lists as `AfterFile` says |
| `CheckUnicode.UnicodeQualityRunner.ScanDirectory` | scripts/check-unicode.js:47-77 | the allowlist is the given path or the first default one, loaded; every file is scanned in order; the report is that of the final state |
| `CheckUnicode.FormatIssueChar` | scripts/check-unicode.js:137-161 | `<null>` for a missing character; otherwise the character as is exactly when it is not blank, not a named codepoint and not a control, and a `<…>` token in every other case |
| `CheckUnicode.ControlShownByCodepoint` | scripts/check-unicode.js:155-158 | a reported control character is shown as `<U+XXXX>` |
| `CheckUnicode.NamedAbove` | scripts/check-unicode.js:147-153 | each named codepoint is at least U+00A0, above every control |
| `CheckUnicode.FourDigits` | scripts/check-unicode.js:147-153 | the value of four hexadecimal digits |
| `CheckUnicode.ReportedControlsShown` | scripts/check-unicode.js:137-161 | every control-character issue is displayed as its codepoint token, never as the raw character |
| `CheckUnicode.ControlKindIsControl` | src/UnicodeChecker.js:84-99 | the control-character kind covers exactly the controls other than tab, LF and CR |
| `CheckUnicode.ShouldFailPolicy` | scripts/check-unicode.js:178-188 | on a level name, the shared policy on the error and warning counts; any other value never fails |
| `CheckUnicode.CliFailOn` | scripts/check-unicode.js:206-207 | the option, or `error` when missing or empty, lowercased but not trimmed, is valid exactly when it is `none`, `warn` or `error` |
| `CheckUnicode.ExitCode` | scripts/check-unicode.js:206-223 | exit 2 exactly for an invalid level, 1 exactly when the report fails under a valid one |
| `CheckUnicode.DefaultFailsOnErrors` | scripts/check-unicode.js:201-206 | with the default `error` level a run exits 1 exactly when some issue is an error |
| `CheckUnicode.CliDoesNotTrim` | scripts/check-unicode.js:206-207 | a level name after a space is rejected here though the shared parser accepts it |
| `CheckUnicode.CliRejectsLeadingSpace` | scripts/check-unicode.js:206-207 | any value with a leading space is invalid |
| `BookNav.CleanPath` | src/BookGenerator.js:366 | the path with at most one leading `/` and at most one trailing `.html` removed |
| `BookNav.CleanPageLink` | src/BookGenerator.js:366 | the link `/<page>.html` of a page cleans back to the page |
| `BookNav.CleanPathOfClean` | src/BookGenerator.js:366 | a path without a leading slash or a trailing `.html` is already clean |
| `BookNav.PathsOf` | src/BookGenerator.js:363-369 | no more paths than sections |
| `BookNav.PathsOfAppend` | src/BookGenerator.js:357-403 | the paths of two section lists one after the other are their paths concatenated |
| `BookNav.PathsOfSource` | src/BookGenerator.js:363-369 | every path in the order comes from a section that names it |
| `BookNav.PathsOfCovers` | src/BookGenerator.js:363-369 | every section with a path contributes its cleaned path |
| `BookNav.PushPaths` | src/BookGenerator.js:363-369 | one `forEach` pushes the cleaned paths of the sections that have one, in order |
| `BookNav.DefaultNavigationOrder` | src/BookGenerator.js:357-403 | the default order is the cleaned paths of all sections with a path |
| `BookNav.DefaultOrderParts` | src/BookGenerator.js:361-400 | the default order is introduction, chapters, conclusion, then appendices |
| `BookNav.FindSection` | src/BookGenerator.js:422-429 | the first section from `k` whose cleaned path is the page, or none when no section names it |
| `BookNav.Spaced` | src/BookGenerator.js:432 | each `-`, `_` and `/` becomes a space and nothing else changes |
| `BookNav.Capitalize` | src/BookGenerator.js:432 | capitalising keeps the length |
| `BookNav.GetPageTitle` | src/BookGenerator.js:411-433 | the title of the first section naming the page, the page itself when that title is empty, else the title guessed from the path |
| `BookNav.CapitalizeWordChars` | src/BookGenerator.js:432 | a capitalised character is a word character exactly when the original was |
| `BookNav.TitleCaseShape` | src/BookGenerator.js:432 | a guessed title has the path's length, no separators, no lowercase ASCII letter at a word start, and every other character unchanged |
| `BookNav.TitleCaseIdempotent` | src/BookGenerator.js:432 | guessing a title from a guessed title changes nothing |
| `BookNav.PageTitleNonEmpty` | src/BookGenerator.js:411-433 | a non-empty page gets a non-empty title |
| `BookNav.DefaultOrderTitled` | src/BookGenerator.js:357-433 | every page of the default order is found among the sections, so its title is never guessed |
| `BookNav.DefaultOrderCovers` | src/BookGenerator.js:357-403 | every section with a path is a page of the default order |
| `BookNav.DefaultOrder` | src/BookGenerator.js:357-403 | `generateDefaultNavigationOrder`; characterised by `DefaultNavigationOrder`, `DefaultOrderParts`, `DefaultOrderCovers` and `DefaultOrderTitled` |
| `BookNav.PageTitleOf` | src/BookGenerator.js:411-433 | `getPageTitle`; characterised by `GetPageTitle`, `PageTitleNonEmpty` and `TitleCaseShape` |
| `BookNav.LinkFor` | src/BookGenerator.js:328-335 | the link to a neighbour is `/<page>.html` with its title, or none for an empty page |
| `BookNav.GenerateNavigationData` | src/BookGenerator.js:305-350 | the navigation data is that of `config.navigation.order` when set, else of the default order |
| `BookNav.NavAtFacts` | src/BookGenerator.js:323-338 | each value has its position as `index` and the order's length as `total`, links the previous and next pages unless missing or empty, by paths that clean back to them |
| `BookNav.NavKeys` | src/BookGenerator.js:323-327 | the pages with navigation data are exactly the pages of the order |
| `BookNav.NavLastWins` | src/BookGenerator.js:327 | a page listed more than once keeps the data of its last position |
| `BookNav.NavChain` | src/BookGenerator.js:323-338 | with distinct non-empty pages, following `next` and then `previous` comes back to the page |
| `BookNav.ConfigFormatOf` | src/BookGenerator.js:85-98 | JSON for `.json`, YAML for `.yml` and `.yaml`, lower-cased; any other extension is refused with that extension |
| `BookNav.ExtnameOfName` | src/BookGenerator.js:87 | the extension of a name with a non-empty stem is its last dot on |
| `BookNav.LastDotAt` | src/BookGenerator.js:87 | a dot with no dot after it is the last dot |
| `BookNav.DotFree` | src/BookGenerator.js:87 | a text whose lower case has no dot after its first character and no slash has none either |
| `BookNav.JsonConfig` | src/BookGenerator.js:89-91 | a `.json` file, in any letter case, is read as JSON |
| `BookNav.JsonExtension` | src/BookGenerator.js:90 | a JSON extension in any case is one dot and letters |
| `BookNav.JsonSpelling` | src/BookGenerator.js:90 | `.json` is one dot and letters |
| `BookNav.YamlExtension` | src/BookGenerator.js:92-93 | a YAML extension in any case is one dot and letters |
| `BookNav.YamlSpelling` | src/BookGenerator.js:92-93 | `.yml` and `.yaml` are one dot and letters |
| `BookNav.YamlConfig` | src/BookGenerator.js:92-94 | a `.yml` or `.yaml` file, in any letter case, is read as YAML |
| `BookNav.HiddenJsonRefused` | src/BookGenerator.js:87-97 | a file named just `.json` has no extension and is refused |
| `UxRollout.StripOwner` | src/UxRollout.js:65 | `replace(/^itdojp\//, '')` removes the owner prefix when present and changes nothing otherwise |
| `UxRollout.MapBooks` | src/UxRollout.js:59-68 | the loop over an array of books builds the `mapped` object, or throws as `MappedBooks` says |
| `UxRollout.MappedErrSticks` | src/UxRollout.js:61-67 | once an entry has thrown, the whole loop throws |
| `UxRollout.MappedErr` | src/UxRollout.js:62-66 | the loop throws exactly when some object entry has a truthy key that is not text, and then with that error |
| `UxRollout.MappedContents` | src/UxRollout.js:61-67 | the mapped object has distinct keys, each holding the last entry keyed so after the owner is stripped; keys no entry has are absent |
| `UxRollout.NormalizeIdempotent` | src/UxRollout.js:50-72 | normalising a normalised registry changes nothing |
| `UxRollout.NormalizeShape` | src/UxRollout.js:59-71 | a normalised registry has truthy `books`, an object when they were an array and untouched otherwise, and every other member kept |
| `UxRollout.NormalizeErrors` | src/UxRollout.js:51-65 | an invalid registry exactly when it is falsy or not an object; missing books exactly when `books` is falsy; a key that is not text exactly when an array entry has one |
| `UxRollout.RunEnd` | src/UxRollout.js:139 | the end of a `[^/]+` run: no `/` inside it, and a `/` or the end after it |
| `UxRollout.RunEndAt` | src/UxRollout.js:139 | a slash-free stretch ending at a slash or the end is the run |
| `UxRollout.RepoAt` | src/UxRollout.js:139 | a match at a position gives a non-empty second group without a slash |
| `UxRollout.FirstRepo` | src/UxRollout.js:139 | the leftmost match gives a non-empty second group without a slash |
| `UxRollout.StripGit` | src/UxRollout.js:141 | `replace(/\.git$/, '')` removes one trailing `.git` or nothing |
| `UxRollout.ExtractRepoName` | src/UxRollout.js:137-142 | a repository name, when there is one, holds no slash |
| `UxRollout.FirstRepoSkips` | src/UxRollout.js:139 | positions where nothing matches are passed over |
| `UxRollout.NoRepoAt` | src/UxRollout.js:139 | no match starts where the text has no `g` |
| `UxRollout.RepoAtShape` | src/UxRollout.js:139 | `github.com/`, an owner, a slash and a slash-free rest match with that rest as second group |
| `UxRollout.RepoOfShape` | src/UxRollout.js:139 | the same for the leftmost match when nothing before it can start one |
| `UxRollout.RepoNameOfUrl` | src/UxRollout.js:137-142 | the repository name of `…github.com/owner/name` is `name` with one `.git` removed |
| `UxRollout.FirstMatching` | src/UxRollout.js:112-120 | the first entry from `k` whose stripped `repo` is the book or repository name, or none when no entry matches |
| `UxRollout.ResolveOf` | src/UxRollout.js:99-130 | a resolved entry is truthy |
| `UxRollout.ResolveRegistryEntry` | src/UxRollout.js:99-130 | the lookups by book name, by repository name and by `repo` field, in that order, give `ResolveOf` |
| `UxRollout.ResolveByName` | src/UxRollout.js:103-105 | a book whose directory name keys a truthy entry resolves to it |
| `UxRollout.ResolveNone` | src/UxRollout.js:99-130 | nothing resolves exactly when neither the book nor the repository name keys a truthy entry and no entry's `repo` names either |
| `UxRollout.PlanOutcomes` | src/UxRollout.js:151-185 | it throws exactly when the file holds `null` (reading `config.ux`, line 164); otherwise a write exactly when the book is updated, never both updated and skipped, skipped exactly when the file is missing or already up to date, no write in a dry run, a backup only with a write and when asked for |
| `UxRollout.PlanWrites` | src/UxRollout.js:159-181 | the written configuration has the next `ux`; every other key has the value `{...config}` gives it, so an object keeps its other members |
| `UxRollout.PlanIdempotent` | src/UxRollout.js:164-169 | updating again what was written skips the book |
| `UxRollout.Rollout` | src/UxRollout.js:207-276 | the option checks, the registry load and the loop over books give `RolloutOf` |
| `UxRollout.RolloutRejects` | src/UxRollout.js:210-219 | no action error exactly when neither step is asked for; registry required exactly when the profile step is asked for without a registry |
| `UxRollout.CountFacts` | src/UxRollout.js:231-263 | when the loop does not throw: updated plus skipped is at most the number of books; missing books are among the skipped and are exactly the unresolved ones; without a registry none is missing; a dry run updates nothing; without the profile step only missing books are skipped |
| `UxRollout.SpreadIndexes` | src/UxRollout.js:181 | `{...config}` of an array copies each element under its index, and of a string each character, as a one-character string, under its index |
| `UxRollout.CountBook` | src/UxRollout.js:244-263 | one pass of the loop after the registry lookup gives the counters, or the error, that `StepOf` defines |
| `UxRollout.CountBooksAt` | src/UxRollout.js:236-263 | the loop over one more book is one more step from the counters so far |
| `UxRollout.CountBooksErrSticks` | src/UxRollout.js:256-261 | once a book has thrown, the rest of the books do not change the outcome |
| `UxRollout.BookStepThrows` | src/UxRollout.js:244-261 | one book throws exactly when it resolves, the profile step is asked for and its `book-config.json` holds `null`, and then with the error of reading `ux` |
| `UxRollout.CountBooksThrows` | src/UxRollout.js:236-263 | the loop throws exactly when some book would be updated from a `null` configuration, and then with that error |
| `UxRollout.NullConfigThrows` | src/UxRollout.js:164 | the same, stated as the existence of such a book |
| `UxRollout.NormalizeRegistry` | src/UxRollout.js:50-72 | the registry `normalizeRegistry` returns, or its error; characterised by `NormalizeShape`, `NormalizeErrors`, `NormalizeIdempotent` and `MappedContents` |
| `UxRollout.WithUx` | src/UxRollout.js:181 | `{...config, ux}`; characterised by `PlanWrites` and `SpreadIndexes` |
| `UxRollout.PlanUpdate` | src/UxRollout.js:151-185 | the decision of `updateBookConfig`: skip, dry-run, update with the configuration written, or the error of a `null` file; characterised by `PlanOutcomes`, `PlanWrites` and `PlanIdempotent` |
| `UxRollout.RolloutOf` | src/UxRollout.js:207-276 | the counters `rollout` ends with, or the error it throws; characterised by `Rollout`, `RolloutRejects`, `CountFacts` and `CountBooksThrows` |
| `CheckTextlint.JoinTwoNames` | scripts/check-textlint.js:43-47 | `path.join` of a normalised path and `a/b` appends the two names |
| `CheckTextlint.ParentNames` | scripts/check-textlint.js:44 | a path of plain names is its `dirname`'s names followed by its `basename` |
| `CheckTextlint.ParentJoin` | scripts/check-textlint.js:43-47 | `d/b` below the parent of a directory named `d` is `b` inside that directory |
| `CheckTextlint.DocsConfigFromParent` | scripts/check-textlint.js:42-47 | for a resolved `docs` directory, `docs/_config.yml` below its parent is its own `_config.yml` |
| `CheckTextlint.RepoRootHasConfig` | scripts/check-textlint.js:41-51 | unless the root falls back to the working directory, it holds `docs/_config.yml` or `_config.yml` |
| `CheckTextlint.FirstIndex` | scripts/check-textlint.js:69 | `indexOf`: the first position holding the path |
| `CheckTextlint.FirstIndexPrefix` | scripts/check-textlint.js:69 | the first position of a path in a prefix is its first position in the whole list |
| `CheckTextlint.FirstIndexAt` | scripts/check-textlint.js:69 | a position holding the path with no earlier occurrence is its `indexOf` |
| `CheckTextlint.DedupFacts` | scripts/check-textlint.js:69 | the de-duplicated list has no repeats, the same paths, in the order of their first occurrences |
| `CheckTextlint.ExistingMembers` | scripts/check-textlint.js:70 | the existence filter keeps exactly the listed paths that exist |
| `CheckTextlint.ExistingDistinct` | scripts/check-textlint.js:70 | filtering a list without repeats leaves none |
| `CheckTextlint.ExistingOrder` | scripts/check-textlint.js:70 | filtering keeps the order of first occurrence |
| `CheckTextlint.PrhDictionaries` | scripts/check-textlint.js:53-73 | the dictionaries have no repeats, are exactly the requested paths (common, extra, candidates) that exist, in the order first requested, and start with the common one whenever it exists |
| `CheckTextlint.PushIssues` | scripts/check-textlint.js:149-158 | the inner loop appends one issue per message, in order, each carrying the file and the message's fields |
| `CheckTextlint.CollectStep` | scripts/check-textlint.js:137-159 | one more result appends its issues and, when it has messages, sets its file's entry |
| `CheckTextlint.CollectIssues` | scripts/check-textlint.js:134-159 | the loop over the results builds `IssuesOf` and `DetailsOf`, skipping results without a non-empty message array |
| `CheckTextlint.Summarize` | scripts/check-textlint.js:134-184 | the report of the results: summary counts, issues and file details |
| `CheckTextlint.FilesWithMessagesSnoc` | scripts/check-textlint.js:137-141 | one more result adds its file to the files with messages exactly when it has messages |
| `CheckTextlint.DetailsSnoc` | scripts/check-textlint.js:139-147 | one more result sets its file's `fileDetails` entry to its messages when it has any, and leaves `fileDetails` alone otherwise |
| `CheckTextlint.DetailsKeysStep` | scripts/check-textlint.js:141 | assigning `fileDetails[rel]` keeps the keys distinct and adds `rel` to them |
| `CheckTextlint.DetailsFacts` | scripts/check-textlint.js:141-147 | `fileDetails` names each file with messages exactly once and no other |
| `CheckTextlint.FilesWithIssuesCount` | scripts/check-textlint.js:168 | `filesWithIssues` is the number of distinct files with messages |
| `CheckTextlint.SeverityPartition` | scripts/check-textlint.js:161-163 | each issue falls in exactly one of `>= 2`, `1`, `0` and negative severity |
| `CheckTextlint.ReportSeverities` | scripts/check-textlint.js:161-172 | errors, warnings and infos add up to at most the total, and to exactly the total when no severity is negative |
| `CheckTextlint.IssueCount` | scripts/check-textlint.js:149-169 | `totalIssues` is the number of messages of the results that have an array |
| `CheckTextlint.ShouldFailPolicy` | scripts/check-textlint.js:31-39 | on a level name it is the shared policy on errors and warnings; any other value never fails |
| `CheckTextlint.ExitCode` | scripts/check-textlint.js:238-260 | exit 2 exactly for an invalid `--fail-on`; exit 0 exactly when the level is valid, the run does not throw, and the report does not fail under it |
| `CheckTextlint.RunReport` | scripts/check-textlint.js:109-113 | the run throws exactly when no dictionary exists |
| `CheckTextlint.CommonDictionaryRuns` | scripts/check-textlint.js:109-113 | when the common dictionary exists the run does not throw |
| `CheckTextlint.CollectPrhDictionaries` | scripts/check-textlint.js:53-73 | `collectPrhDictionaries`; characterised by `PrhDictionaries` and `RunReport` |
| `CheckTextlint.ReportOf` | scripts/check-textlint.js:134-184 | the report of a run; characterised by `Summarize`, `FilesWithIssuesCount`, `ReportSeverities` and `IssueCount` |

## Left out

- Anchors.IsLetterOrNumber: `\p{L}\p{N}` (scripts/check-links.js:425) is a fixed table of Unicode ranges, not the full Unicode database. Slugs of headings in scripts outside the table (Arabic "مرحبا", for one) differ from the program's.
- Anchors.SlugBase: it inherits the `IsLetterOrNumber` table and the ASCII-only `LowerChar`. A heading "Ābc" keeps its capital in the model, while JavaScript lowercases it.
- Text.LowerChar: `toLowerCase` maps only `A`–`Z`. Full Unicode case mapping (one character to several, context-dependent forms) is not modelled.
- Text.UpperChar: `toUpperCase` maps only `a`–`z`. JavaScript turns "ﬀ" into "FF", so `normalizeCodepoint("ﬀ00")` is "U+FF00" there and `None` here.
- UnicodeChecking.NormalizeCodepoint: it inherits the ASCII-only `UpperChar`. Numbers are integers only (`RawValue.Number(n: int)`), so a finite non-integer such as 1.5 is not modelled. JavaScript's `toString(16)` gives "U+01.8" for it.
- SvgFontInventory.LexLeq: `localeCompare` is read as code-point order. For two values tied on both counts, such as "Zapfino" and "arial", a locale-aware comparison can order them the other way.
- SvgFontInventory.Inventory: it sorts by `LexLeq` on ties, so it has the same difference as `LexLeq`.
- SvgFontInventory.EffectiveLimit: `Number(opts.limit)` of a non-integer is not modelled. The option is an integer or `NaN`.
- CheckLayoutRisk.CliSettings: the limits are integers. `Number(v)` also gives non-integer limits (scripts/check-layout-risk.js:560-564, kept when finite at 575-580). Against the integer lengths, sizes and column counts a non-integer limit acts as its floor in the `>` tests (331, 353, 427, 455), and as its ceiling in `issues.length < maxIssues` (207). So only the message texts (339, 361, 435, 462) and the `thresholds` echoed in the report (234) differ.
- Tokens.Tokenizer: markdown-it is a total function from text to tokens and never throws. Two things are therefore not modelled: the `markdown_parse_warning` issue of scripts/check-layout-risk.js:395-406, and an exception escaping `checkFile` in scripts/check-links.js.
- LayoutScan.ScanContent: it gets its tokens from the total `Tokenizer`, so the parse-failure branch at scripts/check-layout-risk.js:395-406 is not modelled.
- UxRollout.NormalizeRegistry: JSON objects keep their members in text order. `Object.entries`, and so the order of the rebuilt `books`, lists integer-like keys first in numeric order; that order is not modelled. JSON numbers are integers.
- UxRollout.SameUx: two values whose `JSON.stringify` texts are equal are taken to be equal values.
- UxRollout.Spread: a string is spread by UTF-16 code units in JavaScript, so a character at U+10000 or above gives two index keys holding lone surrogates there. The model spreads by characters. Integer-like keys of the written object are listed first by JavaScript, as the `NormalizeRegistry` line says.
- LayoutLines.ClampSnippet: lengths are counted in UTF-16 code units, as `line.length` counts them. When `maxLen` falls inside a surrogate pair, JavaScript's `slice` keeps a lone high surrogate, but the model's prefix stops before the whole character. Strings are sequences of Unicode scalar values, so a lone surrogate cannot be written.
- LayoutScan.ShapeOf: line lengths are UTF-16 code units (`Utf16Length`, with characters at U+10000 and above counted twice), as `line.length` counts them at scripts/check-layout-risk.js:329 and :351. The snippet differs from JavaScript's only as `ClampSnippet` says.
- UnicodeChecking.UnicodeChecker.ScanText: text is a sequence of Unicode scalar values, so a lone surrogate in the input is not modelled.
- SvgFontRewrite.RewriteSvgFonts: whole-text idempotence (a second run reports `changed=false`) is not proved. A later match of the second pass can start inside, or span, text the first pass replaced, and the model does not bound that. The proved facts are local to one value, one declaration or one attribute: `SvgFontNormalize.FamilyFixpoint`, `SvgFontNormalize.ShorthandFixpoint`, `SvgFontRewrite.AttrRewriteStable` and `SvgFontRewrite.RewriteUnchanged`.
- SvgFontRewrite.RewriteSvgFonts: follows the regexes as written (rule `AsWritten`). The intended reading is `Rewrite(Script, svg, Corrected)`; see "## Findings".
- The `commander` command lines, `process.exit` calls, console and chalk output (`printSummary`, the summary lines), and the JSON reports and `navigation.json` written to disk. These are I/O. Exit codes are modelled as functions of the option and the report (`ExitCode`).
- `glob` expansion, `fs.stat`, `fs-extra`'s `ensureDir` and other writes, and the temporary textlint config file (scripts/check-textlint.js:75-103). The file lists are parameters, and the file system is a value that is read but never written.
- `fetch`, `AbortController` and the timer of `checkExternalUrl`. Only the decision on a given HEAD/GET outcome is modelled.
- The YAML parser, `JSON.parse`, markdown-it and the textlint linter are not part of this model. Their results are parameters: `YamlParser`, `JsonReader`, `Tokenizer` and the linter's `LintResult`s.
- The outer `catch` and fatal report of scripts/check-layout-risk.js:596-618, and the other scripts' top-level `catch` blocks. An exception is modelled only where a function returns `None` or `Err`.
- scripts/check-unicode.js:80-82: the `/\\\\/g` replacement of doubled backslashes in the relative path is a platform-path detail and is not modelled.
- `src/UxRollout.js`: `listBooks` (80-90) and the `applyUxCore` / `ComponentSync` step (193-200, 227-229, 265-267) are not modelled. `ComponentSync` is not part of this model. `loadRegistry`'s file read and extension choice become the `loaded` parameter of `Rollout`. The `books.length === 0` early return (222-225) gives the zero counts that the loop gives.
- `src/BookGenerator.js`: only `loadConfig`'s extension dispatch, `generateDefaultNavigationOrder`, the prev/next part of `generateNavigationData` and `getPageTitle` are modelled. The create, update and template methods are file-system sequences over collaborators (`TemplateEngine`, `FileSystemUtils`, `ConfigValidator`) that are not part of this model.
- `Date.now()` and `process.pid` appear only in the temporary file name and are left out.
- The `U+FE0F` cases of tests/UnicodeChecker.test.js (26-33, 61-72) expect a flag, but `classifyCodepoint` skips U+FE00–U+FE0F (src/UnicodeChecker.js:124-134). The model follows the code.

## Findings

| source | as written | input that shows it | evidently intended | confidence | as-written member | corrected member |
|---|---|---|---|---|---|---|
| scripts/svg-font-normalize.js:92 | the size token's unit is followed by `\b`, and after `%` a word boundary needs a following word character | `font: 100% sans-serif;`: no size is found, so the shorthand is left alone | a `%` size followed by a space, `/` or the end is a size like `px`, as the unit list in the comment says | not executed | `SvgFontNormalize.PercentShorthandAsWritten` | `SvgFontNormalize.PercentSize`, `SvgFontNormalize.ShorthandOfShape` |
| scripts/svg-font-normalize.js:118-119 | a declaration is only matched when its value is followed by `\s*;` | `.noSemiFam { font-family: system-ui, sans-serif }`: the last declaration of a rule, without `;`, is not rewritten | a value ended by `}` is rewritten too, as tests/SvgFontNormalize.test.js:22-80 expects | not executed | `SvgFontRewrite.UnterminatedAsWritten`, `SvgFontRewrite.UnterminatedFamilyAsWritten` | `SvgFontRewrite.UnterminatedCorrected`, `SvgFontRewrite.UnterminatedFamilyCorrected` |
