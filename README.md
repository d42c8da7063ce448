# MonoMD converter, modelled in Dafny

MonoMD turns a small Markdown dialect into an HTML fragment. This project
models the converter's core, `renderMarkdown` in `monomd/index.js`, and
proves properties of the model. One module per stage:

- `Text`: the JavaScript string operations the converter relies on.
  This covers `trim`, `split`/`join`, `indexOf`, global and first-occurrence
  `replace`, the `\s` class and decimal rendering of counters.
- `HtmlEscape`: the non-browser branch of `escapeHtml`.
- `Inline`: `parseInline`, its five ordered, non-nesting rewrites.
- `Escapes`: the protection of `\X` escapes behind `!!ESCAPE!n!!` keys,
  and their restoration.
- `Blocks`: blank-line marking. It also holds the code, image,
  internal-link and admonition passes, which lift a block into a list
  and leave a `!!FAMILY!n!!` placeholder, and their restoration loops.
- `Table`: the table pattern and the table renderer.
- `Blockquote`: `parseNestedBlockquote` and `buildQuoteHTML`.
- `Lists`: `parseList` and `buildListHTML`.
- `Scanner`: the line-by-line `while` loop of `renderMarkdown`.
- `Render`: the whole pipeline and the wrapper around its result.

Each regular expression of the core is modelled as a scanner written for
that one pattern. Its backtracking is worked out in the doc comment, and
lemmas state what it accepts and what every match looks like.

The loops and accumulators of the source are methods. These include the
prefix-stripping loop, the two recursive builders with their cursors, the
scanner, the extraction and restoration loops, and the escape loops. Each
method is proved equal to a function that specifies it. The properties are
lemmas about those functions.

Some behaviour of the code is easy to miss, and the model states it as it is:

- Any user text that spells an escape key is restored as that escape, as
  though it had been escaped (`Escapes.ForgedKey`).
- A line that starts with `>` followed by a tab is scanned as a quote line,
  but the depth loop strips only `"> "`. Such a line has depth 0 and ends
  the block (`Blockquote.TabQuoteHasDepthZero`).
- A heading's `#`s may be followed by any non-empty run of blanks, not just
  one space (`Scanner.HeadingParts`).
- A table match always spans at least two lines: a header line and at least
  one row (`Table.TableParts`). So the renderer's fallbacks for a missing
  header or alignment line are never reached.

## Model

| member | source | states |
|---|---|---|
| Text.LeadingSpaces | monomd/index.js:112-113 | the length of the `^\s*` match: every character before it is a blank and the one at it is not |
| Text.TrimEnd | monomd/index.js:207 | a prefix of the text, followed only by blanks, and not ending with a blank |
| Text.TrimShape | monomd/index.js:207 | `trim()` gives the empty text exactly for all-blank texts, and otherwise neither starts nor ends with a blank |
| Text.TrimKeeps | monomd/index.js:284 | `trim()` leaves a text alone when it neither starts nor ends with a blank |
| Text.IndexOf | monomd/index.js:218 | the first index of a character, or the length when the character is absent |
| Text.Split | monomd/index.js:204 | `split(c)` gives at least one part, and no part contains `c` |
| Text.JoinSplit | monomd/index.js:204-212 | joining the parts of a split with the same separator gives the text back |
| Text.SplitJoin | monomd/index.js:328 | splitting a join of separator-free parts gives the parts back |
| Text.ReplaceAllAbsent | monomd/index.js:407 | a global replace of a pattern that never occurs changes nothing |
| Text.ReplaceAllSkip | monomd/index.js:407 | a global replace leaves a prefix without any occurrence untouched |
| Text.ReplaceAllFront | monomd/index.js:407 | an occurrence at the front is replaced, and the scan resumes after it |
| Text.ReplaceAllOneChar | monomd/index.js:20-24 | replacing every occurrence of one character is a per-character map |
| Text.MapChar | monomd/index.js:20-24 | the per-character map leaves no `c` behind when the replacement has none |
| Text.Find | monomd/index.js:391 | `indexOf(pattern)`: an index at which the whole pattern fits |
| Text.FindFirst | monomd/index.js:391 | `Find` gives the first occurrence, and none only when there is none at all |
| Text.FindAt | monomd/index.js:391 | an occurrence with none before it is the one `Find` reports |
| Text.FindAfter | monomd/index.js:218 | the lazy `([\s\S]*?)pattern` stops at the first occurrence, whatever follows |
| Text.FoundFirst | monomd/index.js:218 | what `Find` skips is free of the pattern up to its end, and the text splits around the occurrence |
| Text.ReplaceFirstFind | monomd/index.js:391 | replacing with a string pattern replaces exactly the occurrence `Find` reports, or nothing |
| Text.ReplaceFirstSkip | monomd/index.js:391 | the first replacement passes over text lacking the pattern's first character |
| Text.ReplaceFirstFront | monomd/index.js:391 | an occurrence at the very front is the one replaced |
| Text.Decimal | monomd/index.js:198 | `${n}`: a non-empty run of digits |
| Text.DecimalInjective | monomd/index.js:198 | distinct counters render as distinct strings |
| HtmlEscape.PassesOneChar | monomd/index.js:20-24 | no pass rewrites what an earlier pass produced: one character yields exactly its entity |
| HtmlEscape.EscapeHtmlIsPerChar | monomd/index.js:19-24 | the five chained global replacements equal the per-character entity map |
| HtmlEscape.EscapeHasNoMarkup | monomd/index.js:19-24 | escaped text holds no raw `<`, `>`, `"` or `'` |
| HtmlEscape.UnescapeEscape | monomd/index.js:19-24 | decoding the five entities gives the text back, so no entity is ever encoded twice |
| HtmlEscape.EscapeInjective | monomd/index.js:19-24 | distinct texts escape to distinct texts |
| Inline.MatchDelim | monomd/index.js:35-44 | a match of a delimited span is the opener, a non-empty body free of the stop character, and the closer |
| Inline.MatchDelimShape | monomd/index.js:35-44 | conversely, every well-formed span at the front is matched with exactly its body |
| Inline.RewriteSpan | monomd/index.js:35-44 | a well-formed span becomes its tags around the unchanged body, and the rewrite continues after it |
| Inline.RewriteAbsent | monomd/index.js:35-44 | text lacking the delimiter's first character passes through unchanged |
| Inline.MatchLink | monomd/index.js:47 | a link match is `[text](url)` with non-empty text free of `]` and non-empty url free of `)` |
| Inline.MatchLinkShape | monomd/index.js:47 | conversely, every such link at the front is matched with its text and target |
| Inline.RewriteLinkShape | monomd/index.js:47 | a well-formed link becomes an anchor carrying the url and the text |
| Inline.RewriteLinksAbsent | monomd/index.js:47 | text without `[` has no link |
| Inline.ParseInlinePlain | monomd/index.js:33-50 | text free of the five delimiter characters is left as it is |
| Inline.ParseInlineBold | monomd/index.js:38 | `**body**`, for a non-empty body free of `` ` ``, `*`, `_`, `~` and `[`, becomes `<b>body</b>` |
| Escapes.ProtectEscapes | monomd/index.js:193-201 | the replacement loop yields the text with the n-th escape shown as key n, and records the escaped characters in order |
| Escapes.PiecesFront | monomd/index.js:197 | a backslash followed by a character other than a line terminator is one escape; every other character stands for itself |
| Escapes.PlaceholderDistinct | monomd/index.js:198 | two keys (or placeholders) of one family never start alike: neither is a prefix of the other |
| Escapes.NoOccurrenceInside | monomd/index.js:198 | no key starts strictly inside another unless the text after it continues a partial key |
| Escapes.RestoreEscapes | monomd/index.js:410-412 | the restoration loop replaces the keys one by one, in the order they were made |
| Escapes.RestoreStep | monomd/index.js:411 | when no piece of the text is a `!` (`NoBang`), replacing key j restores exactly the j-th escaped character and nothing else |
| Escapes.RestoreUpToShow | monomd/index.js:410-412 | when no piece of the text is a `!` (`NoBang`), after the first n restorations exactly the first n keys are back |
| Escapes.EscapeRoundTrip | monomd/index.js:193-412 | protection then restoration gives the text with each escaping backslash dropped and its character in place |
| Escapes.NoBackslash | monomd/index.js:197 | text without a backslash is left alone by protection and holds no escape |
| Escapes.ForgedKey | monomd/index.js:197-411 | user text that spells a key is restored as though it had been escaped |
| Blocks.MarkLines | monomd/index.js:205-211 | the per-line map keeps the number of lines |
| Blocks.MarkedLines | monomd/index.js:203-212 | read back as lines, the marked text is the original with each blank line but the last turned into an empty line and a `!!BR!!` line |
| Blocks.MarkingKeeps | monomd/index.js:203-212 | a text with no blank line but perhaps the last is not changed |
| Blocks.CodeScan | monomd/index.js:218 | a code match spans at least the two fences and a line break |
| Blocks.CodeAt | monomd/index.js:218 | a fence, a language line and code ends at the first closing fence |
| Blocks.CodeParts | monomd/index.js:218 | every code match has that shape: a one-line language, code free of fences, then the closing fence |
| Blocks.OutputAt | monomd/index.js:222 | a code body splits at the first `:::output` line and at the first closer after it |
| Blocks.MatchCode | monomd/index.js:218-241 | the code pass consumes at least seven characters per match |
| Blocks.ImageScan | monomd/index.js:245 | an image match spans at least `![](x)` |
| Blocks.ImageAt | monomd/index.js:245 | an image with its alt text and a non-empty url is matched whole |
| Blocks.ImageParts | monomd/index.js:245 | every image match has that shape |
| Blocks.MatchImage | monomd/index.js:245-249 | the image pass consumes at least six characters per match |
| Blocks.InternalScan | monomd/index.js:253 | an internal-link match spans at least `!!x!!(y)` |
| Blocks.InternalAt | monomd/index.js:253 | an internal link with non-empty text free of `!` and a non-empty path is matched whole |
| Blocks.InternalParts | monomd/index.js:253 | every internal-link match has that shape |
| Blocks.MatchInternal | monomd/index.js:253-257 | the internal-link pass consumes at least eight characters per match |
| Blocks.InfoScan | monomd/index.js:261 | an admonition match spans at least its opener and the closer |
| Blocks.InfoAt | monomd/index.js:261 | an admonition ends at the first closer after its opener |
| Blocks.InfoParts | monomd/index.js:261 | every admonition match has that shape |
| Blocks.MatchInfo | monomd/index.js:261-275 | the three admonition passes consume their opener and closer per match |
| Blocks.MatchTableBlock | monomd/index.js:279-325 | the table pass consumes at least one character per match |
| Blocks.MatchAt | monomd/index.js:216-325 | every pass consumes at least one character per match, so each pass terminates |
| Blocks.ExtractPass | monomd/index.js:216-325 | one `replace(pattern, callback)` pass: the placeholders numbered on from the list's length, and the list extended with the blocks found |
| Blocks.Extract | monomd/index.js:218-241 | the replacement loop: each match is replaced by the next placeholder and its block is pushed; other characters are kept |
| Blocks.RestoreBlocks | monomd/index.js:390-404 | one `forEach` restoration loop: the first occurrence of each placeholder is replaced by its block, in list order |
| Blocks.FillStep | monomd/index.js:391 | for `Quiet` text (no `!` outside the matches nor in any block), restoring entry r turns the first placeholder left into its block |
| Blocks.FillRender | monomd/index.js:390-392 | for `Quiet` text, after n restorations exactly the first n matches show their blocks |
| Blocks.RenderAll | monomd/index.js:216-241 | with every entry restored, the text is the one with each match replaced directly by its block |
| Blocks.PassRoundTrip | monomd/index.js:216-404 | a pass followed by its family's restoration puts every block exactly where its match was |
| Table.LastBar | monomd/index.js:279 | the last `\|` of a range, with none after it, or none at all |
| Table.RowsEnd | monomd/index.js:279 | where the greedy run of rows ends, never before it starts |
| Table.CaptionAfter | monomd/index.js:279 | a caption group is `[`, text free of `]`, `]` and a line break, and the rows start right after that line break |
| Table.HeaderAt | monomd/index.js:279 | the header line tried in backtracking order, from the last bar back, is followed by at least one row |
| Table.FitAt | monomd/index.js:279 | a closing bar that fits has a caption group or a bare line break after it and at least one row after that |
| Table.HeaderAtParts | monomd/index.js:279 | the header found is the last bar of the first line that fits, and no bar after it fits |
| Table.MatchTable | monomd/index.js:279 | a table match starts with `\|` and is non-empty |
| Table.TableParts | monomd/index.js:279 | every match is a header line `\|h\|`, an optional `]`-free caption group, a line break, then a non-empty run of `\|...\|` rows separated by line breaks, maximal, and no later bar of the first line would have fit |
| Table.TableAt | monomd/index.js:279 | conversely, a bar at the front, a last bar on the first line followed by a caption group or by the line break, and a row on the next line make exactly the match that keeps that caption and runs to the end of the rows |
| Table.HeadShapeOf | monomd/index.js:279 | the header part of a match: the first line up to the fitting bar, the caption group, and where the rows start |
| Table.RunShapeOf | monomd/index.js:279 | the rows part of a match: its rows, each `\|...\|` on one line, and the run cannot be extended |
| Table.RowsParts | monomd/index.js:279 | the run of rows is empty exactly when it ends where it starts, and otherwise is its rows joined with line breaks, perhaps with a final one |
| Table.RowsStep | monomd/index.js:279 | one row of the run: a `\|...\|` line, then either a line break and more, or the end of the run |
| Table.RowsMaximal | monomd/index.js:279 | the run is maximal: starting it again where it ended adds nothing |
| Table.RowsGreedy | monomd/index.js:279 | a run that ends in a bar, not a line break, closes at the last bar of its line |
| Table.LineEnd | monomd/index.js:279 | the end of the line at a position, never before it |
| Table.LineEndShape | monomd/index.js:279 | the line end is a line break or the end of the text, and none comes before it |
| Table.FirstRow | monomd/index.js:279 | a row `\|b\|` at the start of the run makes the run reach at least past its closing bar |
| Table.CaptionParts | monomd/index.js:279 | a caption group is the bracketed caption text right after the bar |
| Table.CaptionHere | monomd/index.js:279 | conversely, a `]`-free caption in brackets before a line break is the caption group |
| Table.TwoLineTable | monomd/index.js:279 | a header line and one row, without caption, form one whole table |
| Table.LastRow | monomd/index.js:279 | a row that runs to the end of the text ends the run of rows there |
| Table.NonBlank | monomd/index.js:284 | `filter(line => line.trim())` keeps at most the parts it is given |
| Table.TrimEach | monomd/index.js:289 | `map(c => c.trim())` trims each part, in order |
| Table.AlignEach | monomd/index.js:293-298 | one alignment per non-blank cell of the second line |
| Table.AlignOfCases | monomd/index.js:294-297 | `center` exactly when the trimmed cell starts and ends with `:`, `right` exactly when it only ends with one, `left` otherwise |
| Table.AlignAtValues | monomd/index.js:309 | every column gets `left`, `center` or `right`, columns past the end of the alignment row included |
| Table.CellsOfRow | monomd/index.js:289 | a row written `\|c1\|...\|cn\|` splits back into exactly its trimmed cells |
| Table.CellsOfParts | monomd/index.js:314 | splitting a row gives the cells between an empty first and last part |
| Table.Ths | monomd/index.js:308-310 | one header cell per header, each with its column's alignment |
| Table.Tds | monomd/index.js:316-318 | one data cell per cell, each with its column's alignment |
| Table.Trs | monomd/index.js:313-320 | one table row per data line |
| Table.RenderTable | monomd/index.js:303-323 | the callback's `tableHtml +=` accumulation builds the table |
| Table.CaptionIff | monomd/index.js:304-306 | a `<caption>` is emitted exactly when the bracket group took part in the match |
| Blockquote.DepthShape | monomd/index.js:59-70 | the line is `level` copies of `"> "` followed by a content that does not start with `"> "` |
| Blockquote.DepthUnique | monomd/index.js:59-70 | that prefix count and remainder are the only ones describing the line |
| Blockquote.DepthPrefix | monomd/index.js:64-67 | one more prefix gives one more level |
| Blockquote.TabQuoteHasDepthZero | monomd/index.js:64 | `>` followed by a tab is not a prefix, so the line has depth 0 |
| Blockquote.CountPrefixes | monomd/index.js:59-70 | the prefix-stripping loop computes `Depth` |
| Blockquote.Items | monomd/index.js:59-70 | one item per line, each the line's depth and content |
| Blockquote.TextAt | monomd/index.js:85-87 | the text a line at the current depth contributes is its content after `parseInline` |
| Blockquote.QuoteText | monomd/index.js:86 | the pushed text is the line's entry in `Texts` |
| Blockquote.FirstBelow | monomd/index.js:78-83 | the first item shallower than the level, with every item before it at that level or deeper |
| Blockquote.FirstBelowUnique | monomd/index.js:78-83 | any index with the first-shallower property is `FirstBelow` |
| Blockquote.FirstBelowBefore | monomd/index.js:81-83 | the cursor never passes a shallower item |
| Blockquote.HeightBounds | monomd/index.js:88-92 | no item lies more than `h` levels below the current one, and when `h > 0` one lies exactly `h` below; this bounds the recursion |
| Blockquote.HeightDrops | monomd/index.js:88-92 | the recursive call for a deeper run has a smaller height, so the recursion terminates |
| Blockquote.BuildQuote | monomd/index.js:73-98 | `nextIndex` is the first item shallower than the current level. It is past `startIndex` when that item is deep enough. The html is one `<blockquote>` holding the run's children joined with `<br>` |
| Blockquote.ParseNestedBlockquote | monomd/index.js:57-102 | the prefix loop, then the fold from depth 1 |
| Blockquote.FlatChildren | monomd/index.js:85-96 | lines all at the current depth give exactly their texts, in order, as the element's children |
| Blockquote.QuoteEnd | monomd/index.js:78-100 | where the rendered part of a run ends |
| Blockquote.DepthZeroEndsBlock | monomd/index.js:81-83 | a depth-0 line ends the block, and nothing from it on is rendered |
| Blockquote.QuoteEndIsFirstDepthZero | monomd/index.js:81-83 | the block ends exactly at the first depth-0 line |
| Blockquote.TwoLevels | monomd/index.js:57-102 | `"> a"` followed by `"> > b"` nests a blockquote holding b inside the one holding a |
| Blockquote.NestedLevels | monomd/index.js:59-98 | k lines, line j carrying j + 1 prefixes, give exactly k nested `<blockquote>` elements, each holding its line's inline-parsed remainder and then the next one |
| Blockquote.StaircaseHtml | monomd/index.js:73-98 | the fold over a run whose item j sits at depth j + 1 is the nesting of their texts |
| Blockquote.StaircaseItems | monomd/index.js:59-70 | line j of the staircase is an item at depth j + 1 with that line's remainder |
| Lists.DigitRun | monomd/index.js:126 | the run of digits at the front, stopping at the first non-digit |
| Lists.MarkerEnd | monomd/index.js:127 | where the list marker matched by `^\s*(?:[-*]\|\d+\.)\s` ends |
| Lists.Marked | monomd/index.js:117-132 | where the content starts lies within the item |
| Lists.ClassifyFormat | monomd/index.js:111-133 | an item written with 2·level blanks, its marker and its content is classified back to exactly that level, kind, checked state and content |
| Lists.MarkedChecklist | monomd/index.js:117-122 | the checklist pattern wins, and the item is checked exactly when the box holds `x` |
| Lists.MarkedOrdered | monomd/index.js:126-127 | any run of digits, a dot and any blank make an ordered item whose content follows the marker |
| Lists.MarkedBullet | monomd/index.js:126-127 | `-` or `*` then any blank, when the item is not a checklist, make an unordered item whose content follows the marker |
| Lists.BreaksOneLine | monomd/index.js:130 | a one-line content has no `"  \n"` to turn into `<br>` |
| Lists.ChecklistWithContinuation | monomd/index.js:117-132 | a checklist item with a continuation line fails the checklist pattern: it becomes unordered and keeps `[ ]` as text |
| Lists.FirstAtMost | monomd/index.js:140-146 | the first item at the parent's level or shallower, with every item before it deeper |
| Lists.FirstAtMostUnique | monomd/index.js:140-146 | any index with that property is `FirstAtMost` |
| Lists.Next | monomd/index.js:159-170 | the cursor after an entry always lies past it, within the run |
| Lists.CheckboxState | monomd/index.js:150-157 | a checklist item opens with a checkbox carrying its id, `checked` right after the id exactly when the item is checked, and `disabled` either way; any other item opens a plain `<li>` with its inline-parsed content, whatever the id |
| Lists.BuildList | monomd/index.js:136-174 | `nextIndex` is the first item at or above the parent level. It is past `startIndex` when that item is deeper. The html is the entries of the items one level deeper, each with its sub-list |
| Lists.ChildRun | monomd/index.js:160-164 | the run the recursive call covers is the one the entry's sub-list takes |
| Lists.ParseList | monomd/index.js:109-181 | classification, then the fold from parent level -1 inside the root tag |
| Lists.RootTag | monomd/index.js:177-180 | the list is `<ol>` exactly when its first item is ordered, and `<ul>` otherwise |
| Lists.OrphansSkipped | monomd/index.js:148-170 | items deeper than the next level that do not follow an emitted item are dropped without trace |
| Lists.FlatEntries | monomd/index.js:148-170 | items all at the next level give one closed `<li>` each, in order |
| Lists.NestedPair | monomd/index.js:160-165 | a deeper item after an item is nested inside it, with the tag of the deeper item's own kind |
| Scanner.HashRun | monomd/index.js:336 | the run of `#` at the front, stopping at the first other character |
| Scanner.HeadingOf | monomd/index.js:336 | a heading has a level from 1 to 6 and non-empty one-line text |
| Scanner.HeadingShape | monomd/index.js:336-340 | one to six `#`, blanks, and text not starting with a blank give a heading of that level with that text |
| Scanner.HeadingAt | monomd/index.js:336 | the heading pattern's verdict when text follows the run of blanks |
| Scanner.HeadingParts | monomd/index.js:336-339 | conversely, every heading is its level's `#`s, a non-empty run of blanks, and its text |
| Scanner.ChecklistIsBullet | monomd/index.js:359 | the checklist test adds nothing: every line it accepts is a bullet line already |
| Scanner.TestsExclusive | monomd/index.js:336-359 | no line is two of a heading, a quote line and a list line, so the order of the tests never matters |
| Scanner.QuoteRunEnd | monomd/index.js:349-352 | the run of quote lines is maximal: every line in it is a quote line, and the line after it is not |
| Scanner.ListRunEnd | monomd/index.js:362-374 | the list run is maximal: every line in it is a list line or a continuation, and the line after it is neither |
| Scanner.Grouped | monomd/index.js:362-374 | a list run yields at least one raw item |
| Scanner.GroupedJoin | monomd/index.js:364-368 | grouping loses and reorders nothing: the items joined with `\n` are the run's lines joined with `\n` |
| Scanner.GroupedCount | monomd/index.js:364-365 | there is one raw item per list line of the run |
| Scanner.IdsFrom | monomd/index.js:152 | one checkbox id per item of the run |
| Scanner.Step | monomd/index.js:332-385 | each step of the scanner moves the cursor strictly forward and never past the end |
| Scanner.StepHeading | monomd/index.js:336-342 | a heading line becomes one heading element and the cursor moves one line |
| Scanner.StepQuote | monomd/index.js:346-355 | a quote line that is not a heading takes the whole run of quote lines into one nested blockquote |
| Scanner.StepList | monomd/index.js:359-377 | a list line that is neither a heading nor a quote takes the whole list run into one list |
| Scanner.StepParagraph | monomd/index.js:380-384 | any other line becomes one paragraph with inline formatting |
| Scanner.ScanLines | monomd/index.js:328-385 | the `while` loop fills `processedLines` with the scanner's pieces |
| Scanner.ScanOne | monomd/index.js:333-384 | one pass of the loop body: the first test that matches decides the piece and how many lines it takes |
| Scanner.QuoteRun | monomd/index.js:347-352 | the inner loop collects exactly the maximal run of quote lines |
| Scanner.ListRun | monomd/index.js:360-374 | the inner loop collects exactly the grouped items of the maximal list run |
| Render.ApplyPass | monomd/index.js:216-325 | one pass pushes the blocks it lifts onto its own family's list and leaves the other lists alone |
| Render.LiftBlocks | monomd/index.js:214-325 | the seven passes run in order (code, image, internal link, info, warn, alert, table), each family's list starting empty |
| Render.RestoreAll | monomd/index.js:390-404 | the five restoration loops run in order: code, image, internal link, admonition, table |
| Render.NeedsTrigger | monomd/index.js:216-325 | no pass matches text that does not start with that pass's first character |
| Render.PassIdle | monomd/index.js:216-325 | a pass over text without its first character finds nothing and changes nothing |
| Render.LiftIdle | monomd/index.js:216-325 | none of the seven passes touches text without `` ` ``, `!`, `:` or `\|` |
| Render.PlainText | monomd/index.js:189-425 | text with no backslash, no block trigger and no blank line reaches the scanner unchanged; the body is the scanner's output with `!!BR!!` turned into `<br>` |
| Render.Unwrap | monomd/index.js:418 | a wrapped body is as long as the wrapped html minus the two tags |
| Render.UnwrapPackage | monomd/index.js:418-424 | the `html` field holds the body unchanged between the opening and the closing tag |
| Render.PackageStyle | monomd/index.js:415-424 | `css` is the style sheet exactly when it is asked for, and empty otherwise. `fullHTML` starts with a `<style>` element holding it exactly when it is asked for. `fullHTML` always ends with the wrapped body |
| Render.RenderMarkdown | monomd/index.js:189-425 | the whole conversion, step by step, equals the pipeline function `Body` wrapped by `Package` |

## Left out

- The browser branch of `escapeHtml` (monomd/index.js:13-16) calls the
  DOM, which is foreign code; only the non-browser branch is modelled.
- `getMonoMDCSS` is a fixed style-sheet string, so it is passed to
  `Render.RenderMarkdown` as the parameter `css`.
- `options.includeCSS !== false` becomes a boolean parameter. Every value
  other than `false` counts as true.
- Checkbox ids come from `Math.random` in the source. The model takes them
  from a function `ids`: item k of a list run that starts at line i gets
  `ids(i + k)`, the run's start plus the item's position. So the model does
  not capture that the ids are random or distinct.
- The `async` wrapper has no `await`, so it is a plain method. Module
  export glue and the console test harness are not part of this model.
- Strings are sequences of Unicode scalar values, not UTF-16 code units.
  No pattern of the core tells the two apart.
- JavaScript's `\s` and `trim()` use one shared set of blank characters,
  `Text.IsSpace`.
- Regular expressions are not modelled in general. Each of the core's
  patterns has its own scanner.
- Table.RenderTable: the header line's caption is removed as the literal
  text `[caption]`. The source builds a `RegExp` from the caption text, so
  a caption holding regular-expression metacharacters would behave
  differently.
- Blocks.RestoreBlocks: a block is inserted literally. In the source, a `$`
  pattern such as `$&` inside a block would be interpreted by `replace`.
  The model claims nothing for such blocks.
- Escapes.EscapeRoundTrip: the round trip is proved only for text without
  `!`. Text that spells a key, or the start of one, is restored as though
  it had been escaped (`Escapes.ForgedKey`).
- Blocks.PassRoundTrip: the round trip is proved only for text where no `!`
  outside the matches or inside a block can be taken for a placeholder.
  The proof covers one pass and its own family's restoration. It does not
  cover the list shared by the three admonition passes, or cross-family
  interference.
- Lists.ParseList: requires at least one item, as every call from the
  scanner has. The source would throw on an empty list at
  monomd/index.js:177.
- Table.RenderTable: the table pattern always has at least two lines, so
  the fallbacks for a missing header or alignment line are unreachable.
  These are the fallbacks where the source would throw on `undefined` at
  monomd/index.js:292-293.
- Text.Trim: its own contract states only the length. What `trim()` keeps
  and drops is stated by `Text.TrimShape` and `Text.TrimKeeps`, which
  keeps Trim cheap for the verifier wherever it appears.
- Render.RenderMarkdown: the end-to-end result is tied to the pipeline
  function `Body`. Its properties are proved stage by stage; end to end,
  only for plain text (`Render.PlainText`).
