# proceedings-md core, in Dafny

proceedings-md turns a Markdown paper into a `.docx` in a publisher's house
style. Pandoc converts the Markdown. The converter then does four things:

- it rewrites the Pandoc AST;
- it generates the document body from the mdast tree;
- it merges the paper's styles into the house template;
- it fills the template's placeholders from the YAML front matter.

This project models that core as Dafny values, functions, classes and
methods, and proves properties of the model.

| Module | File | What it models |
|---|---|---|
| `JsonMeta` | `json_meta.dfy` | The front-matter wrapper `DocumentJsonMeta`. It walks dotted paths with `__proto__` protection and JavaScript truthiness, and has typed accessors that fail with the path in their message. |
| `References` | `references.dfy` | `DocumentReferences`. It holds the section counter stack, the per-prefix reference numbering, and citations resolved against the `links` list. |
| `Strings` | `strings.dfy` | The JavaScript string operations the converter relies on: `split`, `join`, `indexOf`, `trim`, `replace` and `String(n)`. |
| `Attributes` | `attributes.dfy` | `parseAttributes`, the `{key=value …}` reader. |
| `Markdown` | `markdown.dfy` | The mdast passes: header references, position stripping, reference numbering and image attributes. |
| `Xml` | `xml.dfy` | The XML tree the converter edits. It covers pre-order walks, `getRawText`, `getParagraphText` and the small WordprocessingML builders. |
| `StyleReconcile` | `style_reconcile.dfy` | Style collection, collision renaming, the mapping table and style merging, as in `fixDocxStyles`. |
| `ListStyles` | `list_styles.dfy` | `applyListStyles` and `addNewNumberings`. |
| `Templates` | `templates.dfy` | Template substitution: placeholder paragraphs, authors, organizations, links, author details, page headers and inline templates. |
| `PandocPatch` | `pandoc_patch.dfy` | The Pandoc JSON rewrite `getPatchedMetaElement` and `fixCompactLists`. |
| `Generator` | `generator.dfy` | The body generator: `GenerationContext`, the block visitors, numbering creation, and the paragraph builders for authors, organizations, links and details. |
| `Wrappers` | `wrappers.dfy` | `Option` and `Result`. `Result` models a thrown `Error`. |

The program throws an `Error` for a missing or ill-typed front-matter
entry and for a missing or duplicated template placeholder. The model
returns these errors as values (`Result.Err`), so every operation that can
throw says when it does.

Heading numbers follow `getSection` (src/markdown/document-references.ts:23-34).
It subtracts `depthThreshold` (1) from a heading's depth. A depth-1
heading therefore empties the counter stack and gets no number. Depth-2
headings are the ones shown as "1.", "2.", … (`References.TopLevelUnnumbered`,
`References.NumberingExampleLabels`).

## Model

| member | source | states |
|---|---|---|
| JsonMeta.Message | src/document-json-meta.ts:70-79 | Every error message names the absolute path of the entry that failed ("… at path <path>"). |
| JsonMeta.Meta.GetChild | src/document-json-meta.ts:91-113 | The loop over the path components returns exactly the recursive walk `Child(p)`: an empty path gives the section itself. |
| JsonMeta.Meta.GetSection | src/document-json-meta.ts:20-23 | The new wrapper holds the value at the path and remembers the stored and relative paths joined by a dot. |
| JsonMeta.Meta.IsArray | src/document-json-meta.ts:25-29 | True exactly when the section exists and is an array. |
| JsonMeta.Meta.IsMap | src/document-json-meta.ts:31-35 | `isMap` holds exactly for a present object or `null`, whose `typeof` is "object". It never holds for an array. |
| JsonMeta.Meta.AsArray | src/document-json-meta.ts:37-47 | An absent section fails with "does not exist", and a non-array fails with "wrong type" naming the actual JavaScript type. Otherwise there is one wrapper per element, in order, each at path `<abs>.<index>`. |
| JsonMeta.Meta.GetKeys | src/document-json-meta.ts:49-57 | A falsy section (`undefined`, `null`, "", 0, false) fails with "does not exist". Any other non-map fails with "expected object" and its type. A map gives exactly its keys. |
| JsonMeta.Meta.GetString | src/document-json-meta.ts:59-68 | It fails with "does not exist" exactly when the child is falsy, the empty string included. It succeeds exactly for a non-empty string, which it returns. A wrong type is reported with the child's JavaScript type. |
| JsonMeta.Root | src/document-json-meta.ts:15-18 | A root wrapper has the empty path and the whole front matter as its section. |
| JsonMeta.EmptyPathIsSection | src/document-json-meta.ts:92 | `getChild("")` and `getSection("")` keep the section as it is. |
| JsonMeta.ProtoComponentIsAbsent | src/document-json-meta.ts:96-98 | A `__proto__` component anywhere in the path gives `undefined`, whatever comes before it. |
| JsonMeta.ProtoPathIsAbsent | src/document-json-meta.ts:91-98 | The same, for a dotted path given to `getChild`. |
| JsonMeta.BelowFalsyOrScalarIsAbsent | src/document-json-meta.ts:99-110 | Below a falsy value or a string, number or boolean, every non-empty path is absent. |
| JsonMeta.ArrayIgnoresNonNumeric | src/document-json-meta.ts:101-105 | On an array, a component that `parseInt` reads as NaN leaves the walk where it is. |
| JsonMeta.NavigateAppend | src/document-json-meta.ts:96-112 | Walking `a + b` is walking `a` and then walking `b` from where `a` ended. |
| JsonMeta.AbsPathComponents | src/document-json-meta.ts:81-89 | The components of the absolute path are the stored components followed by the relative ones. An empty side leaves the other unchanged. |
| JsonMeta.SectionsCompose | src/document-json-meta.ts:20-23 | `getSection(p).getChild(q)` reads the same value as `getChild(p.q)` and reports the same absolute path. |
| JsonMeta.KindsExclusive | src/document-json-meta.ts:25-35 | An absent section is neither an array nor a map, and no section is both. |
| JsonMeta.ParseInt | src/document-json-meta.ts:101-103 | `Number.parseInt` is NaN exactly when no digit of the radix follows the white space, the sign and the `0x` prefix. The empty string is NaN. |
| JsonMeta.DigitsValueOfNatToString | src/document-json-meta.ts:101-103 | The decimal digits of a number, read back, give the number. |
| JsonMeta.PrintedDigits | src/document-json-meta.ts:101-103 | A printed number has no `0x` prefix and is all decimal digits, which read back as the number. |
| JsonMeta.ParseIntNatToString | src/document-json-meta.ts:101-103 | `parseInt` reads back every index printed in a path (the `<abs>.<index>` paths of `asArray`). |
| JsonMeta.ParseIntNegated | src/document-json-meta.ts:101-103 | A minus sign before a printed number gives its negation. |
| JsonMeta.DigitPrefix | src/document-json-meta.ts:101-103 | The digit run `parseInt` reads is the longest prefix of digits of the radix. |
| References.DocumentReferences.constructor | src/markdown/document-references.ts:3-11 | A new object has an empty counter stack, no groups and the given metadata. |
| References.DocumentReferences.GetPrefixMap | src/markdown/document-references.ts:13-20 | It returns the prefix's group, created empty if missing, and stores it. The counters are untouched. |
| References.DocumentReferences.GetSection | src/markdown/document-references.ts:22-54 | The counter stack becomes `NextStack(old stack, depth)`, and the result is that stack's label. A non-empty id is stored under its prefix with the number, without the trailing dot. |
| References.DocumentReferences.GetReference | src/markdown/document-references.ts:56-67 | It returns the stored number of a known reference. A new reference gets the group's size plus one, and that number is stored. The counters are untouched. |
| References.DocumentReferences.GetCite | src/markdown/document-references.ts:69-81 | The result is `Cite(meta, reference)`: the one-based position of the first map link whose `id` matches. |
| References.Ones | src/markdown/document-references.ts:29 | Padding pushes `n` counters, each 1. |
| References.TopLevelUnnumbered | src/markdown/document-references.ts:23-34 | A heading of depth 1 or less clears the counters and gets no number. |
| References.NumberLength | src/markdown/document-references.ts:23-30 | After a heading, the stack has one counter per level below the top. Each counter is at least 1 or was kept from the old stack. |
| References.Stacks | src/markdown/document-references.ts:22-30 | A run of headings yields one counter stack per heading. |
| References.Labels | src/markdown/document-references.ts:32-53 | A run of headings yields one shown number per heading. |
| References.DottedOne | src/markdown/document-references.ts:36 | A single counter is printed as its decimal number. |
| References.DottedSnoc | src/markdown/document-references.ts:36 | One more counter appends a dot and its number. |
| References.NumberingExampleStacks | src/markdown/document-references.ts:22-30 | Headings of depths 1, 2, 3, 3, 4, 2, 3, 1 in a fresh document get the stacks [], [1], [1,1], [1,2], [1,2,1], [2], [2,1], []. |
| References.StackDeepens | src/markdown/document-references.ts:29 | Going one level deeper pushes a counter at 1. |
| References.StackCounts | src/markdown/document-references.ts:25-27 | At or above the current level, the stack is cut to the level and its last counter advances. |
| References.NumberingExampleLabels | src/markdown/document-references.ts:36-51 | Those stacks are shown as none, "1.", "1.1", "1.2", "1.2.1", "2." and "2.1". |
| References.LexLessIrreflexive | src/markdown/document-references.ts:22-30 | The order used for counter stacks is irreflexive. |
| References.LexLessTransitive | src/markdown/document-references.ts:22-30 | The order used for counter stacks is transitive. |
| References.LexLessAt | src/markdown/document-references.ts:22-30 | Stacks that agree up to a position and then differ upwards, or end there, are ordered. |
| References.NextStackIncreases | src/markdown/document-references.ts:22-30 | Every numbered heading's stack sorts strictly after the previous one. |
| References.StacksAfterStart | src/markdown/document-references.ts:22-30 | In a run of numbered headings, every stack sorts after the starting stack. |
| References.StacksIncrease | src/markdown/document-references.ts:22-30 | In a run of numbered headings the stacks strictly increase. |
| References.DottedPieces | src/markdown/document-references.ts:36 | Splitting a dotted number at the dots gives back the printed counters. |
| References.LabelDeterminesStack | src/markdown/document-references.ts:36-51 | A shown number determines the counter stack. |
| References.LabelLastChar | src/markdown/document-references.ts:49-51 | A level-1 number ends in a dot and a deeper one in a digit. |
| References.LabelInjective | src/markdown/document-references.ts:36-51 | Different counter stacks are shown as different numbers. |
| References.JoinSnoc | src/markdown/document-references.ts:36 | Joining one more piece appends the separator and the piece. |
| References.LastOfJoin | src/markdown/document-references.ts:36 | A join ends with the last character of its last piece. |
| References.NumbersDistinct | src/markdown/document-references.ts:22-54 | In a run of headings below the top level, every heading is numbered and no two share a number. |
| References.NumberLengthAt | src/markdown/document-references.ts:23-30 | The k-th heading of a run has one counter per level below the top. |
| References.SectionIdStored | src/markdown/document-references.ts:38-51 | A numbered heading's id is stored under its prefix, and its stored number plus the level-1 dot is the shown number. Other groups are unchanged. |
| References.ReferenceIdempotent | src/markdown/document-references.ts:56-67 | Looking a reference up again returns the same number and changes nothing. |
| References.ReferenceKeepsNumbered | src/markdown/document-references.ts:56-67 | A group numbered 1..n without repeats stays so, and stores the returned number. A new reference gets n + 1. |
| References.NewReferenceNumbered | src/markdown/document-references.ts:60-64 | Adding a new reference with number n + 1 keeps the group numbered 1..n + 1 without repeats. |
| References.ExamplePrefixes | src/markdown/document-references.ts:57 | The prefix of `fig:b` is `fig`. |
| References.ReferenceExample | src/markdown/document-references.ts:56-67 | `fig:b`, then `fig:a`, then `fig:b` are numbered 1, 2 and 1. |
| References.CiteFirstMatch | src/markdown/document-references.ts:70-75 | The first map link with the wanted id gives "[position]", counted from one. |
| References.CiteMissing | src/markdown/document-references.ts:70-80 | When no link matches (and every map link has a string id), the citation is "[?]". |
| References.CiteBadLink | src/markdown/document-references.ts:73 | A map link without a usable `id` before any match makes the citation fail with that link's error. |
| References.CiteNeedsLinks | src/markdown/document-references.ts:70 | Without a `links` array in the metadata, every citation fails. |
| Markdown.LineEnd | src/markdown/markdown.ts:31 | The line containing position `i` ends at the next line terminator, or at the end of the text. |
| Markdown.LastBrace | src/markdown/markdown.ts:31 | It finds the last `}` in a range, or says there is none. |
| Markdown.FirstMarker | src/markdown/markdown.ts:31 | It finds the first `{#` that has a closing brace later on its line, or says there is none. |
| Markdown.SpaceRunStart | src/markdown/markdown.ts:31 | `\s*` takes the whole run of white space before the marker. |
| Markdown.FindMarker | src/markdown/markdown.ts:31 | A match of `\s*{#(.*)}` lies inside the text, with `{#` before its `}`. |
| Markdown.MarkerDecomposes | src/markdown/markdown.ts:31-35 | The text splits into: the text before the match, the whole white-space run, `{#`, a one-line label, the last `}` of that line, and the rest. No earlier `{#` has a closing brace on its line. |
| Markdown.MarkerMatched | src/markdown/markdown.ts:31 | The match starts at the white-space run before the first usable `{#` and ends at the last `}` of that line. |
| Markdown.HeaderReference | src/markdown/markdown.ts:24-36 | Only headings change. A heading keeps its depth and its number of children. |
| Markdown.HeaderReferenceExtracts | src/markdown/markdown.ts:25-36 | When the last child is a text with a marker, the heading's id becomes the captured label. The other children are kept. The text becomes the part before and after the match, trimmed. |
| Markdown.HeaderReferenceUnchanged | src/markdown/markdown.ts:25-32 | A heading whose last child is not a text, or has no marker, is left as it is. |
| Markdown.ExampleFirstMarker | src/markdown/markdown.ts:31 | In `Intro {#sec:a}`, the only `{#` is at 6 and its `}` is at 13. |
| Markdown.ExampleFindMarker | src/markdown/markdown.ts:31 | In `Intro {#sec:a}`, the match starts at the space at 5 and captures `sec:a`. |
| Markdown.HeaderReferenceExample | src/markdown/markdown.ts:23-38 | `## Intro {#sec:a}` gets id `sec:a` and text `Intro`. |
| Markdown.ExampleTrimmed | src/markdown/markdown.ts:35 | Removing the marker from `Intro {#sec:a}` and trimming leaves `Intro`. |
| Markdown.RemovePositions | src/markdown/markdown.ts:40-44 | No node of the result has a position. |
| Markdown.RemovePositionsKeepsRest | src/markdown/markdown.ts:40-44 | Positions are the only thing removed: a tree without positions is unchanged. |
| Markdown.RemovePositionsIdempotent | src/markdown/markdown.ts:40-44 | Removing positions twice is removing them once. |
| Markdown.AddReferences | src/markdown/markdown.ts:46-57 | One `DocumentReferences` serves the whole document, and the heading visits happen in document order. |
| Markdown.AddReferencesTo | src/markdown/markdown.ts:50-56 | The walk's result and the numbering object's final counters and groups are those of `LabelNode`. |
| Markdown.LabelNodeStrips | src/markdown/markdown.ts:52-55 | Each heading gets exactly one new first child, and nothing else changes. |
| Markdown.LabelSeqStrips | src/markdown/markdown.ts:52-55 | The same, for a sequence of siblings. |
| Markdown.LabelTexts | src/markdown/markdown.ts:51-55 | A run of headings yields one label text per heading. |
| Markdown.FoldStackAppend | src/markdown/markdown.ts:50-56 | Numbering two runs of headings in turn is numbering their concatenation. |
| Markdown.LabelNodeNumbers | src/markdown/markdown.ts:50-56 | The prepended texts are the section numbers of the tree's heading depths in document order. The final counters are the fold of those depths. |
| Markdown.LabelSeqNumbers | src/markdown/markdown.ts:50-56 | The same, for a sequence of siblings. |
| Markdown.LabelTextsAreLabels | src/markdown/markdown.ts:51-55 | Each prepended text is the heading's shown number followed by a space, or "undefined " for an unnumbered heading. |
| Markdown.AddReferencesDistinct | src/markdown/markdown.ts:46-57 | In a document without depth-1 headings, no two headings get the same label. |
| Markdown.AbsorbSmaller | src/markdown/markdown.ts:91-108 | No child after the splice loop is larger than the children it came from. |
| Markdown.AbsorbPair | src/markdown/markdown.ts:95-107 | An image followed by a text that parses as attributes becomes one image carrying those attributes. The next pair starts after the removed text. |
| Markdown.AbsorbKeep | src/markdown/markdown.ts:95-97 | A pair that is not an image followed by a braced text is skipped. |
| Markdown.AbsorbTake | src/markdown/markdown.ts:99-107 | Taking a pair sets the image's attributes and removes the text. The next pair the loop examines starts at the element after the removed text. |
| Markdown.AbsorbDone | src/markdown/markdown.ts:91 | The loop ends when no pair is left. |
| Markdown.AbsorbKeepsOthers | src/markdown/markdown.ts:91-108 | Only texts are removed, and every other child keeps its order. |
| Markdown.AbsorbCount | src/markdown/markdown.ts:91-108 | When no image had attributes before, one text was removed for each image that now has them. |
| Markdown.AbsorbExample | src/markdown/markdown.ts:88-111 | `![](u){a=1}` becomes one image with attribute `a` = "1". |
| Markdown.ParseImageAttrs | src/markdown/markdown.ts:88-111 | The walk gives `ImageAttrs(n)`: first the splice loop on each parent, then each of the new children. |
| Markdown.ParseImageAttrsChildren | src/markdown/markdown.ts:89-90 | Each child is rewritten by `ImageAttrs`, in order. |
| Markdown.AbsorbAttributeTexts | src/markdown/markdown.ts:91-108 | The `for` loop with its `splice` computes `Absorb` with `parseAttributes`. |
| Markdown.PostProcess | src/markdown/markdown.ts:113-125 | The passes run in this order: header references, positions removed, references added, image attributes. |
| Attributes.KeyRunEnd | src/markdown/markdown.ts:63 | `[\w0-9_-]*` takes the longest run of key characters. |
| Attributes.NonSpaceEnd | src/markdown/markdown.ts:63 | `\S*` takes the longest run of non-space characters. |
| Attributes.QuotedEnd | src/markdown/markdown.ts:63 | The lazy quoted body ends at a matching quote that no backslash pair consumed. |
| Attributes.MatchAt | src/markdown/markdown.ts:63 | A match starts with a non-empty key, followed by `=`, and lies inside the text. |
| Attributes.NextMatch | src/markdown/markdown.ts:68 | Each match `exec` returns ends past `lastIndex`, so the global loop ends. |
| Attributes.NextMatchLeftmost | src/markdown/markdown.ts:63-68 | `exec` returns the leftmost match at or after `lastIndex`, and nothing exactly when no position from there on matches. |
| Attributes.AttributesOf | src/markdown/markdown.ts:59-86 | There is a result exactly when the text starts with `{` and ends with `}`. |
| Attributes.ParseAttributes | src/markdown/markdown.ts:59-86 | The method computes `AttributesOf`: the braces are removed, then every match is assigned in turn. |
| Attributes.AssignMatches | src/markdown/markdown.ts:65-85 | The `exec` loop assigns every match of the expression, in order. |
| Attributes.MatchesStep | src/markdown/markdown.ts:68 | Each `exec` moves one match from those still to come to those already seen. |
| Attributes.AssignSnoc | src/markdown/markdown.ts:82 | Assigning one more match updates only that key. |
| Attributes.LastAssignmentWins | src/markdown/markdown.ts:68-83 | A key is present exactly when some match names it, and its value comes from the last such match. |
| Attributes.AssignDomain | src/markdown/markdown.ts:82 | A key is assigned exactly when some match names it. |
| Attributes.AssignLast | src/markdown/markdown.ts:82 | The last match naming a key gives its value. |
| Attributes.LaterDuplicateOverwrites | src/markdown/markdown.ts:82 | A later duplicate key overwrites the earlier value. |
| Attributes.QuotedVerbatim | src/markdown/markdown.ts:72-80 | A quoted value is stored as written, escapes included. |
| Attributes.JsonUnescapePlain | src/markdown/markdown.ts:74 | A token without backslashes, quotes or control characters reads as itself under `JSON.parse`. |
| Attributes.SingleUnquoted | src/markdown/markdown.ts:59-86 | `{k=v}` with an unquoted value stores `JSON.parse` of `v` under `k`, or `v` as written when `JSON.parse` throws. Nothing else is stored. |
| Attributes.SinglePlainUnquoted | src/markdown/markdown.ts:59-86 | `{k=v}` where `v` has no backslash, quote, control character or space stores `v` itself under `k`. |
| Attributes.SingleEmpty | src/markdown/markdown.ts:59-86 | `{k=}` stores `undefined` under `k`. |
| Attributes.UnquotedMatch | src/markdown/markdown.ts:63 | `k=v` with an unquoted `v` is one match covering the whole text, with `v` as its token. |
| Attributes.Braced | src/markdown/markdown.ts:60-61 | A braced text passes the brace test, and the slice gives back the text between the braces. |
| Attributes.KeyThenEquals | src/markdown/markdown.ts:63 | `(\w[\w0-9_-]*)=` reads a whole key that is followed by `=`. |
| Attributes.QuotedEndScan | src/markdown/markdown.ts:63 | The quoted body ends at the first quote at or after its start that is not preceded by an odd run of backslashes, provided no earlier pair-opening backslash is dangling. There is no end exactly when every such quote comes after a dangling backslash. |
| Attributes.EscapedShift1 | src/markdown/markdown.ts:63 | A character other than a backslash does not change which later positions are escaped. |
| Attributes.EscapedShift2 | src/markdown/markdown.ts:63 | A backslash pair does not change which later positions are escaped. |
| Attributes.ExampleUnquoted | src/markdown/markdown.ts:59-86 | `{a=1}` gives `a` = "1". |
| Attributes.ExampleQuoted | src/markdown/markdown.ts:59-86 | `{w='x y'}` gives `w` = "x y", keeping the space. |
| Attributes.ExampleEmpty | src/markdown/markdown.ts:59-86 | `{c=}` gives `c` = `undefined`. |
| Strings.DigitChar | src/markdown/document-references.ts:62 | A printed digit is a decimal digit character. |
| Strings.NatToString | src/markdown/document-references.ts:62 | `String(n)` is never empty, and has at least two digits from 10 on. |
| Strings.NatToStringDigits | src/markdown/document-references.ts:62 | `String(n)` of a non-negative integer prints only digits. |
| Strings.NatToStringInjective | src/markdown/document-references.ts:62 | Different numbers are printed differently. |
| Strings.Split | src/document-json-meta.ts:96 | `split` on one character gives at least one piece, and no piece contains the separator. |
| Strings.JoinSplit | src/document-json-meta.ts:96 | Splitting and re-joining with the same separator gives back the string. |
| Strings.SplitAround | src/document-json-meta.ts:96 | Splitting `a + c + b` at `c` is splitting `a` and then splitting `b`. |
| Strings.SplitAroundStep | src/document-json-meta.ts:96 | The first character of `a` either joins the first piece of the rest or starts an empty piece. |
| Strings.SplitWithout | src/document-json-meta.ts:96 | A string without the separator is one piece. |
| Strings.SplitJoin | src/markdown/document-references.ts:36 | Joining pieces that do not contain the separator, then splitting, gives back the pieces. |
| Strings.BeforeFirst | src/markdown/document-references.ts:39 | `split(":")[0]` never contains `:`. |
| Strings.BeforeFirstAt | src/markdown/document-references.ts:57 | `split(":")[0]` is exactly the text before the first `:`. |
| Strings.IndexOfFrom | src/main.ts:326 | `indexOf` finds an occurrence at or after the start, and none before it. When it finds nothing, there is no occurrence from the start on. |
| Strings.ContainsAt | src/main.ts:326 | An occurrence anywhere makes `indexOf` succeed. |
| Strings.ContainsSelf | src/main.ts:326 | A string contains itself. |
| Strings.ExpandPlain | src/main.ts:317 | A replacement text without `$` is inserted as it is. |
| Strings.ReplaceFirst | src/main.ts:317 | Without an occurrence of the pattern, `replace` leaves the text unchanged. |
| Strings.ReplaceFirstPlain | src/main.ts:317 | Only the first occurrence is replaced, by the literal replacement text, and the rest of the text is kept. |
| Strings.TrimStart | src/markdown/markdown.ts:35 | It removes exactly the leading white space. |
| Strings.TrimEnd | src/markdown/markdown.ts:35 | It removes exactly the trailing white space. |
| Strings.TrimUnchanged | src/markdown/markdown.ts:35 | A string that neither starts nor ends with white space is its own trim. |
| Xml.SetAttr | src/main.ts:193 | The tag and children are kept, the attribute reads back as set, and every other attribute is unchanged. |
| Xml.AppendChildrenTwice | src/generator/generator.ts:34-38 | Appending twice is appending the concatenation. |
| Xml.RemoveChildren | src/main.ts:188 | No direct child with the removed tag remains, and a node is kept exactly when it is a child without that tag. |
| Xml.RemoveChildrenAppend | src/main.ts:188 | The kept children stay in their order: removing distributes over concatenation. |
| Xml.PushIntoChild | src/main.ts:434-435 | The first child with the tag gains `c` as its last child, and every other child is unchanged. |
| Xml.RemoveChildrenSize | src/main.ts:188 | Removing children does not make a child list larger. |
| Xml.FlattenSeqAppend | src/main.ts:296 | The pre-order of two sibling runs is the pre-order of each, one after the other. |
| Xml.TextsOfAppend | src/main.ts:296-298 | The texts of two runs are concatenated in order. |
| Xml.RawTextIsPreOrder | src/main.ts:293-301 | The raw text of a subtree is the text of its text nodes, in the pre-order in which `visitSubtree` meets them. |
| Xml.RawTextSeqIsPreOrder | src/main.ts:293-301 | The same, for a sequence of siblings. |
| Xml.RunTextsOfAppend | src/main.ts:286-288 | The `w:t` texts of two runs are concatenated in order. |
| Xml.ParagraphTextIsPreOrder | src/main.ts:283-291 | A paragraph's text is the raw text of its `w:t` elements, in pre-order. |
| Xml.ParagraphTextSeqIsPreOrder | src/main.ts:283-291 | The same, for a sequence of siblings. |
| Xml.GetRawText | src/main.ts:293-301 | The walk that appends each text node's value computes `RawText`, the pre-order text of the subtree. |
| Xml.GetParagraphText | src/main.ts:283-291 | The walk that appends each `w:t` element's raw text computes `ParagraphText`. |
| Xml.RunTagText | src/main.ts:387-388 | A run built from a text reads as that text, whether or not it carries style elements without text. |
| Xml.ParagraphTextSeqEmpty | src/main.ts:283-291 | Siblings that hold no `w:t` contribute no text. |
| Xml.ParagraphTextSeqAppend | src/main.ts:283-291 | The text of two sibling runs is concatenated in order. |
| Xml.RewritePreOrder | src/main.ts:79-88 | A walk that only edits attributes keeps the pre-order node for node. Each node of the result is the edit of the node at the same position. |
| Xml.RewriteSeqPreOrder | src/main.ts:79-88 | The same, for a sequence of siblings. |
| StyleReconcile.Get | src/main.ts:599-613 | `Map.get` gives a value exactly for a present key, and that value is the stored one. |
| StyleReconcile.Lookup | src/main.ts:103 | `styles.get(id)` gives a definition of the table with that id. When it gives nothing, no definition has that id. |
| StyleReconcile.Refs | src/main.ts:28-37 | A style's references are exactly its present `w:basedOn`, `w:link` and `w:next` ids. |
| StyleReconcile.RefIds | src/main.ts:109-111 | Every id some definition refers to is collected. |
| StyleReconcile.AddToSet | src/main.ts:95 | `Set.add` keeps the set free of repeats and keeps the old elements in front. The set gains exactly the added element. |
| StyleReconcile.AddAllSpec | src/main.ts:118-120 | Adding several elements keeps the set free of repeats and keeps what it had in front. The set gains exactly the added elements. |
| StyleReconcile.NoDupBound | src/main.ts:122-126 | A set is no larger than the universe it is drawn from, which bounds the `do … while` loop. |
| StyleReconcile.StyleUses | src/main.ts:48-57 | The collected nodes are exactly the `w:pStyle` and `w:rStyle` elements of the walk. |
| StyleReconcile.GetUsedStyles | src/main.ts:90-99 | The result holds each `w:val` the document uses exactly once (`undefined` included), in order of first use. |
| StyleReconcile.NotFoundMessage | src/main.ts:106 | The thrown message reads "Style id … not found". |
| StyleReconcile.Present | src/main.ts:109-111 | Each referred id is added as itself. |
| StyleReconcile.ClosedUpToStep | src/main.ts:102-112 | Handling one more member keeps the processed prefix defined and closed under references. |
| StyleReconcile.ClosedUpToAll | src/main.ts:102-112 | Once every member is processed, the set is closed under references. |
| StyleReconcile.StepKeeps | src/main.ts:109-111 | One step keeps the set free of repeats, inside the universe and with its old prefix. The step's references become members. |
| StyleReconcile.PopulateStyles | src/main.ts:101-113 | The set grows to exactly the ids reachable from the start through base, linked and next styles. Each added id is referred to by an earlier member, and the result is closed. The call succeeds exactly when every reachable id is defined; otherwise it throws "Style id … not found" for a reachable undefined id. |
| StyleReconcile.GetUsedStylesDeep | src/main.ts:115-129 | The result, free of repeats, is exactly the set of ids reachable from the used and required styles, and it is closed under references. The call succeeds exactly when every reachable id is defined; otherwise it throws for a reachable undefined id (`undefined` only when a style use has no `w:val`). |
| StyleReconcile.DerivedStep | src/main.ts:109-111 | One step adds only ids the handled member refers to, so every member stays reachable from the start. |
| StyleReconcile.DerivedTrans | src/main.ts:121-125 | Repeating `populateStyles` keeps every member reachable from the first start set. |
| StyleReconcile.ReachableIn | src/main.ts:101-113 | A closed set that holds the start holds everything reachable from it. |
| StyleReconcile.ReachableBound | src/main.ts:101-113 | A reachable id is a start id or one some definition refers to. |
| StyleReconcile.Unwrap | src/main.ts:147-154 | A closed set has no `undefined` member, so its ids can be read as strings one to one. |
| StyleReconcile.AliasInjective | src/main.ts:142 | Different positions get different `template-<n>` ids. |
| StyleReconcile.AddCollisionPatch | src/main.ts:141-145 | The id is mapped to `template-<table size>`, and that new id is returned. |
| StyleReconcile.GetMappingTable | src/main.ts:147-154 | Exactly the used styles are keys. The i-th used style in set order maps to `template-<i>`, and no two styles share an alias. |
| StyleReconcile.MappingStep | src/main.ts:149-151 | One more style keeps the table's keys, size and aliases in step with the prefix handled. |
| StyleReconcile.MappingKeys | src/main.ts:149-151 | One more style adds exactly its key, and the size grows by one. |
| StyleReconcile.AliasesDistinct | src/main.ts:141-154 | Distinct positions give distinct aliases in the table. |
| StyleReconcile.PatchStyleDefinitions | src/main.ts:69-77 | Each renamed definition is removed and added back under its new id, so it moves behind the definitions that keep their id. |
| StyleReconcile.PatchedDefinitionsPermutes | src/main.ts:69-77 | The patched table holds every definition once, renamed where the map says so, and nothing else. |
| StyleReconcile.SplitLast | src/main.ts:69-77 | The last definition is renamed or not independently of the rest. |
| StyleReconcile.MultisetOfParts | src/main.ts:72-74 | Moving a definition behind the others does not change the table's contents. |
| StyleReconcile.PatchRef | src/main.ts:84-86 | A present, non-empty id that the map knows becomes the mapped value (`undefined` included). Any other id is unchanged. |
| StyleReconcile.PatchStyleUseReferences | src/main.ts:79-88 | Every style use in the document is redirected, and so is the `w:basedOn`, `w:link` and `w:next` of every definition. The table keeps its length. |
| StyleReconcile.PatchDocUsesPreOrder | src/main.ts:79-88 | Node for node, in pre-order: a `w:pStyle` or `w:rStyle` whose `w:val` the map knows gets the mapped value, and every other node is unchanged. |
| StyleReconcile.PatchCrossRefsKeepsIds | src/main.ts:79-88 | Patching references keeps every definition's id and name, so ids stay unique. |
| StyleReconcile.TemplateStyles | src/main.ts:59-67 | Exactly the definitions whose id starts with `template-` are extracted. |
| StyleReconcile.ExtractTemplateStyles | src/main.ts:59-67 | The loop extracts those definitions in table order, and each extracted id starts with `template-`. |
| StyleReconcile.IdsByName | src/main.ts:131-139 | The keys are exactly the names of the definitions. |
| StyleReconcile.GetStyleIdsByName | src/main.ts:131-139 | The loop builds `IdsByName`. |
| StyleReconcile.IdsByNameLast | src/main.ts:134-136 | The last definition with a name gives the id that the name maps to. |
| StyleReconcile.IdsByNameSource | src/main.ts:131-139 | Every name maps to the id of some definition with that name. |
| StyleReconcile.IdsByNameInjective | src/main.ts:131-139 | In a table with unique ids, different names map to different ids. |
| StyleReconcile.RemoveCollided | src/main.ts:231-239 | Exactly the definitions whose id is not in the set remain, and ids stay unique. |
| StyleReconcile.RemoveCollidedStyles | src/main.ts:231-239 | The loop computes `RemoveCollided`. |
| StyleReconcile.AddStyle | src/main.ts:640 | The new definition is present, no other definition appears, and those with other ids stay. Ids stay unique. |
| StyleReconcile.OnlyOldOrAddedStep | src/main.ts:640 | One more `addStyle` brings in only the added definition. |
| StyleReconcile.LastAddedPresentStep | src/main.ts:640 | One more `addStyle` keeps the last added definition for each other id. |
| StyleReconcile.OldKeptStep | src/main.ts:640 | One more `addStyle` keeps every old definition whose id differs. |
| StyleReconcile.AddStyles | src/main.ts:639-641 | After adding each copy, the last copy for each id is present and the generated document's untouched styles stay. Nothing else appears, and ids stay unique. |
| StyleReconcile.ResolveCollisions | src/main.ts:624-636 | Every id of the generated document whose name a copy shares is removed. It is redirected to the copy, unless the explicit table already redirects it, and explicit entries are kept. |
| StyleReconcile.RemoveStep | src/main.ts:628-635 | One name adds the generated document's id for it, when it collides, to the removed ids. |
| StyleReconcile.RedirectKeys | src/main.ts:628-635 | One name adds the generated document's colliding id for it to the patch keys. |
| StyleReconcile.RedirectKeepsTable | src/main.ts:631-633 | One name leaves the explicit table's entries alone. |
| StyleReconcile.RedirectValues | src/main.ts:628-635 | One name redirects its id and keeps the earlier names' redirections. |
| StyleReconcile.PatchRules | src/main.ts:645-649 | Ordered lists use numbering 33 with `ispNumList`, bullets use 43 with `ispList1`, and literature lists use 80 with `ispLitList`. |
| StyleReconcile.Names | src/main.ts:624-626 | The names listed are exactly those of the definitions. |
| StyleReconcile.Present2 | src/main.ts:593-594 | Every mapping-table entry is a present value. |
| StyleReconcile.CollidedStep | src/main.ts:628-635 | The colliding ids of one more name are the earlier ones plus the generated document's id for it, if there is one. |
| StyleReconcile.RenameUsedStyles | src/main.ts:573-597 | The styles the template `isp-reference.docx` (`source`) uses in its body, together with the required house styles, are renamed to `template-<i>` and copied out. Every copy's id starts with `template-`. A missing used or required style throws. |
| StyleReconcile.NoHeadingIsTemplate | src/main.ts:615-622 | No `template-` id is one of the removed `Heading4`–`Heading9`. |
| StyleReconcile.MergeInto | src/main.ts:599-651 | The style table of Pandoc's output (`target`) receives the template's copies and loses `Heading4`–`Heading9`. The list rules are built from the copies' names. |
| StyleReconcile.MergeStyles | src/main.ts:573-651 | The whole merge copies the template's styles into Pandoc's output and keeps `Heading4`–`Heading9` out of the output's styles. It builds the list rules with numberings 33, 43 and 80. A missing style throws. |
| ListStyles.PushedStyleUnaffected | src/main.ts:183-226 | The appended `w:pStyle`, when the walk reaches it, changes neither itself nor the state. |
| ListStyles.ListStyler.constructor | src/main.ts:177-181 | The walk starts with no saved contexts, no current list, id 10000 and no numbering entries. |
| ListStyles.ListStyler.EnterList | src/main.ts:202-207 | The current context is pushed, and a new list with the next id becomes current. Its numbering entry is recorded. |
| ListStyles.ListStyler.OnListComment | src/main.ts:196-223 | The three `ListMode` tests run independently, in the source's order. |
| ListStyles.ListStyler.Visit | src/main.ts:183-226 | Visiting a node and then its children gives the node and state that `ListPass` defines. |
| ListStyles.ListStyler.VisitChildren | src/main.ts:183-226 | The children are walked left to right, threading the state. |
| ListStyles.SizeSeqBound | src/main.ts:183 | Each child is smaller than the list of children, so the walk ends. |
| ListStyles.ApplyListStyles | src/main.ts:175-229 | It returns the restyled document and the numbering entries of the pre-order walk. |
| ListStyles.NumberedStart | src/main.ts:180-181 | At the start, ids are numbered from 10000 and no entries exist. |
| ListStyles.EnterKeepsNumbered | src/main.ts:202-207 | Opening a list hands out the next id and records it with the rule's numbering. |
| ListStyles.OnCommentKeepsNumbered | src/main.ts:196-223 | A comment only appends numbering entries, and ids stay consecutive from 10000. |
| ListStyles.ListPassKeepsNumbered | src/main.ts:183-226 | The walk only appends numbering entries, and ids stay consecutive from 10000. |
| ListStyles.ListPassSeqKeepsNumbered | src/main.ts:183-226 | The same, for a sequence of siblings. |
| ListStyles.NewNumberingIdsDistinct | src/main.ts:180-216 | The numbering ids the walk creates are pairwise different, so the `Map` of new styles loses no entry. |
| ListStyles.EnterLeave | src/main.ts:201-222 | A list that is opened and closed again restores the enclosing context. The id counter has advanced. |
| ListStyles.OpeningComment | src/main.ts:201-216 | An opening comment makes the new list current with the next id, saves the old context and records the numbering. |
| ListStyles.OrderedLacksOthers | src/main.ts:201-222 | The ordered-list comment triggers neither of the other two tests. |
| ListStyles.BulletLacksOthers | src/main.ts:201-222 | The bullet-list comment triggers neither of the other two tests. |
| ListStyles.ClosingComment | src/main.ts:219-222 | `ListMode None` restores the saved context. |
| ListStyles.NotContains | src/main.ts:201 | A text that lacks one of the pattern's characters does not contain the pattern. |
| ListStyles.OccurrenceHasChars | src/main.ts:201 | Every character of an occurring pattern is in the text. |
| ListStyles.ParagraphPropertiesRestyled | src/main.ts:186-190 | Inside a list, the paragraph properties lose their old `w:pStyle`, and the list's style becomes the last child. Before it come the other properties, in their order, as the walk leaves them. |
| ListStyles.ListPassOutsideList | src/main.ts:183-226 | Outside any list, a subtree without `ListMode` comments comes back unchanged and leaves the state alone. |
| ListStyles.ListPassSeqOutsideList | src/main.ts:183-226 | The same, for a sequence of siblings. |
| ListStyles.NumIdRetargeted | src/main.ts:192-194 | Inside a list, a `w:numId` refers to the list's own id. |
| ListStyles.ListPassKeepsTag | src/main.ts:183-226 | The walk keeps every node's kind and tag. |
| ListStyles.ListPassSeqKeepsTags | src/main.ts:183-226 | Siblings keep their number and which of them are `w:pStyle`. |
| ListStyles.LevelRestarts | src/main.ts:262-271 | There are nine overrides, and level i restarts at 1. |
| ListStyles.AddNewNumberings | src/main.ts:253-281 | One `w:num` per new style is appended, in order, after the existing children. Each declares the new id as an instance of the old numbering, with all nine levels restarting. |
| Templates.FailureMessage | src/main.ts:336-348 | The error for a missing or non-exclusive placeholder names the placeholder. |
| Templates.ElementReaders | src/main.ts:401 | A failed `asArray` propagates its error. Otherwise there is one reader per element, and each reads that element's `getString`. |
| Templates.Reads | src/main.ts:367-401 | The template code reads the front matter only through `getString` and `getSection(…).asArray()`; the stand-in `Source` built from a `JsonMeta` answers each with the `JsonMeta` reader of the same path. |
| Templates.PrependNil | src/main.ts:390 | Prepending nothing changes nothing. |
| Templates.PrependAppend | src/main.ts:390 | Prepending twice is prepending the concatenation. |
| Templates.GatherLength | src/main.ts:452-462 | When each item yields k paragraphs, the whole list has k per item. |
| Templates.GatherAt | src/main.ts:452-462 | Paragraph l of item a is found at `a * k + l`. |
| Templates.FirstWithPattern | src/main.ts:321-334 | It finds a child at or after the start whose paragraph text contains the pattern, with none before it from the start, or says no child does. |
| Templates.FirstWithPatternIsFirst | src/main.ts:324-331 | The search from 0 returns exactly the first child whose text contains the pattern. |
| Templates.FindParagraphWithPattern | src/main.ts:321-334 | The `visitChildren` loop, stopping at the first match, computes `FirstWithPattern`. A start of -1 is taken to search from 0. |
| Templates.StrictIndex | src/main.ts:336-348 | Success means the first paragraph containing the pattern holds exactly the pattern. The error is "should have pattern" exactly when no paragraph contains it. The error is "should be the only text" exactly when the first paragraph that contains it holds more. |
| Templates.FindParagraphWithPatternStrict | src/main.ts:336-348 | The method computes `StrictIndex`. |
| Templates.Splice | src/main.ts:355-356 | `removeChild([i])` then `insertChildren(xs, [i])` puts `xs` in place of child i and keeps the rest around it. |
| Templates.SpliceAt | src/main.ts:355-356 | The k-th inserted node sits at `i + k`. |
| Templates.PlaceholderMustBeExclusive | src/main.ts:343-345 | A paragraph that has text around a placeholder is refused. |
| Templates.TextParagraphText | src/main.ts:342 | A one-run paragraph reads as its text. |
| Templates.BodyContents | src/main.ts:350-357 | It fails exactly when the strict search for `{{{body}}}` fails. Otherwise the body's children replace that paragraph, and the rest stays in order. |
| Templates.TemplateReplaceBodyContents | src/main.ts:350-357 | The method computes `BodyContents`. |
| Templates.AuthorParagraphsStep | src/main.ts:375-393 | The first author's paragraph comes first, or the first author's failure is the outcome. |
| Templates.AuthorParagraphsShape | src/main.ts:375-393 | There is one paragraph per author, in order, numbered from the start index. Each is the cleared placeholder with a superscript index run and `name, ORCID: orcid, <email>`. |
| Templates.IndexedParagraphText | src/main.ts:384-388 | An author paragraph reads as: what is left of the placeholder, then the index, then the line. |
| Templates.IndexedRunsText | src/main.ts:387-388 | The superscript index run and the line run add the index and then the line to the text. |
| Templates.AuthorsForValue | src/main.ts:367-397 | A successful language step found its placeholder strictly, and spliced in the author paragraphs numbered from 1. |
| Templates.AuthorsReplacePlaceholder | src/main.ts:367-397 | The authors of a language replace its placeholder, and everything else stays in order. Author k's paragraph has index k + 1 and that author's line. |
| Templates.OrganizationsPlaceholderRemoved | src/main.ts:399-422 | The organization placeholder paragraph is removed and nothing is put in its place, because the loop never adds the paragraphs it builds. |
| Templates.AuthorParagraphsFor | src/main.ts:371-393 | The author loop computes the paragraphs numbered from 1. |
| Templates.CheckOrganizations | src/main.ts:408-418 | Every organization is read as a string, which can throw, and the values are dropped. |
| Templates.TemplateAuthorList | src/main.ts:363-423 | The method computes `AuthorList`. |
| Templates.ReplaceAuthorPlaceholders | src/main.ts:367-397 | The first loop handles the author placeholders of each language in turn. |
| Templates.RemoveOrganizationPlaceholders | src/main.ts:399-422 | The second loop handles the organization placeholders of each language in turn. |
| Templates.LinkParagraphsEach | src/main.ts:432-439 | There is one paragraph per link, in order. Each has the literature-list style, level 0 of its numbering and the link's text. |
| Templates.TemplateReplaceLinks | src/main.ts:425-443 | The method computes `ReplaceLinks`. |
| Templates.AuthorDetailsLength | src/main.ts:453-461 | Each author gets one detail paragraph per language. |
| Templates.AuthorDetailsEach | src/main.ts:453-461 | Detail paragraph l of an author is the cleared placeholder holding that author's `details_<language>` line. |
| Templates.DetailParagraphsOrder | src/main.ts:452-462 | The order is author-major: author a's paragraph in language l is number `a * 2 + l`. |
| Templates.AuthorDetailParagraphs | src/main.ts:453-461 | The inner loop builds one author's lines, language by language. |
| Templates.TemplateReplaceAuthorsDetail | src/main.ts:445-466 | The method computes `AuthorsDetail`. |
| Templates.FilterNoPattern | src/main.ts:304-309 | No kept child's text contains the marker. |
| Templates.FilterAppend | src/main.ts:304-309 | Filtering distributes over concatenation. |
| Templates.FilterKeepsUnmarked | src/main.ts:304-309 | Children without the marker are all kept, in order. |
| Templates.FilterSkipsMarked | src/main.ts:305-308 | Deleting one marked child does not change which children survive. |
| Templates.FilterMarkedHead | src/main.ts:305-308 | A marked first child is dropped. |
| Templates.RemoveParagraphsWithPattern | src/main.ts:304-309 | For `@none`, removing and stepping back until nothing is found leaves exactly the children without the marker. |
| Templates.ReplaceInlineTemplate | src/main.ts:303-313 | It removes the marked paragraphs for `@none`, and otherwise replaces the marker's first occurrence in every text node. |
| Templates.ReplaceTextUnmarked | src/main.ts:315-319 | A subtree without the marker is left as it is. |
| Templates.ReplaceTextMarked | src/main.ts:315-319 | In a text node holding the marker, a value without `$` replaces its first occurrence literally. |
| Templates.HeaderParts | src/main.ts:480-483 | Every header part gets both page-header markers replaced, Russian first. |
| Templates.ReplaceHeaderParts | src/main.ts:480-483 | The loop over the header parts computes `HeaderParts`. |
| Templates.ReplacePageHeaders | src/main.ts:468-484 | The method computes `PageHeaders`. |
| Templates.PageHeaderUsesCitation | src/main.ts:472-474 | A Russian page header set to `@use_citation` shows the Russian citation line. |
| Templates.LangRow | src/main.ts:496-497 | Each language gives `template_language`, in order. |
| Templates.LangNames | src/main.ts:493-501 | There is one name per template and language. |
| Templates.InlineAllAppend | src/main.ts:495-501 | Substituting two lists of templates is substituting the first, then the second. |
| Templates.ReplaceTemplateLangs | src/main.ts:496-500 | The inner loop substitutes one template in every language. |
| Templates.ReplaceTemplates | src/main.ts:486-506 | The steps run in this order: body, author list, inline templates in template-major order, then author details. The first failure stops it. |
| Templates.PatchRelIdsPreOrder | src/main.ts:515-526 | Node for node, in pre-order, each element's `r:id` and `r:embed` are renamed when the map knows them, and nothing else changes. |
| PandocPatch.Size | src/main.ts:748-794 | Every JSON value has a positive size, which measures the recursion. |
| PandocPatch.SizeSeqAppend | src/main.ts:752-759 | The size of two runs of elements is the sum of their sizes. |
| PandocPatch.SizeSeqElement | src/main.ts:752-759 | An element is no larger than its array. |
| PandocPatch.SizeSeqUpdate | src/main.ts:704-710 | Replacing an element with one of the same size keeps the array's size. |
| PandocPatch.FieldOf | src/main.ts:768-769 | A property's value is no larger than the object. |
| PandocPatch.SetFieldOf | src/main.ts:707 | Assigning an existing property sets it and leaves the others unchanged. |
| PandocPatch.Promote | src/main.ts:705-708 | Making an item loose changes only a type name, so its size and kind are kept. |
| PandocPatch.PromoteOrderedItems | src/main.ts:699-710 | Making an ordered list's items loose keeps the list's type and size. |
| PandocPatch.PromoteAll | src/main.ts:704-708 | Each item is made loose, in order. |
| PandocPatch.Patch | src/main.ts:748-794 | The result is an array exactly when the value was an array or a list. A list becomes three elements between its `ListMode` sentinels. A string, number, boolean or `null` is returned unchanged. |
| PandocPatch.PatchSeq | src/main.ts:749-762 | Each element contributes one to three elements to the new array, so its length lies between the old length and three times it. |
| PandocPatch.DivCaption | src/main.ts:766-781 | Only a `Div` can become a caption, and a caption is a `RawBlock` injection. |
| PandocPatch.CaptionDivReplaced | src/main.ts:766-781 | A `Div` with class `img-caption` becomes the image caption of `c[1]`. Otherwise one with `table-caption` or `listing-caption` becomes a listing caption. Any other `Div` has each of its properties rewritten. |
| PandocPatch.Bracketed | src/main.ts:712-716 | The list is returned between the `ListMode <type>` and `ListMode None` raw blocks. |
| PandocPatch.PatchFields | src/main.ts:787-791 | Every property keeps its key and its place. |
| PandocPatch.FixCompactListsAsWritten | src/main.ts:699-717 | As written: each element of `c` is made loose and rewritten by `getPatchedMetaElement` as written, so nested lists also go through this function. The list is bracketed by `ListMode <type>` and `ListMode None` raw blocks. |
| PandocPatch.FixedList | src/main.ts:704-710 | The list keeps its type, and its `c` holds each element made loose and then rewritten. |
| PandocPatch.FixItems | src/main.ts:704-710 | Each element of `c` gives one element. |
| PandocPatch.FixCompactLists | src/main.ts:699-717 | The corrected function: an ordered list's items in `c[1]` are made loose too. The list is then fixed with nested lists also corrected, and bracketed by its sentinels. |
| PandocPatch.PatchArray | src/main.ts:749-762 | The loop that fills `newArray` computes `PatchSeq` of the function as written. |
| PandocPatch.PatchSeqAppend | src/main.ts:752-759 | Rewriting an array distributes over concatenation. |
| PandocPatch.ListSplicedIntoArray | src/main.ts:753-758 | As written, a list inside an array is replaced there by three elements: its opening sentinel, the list as `fixCompactLists` leaves it, and its closing sentinel. |
| PandocPatch.PatchSeqSingle | src/main.ts:753-758 | One element contributes its rewrite, spliced when it became an array without being one. |
| PandocPatch.PatchList | src/main.ts:783-785 | As written, a bullet or ordered list is rewritten by `fixCompactLists` as written. With the correction, it goes to the corrected function. |
| PandocPatch.ArrayNotSpliced | src/main.ts:754-758 | An array inside an array stays one element, so the splice goes only one level deep. |
| PandocPatch.PatchSeqOfArrays | src/main.ts:749-762 | An array of arrays is rewritten element by element. |
| PandocPatch.FieldOfPatchFields | src/main.ts:787-791 | Every property other than `__proto__` holds the rewrite of its old value. |
| PandocPatch.PatchKeepsLeading | src/main.ts:764-793 | The rewrite keeps the type of an item's first block when that block is not a `Div` or a list. |
| PandocPatch.PatchPromoted | src/main.ts:705-709 | A compact item, made loose and rewritten, starts with a `Para`. |
| PandocPatch.FixItemsAt | src/main.ts:704-710 | Element i of the fixed `c` is element i made loose, then rewritten. |
| PandocPatch.CompactItemsMadeLoose | src/main.ts:699-717 | In the corrected function, every compact item of a bullet or ordered list starts with a `Para` afterwards, and the item count is kept. |
| PandocPatch.BulletItemsMadeLoose | src/main.ts:704-710 | Every compact item of a bullet list starts with a `Para` afterwards. |
| PandocPatch.OrderedItemsMadeLoose | src/main.ts:699-717 | In the corrected function, every compact item of an ordered list starts with a `Para` afterwards. |
| PandocPatch.OrderedItemsRewritten | src/main.ts:699-717 | In the corrected function, an ordered list's items come out made loose, then rewritten. |
| PandocPatch.PromotedOrderedField | src/main.ts:704-708 | Making an ordered list loose replaces its `c[1]` by the loose items. |
| PandocPatch.PromoteArrayOfArrays | src/main.ts:706 | An array of items is not itself made loose, because its first element is an array. |
| PandocPatch.OrderedListStaysCompactAsWritten | src/main.ts:704-710 | As written, a compact item of an ordered list still starts with `Plain`. The test at line 706 looks at the list attributes and at the item array, never at an item's first block. |
| Generator.NotTried | src/generator/generator.ts:288 | No id from the current candidate on has been tried yet, so the search cannot cycle. |
| Generator.FirstUnusedFrom | src/generator/generator.ts:288 | The search for an unused numbering id returns an id that is not in the numbering part. |
| Generator.UnusedNumId | src/generator/generator.ts:288 | The new numbering id is not one the numbering part already uses. |
| Generator.NewNum | src/generator/generator.ts:287-300 | The new id is fresh. The numbering part gains exactly that id, mapped to a `w:num` for the abstract numbering that restarts level `depth` at `start`. Every other entry is unchanged. |
| Generator.Numbering.constructor | src/generator/generator.ts:298 | The numbering part starts with the given entries. |
| Generator.Numbering.GetUnusedNumId | src/generator/generator.ts:288 | The method's search by trying "1", "2", … returns `UnusedNumId`. |
| Generator.CreateNumbering | src/generator/generator.ts:287-300 | It returns the new id and leaves the numbering part as `NewNum` says. |
| Generator.HeadingStyleName | src/generator/generator.ts:205-217 | A heading of depth d uses `ispSubHeader-<min(d,3)> level`. |
| Generator.CodeLines | src/generator/generator.ts:96-102 | The lines of a code block sit at the even positions of its run, in order. A line break sits between each two consecutive lines. |
| Generator.CodeBreaksAtOddPositions | src/generator/generator.ts:97-101 | A child of a code run is a line break if and only if its position is odd. |
| Generator.Block | src/generator/generator.ts:30-31 | Visiting a node only adds numbering entries. Entries that were there keep their values. |
| Generator.Children | src/generator/generator.ts:34-38 | Visiting the children in order only adds numbering entries. |
| Generator.ParagraphNumbering | src/generator/generator.ts:68-86 | A paragraph gives one `w:p`. Inside a list, its properties are the innermost list's style and a `w:numPr` at level (number of enclosing lists - 1) with that list's numbering id. Outside a list, its only property is the `ispText_main` style. |
| Generator.CodeBlockLines | src/generator/generator.ts:92-108 | A code block of n lines gives one `ispListing` paragraph. Its single run holds the n lines in order, with line breaks exactly between them (2n-1 children). |
| Generator.HeadingParagraph | src/generator/generator.ts:204-224 | A heading gives one `w:p` whose only property is the sub-header style of its depth, capped at 3. |
| Generator.ListRegistersNumbering | src/generator/generator.ts:230-240 | A list registers a numbering under an id not used before. It points at abstract numbering 33 (ordered) or 43 (bullet), at the list's nesting depth, starting from `String(start)`. |
| Generator.TableStyled | src/generator/generator.ts:126-138 | A table is one `w:tbl` whose properties name the `Table Grid` style, followed by the rows' output. |
| Generator.TableRowCells | src/generator/generator.ts:140-146 | A table row is one `w:tr` holding the cells' output. |
| Generator.TableCellParagraph | src/generator/generator.ts:148-160 | A table cell is one `w:tc` wrapping one `ispText_main` paragraph that holds the cell's output. |
| Generator.TextRun | src/generator/generator.ts:122-124 | A text becomes one run without properties that reads as the text. |
| Generator.InlineCodeRun | src/generator/generator.ts:246-254 | Inline code becomes one run whose `w:rStyle` is the id of `ispListing Знак`, reading as the code. |
| Generator.Extend | src/generator/generator.ts:40-42 | Appending to the current element leaves every element below it unchanged. |
| Generator.ExtendTwice | src/generator/generator.ts:34-38 | Appending twice to the current element is appending the concatenation once. |
| Generator.ExtendNothing | src/generator/generator.ts:34-38 | Appending nothing changes nothing. |
| Generator.GenerationContext.constructor | src/generator/generator.ts:24-28 | A context starts with both stacks empty. |
| Generator.GenerationContext.PushChildToCurrent | src/generator/generator.ts:40-42 | The child is appended to the element on top of the node stack. The numbering stack is unchanged. |
| Generator.GenerationContext.PushNode | src/generator/generator.ts:44-46 | The node is pushed onto the node stack. The numbering stack is unchanged. |
| Generator.GenerationContext.PopNode | src/generator/generator.ts:48-50 | The top element is popped and ends up as the last child of the element below it. |
| Generator.GenerationContext.PushNumberingStyle | src/generator/generator.ts:52-54 | The style is pushed onto the numbering stack. The node stack is unchanged. |
| Generator.GenerationContext.PopNumberingStyle | src/generator/generator.ts:56-58 | The top style is popped. The node stack is unchanged. |
| Generator.GenerationContext.Visit | src/generator/generator.ts:30-32 | The node's visitor appends the output of `Block` to the current element and leaves the numbering part as `Block` says. The numbering stack is restored. |
| Generator.GenerationContext.Enclose | src/generator/generator.ts:126-160 | The element is opened, its children are visited into it, and it is closed into the current element. The numbering stack is restored. |
| Generator.GenerationContext.VisitChildren | src/generator/generator.ts:34-38 | The children's outputs are appended to the current element, in order. |
| Generator.BuildCodeRun | src/generator/generator.ts:95-102 | The loop that puts a line break before every line but the first builds the run of `CodeLines`. |
| Generator.GenerateBody | src/generator/generator.ts:349-367 | The body is the visit of the root's children under a fictive `w:body`, with no enclosing list. The numbering part is left as that visit says. |
| Generator.ItemsOf | src/document-json-meta.ts:37-46 | Each array element is wrapped, in order, and an error reading the array is passed on. |
| Generator.StyledParagraphReads | src/generator/generator.ts:384-388 | The text of a styled paragraph is the text of its runs. |
| Generator.TwoRunsRead | src/generator/generator.ts:419-420 | Two runs read as their two texts, one after the other. |
| Generator.StringsAt | src/generator/generator.ts:398-401 | When every element can be read, there is one string per element: that element's value at the path. |
| Generator.Texts | src/generator/generator.ts:401 | There is one string reader per element, in order. |
| Generator.Position | src/generator/generator.ts:414 | `indexOf(id) + 1` is 0 exactly when the id is absent. Otherwise it is the 1-based position of the first equal id. |
| Generator.IndexLineSplits | src/generator/generator.ts:411-415 | Split at its commas, the author's superscript gives back one position per organization of the author, in order. |
| Generator.AuthorParagraphBuilt | src/generator/generator.ts:406-420 | The paragraph the source builds is the `ispAuthor` paragraph of the superscript run and then the author line. |
| Generator.AuthorParagraphReads | src/generator/generator.ts:417-420 | An author paragraph reads as the organization positions followed by `name, ORCID: orcid, <email>`. |
| Generator.AuthorParagraphsEach | src/generator/generator.ts:405-423 | When it succeeds, there is one paragraph per author, the k-th built from the k-th author's fields. |
| Generator.GetAuthors | src/generator/generator.ts:395-426 | The loop computes `Authors`. |
| Generator.OrganizationParagraphBuilt | src/generator/generator.ts:436-441 | The paragraph the source builds is the `ispAuthor` paragraph of the number run and then the name. |
| Generator.OrganizationParagraphReads | src/generator/generator.ts:438-441 | An organization paragraph reads as its number followed by its name. |
| Generator.OrganizationParagraphsEach | src/generator/generator.ts:432-446 | When it succeeds, there is one paragraph per organization, the k-th numbered 1 + k and naming the k-th organization. |
| Generator.GetOrganizations | src/generator/generator.ts:428-449 | The loop computes `Organizations`. |
| Generator.AuthorIndexNamesOrganization | src/generator/generator.ts:398-445 | The number an author's superscript gives an organization id is the number printed before the paragraph of the organization with that id. |
| Generator.ItemReads | src/generator/generator.ts:379-383 | An item reads its strings and its kind from the wrapper it was made from. |
| Generator.StringLinkText | src/generator/generator.ts:381-383 | A string link reads as itself. |
| Generator.MapLinkText | src/generator/generator.ts:379-380 | A map link reads as its `description`. |
| Generator.StyledPropertyAdded | src/generator/generator.ts:384-386 | A property added to a freshly styled paragraph lands after its style. |
| Generator.LinkParagraphBuilt | src/generator/generator.ts:384-388 | The paragraph the source builds is the literature paragraph of the link text. |
| Generator.LinkParagraphReads | src/generator/generator.ts:370-388 | A literature paragraph has the `ispLitList` style and level 0 of numbering 80, and it reads as the link text. |
| Generator.LinkParagraphsEach | src/generator/generator.ts:376-390 | When it succeeds, there is one paragraph per link, in order, each holding that link's text. |
| Generator.GetLinksParagraphs | src/generator/generator.ts:369-393 | The loop computes `Links`. |
| Generator.DetailParagraphBuilt | src/generator/generator.ts:460-466 | The paragraph the source builds is the detail paragraph of the line. |
| Generator.DetailParagraphReads | src/generator/generator.ts:452-466 | A detail paragraph has the `ispText_main` style and spacing 30 before and 120 after, and it reads as its line. |
| Generator.AuthorDetailsLength | src/generator/generator.ts:458-468 | One author gives one detail paragraph per language. |
| Generator.AuthorDetailsEach | src/generator/generator.ts:458-468 | The l-th detail paragraph of an author holds that author's `details_<language l>`. |
| Generator.DetailParagraphsOrder | src/generator/generator.ts:457-469 | The paragraphs are in author-major order: author a in language l is paragraph a × 2 + l. |
| Generator.AuthorDetailParagraphs | src/generator/generator.ts:458-468 | The inner loop computes one author's detail paragraphs. |
| Generator.GetAuthorsDetail | src/generator/generator.ts:451-472 | The loops compute `AuthorsDetail`. |
| Generator.RunPerformsInOrder | src/generator/generator.ts:474-522 | The substitutions are performed in order, each as scheduled. The run stops exactly at the first inline value that failed and reports its failure. It completes if and only if no value failed. |
| Generator.RunAppend | src/generator/generator.ts:485-488 | A substitution that can go ahead is performed, and the rest follow. |
| Generator.RunStops | src/generator/generator.ts:483 | A failed value stops the run, with its failure. |
| Generator.PageHeaderUsesCitation | src/generator/generator.ts:491-495 | The page header is the citation line exactly when it is written `@use_citation`. Otherwise it is itself. |
| Generator.InlineSchedule | src/generator/generator.ts:479-489 | The five inline templates of a language are scheduled in the order of their names. Each replaces `{{{<name>_<lang>}}}` by `<name>_<lang>`. |
| Generator.InlineScheduleStep | src/generator/generator.ts:480-489 | The schedule of a language is its first template followed by the schedule of the rest. |
| Generator.LanguagesScheduleStep | src/generator/generator.ts:478-511 | The schedule of the languages is the first language's templates and tail followed by the other languages'. |
| Generator.ConcatAssociates | src/generator/generator.ts:478-521 | Schedules compose by concatenation. |
| Generator.FinalRun | src/generator/generator.ts:513-521 | After the languages, the links and then the author details are performed. A paragraph substitution is set up with a closure, so setting it up cannot fail. |
| Generator.ScheduleShape | src/generator/generator.ts:474-522 | There are 18 substitutions. For each of the two languages there are eight: the five inline templates, the page header, the authors and the organizations. Then come the links and the author details. |
| Generator.SubstituteInline | src/generator/generator.ts:480-489 | The inner loop performs the run of one language's inline templates. |
| Generator.SubstituteLanguage | src/generator/generator.ts:478-511 | One pass of the outer loop performs the run of one language's schedule. |
| Generator.SubstituteTemplates | src/generator/generator.ts:474-522 | The function performs `Run(Schedule(fm))`. |

## Left out

- The XML library (`src/xml`) is not part of this model. Its tree is modelled as `Xml.Node`. `visitSubtree` is taken to be a full pre-order walk that includes the start node, and a callback's removal of nodes during the walk is not modelled. Parsing and serialising (`fromXmlString`, `toXmlString`) are left out.
- The Word wrappers (`Styles`, `Style`, `Num`, `Numbering`, `WordDocument`, `src/word/oxml`) are not part of this model. A style table is a sequence of style records in insertion order, and `addStyle` is assumed to replace the record with the same id. The OXML builders (`buildParagraphWithStyle`, `buildRawTag`, `buildNumPr`, `buildLineBreak`, …) are modelled by their evident shape in `Xml`.
- `getStyleByName(name).getId()` is a parameter (`StyleIds`) of the generator. The case where a named style is missing is not modelled.
- `getDocStyleUseReferences` and `getStyleCrossReferences` collect `shallowCopy()`s of nodes. The model assumes that such a copy shares its attribute map with the original, so patching a copy patches the document. Without that assumption `patchStyleUseReferences` would have no effect.
- `patchStyleDefinitions` iterates a JavaScript `Map` while re-adding entries, so an entry whose new id is itself a mapping key is visited again. The model renames each definition once, which differs only when a `template-<i>` id is itself a key of the mapping table.
- StyleReconcile.MergeInto: requires the style ids of Pandoc's output (`target`) to be unique. A `Styles` map keyed by id guarantees this, and the sequence model needs it stated.
- StyleReconcile.PatchCrossRefsKeepsIds: requires unique ids for the same reason.
- StyleReconcile.MergeStyles: its contract states only that the headings `Heading4`–`Heading9` are gone, which numberings the list rules use, and when it throws. The contents of the merged style table are stated by the members it calls (`RemoveCollidedStyles`, `AddStyles`, `ResolveCollisions`, `PatchStyleUseReferences`), not by its own contract.
- StyleReconcile.RenameUsedStyles: its own contract states only that every copied id starts with `template-` and when it throws. What the renaming does is stated by the members it calls: `GetUsedStylesDeep`, `GetMappingTable`, `PatchStyleDefinitions`, `PatchStyleUseReferences` and `ExtractTemplateStyles`.
- StyleReconcile.MergeInto: like `MergeStyles`, its own contract does not restate the merged table. The collision rules are stated by `StyleReconcile.ResolveCollisions` and the `Redirect…` lemmas.
- `copyLatentStyles`, `copyDocDefaults`, `copyFile`, `appendStyles`, `setXmlns`, the content-type and relationship joins of `fixDocxStyles`, and its JSZip loads and saves are left out. They are file plumbing or copy constant data, and the relationship ids that `Relationships.join` returns are a parameter of `patchRelIds`.
- `getImageCaption` and `getListingCaption` serialise through the XML module, so their output is a parameter (`Captions`) of the Pandoc rewrite. `getOpenxmlInjection` is modelled as the raw block it builds.
- `generatePandocDocx`, `main`, `src/main.js` (a compiled copy of `src/main.ts`), `src/markdown/latexml.ts` (a subprocess) and `src/pandoc/pandoc-json-patcher.ts` (a wrapper over functions not shown) are left out.
- The Markdown parser (`fromMarkdown`), the tree walker `visit` of `unist-util-visit` and `yaml.parse` are external. The model takes the mdast tree and the front-matter value as data.
- The generator's `image` and `inlineMath` visitors, `getImageSize`, `parseSizeAttr` and `createImage` are left out. They read files and call `image-size`, `temml` and `mml2omml`, and they compute with floating point.
- The visitors the generator leaves empty (`strong`, `link`, `delete`, `emphasis`, `blockquote`, `break`, `imageReference`, `math`) and node types without a visitor add nothing, as in the code.
- `getUnusedNumId` lives in the numbering module, which is not part of this model. It is assumed to return the smallest positive decimal id not in use.
- `ParagraphTemplateSubstitution` and `InlineTemplateSubstitution` are not part of this model. `substituteTemplates` is modelled as the ordered list of substitutions it performs (`Generator.Schedule`), and `generateDocxBody` as the body it hands to the `{{{body}}}` substitution. Whether and when a substitution calls its replacement closure is not known, so a failure thrown inside one (for example by `getAuthors`) is reported by `Generator.Replacement`. It is not a point where the run stops.
- `GenerationContext` pushes a child into its parent before visiting the child, and relies on object aliasing to fill the child in afterwards. The model appends a finished child to its parent when the child is popped, which gives the same tree.
- A list without a start value (a bullet list) has `start: null` in mdast. `String(null)` is `"null"`, so its start override is `"null"`, and the model keeps this.
- Templates.Reads: src/main.ts reads metadata through Pandoc's `DocumentMeta` (imported at src/main.ts:7, taken by the template functions at src/main.ts:363, 425, 445, 468 and 486, built at src/main.ts:806), which is not part of this model. The template code is modelled over the abstract `Source`, and `Reads` fills it with `JsonMeta` as a stand-in: that `DocumentMeta` reads the same values and fails with the same error texts (the `MetaFailure` messages reported by `Templates.FailureMessage`) is assumed, not proved.
- Templates.FindParagraphWithPattern: `replaceInlineTemplate` (src/main.ts:303-309) can pass a start index of -1 after removing the first child. `visitChildren` lives in the XML library, which is not part of this model, and the model assumes it starts from index 0 then (`SearchStart`).
- Attributes.JsonUnescape: a lone surrogate such as `\uD800` cannot be a Dafny `char`, so the model reads the token as failing `JSON.parse` and stores it as written. `JSON.parse` itself returns a string holding the lone surrogate.
- JsonMeta.Meta.GetKeys: returns the keys as a set. `Object.keys` also gives them in insertion order, and the model's map does not keep that order.
- `setAttr(name, undefined)` is modelled as an absent attribute.
- JSON numbers in the front matter are modelled as integers. A map step reads only the value's own keys, so inherited properties such as `toString` are not modelled.
- `console.warn` (a duplicate section id, an unknown citation) has no effect in the model.
- Pandoc JSON that does not have the shape Pandoc produces is not modelled faithfully. For example, a list whose `c` is not an array makes `fixCompactLists` throw, while the model leaves that list unchanged.
- The organization paragraphs that `templateAuthorList` builds (`src/main.ts:408-418`) are never added to the document, so the `{{{organizations_<lang>}}}` placeholder is only removed. The model keeps this behaviour (`Templates.OrganizationsPlaceholderRemoved`).

## Findings

| source | as written | input that shows it | evidently intended | confidence | as-written member | corrected member |
|---|---|---|---|---|---|---|
| src/main.ts:699-717 | `fixCompactLists` looks at `list.c[i][0]` for every element of `c`. An `OrderedList`'s `c` is `[attributes, items]`, so it tests the first element of the attribute triple and the first item array, never an item's first block. | An `OrderedList` whose first item is `[Plain [Str "a"]]` is emitted with its `Plain` unchanged, while the same item in a `BulletList` becomes `Para`. | An ordered list's items are made loose like a bullet list's. | not executed | PandocPatch.OrderedListStaysCompactAsWritten | PandocPatch.CompactItemsMadeLoose |
