# Accessibility analyser rule engine, in Dafny

This project models the rule engine of a browser-based accessibility analyser, together with
the proofs about it. The analyser takes an HTML fragment, parses it, and runs six rules over
the parsed document in a fixed order. Each rule appends findings to one list, and each
finding has one of three severities: error, warning or info. The six rules are:

1. images without `alt`, or with a blank `alt`;
2. form controls without `id`/`name`, or with no `label[for=id]`;
3. skipped heading levels;
4. buttons whose text is a vague phrase ("click here", "ok", …), with a canned replacement
   label;
5. buttons, links and form controls without an accessible name;
6. one aggregate notice for elements whose inline style mentions a colour.

The report then counts the findings of each severity.

Files and modules:

- `wrappers.dfy` (`Wrappers`): `Option`, the result of `getAttribute` and `querySelector`.
- `text.dfy` (`Text`): these JavaScript string operations:
  - `trim`, with the ECMAScript whitespace set;
  - `toLowerCase`, for ASCII;
  - `includes`;
  - decimal rendering of a number, with its inverse.
- `dom.dfy` (`Dom`): the parsed document, taken as a sequence of elements in document order.
  It also holds the read-only DOM queries the rules use: `hasAttribute`, `getAttribute`,
  the `img.alt` property, `querySelectorAll` and `querySelector` over the selector forms the
  engine writes.
- `findings.dfy` (`Findings`): the finding record and its severity. It also holds the
  `filter(type === …)` counts and the report summary.
- `rules.dfy` (`Rules`): each rule as a function of the document, and `Analyze`, the six
  rule outputs in order.
- `auditor.dfy` (`Auditor`): `performAnalysis` as an imperative method. There is one loop per
  `forEach`, appending to the findings list, and each loop is proved equal to its rule
  function.
- `properties.dfy` (`Properties`): what the rules promise. This covers which elements produce
  findings of which severity, and in which order. It also covers the iff characterisations,
  the markup the fixes suggest, examples, and how the whole result splits by severity.

## Model

| member | source | states |
|---|---|---|
| Auditor.PerformAnalysis | script.js:131-261 | The list returned is exactly the rule functions' outputs in the order the source runs the rules: images, form controls, headings, buttons, accessible names, colour. |
| Auditor.CheckImages | script.js:136-157 | After the `img` loop, the list is the previous list followed by the image findings of every `img`, in document order. |
| Auditor.VisitImage | script.js:138-156 | One callback: a missing `alt` gives the error, an `alt` that trims to "" gives the warning, and anything else changes nothing. |
| Auditor.CheckFormLabels | script.js:160-185 | After the form-control loop, the list is extended by each control's findings, in document order. |
| Auditor.VisitFormControl | script.js:161-184 | One callback: when `id` and `name` are both falsy, the error; when `id` is truthy and no `label[for=id]` exists, the warning; otherwise nothing. |
| Auditor.CheckHeadings | script.js:188-205 | The heading loop, carrying `previousLevel` from heading to heading, appends exactly the heading rule's findings. |
| Auditor.VisitHeading | script.js:191-205 | One callback appends the skip warning exactly when the level rises by more than one. It returns the heading's own level as the new `previousLevel`. |
| Auditor.CheckButtonText | script.js:208-223 | The button loop appends exactly the button rule's findings, in document order. |
| Auditor.VisitButton | script.js:209-222 | One callback appends the warning exactly when the trimmed, lower-cased text is on the denylist. |
| Auditor.CheckAria | script.js:226-246 | The loop over interactive elements appends exactly the accessible-name findings, in document order. |
| Auditor.VisitInteractive | script.js:227-246 | An element with `aria-label` or `aria-labelledby` returns early with nothing added. Otherwise the info finding is added exactly when the text, `placeholder` and `title` are all empty. |
| Auditor.CheckColorStyles | script.js:249-259 | The list gains one aggregate finding when some element has a colour style, and nothing otherwise. |
| Rules.GetBetterButtonText | script.js:264-275 | A phrase in the table gets its canned label. Any other string gets "Perform action". The result is never empty. |
| Rules.HeadingLevel | script.js:192 | The level read from the tag's second character is 1..6, and the tag is `h` followed by that digit. |
| Rules.ImageRule | script.js:136-157 | The image findings: each `img` of the query, in document order, gives its `ImageCheck` findings. Fixed exactly by `Properties.ImageRuleExact`: one finding per reported image, errors and warnings interleaved in document order. Its errors and its warnings are each characterised by `Properties.ImageErrors` and `ImageWarnings`; `ImageSilentIff` states when an image is silent. |
| Rules.FormRule | script.js:160-185 | The form-control findings, in document order. Fixed exactly by `Properties.FormRuleExact`: one finding per reported control, errors and warnings interleaved in document order. Its errors and its warnings are each characterised by `Properties.FormErrors` and `FormWarnings`; `FormErrorIff` states when a control gives an error. |
| Rules.HeadingRule | script.js:188-205 | The heading findings over the `h1`…`h6` query, with the level of the preceding heading as `previousLevel`. Fixed exactly by `Properties.HeadingRuleAtSkips`: one warning per heading that skips a level, in order, each naming its heading, its level and the level before it. `HeadingSilentIff` and `HeadingFindingsAreWarnings` follow. |
| Rules.ButtonRule | script.js:208-223 | The button findings, in document order. Characterised by `Properties.ButtonFindings`. |
| Rules.AriaRule | script.js:226-246 | The accessible-name findings, in document order. Characterised by `Properties.AriaFindings` and `AriaFindingIff`. |
| Rules.ColorRule | script.js:249-259 | The single colour finding carrying the query's length when it is positive, or nothing. Characterised by `Properties.ColorRuleSpec`. |
| Rules.Analyze | script.js:131-261 | The six rule outputs in the source's order. Split by severity in `Properties.AnalyzeErrors`, `AnalyzeWarnings` and `AnalyzeInfo`. |
| Rules.MissingAltFinding | script.js:139-146 | An error whose `element` is the image's markup. Its `code` is the image with the placeholder `alt`. |
| Rules.EmptyAltFinding | script.js:148-155 | A warning whose `element` is the image's markup. Its `code` keeps `alt=""` only for an empty raw value (`Properties.EmptyAltCode`). |
| Rules.UnidentifiedControlFinding | script.js:167-174 | An error whose `element` is the control's markup. Its `code` is an input with `type`, placeholder ids and the control's `placeholder` or "". |
| Rules.UnlabeledControlFinding | script.js:176-183 | A warning whose `element` is the control's markup. Its `code` is a label for the id plus the input, whose `name` falls back to the id (`Properties.UnlabeledCodeFallsBackToId`). |
| Rules.SkippedHeadingFinding | script.js:195-202 | A warning whose `element` is the heading's markup. Its kind carries both levels, and its `code` asks for the missing `h(previousLevel + 1)` before the heading. |
| Rules.NonDescriptiveButtonFinding | script.js:214-221 | A warning whose `element` is the button's markup. Its `code` is a button labelled by `getBetterButtonText`. |
| Rules.MissingAriaFinding | script.js:237-244 | An info finding whose `element` is the element's markup. Its `code` adds `aria-label` around the inner markup, with the tag lower-cased. |
| Rules.ColorFinding | script.js:251-258 | An info finding whose `element` is the count followed by " elements with color styles found". |
| Rules.ButtonText | script.js:210 | `textContent.trim().toLowerCase()`. `Properties.LongCaptionIsDescriptive` shows which texts pass. |
| Rules.HasLabelFor | script.js:175 | `doc.querySelector('label[for="id"]')` is not null. `Properties.HasLabelForIff` shows that it holds exactly when some `label` has `for` equal to the id. |
| Rules.ImageCheck | script.js:138-156 | One `img`: the missing-`alt` error when `LacksAlt`, else the blank-`alt` warning when `HasBlankAlt`, else nothing. `Properties.ImageSilentIff` states when it is silent. |
| Rules.LacksAlt | script.js:138 | The image has no `alt` attribute, whatever the value would be. Used by `Properties.ImageErrors`. |
| Rules.HasBlankAlt | script.js:147 | The `alt` attribute is present and its value trims to "". `Text.TrimEmptyIff` makes that "all whitespace" (`Properties.ImageWarnings`). |
| Rules.FormControlCheck | script.js:161-184 | One control: the error when `IsUnidentified`, else the warning when `IsUnlabeled`, else nothing. `Properties.FormErrorIff` and `NameOnlyControlIsSilent` state its cases. |
| Rules.IsUnidentified | script.js:166 | Neither `id` nor `name` is truthy, so each is absent or empty (`Properties.FormErrorIff`). |
| Rules.IsUnlabeled | script.js:175 | The `id` is truthy and no `label[for=id]` exists (`Properties.FormWarnings`, `HasLabelForIff`). |
| Rules.HeadingCheck | script.js:192-203 | One heading against `previousLevel`: the skip warning exactly when its level exceeds `previousLevel` by more than one. `Properties.HeadingRuleAtSkips` uses it through `NoSkipAt`. |
| Rules.PrecedingLevel | script.js:189-204 | The `previousLevel` a heading is checked against: 0 before the first heading, otherwise the level of the heading just before. |
| Rules.HeadingRuleOn | script.js:189-205 | The heading loop over a list of headings. `Properties.HeadingRuleAtSkips` states its output exactly. |
| Rules.ButtonCheck | script.js:209-222 | One button: the warning exactly when `IsNonDescriptive` (`Properties.ButtonFindings`, `ButtonExampleClickHere`). |
| Rules.IsNonDescriptive | script.js:210-213 | The trimmed, lower-cased text is one of the seven denylisted phrases (`Properties.LongCaptionIsDescriptive` bounds which texts can be). |
| Rules.AriaCheck | script.js:227-246 | One interactive element: the info finding exactly when `NeedsAria` (`Properties.AriaFindingIff`). |
| Rules.FlatMap | script.js:137-245 | The `forEach` + `push` pattern of lines 137, 161, 209 and 227: each element's findings are appended after those of the elements before it. `Properties.FlatMapSeverity`, `FlatMapAppend` and each `Auditor.Check*` loop invariant are stated in terms of it. |
| Rules.HasAriaName | script.js:228 | The early return: the element has an `aria-label` or an `aria-labelledby` attribute, even an empty one (`Properties.AriaFindingIff`). |
| Rules.LacksVisibleText | script.js:232-236 | `!text && !placeholder && !title`: the text trims to "", and `placeholder` and `title` are absent or "" (`Properties.AriaFindingIff`). |
| Rules.NeedsAria | script.js:228-236 | No `aria-label` or `aria-labelledby` attribute, a text that trims to "", and no truthy `placeholder` or `title` (`Properties.AriaFindingIff`). |
| Rules.HasColorStyle | script.js:249 | The `style` attribute contains "color" or "background" (`Properties.ColorSelectorMatches`). |
| Findings.Finding.Severity | script.js:137-259 | The `type` of each kind: missing `alt` and unidentified controls are errors; blank `alt`, unlabeled controls, skipped headings and vague buttons are warnings; accessible names and colour are info. |
| Findings.Finding.Title | script.js:137-259 | The fixed `title` string of each kind. |
| Findings.Finding.Description | script.js:137-259 | The fixed `description` string of each kind. For a skipped heading, it renders both levels with `Text.NatToString`. |
| Findings.Finding.Suggestion | script.js:137-259 | The fixed `suggestion` string of each kind. |
| Text.Trim | script.js:210 | JavaScript `trim()`, which removes leading, then trailing, ECMAScript whitespace. `Text.TrimIsInfix`, `TrimEmptyIff` and `TrimIdempotent` state its properties. |
| Text.Contains | script.js:249 | `s.includes(t)`, the test behind `[style*="…"]`. `Text.ContainsIff` states that it holds exactly when `t` occurs in `s`. |
| Properties.ImageErrors | script.js:137-146 | The errors of the image rule are one per `img` lacking the `alt` attribute, in document order. An `img` with the attribute never yields an error. |
| Properties.ImageWarnings | script.js:147-155 | The warnings of the image rule are one per `img` whose `alt` is present but trims to nothing, in document order. |
| Properties.ImageRuleExact | script.js:136-157 | The image rule is one finding per `img` that has no `alt` attribute or whose `alt` trims to "", in document order. That finding is the missing-`alt` error when the attribute is absent, and the blank-`alt` warning otherwise. |
| Properties.ImageSilentIff | script.js:138-156 | An image yields nothing exactly when it has an `alt` attribute containing a non-whitespace character. |
| Properties.EmptyAltCode | script.js:154 | For a blank `alt`, the fix keeps `alt=""` exactly when the raw value is the empty string. Otherwise it writes the placeholder description. |
| Properties.WhitespaceAltGetsPlaceholder | script.js:147-155 | `alt` made only of whitespace is a warning, and its fix does not keep `alt=""`. |
| Properties.FormErrors | script.js:166-174 | The errors of the form rule are one per control whose `id` and `name` are both falsy, in document order. |
| Properties.FormWarnings | script.js:175-183 | The warnings of the form rule are one per control with a truthy `id` that no label refers to, in document order. |
| Properties.FormRuleExact | script.js:160-185 | The form rule is one finding per control that lacks both `id` and `name` or has an `id` no label names, in document order. That finding is the error when both are missing, and the missing-label warning otherwise. |
| Properties.HasLabelForIff | script.js:175 | The label lookup succeeds exactly when some `label` element's `for` attribute equals the id. |
| Properties.FormErrorIff | script.js:162-174 | A control yields an error exactly when `id` and `name` are each absent or the empty string, so an empty attribute counts as missing. |
| Properties.NameOnlyControlIsSilent | script.js:166-184 | A control with a `name` but no truthy `id` yields no finding at all. |
| Properties.UnlabeledCodeFallsBackToId | script.js:182 | When the control has no truthy `name`, the suggested markup repeats the id as `name`. |
| Properties.HeadingSilentIff | script.js:188-205 | The heading rule is silent exactly when every heading is at most one level deeper than the heading before it, with level 0 before the first. |
| Properties.HeadingFindingsAreWarnings | script.js:194-196 | The heading rule yields only warnings, and no more warnings than headings (one per skipping heading: `Properties.HeadingRuleAtSkips`). |
| Properties.HeadingLevelOf | script.js:192 | A tag `h`n, with n from 1 to 6, is a heading of level n. |
| Properties.HeadingExampleSkipToFour | script.js:191-205 | h1, h2, h4 gives exactly one warning, for the jump from 2 to 4. |
| Properties.HeadingExampleTwoJumps | script.js:204 | h1, h3, h5 gives a jump 1 to 3 and a jump 3 to 5. `previousLevel` follows every heading, including the ones that skipped. |
| Properties.HeadingExampleFirstIsDeep | script.js:189-194 | A document whose first heading is h2 warns of a jump from level 0. |
| Properties.HeadingRuleAtSkips | script.js:188-205 | The heading rule has one warning per heading that skips a level, in document order. The k-th warning is the skip finding for the k-th such heading, with that heading's level and the level before it. |
| Properties.SkipPositions | script.js:194 | The positions of the headings that skip a level: all of them, each below the list length, in increasing order. |
| Properties.PrefixKeepsSkipFinding | script.js:204 | Adding a heading at the end does not change the skip finding of any earlier heading. |
| Properties.ButtonFindings | script.js:208-222 | The button rule is one warning per button whose trimmed, lower-cased text is on the denylist, in document order. It yields nothing else. |
| Properties.DenylistHasSuggestions | script.js:264-275 | Every denylisted phrase has an entry in the suggestion table, so the rule never falls back to "Perform action". |
| Properties.SuggestionIsDescriptive | script.js:208-223 | A button relabelled with the suggested text is no longer flagged, because no suggestion is on the denylist. |
| Properties.SuggestionShape | script.js:265-274 | Every canned label is longer than ten characters and has no surrounding whitespace. |
| Properties.LongCaptionIsDescriptive | script.js:210-213 | A text whose trimmed form is longer than every denylisted phrase passes the button check. (Padding does not hide a phrase: see `Properties.PaddedClickHereFlagged`.) |
| Properties.ButtonExampleClickHere | script.js:209-221 | `<button>Click here</button>` is flagged once, because the test ignores case. The fix is `<button>Learn more about our services</button>`. |
| Properties.ClickHereText | script.js:210 | "Click here" trims and lowers to "click here". |
| Properties.PaddedClickHereFlagged | script.js:209-213 | `<button> click here </button>` is flagged once: the surrounding spaces are trimmed before the denylist test. |
| Properties.PaddedClickHereText | script.js:210 | " click here " trims and lowers to "click here". |
| Properties.AriaFindings | script.js:226-245 | The accessible-name rule is one info finding per interactive element that needs a name, in document order. It yields nothing else. |
| Properties.AriaFindingIff | script.js:228-236 | An element is reported exactly when all of these hold: it has neither ARIA attribute, whatever their values; its text is all whitespace; its `placeholder` and `title` are absent or empty. |
| Properties.ColorSelectorMatches | script.js:249 | `[style*="color"], [style*="background"]` matches exactly the elements whose style mentions either word. |
| Properties.ColorCount | script.js:249-255 | The count written into the colour finding is one per element with a colour style. |
| Properties.ColorRuleSpec | script.js:249-259 | There is at most one colour finding. It is an info finding, present exactly when some element has a colour style, and it carries the number of such elements. |
| Properties.ColorExampleCountedOnce | script.js:249-255 | A style mentioning both words, such as `background-color: red`, is counted once. |
| Properties.CountWherePositive | script.js:250 | A count is positive exactly when some element satisfies the predicate. |
| Properties.FlatMapSeverity | script.js:137-246 | A `forEach` that pushes at most one finding of a severity per element yields, at that severity, one finding per qualifying element, in order. |
| Properties.FlatMapAppend | script.js:137-246 | A per-element pass over a split document is the pass over each part, in order. |
| Properties.ImageHasNoInfo | script.js:137-157 | The image rule yields no info findings. |
| Properties.FormHasNoInfo | script.js:161-185 | The form rule yields no info findings. |
| Properties.LaterRulesSeverities | script.js:188-259 | Headings and buttons yield only warnings. Accessible names and colour yield only info. |
| Properties.AnalyzeErrors | script.js:131-261 | The errors of a run are the images lacking `alt`, then the controls lacking `id` and `name`. The error count is the sum of those two numbers. |
| Properties.AnalyzeWarnings | script.js:131-261 | The warnings of a run are the blank `alt` texts, the unlabeled controls, the skipped headings, then the vague buttons. |
| Properties.AnalyzeInfo | script.js:131-261 | The info findings of a run are the elements needing a name, then the colour notice. |
| Properties.LocalRulesCompose | script.js:136-246 | The image, button and accessible-name rules look at one element at a time: on a concatenated document they report part one's findings, then part two's. |
| Findings.SeverityName | script.js:300-302 | The `type` field is one of "error", "warning", "info". |
| Findings.SeverityNameInjective | script.js:300-302 | Different severities have different names, so filtering on `type` separates them. |
| Findings.OfSeverity | script.js:300-302 | `filter(issue => issue.type === sev)` keeps only findings of that severity, each taken from the list. |
| Findings.OfSeverityAppend | script.js:300-302 | Filtering distributes over concatenation and keeps order. |
| Findings.SeverityPartition | script.js:440-443 | The three counts add up to the number of findings. |
| Findings.CountZeroIff | script.js:300-302 | A count is zero exactly when no finding has that severity. |
| Findings.CountOf | script.js:439-444 | The number of findings whose `type` is the severity. `Findings.SeverityPartition` and `CountZeroIff` state how the counts behave. |
| Findings.ReportSummary | script.js:439-444 | `errors`, `warnings` and `info` are each the length of their own severity filter, and `total` is the number of findings. `total` equals errors + warnings + info. An empty list gives all zeros. `errors` is zero exactly when no finding is an error. |
| Dom.GetAttribute | script.js:162-164 | `getAttribute` returns the raw value when the attribute is present, and null otherwise. |
| Dom.AltProperty | script.js:147-154 | `img.alt` is the attribute's value, or "" when the attribute is absent. |
| Dom.QuerySelectorAll | script.js:160 | Every element of the result matches the selector list, and there are no more results than elements. |
| Dom.QueryAllMembers | script.js:160 | An element is in the result exactly when it is in the document and matches. |
| Dom.QueryAllAppend | script.js:136 | Results keep document order: querying a concatenation queries each part, in order. |
| Dom.QueryAllUnionCount | script.js:249-250 | A two-member selector list counts each element once: the union size plus the overlap equals the sum of the two sizes. |
| Dom.QuerySelector | script.js:175 | `querySelector` finds something exactly when some element matches, and what it finds is the first match. |
| Dom.MatchesSimple | script.js:136-250 | One simple selector, as used by the queries at lines 136, 160, 175, 188, 208, 226 and 249. A type selector compares the lower-case tag. `label[for="…"]` compares the `for` value exactly. `[style*="…"]` is a substring test of the attribute value, and an empty needle matches nothing. `Dom.QueryAllMembers` and `Properties.ColorSelectorMatches` are stated in terms of it. |
| Dom.Matches | script.js:160-250 | A comma-separated selector list (lines 160, 188, 226 and 249) matches an element when any of its members does, so an element matching two members is still one match (`Dom.QueryAllUnionCount`). |
| Dom.HasAttribute | script.js:228 | `hasAttribute` holds exactly when the element carries the attribute, even with an empty value (`Properties.AriaFindingIff`). |
| Dom.IsTruthy | script.js:236 | A lookup result is truthy exactly when it is present and not "" (`Properties.FormErrorIff`). |
| Dom.OrElse | script.js:182 | `v \|\| fallback`: the value when it is truthy, the fallback otherwise (`Properties.UnlabeledCodeFallsBackToId`). |
| Text.IsWhitespace | script.js:210 | The characters `trim()` removes: ECMAScript WhiteSpace and LineTerminator. `Text.TrimStart`, `TrimEnd` and `TrimIsInfix` are stated in terms of it. |
| Text.TrimStart | script.js:210 | It drops leading whitespace only, and what remains is empty or starts with a non-whitespace character. |
| Text.TrimEnd | script.js:210 | It drops trailing whitespace only, and what remains is empty or ends with a non-whitespace character. |
| Text.TrimIsInfix | script.js:210 | `trim()` returns a contiguous part of the string with only whitespace removed around it. |
| Text.TrimEmptyIff | script.js:147 | A string trims to "" exactly when it consists of whitespace only. |
| Text.TrimIdempotent | script.js:210 | Trimming twice changes nothing more. |
| Text.ToLower | script.js:210 | `toLowerCase` keeps the length. Each letter A–Z becomes the letter of the same name in a–z, and every other character is kept. |
| Text.ToLowerProperties | script.js:243 | No upper-case letter remains, each upper-case letter becomes a lower-case one, other characters are kept, and lowering twice changes nothing more. |
| Text.ContainsIff | script.js:249 | `includes` holds exactly when the needle occurs at some position. |
| Text.NatToString | script.js:198 | The rendering of a number is non-empty and made of digits, with no leading zero. |
| Text.ParseNatToString | script.js:198 | Reading the rendering back gives the number, so the levels and counts written into findings are the true values. |
| Text.NatToStringInjective | script.js:255 | Different numbers render differently. |
| Text.DigitValue | script.js:192 | `parseInt` of one digit character is that digit's value, below 10. |

## Left out

- Parsing: `DOMParser.parseFromString` is not modelled. The document is given as parsed:
  elements in document order, with tags as lower-case local names. `tagName` is the
  upper-case form of the same name, so `charAt(1)` reads the same digit. Lower-casing the
  tag, when the ARIA fix is built, gives back the local name.
- The one-second `setTimeout` before the analysis, and the `async`/`await` around it, are
  not modelled: the delay does not affect the result.
- The user interface is not modelled: element lookup, event binding, the theme and its
  `localStorage` entry, textarea resizing, the loading/empty/error/welcome states and the
  rendering of results (script.js:3-106, 277-429). The report download is not modelled
  either, and neither are the report's timestamp and JSON serialisation. Only the summary
  counts are modelled.
- Findings.ReportSummary is a function of the finding list. The source reads the list from
  `currentResults`, which `displayResults` sets only when there is at least one finding
  (script.js:295-298, 338). After a clean run the download therefore reports the previous
  run's findings and counts, or none; the model does not capture that stale state.
- `img.src` and `input.type` are properties the browser computes, and they are kept as
  opaque fields of the element. `img.src` is the resolved URL. `type` is the lower-cased
  keyword of a valid `type` attribute (`type="EMAIL"` reads "email"), or "text" when the
  attribute is absent or invalid; it is "textarea" for a `textarea`, and
  "select-one" or "select-multiple" for a `select`.
- `textContent`, `outerHTML` and `innerHTML` are kept as fields the browser serialises, not
  derived from a tree.
- Text.ToLower: only ASCII letters are lowered. JavaScript's full Unicode `toLowerCase` is
  not modelled. The denylist is ASCII, but a button text with non-ASCII upper-case letters
  may be lowered differently.
- Rules.HasLabelFor matches the id exactly. The source builds the selector text
  `label[for="<id>"]` without escaping, and two cases differ from an exact match:
  - An id containing `"` or a newline (LF, CR or FF) usually makes the selector invalid,
    so `querySelector` throws and the analysis aborts. But a `"` can also end the string
    early and inject selector text: the id `a"],[for="b` gives the selector list
    `label[for="a"],[for="b"]`, which finds any element whose `for` is "b". With such an
    element present and no `label` for the raw id, the source reports nothing where the
    model, comparing the raw id, reports a missing label.
  - An id containing `\` starts a CSS escape, so the lookup compares against the
    unescaped value: `a\62` finds `<label for="ab">`.
  Neither case is modelled, and for such ids the model can report a different result.
- Rules.GetBetterButtonText: the suggestion table is an ordinary object, so keys such as
  "constructor" would be found on its prototype. The rule only calls it with denylisted
  phrases, so the model uses a plain map.
- A finding's `title`, `description` and `suggestion` are fixed by the kind of defect. The
  model computes them from the kind (`Finding.Title`, `Description`, `Suggestion`) instead of
  storing them. The heading description carries both levels.
- Literal equality of the full rendered description text, for example "… from h2 to h4 …",
  is not proved. The heading examples state the finding, whose kind holds both levels
  (`Text.ParseNatToString` shows that the digits written are the levels).
- Rules 2 and 3 do not compose over concatenated documents: the label lookup and
  `previousLevel` depend on the whole document. `Properties.LocalRulesCompose` covers only
  rules 1, 4 and 5.

The finding title at script.js:169 says the control is "missing id and name attributes",
but the test at script.js:166 is on truthiness. An attribute that is present but empty
therefore counts as missing, and the model follows the test (`Properties.FormErrorIff`).
Likewise, the label check at script.js:175 runs only for controls whose `id` is truthy.
