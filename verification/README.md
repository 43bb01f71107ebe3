# IIR ingredient browser: query and presentation engine in Dafny

This project models the in-memory engine of the ingredient browser page in
`web_app/script.js`. It works on a static list of pharmaceutical ingredient
records with English and Chinese columns, and has four parts:

- **Filter engine** (`performSearch`, `resetSearch`). Five criteria are read
  from the form: the ingredient name, the route, the dosage form, the CAS
  registry number and the UNII. They are trimmed and lower-cased as the page
  does, then combined with AND. The result keeps the dataset order.
- **Paginator** (`displayResults`, `changePage`). It shows fixed pages of 50
  records. The page count is `Math.ceil(n / 50)`, the page slice follows
  `Array.prototype.slice`, and the previous and next buttons are enabled or
  disabled from the page number. A page change to a page that does not exist
  does nothing.
- **Row projector** (`createTableRow`). It builds the bilingual cells: the
  Chinese value with the English value as an annotation, or the English value
  alone. Route and dosage-form cells get their explanation as a tooltip, and
  seven plain columns follow in a fixed order.
- **Dropdown indexer** (`initializeDropdowns`, and the option text of
  `populateDropdownWithTranslation`). It lists the distinct non-empty route
  and dosage-form codes, sorted, each labelled `translation (code)` from the
  last record carrying it, or labelled `code` when that translation is empty.

A session state machine (`Controller`) ties these together. Its state is the
form, the current result (`filteredData`) and `currentPage`. The user actions
are typing, search, reset, previous and next. The model proves that the page
number stays valid and that the result stays an ordered subsequence of the
dataset after any sequence of actions.

Some JavaScript behaviour is written out explicitly:
- `v || ""` falsiness, `String(v || "")` and `v !== null && v !== undefined ? v : ""`
  (module `JsValues`);
- `trim` with the ECMA-262 WhiteSpace and LineTerminator code points,
  `toLowerCase` and `includes` (`JsStrings`);
- a `Map` that keeps keys in insertion order and overwrites values in place
  (`JsMap`);
- the default `sort()` order on strings (`JsOrder`).

Files:
- `js_values.dfy`, `js_strings.dfy`, `js_map.dfy` and `js_order.dfy` model the
  JavaScript primitives above.
- `seqs.dfy` holds sequence facts: subsequence, `Distinct` and `filter`.
- `records.dfy` holds the record type.
- `filter_engine.dfy`, `paginator.dfy`, `row_projector.dfy` and
  `dropdown_indexer.dfy` model the four parts.
- `controller.dfy` holds the session.
- `scenarios.dfy` holds worked examples on concrete data.

Two facts about the code shape the model:
- `createTableRow` never reads `fieldMapping`, and neither does any other
  function, so `Project` takes the record alone.
- The CAS criterion searches `String(item.CAS_NUMBER || "")`. A registry
  number stored as the number `0` (or `NaN`) is therefore searched as `""`,
  although the table shows it as `0`. `JsValues.SearchText` states this.

## Model

| member | source | states |
|---|---|---|
| JsValues.SearchText | web_app/script.js:209-214 | The text the CAS criterion searches is `""` or the text the table shows for the cell; it differs from the table text exactly when the cell is a falsy number (0 or NaN) |
| JsStrings.SkipBlanks | web_app/script.js:176-180 | Scanning from `i` stops at the first non-blank (or the end), and everything skipped is a `trim` blank |
| JsStrings.Trim | web_app/script.js:176-180 | The trimmed term is a contiguous piece of the input with only blanks before and after it, and it neither starts nor ends with a blank |
| JsStrings.TrimUnblanked | web_app/script.js:176-180 | A term that neither starts nor ends with a blank is left unchanged by `trim` |
| JsStrings.TrimEmpty | web_app/script.js:176-181 | A trimmed term is empty, and so imposes no criterion, exactly when the control holds only blanks |
| JsStrings.TrimIdempotent | web_app/script.js:176-180 | Trimming an already trimmed term changes nothing |
| JsStrings.ToLower | web_app/script.js:176-189 | Lower-casing keeps the length, maps each character by `LowerChar`, and leaves no ASCII capital |
| JsStrings.ToLowerIdempotent | web_app/script.js:176-187 | Lower-casing an already lower-cased text changes nothing |
| JsStrings.TrimAfterLower | web_app/script.js:176 | Lower-casing a trimmed term leaves nothing for `trim` to remove |
| JsStrings.IncludesFrom | web_app/script.js:190-193 | The search from index `i` succeeds exactly when the term occurs at some index `i` or later |
| JsStrings.Includes | web_app/script.js:190-193 | `includes` is true exactly when the term occurs as a contiguous piece of the text (the empty term always does) |
| Seqs.Filter | web_app/script.js:183 | `Array.prototype.filter`; its meaning is stated by `Seqs.FilterSpec`, `Seqs.FilterCount` and `Seqs.FilterAppend` |
| Seqs.FilterSpec | web_app/script.js:183-225 | `filter` keeps an ordered subsequence; an element is kept exactly when it is in the input and passes, and each copy of a passing element is kept, so it appears as often as in the input |
| Seqs.FilterCount | web_app/script.js:183-225 | Each element occurs in the filtered sequence as often as in the input when it passes, and not at all otherwise |
| Seqs.FilterMonotone | web_app/script.js:183-225 | Filtering with a stronger predicate keeps a subsequence of what a weaker one keeps |
| JsOrder.Sort | web_app/script.js:90 | `[...routeMap.keys()].sort()` gives the same codes, strictly ascending |
| JsOrder.SortedUnique | web_app/script.js:90 | Two strictly ascending sequences with the same elements are equal, so the sorted option order does not depend on insertion order |
| JsOrder.LexLeTotal | web_app/script.js:90 | Any two codes are comparable in the sort order |
| JsOrder.LexLeTransitive | web_app/script.js:90 | The sort order is transitive |
| JsOrder.LexLeAntisymmetric | web_app/script.js:90 | Codes that each sort before the other are equal |
| JsMap.Keys | web_app/script.js:90 | `keys()` lists the keys in the map's order |
| JsMap.Get | web_app/script.js:140 | `get` finds a value exactly when the key was set |
| JsMap.Set | web_app/script.js:87 | `Map.prototype.set`; its meaning is stated by `JsMap.SetGet`, `JsMap.SetGetOther` and `JsMap.SetKeys` |
| JsMap.SetGet | web_app/script.js:87 | After `set(k, v)`, `get(k)` is `v` |
| JsMap.SetGetOther | web_app/script.js:87 | `set(k, v)` leaves the value of every other key as it was |
| JsMap.SetKeys | web_app/script.js:87 | `set` never lists a key twice: a present key stays in place, a new key is appended |
| FilterEngine.Normalize | web_app/script.js:175-181 | How the form is read; its meaning is stated by `FilterEngine.NormalizeShape`, `FilterEngine.NormalizeIdempotent` and `FilterEngine.SearchCriteria` |
| FilterEngine.NormalizeShape | web_app/script.js:175-181 | The dropdown codes are taken as they are; the ingredient and UNII terms hold no ASCII capital; each of the three typed terms starts and ends with a non-blank; each typed term is empty exactly when its control holds only blanks |
| FilterEngine.NormalizeIdempotent | web_app/script.js:175-181 | Typing the normalised terms back into the form gives the same criteria |
| FilterEngine.IngredientPasses | web_app/script.js:185-196 | The ingredient criterion; its meaning on the raw control value is stated by `FilterEngine.SearchCriteria` |
| FilterEngine.CodePasses | web_app/script.js:198-206 | The route and dosage-form criteria; stated by `FilterEngine.SearchCriteria` |
| FilterEngine.CasPasses | web_app/script.js:208-214 | The CAS criterion; stated by `FilterEngine.SearchCriteria` and `Scenarios.CasSubstring` |
| FilterEngine.UniiPasses | web_app/script.js:216-222 | The UNII criterion; stated by `FilterEngine.SearchCriteria` |
| FilterEngine.Matches | web_app/script.js:183-225 | The `filter` callback; stated criterion by criterion by `FilterEngine.SearchCriteria` and weakened by `FilterEngine.NarrowsMatches` |
| FilterEngine.Search | web_app/script.js:183 | `allData.filter(...)`; its meaning is stated by `FilterEngine.SearchSpec`, `FilterEngine.SearchAppend` and `Scenarios.SearchOne` |
| FilterEngine.SearchSpec | web_app/script.js:183-225 | The search result is an ordered subsequence of the dataset; a record is in it exactly when it passes all five criteria, and a passing record appears as often as in the dataset |
| FilterEngine.SearchCriteria | web_app/script.js:174-225 | Criterion by criterion on the raw control values: the trimmed, lower-cased ingredient term occurs in the lower-cased English or Chinese name; the route and dosage form equal the selected codes exactly; the trimmed CAS term occurs in the registry number's string form (empty when the number is falsy); the trimmed, lower-cased UNII term occurs in the lower-cased UNII; an empty control imposes nothing |
| FilterEngine.SearchNoCriteria | web_app/script.js:183-225 | With every criterion empty the search returns the whole dataset, in order |
| FilterEngine.SearchIdempotent | web_app/script.js:183-225 | Searching a search result with the same criteria changes nothing |
| FilterEngine.SearchAppend | web_app/script.js:183-225 | Each record is judged on its own: searching a concatenation concatenates the searches |
| FilterEngine.NarrowsMatches | web_app/script.js:183-225 | A record that passes a criterion set passes any criterion set with some criteria cleared |
| FilterEngine.SearchMonotone | web_app/script.js:183-225 | Adding criteria only removes records: the narrower result is a subsequence of the wider one and never longer |
| Paginator.TotalPages | web_app/script.js:247 | The page count is the fewest pages of 50 holding every item, and is 0 exactly when there are no items |
| Paginator.Slice | web_app/script.js:250 | `slice(start, end)` with in-range bounds is the sub-sequence between them, and is empty when `end <= start` |
| Paginator.PageItems | web_app/script.js:246-250 | An existing page holds 1 to 50 consecutive items starting at `(page - 1) * 50`; a page past the last is empty |
| Paginator.PagesThroughPrefix | web_app/script.js:246-250 | Pages 1 to `k`, read in order, are the first `k * 50` items |
| Paginator.PagesPartitionView | web_app/script.js:246-250 | All pages, read in order, give back the whole result: no item is skipped or shown twice |
| Paginator.PageOf | web_app/script.js:248-249 | Every item index falls within the bounds of exactly one page |
| Paginator.PageOfIndex | web_app/script.js:246-250 | Item `i` is shown on an existing page, `PageOf(i)`, at position `i - (PageOf(i) - 1) * 50` |
| Paginator.PageOfUnique | web_app/script.js:248-250 | No item appears at a position of any other page |
| RowProjector.Bilingual | web_app/script.js:279-283 | A bilingual cell has an annotation exactly when the Chinese value is non-empty; it then shows the Chinese value with the English value as annotation, and otherwise the English value alone |
| RowProjector.WithTooltip | web_app/script.js:295-297 | A non-empty explanation becomes the tooltip; an empty one leaves the cell as it was |
| RowProjector.CodedCell | web_app/script.js:287-313 | The route or dosage-form cell; its meaning is stated by the route and dosage-form clauses of `RowProjector.Project` |
| RowProjector.Project | web_app/script.js:274-334 | Each of the three bilingual cells is annotated exactly when its Chinese value is non-empty and gives back both names; the route and dosage-form tooltips are the explanation text when it is non-empty and absent otherwise, and the ingredient cell has none; seven plain cells follow in the fixed column order, null and undefined shown as `""` |
| RowProjector.BilingualRoundTrip | web_app/script.js:281-294 | Both names, with null read as `""`, can be read back from a bilingual cell, with or without a tooltip |
| RowProjector.EnglishOnly | web_app/script.js:281-283 | With no Chinese name the cell is the English name alone, without annotation |
| RowProjector.PlainCellText | web_app/script.js:326-331 | A null or undefined plain cell shows `""`, the number zero shows `0`, and a non-empty plain cell comes from a present value |
| DropdownIndexer.Collect | web_app/script.js:83-89 | The `routeMap` (`dosageFormMap`) after the first `n` records; its meaning is stated by `DropdownIndexer.CollectKeys` and `DropdownIndexer.CollectLastSeen` |
| DropdownIndexer.CarriesStep | web_app/script.js:84-89 | The codes carried by the first `n` records are those of the first `n - 1` plus the `n`-th record's non-empty code |
| DropdownIndexer.LastCarrier | web_app/script.js:84-89 | A code carried by one of the first `n` records has a last carrier among them, the record whose `set` the map keeps |
| DropdownIndexer.CollectKeys | web_app/script.js:83-89 | After the `forEach`, the map's keys are exactly the non-empty codes in the dataset, each once |
| DropdownIndexer.IsLastShrink | web_app/script.js:84-89 | A record that is last among `n` records with its code, and is not the `n`-th, is last among the first `n - 1` |
| DropdownIndexer.CollectLastSeen | web_app/script.js:84-89 | Each code maps to the translation (or `""`) of the last record carrying it |
| DropdownIndexer.SetByLast | web_app/script.js:85-88 | The record processed last sets its own code to its own translation |
| DropdownIndexer.KeptPastLater | web_app/script.js:85-88 | A record with another code, or none, leaves a code's translation unchanged |
| DropdownIndexer.Label | web_app/script.js:140-144 | The option text is the bare code exactly when the translation is empty, and otherwise is the translation followed by ` (code)` |
| DropdownIndexer.LabelRoundTrip | web_app/script.js:140-144 | The translation can be read back from the option text and its value |
| DropdownIndexer.Vocabulary | web_app/script.js:81-107 | The options are every non-empty code of the dataset exactly once, strictly ascending, and each option's text is the label of its code and translation |
| DropdownIndexer.VocabularyLastSeen | web_app/script.js:84-101 | The record that is last to carry its code has an option, and the option for that code carries the record's translation (or `""`) |
| DropdownIndexer.VocabularyOptionLastSeen | web_app/script.js:84-101 | Every option belongs to the record that is last to carry its code, and carries that record's translation (or `""`), which is what `get` returns for the code |
| Controller.Start | web_app/script.js:40-41 | After loading, the result is the whole dataset on page 1 |
| Controller.Edit | web_app/script.js:156-164 | Typing in a control changes only the form: the page stays valid or invalid as it was, and the screen is unchanged until Enter, a button or a dropdown change runs an action |
| Controller.PerformSearch | web_app/script.js:174-229 | A search goes to page 1 and replaces the result with the ordered subsequence of the dataset whose records pass the form's criteria, each passing record as often as in the dataset |
| Controller.ResetSearch | web_app/script.js:232-242 | A reset blanks the form, restores the whole dataset and goes to page 1 |
| Controller.ResetIsBlankSearch | web_app/script.js:232-242 | Searching right after a reset changes nothing: reset is the search with a blank form |
| Controller.ChangePage | web_app/script.js:337-345 | Changing page keeps a valid page valid and never touches the result or the form; it moves to `page + delta` whenever that page exists, and otherwise changes nothing |
| Controller.ChangePageUndo | web_app/script.js:337-345 | A page change that moved is undone by the opposite change |
| Controller.Render | web_app/script.js:245-271 | The screen shows the result count and page numbers and at most 50 rows; on a valid state it shows exactly as many rows as the page holds, row `i` being the projection of result item `(page - 1) * 50 + i`; a non-empty result shows at least one row; an empty result disables both buttons and shows no row |
| Controller.ButtonsMatchNavigation | web_app/script.js:257-258 | The previous (next) button is enabled exactly when `changePage(-1)` (`changePage(1)`) would turn the page |
| Controller.Step | web_app/script.js:150-170 | One action keeps a valid page valid and keeps the result drawn in order from the dataset; typing and page turns keep the result; a search or a reset goes to page 1 |
| Controller.Run | web_app/script.js:150-170 | A sequence of actions keeps a valid page valid, and leaves the result as it was when it contains no search and no reset |
| Controller.RunKeepsValid | web_app/script.js:150-170 | From a valid state whose result is drawn in order from the dataset, any sequence of typing, search, reset, previous and next keeps the page valid and keeps the result an ordered subsequence of the dataset |
| Controller.Reachable | web_app/script.js:36-41 | Every state reachable after loading has a valid page and a result drawn in order from the dataset |
| Scenarios.TrimNoBlanks | web_app/script.js:176-180 | A term without blanks is its own trim |
| Scenarios.AbsentFirstChar | web_app/script.js:211 | A term whose first character the text lacks is not included in it |
| Scenarios.CasOnly | web_app/script.js:175-181 | A form with only the CAS control filled in (without blanks) gives just that criterion |
| Scenarios.SearchOne | web_app/script.js:183-225 | Searching a single record gives it back exactly when it passes |
| Scenarios.CasSubstring | web_app/script.js:209-214 | The CAS term `7732` finds the record with registry number `7732-18-5` |
| Scenarios.CasNoMatch | web_app/script.js:209-214 | The CAS term `9999` finds nothing in a dataset holding only `7732-18-5` |
| Scenarios.IngredientTermNormalized | web_app/script.js:176 | The typed ingredient term `ASPIR` is searched as `aspir` |
| Scenarios.AspirinLowered | web_app/script.js:186 | The English name `Aspirin` is compared as `aspirin` |
| Scenarios.AspirinFound | web_app/script.js:185-196 | The term `aspir` passes the record named `Aspirin` with no Chinese name |
| Scenarios.IngredientCaseInsensitive | web_app/script.js:174-196 | Typing `ASPIR` finds `Aspirin` |
| Scenarios.AspirinCell | web_app/script.js:279-283 | The record with no Chinese name shows `Aspirin` alone |
| Scenarios.ThreePages | web_app/script.js:246-258 | With 120 different records, 3 pages result; page 1 shows 50 rows; next goes to page 2, which shows records 50 to 99 in order; next again reaches page 3, which shows 20 records ending with record 119, and there the next button is disabled and does nothing |
| Scenarios.LastTranslationWins | web_app/script.js:84-91 | Two ORAL records, the later one translated as 口服, give the single option `口服 (ORAL)` |
| Scenarios.LastEmptyTranslationWins | web_app/script.js:84-91 | With the untranslated ORAL record last, the single option is the bare `ORAL` |

## Left out

- `initApp`, `loadData` and `loadFieldMapping` fetch two JSON documents and report failures. This is network I/O. The model starts from the loaded record list (`Controller.Start`). The field-translation document is never read by the engine, so it is not modelled.
- `bindEvents` is not modelled as DOM wiring. Its effect is the action alphabet of `Controller.Step`: the search button, Enter in a text field and a dropdown change all run `PerformSearch`; the reset, previous and next buttons run `ResetSearch`, `ChangePage(-1)` and `ChangePage(1)`.
- `bindTooltipEvents`, `showTooltip`, `hideTooltip`, `moveTooltip` and `showLoading` are DOM event handling, viewport geometry and styling. The model keeps only the tooltip text attached to each cell.
- `formatNumber` is never called, and its floating-point formatting is out of scope. `populateDropdown` is never called either.
- The HTML produced by `innerHTML` (the `<br><small>` markup and the lack of escaping) is not modelled. A cell is modelled as its main text, annotation and tooltip.
- The texts `共 N 条记录` and `第 P 页，共 T 页` are not modelled. `Render` exposes the numbers they are built from.
- The global error listener only logs and is not modelled.
- JsStrings.ToLower: lower-cases ASCII letters only, because the full Unicode case mapping of `toLowerCase` is a data table outside this model. Capitals outside ASCII (full-width Latin, Greek, Cyrillic, Roman numerals such as Ⅱ and others) are left as they are, so a term or a name containing them can match differently from the page.
- JsOrder.Sort: compares whole code points rather than UTF-16 code units, which the default `sort()` compares. The two orders differ only between characters above U+FFFF and those in U+E000 to U+FFFF.
- Paginator.Slice: states the result only for bounds inside the sequence. The body also clamps negative and overlong bounds as `slice` does, but the page arithmetic never produces those bounds from a valid page.
- A number stored in a text column (for example a numeric UNII) would make `toLowerCase` throw in the search. The model types these columns as string or null, so that failure is not modelled.
