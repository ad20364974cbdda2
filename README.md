# LibSysAI retrieval engine in Dafny

LibSysAI is a library help-desk assistant. The system keeps a knowledge base of
three parts: procedure documents (`SopFile`), a variable dictionary (`vqd.json`)
and a set of lookup tables (`lkp.json`). For every question it builds the
context string that is sent to the language model along with the question.
This project models that retrieval engine, which lives in `App.tsx`, as Dafny
functions, methods and lemmas:

- `text.dfy` (module `Text`): ASCII case mapping, substring search, the
  tokenizer `tokenize`, the `\W+` splitter, `Set` de-duplication, and number
  formatting.
- `json.dfy` (module `Json`): the value `JSON.parse` produces, with a separate
  "invalid JSON" outcome, plus `Number(...)`.
- `dictionary.dfy` (module `Dictionary`): the record shapes of `types.ts`,
  `parseVQDFile` and `parseLKPFile`. Both parsers are methods with the
  source's push loops and `Map.set` calls. Each is proved equal to a
  specification function, and each function's list and maps are
  characterised.
- `matcher.dfy` (module `Matcher`): `normalizePlural`, `baseForm` and
  `matchesWord`. `matchesWord` is a method with the source's nested loops and
  early return.
- `ranking.dfy` (module `Ranking`): the `filter(score > 0)` /
  stable `sort` by descending score / `slice(0, n)` chain. `Array.prototype.sort`
  is stable, so the sorted order is score descending, then original index
  ascending. `RankedUnique` proves that only one arrangement has that order, so
  the insertion sort used here gives what any stable sort gives.
- `variable_search.dfy` (module `VqdSearch`): `searchVQDDescriptions`, with
  synonym enrichment and per-record scoring.
- `lookup_search.dfy` (module `LkpSearch`): `searchLKPDescriptions`, with
  cluster expansion, row matching and table ranking.
- `context.dfy` (module `Context`): `getRelevantContext`. It covers query
  terms, the technical flag, file scores with whole-word counting, file
  selection, the rendering of the VQD, LKP and file blocks, and assembly
  through the `combinedContext +=` accumulator.
- `buttons.dfy` (module `Buttons`): the `[[label]]` reply-button protocol.
  `parseOptions` extracts the labels and `replace(/\[\[.*?\]\]/g, '')`
  removes the buttons. The lazy regular expression is written out as a scan.

Where the source mutates state step by step, the model is a method with the
same loop. Examples are the parser push loops, the `Set.add` expansion, the
per-record `score` counters, the nested loops of `matchesWord`, the file loop
with `break`, and the `combinedContext +=` accumulator. Each such method's
`ensures` ties its result to a specification function. The lemmas then state
what that function promises.

Notes on the code:

- **`baseForm` is not idempotent.** `baseForm("needed")` is `"need"` and
  `baseForm("need")` is `"ne"` (`BaseFormNotIdempotent`). The comment at
  App.tsx:380 says `"issued"` becomes `"issue"`, but the code gives `"issu"`
  (`BaseFormTenseExamples`).
- **A location hit adds the institution keywords.** In the variable search
  (App.tsx:502-503) a location keyword in the query adds the *institution*
  keyword list, and the location list itself is never added. The model keeps
  this as written; `VqdSearch.LocationHitAddsInstitutions` pins it down.
- **The lookup keyword clusters are empty.** The four clusters of the lookup
  search are empty placeholders in the code (App.tsx:428-431). The model takes
  the clusters as a parameter, and `ShownClusters` holds the four empty lists.
  With those, the expansion is the de-duplicated query tokens
  (`ShownExpansionIsDedup`).
- **The "Top 200" header is only text.** The VQD block header says
  "Top 200", but both structured searches are called with a cap of 100
  (`SearchCap`).

## Model

| member | source | states |
|---|---|---|
| Text.Tokenize | App.tsx:408-413 | every token is non-empty and made only of `[a-z0-9]` |
| Text.TokenizeEmpty | App.tsx:408-413 | `tokenize("")` is the empty list |
| Text.TokenizeWord | App.tsx:408-413 | a word whose every character lowercases to a letter or digit tokenizes to its lowercase form alone |
| Text.TokenizeAcrossDelimiter | App.tsx:408-413 | a non-alphanumeric character splits the text: the tokens of `a + [d] + b` are the tokens of `a` followed by those of `b`, in text order |
| Text.TokenizeNothing | App.tsx:408-413 | there are no tokens exactly when no character lowercases to a letter or digit |
| Text.DedupMembers | App.tsx:506 | `Array.from(new Set(xs))` holds exactly the elements of `xs` |
| Text.DedupDistinct | App.tsx:506 | the de-duplicated list has no repeated element |
| Text.DedupFirst | App.tsx:506 | de-duplication keeps the first element in front |
| Dictionary.ParseVariables | App.tsx:551-599 | invalid JSON gives the invalid-JSON error; a non-array top level gives the not-an-array error; otherwise the push loop builds `VariableIndex` of the elements and never fails on a bad element |
| Dictionary.VariableListMembers | App.tsx:573-593 | the record list holds exactly the records of the elements that are non-null objects with a string `variable_name` |
| Dictionary.VariableIndexLastWins | App.tsx:594-595 | `byVariable` (uppercased name) and `byId` map each key to the last record in the list with that key, and hold no other key |
| Dictionary.VariableParseExample | App.tsx:575-591 | a good element gets the defaults `type ""`, `format null`, `record_type null`, `search_text ""`; an element without `variable_name` is skipped |
| Dictionary.VariableOf | App.tsx:583-591 | `variable_name` is copied; `id` is `Number(item.id)`; `type`, `description` and `search_text` are the element's string or ""; `format` and `record_type` are present exactly when the element holds a string there, and are that string |
| Json.ToNumberCases | App.tsx:584 | `Number(x)`: a number is itself, a missing field NaN, `null` and "" are 0, `true` is 1, the decimal text of a natural number is that number, a one-number array is that number, an object is NaN |
| Json.DecimalRoundTrip | App.tsx:584 | the decimal text of a natural number is all digits and `Number` reads it back as the same number |
| Dictionary.PushRows | App.tsx:639-657 | the row loop pushes the valid rows in order onto the table and onto the flat list, and keeps `byId` and `byDescription` equal to the last-write-wins index of the list |
| Dictionary.ParseLookupTables | App.tsx:601-663 | invalid JSON and a non-array top level give their errors; otherwise the table loop builds `LookupIndex` of the elements |
| Dictionary.LookupTablesMembers | App.tsx:625-660 | the tables kept are exactly those of the elements that are non-null objects with an array `rows` |
| Dictionary.TableKeptWithoutRows | App.tsx:626-659 | a table whose every row is invalid is still kept, with no rows |
| Dictionary.TableRowsMembers | App.tsx:639-653 | a kept table's rows are exactly the rows with a string `id` and a string `description` |
| Dictionary.RowOf | App.tsx:647-651 | a row's `id` and `description` are the element's strings; `properties` is present exactly when the element holds a string there, and is that string |
| Dictionary.TableOf | App.tsx:632-637 | `table_id` and `table_description` are present exactly when the element holds a string there, and are that string; the table never has more rows than the element |
| Dictionary.StringListOr | App.tsx:635 | `table_properties ?? []` written out with `join`: an array keeps every element, in order, a string as itself and `null` as ""; anything else gives the empty list |
| Dictionary.LookupIndexLastWins | App.tsx:653-656 | the flat list is the tables' rows in order; `byId` and `byDescription` are last-write-wins over it |
| Dictionary.CollectMembers | App.tsx:573-581 | the lenient element loop keeps exactly the elements that pass the check, each turned into its record |
| Dictionary.CollectAppend | App.tsx:573-596 | the kept elements of a concatenation are those of each part in order, so the list is an in-order subsequence |
| Matcher.PluralForms | App.tsx:355-360 | one or two forms; the word comes first; a second form exists exactly when the word ends in "s", and it is the word minus that "s" |
| Matcher.BaseForm | App.tsx:367-389 | the result is lowercase, never longer than the word, at most three characters shorter, and equal to the lowercased word unless a suffix was cut |
| Matcher.BaseForms | App.tsx:391-392 | the forms compared are the base forms of the plural forms, each within four characters of the word's length |
| Matcher.BaseFormsOfPlural | App.tsx:391-392 | there are two forms exactly when the word ends in "s", and then the second is the base form of the word minus that "s" |
| Matcher.MatchesWord | App.tsx:362-406 | the nested loops return true exactly when some input form is no longer than, and a substring of, some description form |
| Matcher.WordsMatchReflexive | App.tsx:391-405 | every word matches itself |
| Matcher.WordsMatchLength | App.tsx:394-401 | a match implies the input is at most four characters longer than the description word |
| Matcher.WordsMatchAsymmetric | App.tsx:394-401 | the match is not symmetric: "book" matches "notebook" but not the reverse |
| Matcher.BaseFormPluralExamples | App.tsx:371-376 | "bodies" → "body", "borrowers" → "borrower", "ies" → "y" (no length guard), "bus" → "bus" (too short) |
| Matcher.BaseFormTenseExamples | App.tsx:379-386 | "issued" → "issu", "borrowing" → "borrow" |
| Matcher.BaseFormNotIdempotent | App.tsx:367-389 | "needed" → "need" → "ne": applying `baseForm` twice differs from once |
| Matcher.AnyTokenMatches | App.tsx:522 | the `some` over description tokens is true exactly when one of them matches |
| Ranking.Positive | App.tsx:531-532 | the filter keeps only positive scores and never grows the list |
| Ranking.PositiveMembers | App.tsx:531-532 | the filter keeps exactly the positive-score elements |
| Ranking.PositiveInOrder | App.tsx:531-532 | filtering keeps the original order |
| Ranking.SortRankedCorrect | App.tsx:533 | the sort returns a permutation of its input with scores non-increasing and ties in original order |
| Ranking.RankedUnique | App.tsx:533 | two such orderings of the same elements are equal, so the result is that of any stable descending sort |
| Ranking.Take | App.tsx:534 | `slice(0, n)` is a prefix of length `n`, or the whole list when it is shorter |
| Ranking.Items | App.tsx:535 | `map(item => item.vqd)` keeps length and order |
| Ranking.RankProperties | App.tsx:531-535 | at most `n` results, all with positive scores and taken from the input, in ranked order; a positive element is left out only when `n` elements that outrank it fill the result |
| Ranking.RankKeepsOrOutranks | App.tsx:531-534 | a positive element of the input is in the result, or the result holds `n` elements that each outrank it |
| Ranking.RankIsStableSort | App.tsx:531-534 | the chain equals the first `n` of any ranked permutation of the positive elements |
| VqdSearch.EnrichInput | App.tsx:492-507 | the enriched strings start with the raw query and have no duplicates |
| VqdSearch.EnrichInputMembers | App.tsx:492-507 | the enriched strings are the query, the borrower list after a borrower hit, and the institution list after an institution hit or a location hit |
| VqdSearch.LocationHitAddsInstitutions | App.tsx:502-504 | a location keyword enters the enriched strings only as the raw query itself, and a location hit adds every institution keyword |
| VqdSearch.NoWordCharMentionsNothing | App.tsx:496-503 | a text with no letter or digit mentions no keyword that begins with one |
| VqdSearch.FlatTokens | App.tsx:513 | the `flatMap` yields tokens only |
| VqdSearch.MatchCount | App.tsx:516-526 | a score never exceeds the number of query tokens |
| VqdSearch.MatchCountPositive | App.tsx:519-525 | a score is positive exactly when some query token matches some description token |
| VqdSearch.MatchCountAppend | App.tsx:521-525 | scores add up over the query tokens, so a repeated token counts twice |
| VqdSearch.ScoreVariables | App.tsx:517-528 | each record is paired with its score and its index |
| VqdSearch.SearchVariables | App.tsx:481-545 | the `map` over the records and the chain compute `VariableSearch` |
| VqdSearch.VariableSearch | App.tsx:481-545 | at most `topN` records, each a record of the index whose score for the enriched query tokens is positive |
| VqdSearch.ScoreVariable | App.tsx:518-527 | the token loop of the `map` callback computes the record's score, `MatchCount` over its description tokens |
| VqdSearch.VariableSearchProperties | App.tsx:530-535 | at most `topN` records; each one is an index record with a positive score; scores are non-increasing with ties in index order; a scoring record is left out only when the result holds `topN` records that each outrank it (higher score, or equal score and earlier index) |
| VqdSearch.QueryWordsEmpty | App.tsx:510-514 | the enriched token list is empty exactly when the raw query has no token |
| VqdSearch.NoTokenNoResult | App.tsx:513-514 | a query without letters or digits returns no record |
| LkpSearch.AddAll | App.tsx:434 | the `Set` insertions give `AddWords` |
| LkpSearch.ExpandOne | App.tsx:437-440 | the cluster checks for one token give `ExpandWord` |
| LkpSearch.ExpandQuery | App.tsx:433-441 | building the term set gives `Expansion` |
| LkpSearch.Expansion | App.tsx:433-441 | the term list has no duplicate and starts with the de-duplicated query tokens in order |
| LkpSearch.AddWordsMembers | App.tsx:434 | after the additions the set holds the old terms and the new words, and nothing else |
| LkpSearch.AddWordsDistinct | App.tsx:434 | the set never holds a term twice |
| LkpSearch.AddWordsIsDedup | App.tsx:434 | `new Set(words)` in insertion order is the de-duplicated word list |
| LkpSearch.ExpandWordMembers | App.tsx:437-440 | a token adds exactly the members of the clusters that contain it |
| LkpSearch.ExpandWordsMembers | App.tsx:436-441 | the expansion loop adds exactly the members of clusters that contain some query token |
| LkpSearch.ExpansionProperties | App.tsx:433-445 | the term list is distinct, starts with the distinct query tokens in order, and holds exactly the tokens and the members of the clusters they hit |
| LkpSearch.ExpansionEmpty | App.tsx:443 | the early `return []` fires exactly when the query has no token |
| LkpSearch.EmptyClustersAddNothing | App.tsx:437-440 | empty clusters add no term |
| LkpSearch.ShownClustersAddNothing | App.tsx:428-441 | with the four empty lists as written, the expansion loop changes nothing |
| LkpSearch.ShownExpansionIsDedup | App.tsx:428-445 | with the clusters as written, the terms are the distinct query tokens |
| LkpSearch.AnyTermMatches | App.tsx:454-456 | the outer `some` is true exactly when some term matches some row token |
| LkpSearch.MatchRows | App.tsx:450-459 | the row loop pushes `MatchedRows` |
| LkpSearch.MatchedRows | App.tsx:450-459 | never more matched rows than rows |
| LkpSearch.MatchedRowsMembers | App.tsx:452-459 | the matched rows are exactly the table's rows that match |
| LkpSearch.TableResults | App.tsx:447-469 | every result points at a table of the input |
| LkpSearch.TableResultsProperties | App.tsx:449-469 | results are in table order; each carries its table's fields and only its matched rows, at least one, scored by their count; every table with a matched row has a result |
| LkpSearch.SearchLookupTables | App.tsx:422-475 | the loops and the sort compute `LookupSearch` |
| LkpSearch.LookupSearch | App.tsx:422-475 | at most `topN` tables, each with at least one matched row, and its matched rows are those of some input table for the expanded terms |
| LkpSearch.LookupSearchProperties | App.tsx:471-474 | at most `topN` tables; each has matched rows equal to its matching rows, at least one; ordered by non-increasing matched-row count with ties in table order; a table with a match is left out only when the result holds `topN` tables that each outrank it (more matched rows, or as many and earlier in the list) |
| LkpSearch.NoTokenNoTables | App.tsx:433-443 | a query without tokens returns no table |
| LkpSearch.SharedTokenMatches | App.tsx:453-456 | a row sharing a token with the query always matches |
| Context.LongPieces | App.tsx:238 | the filter keeps only pieces longer than four characters, taken from the split |
| Context.QueryTerms | App.tsx:237-238 | every query term is longer than four characters and made of `\w` characters |
| Context.QueryTermsOfWord | App.tsx:237-238 | a query that is one run of `\w` characters has its lowercase form as its only term when it is longer than four characters, and no term otherwise |
| Context.QueryTermsAcrossDelimiter | App.tsx:237-238 | a character outside `\w` splits the query: the terms of `a + [d] + b` are those of `a` followed by those of `b` |
| Context.LongPiecesMembers | App.tsx:238 | the filter keeps exactly the pieces longer than four characters |
| Context.LongPiecesAppend | App.tsx:238 | the filter keeps the pieces' order: it distributes over concatenation |
| Context.IsTechnicalIgnoresCase | App.tsx:237-242 | the technical test gives the same answer on the uppercased and the lowercased query, and needs at least four characters |
| Context.NoOverlap | App.tsx:323-325 | two whole-word matches of a term never overlap |
| Context.ScanCountsAll | App.tsx:323-325 | the left-to-right global match count equals the number of positions where the term occurs as a whole word |
| Context.MatchesImplyContains | App.tsx:324-327 | a whole-word match implies a plain substring match, so the +2 is also earned |
| Context.WholeWordMatches | App.tsx:323-325 | the global match count times the term length fits in the scanned content, so matches never overlap |
| Context.NameBoost | App.tsx:303-317 | no boost for a non-technical question; at most 630 points; at least 300 exactly when the name has a data marker; at least 580 when the name has "lkp" |
| Context.TermScore | App.tsx:319-328 | a term earns points exactly when it occurs in the name, the path or the content; each whole-word match earns 10 and brings the +2 with it |
| Context.ScoreFile | App.tsx:297-331 | the per-file `score +=` steps compute `FileScore` |
| Context.TermsScorePositive | App.tsx:319-328 | the term points are positive exactly when some term occurs in the name, the path or the content |
| Context.FileScorePositive | App.tsx:303-328 | a file scores above zero exactly when a technical boost applies or some term occurs in it |
| Context.LookupFileBoost | App.tsx:305-314 | a technical question gives a file with "lkp" in its name at least 580 points over its term points |
| Context.ScoreFiles | App.tsx:297-331 | each file is paired with its score and its index |
| Context.ScoreAllFiles | App.tsx:297-331 | the `files.map` loop computes `ScoreFiles` |
| Context.SelectedFilesProperties | App.tsx:333-348 | at most `limit` files, each with a positive score, in non-increasing score order with ties in input order; a scoring file is left out only when `limit` files that each outrank it are included (higher score, or equal score and earlier in the input); `limit` is `DefaultLimit`, 3, at the one call site |
| Context.AppendFiles | App.tsx:337-348 | the loop with `break` appends the blocks of the first `limit` sorted files |
| Context.AppendVariables | App.tsx:247-264 | the accumulator receives the VQD block |
| Context.AppendTables | App.tsx:266-291 | the accumulator receives the LKP block |
| Context.RenderVariableShows | App.tsx:254-259 | a variable's entry writes out its id, name, type, format or "None", record type or "None", and description |
| Context.RenderRowShows | App.tsx:280-283 | a row's entry writes out its id, description, and properties or "None" |
| Context.RenderTableShows | App.tsx:273-285 | a table's entry writes out its id, its description, each property and the entry of each matched row |
| Context.RenderVariablesShows | App.tsx:253-260 | the joined list contains every variable's entry and is empty only for no variables |
| Context.RenderTablesShows | App.tsx:272-287 | the joined list contains every table's entry and is empty only for no tables |
| Context.VariableBlockShows | App.tsx:247-264 | the VQD block is present exactly for a technical question with a non-empty index and a non-empty search result, and then holds the header and every result's entry |
| Context.LookupBlockShows | App.tsx:266-291 | the LKP block is present exactly for a technical question with non-empty tables and a non-empty search result, and then holds the header and every result's entry |
| Context.FileBlock | App.tsx:344-345 | a file's block ends with the file's whole content |
| Context.ContextHasSelectedFiles | App.tsx:333-348 | for a non-empty query and some files, every selected file's block, with its whole content, is in the returned context |
| Context.GetRelevantContext | App.tsx:227-352 | the accumulator computes `RelevantContext` |
| Context.ContextGuards | App.tsx:234-244 | an empty query gives ""; no files and no variables give "" even with lookup tables; otherwise the output starts with the preamble |
| Context.NonTechnicalContext | App.tsx:247-348 | a question without "boolean", "query" or "code" gets no VQD or LKP block: the preamble followed by the selected files |
| Context.NoTokenNoBlocks | App.tsx:247-291 | a query without tokens adds no VQD or LKP block |
| Context.FileSectionBlocks | App.tsx:338-348 | the file section is the selected files' `SOURCE_FILE` blocks concatenated in order |
| Buttons.CloseAt | App.tsx:218 | the lazy `.*?\]\]` stops at a "]]" inside the text |
| Buttons.ParseOptions | App.tsx:217-221 | every option is a label the pattern reads back whole |
| Buttons.StripButtons | App.tsx:15 | the stripped text is shorter than the text by at least four characters per option |
| Buttons.RenderSegments | App.tsx:218 | the scan only cuts the text up: writing the segments back gives the text |
| Buttons.OptionsClosable | App.tsx:218-220 | every option is closable: no line terminator, and no "]" followed by "]" or by its end |
| Buttons.ParseOptionsClean | App.tsx:217-221 | no option contains "]]" or a line feed |
| Buttons.NoOpenNoOptions | App.tsx:217-221 | a text without "[[" has no options and is shown unchanged |
| Buttons.ButtonRoundTrip | App.tsx:217-221 | `parseOptions("[[" + l + "]]")` is `[l]` for every closable label |
| Buttons.OneButton | App.tsx:15 | after text without "[", a button's label is the first option, and stripping keeps the text and drops the button |
| Buttons.TwoButtons | App.tsx:217-221 | two buttons separated by plain text come back as their two labels in order |
| Buttons.ClosingLineOptions | App.tsx:736-743 | "Anything else? [[New Issue]] [[Done]]" after text without "[" offers "New Issue" and "Done", and the exported text keeps the text before them and the space between them |

## Left out

- The React component, its state, rendering, scrolling, `startNewChat` and
  `stopGeneration` are UI and framework state.
- `syncKnowledgeBase`, `file.text()`, `alert`, the `mailto:` links and the
  async control flow of `handleSend` are I/O plumbing. The parsers start from
  the decoded JSON value.
- `JSON.parse` is not modelled. Its result is the `Decoded` datatype: an
  invalid-JSON outcome, or a value with integral numbers and objects as maps.
- `stripHTML` is left out. It is a chain of case-insensitive regular
  expressions over Unicode whitespace.
- `services/geminiService.ts` is a remote model call. `generateManifest.cjs`
  and `generateManifest.js` are filesystem walks. Neither is part of this
  model.
- `constants.ts` is not part of this model. `SYSTEM_INSTRUCTION + BOOLEAN_MANDATE`
  is the `preamble` parameter of `RelevantContext`.
- `console.log` diagnostics are left out.
- `toLowerCase` and `toUpperCase` are ASCII-only here. Unicode case mapping,
  and the `i` flag beyond ASCII, are not modelled.
- Dictionary.ParseVariables: a field that is present but is neither a string
  nor null gets the default. The source copies such a raw value into the
  record, and `tokenize` on a non-string description would throw.
- Dictionary.ParseLookupTables: `table_id` and `table_description` are kept
  only when they are strings. A null or non-string value renders as
  "undefined", where the source prints "null" or the raw value. A non-string
  row `properties` renders as "None" instead of the raw value. A non-array
  `table_properties` is replaced by the empty list. The elements of an array
  `table_properties` are all kept, each as the text `join` writes for it
  (`Json.JoinText`); numbers in them are integers, formatted as described in
  the `Number(item.id)` line below.
- `Number(item.id)` is modelled for integers and plain decimal digit strings.
  Fractions, exponents, surrounding whitespace and other numeric strings give
  NaN here, so JavaScript number formatting of such ids is not modelled.
  Numbers are unbounded integers written out in full decimal, so the loss of
  precision of a JavaScript number beyond 2^53, and its switch to exponent
  form from 1e21 on, are not modelled either.
- `topN` is a natural number and `limit` an integer. Fractional values of
  either are not modelled. A `null` `vqdIndex` or `lkpTables` is treated as
  empty.
- Buttons.StripButtons: the `.trim()` after the replacement (App.tsx:15) and
  the `**bold**` split (App.tsx:16) belong to the rendering layer and are not
  modelled.
