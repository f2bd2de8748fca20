# Exome results browsers — a verified model

The exome results browsers present precomputed results of case–control
studies of psychiatric and other disorders: SCHEMA, Epi25, BipEx, ASC and
IBD. Per-gene burden tests and per-variant case and control counts come out
of a Hail pipeline. That pipeline validates each dataset's tables, bins and
cleans their fields, builds gene models and search terms, and packs every
dataset into one combined table of positional tuples. A small Express
server answers gene searches and serves the per-gene JSON files. A React
client then does the following:

- decodes the tuples against the field names recorded beside them;
- classifies each variant's consequence;
- selects one analysis group;
- filters, sorts and exports the variant table;
- shows the gene-results table and a variant's details.

This project restates that core in Dafny and proves what it promises. It
covers:

- the decoders;
- the consequence tables;
- the filter, sort and jump steps of the variant table, as a class whose
  methods update the page state;
- the gene-results page and its table, whose in-place `Array.prototype.sort`
  is an array method;
- CSV export;
- the dataset-specific custom filters and configurations;
- the search, gene-resolution, bucket-path and dataset-selection logic of
  the server, with its search index as a class;
- cookie and header handling;
- variant ids and position numbers;
- the pipeline steps that validate tables, prepare the ASC and SCHEMA
  variant results, build gene models and search terms, and combine
  datasets.

JavaScript values are modelled as a datatype with `undefined`, `null`,
booleans, numbers (as reals), `NaN`, strings, arrays and objects. Each
operation that can throw returns a `Result` that carries the exception.
Hail's missing values are `Option`s.

Where the code behaves in ways a reader might not expect, the model follows
the code:

- Decoding never checks a row's length against its schema. Too short a row
  reads `undefined`; reading a position of a `null` cell throws.
- CSV quoting is applied to any string with a comma or a quote of either
  kind. `replace` then doubles only the FIRST double quote, so `a"b"c` is
  exported as `"a""b"c"` (`CsvExport.AsWrittenLeavesSecondQuote`). Text with
  at most one double quote is still quoted as RFC 4180 prescribes.
- The gene-results table counts only `null` and `''` as empty values.
  `undefined` is compared like any other value. Requesting the `gene_id`
  column stores `gene_symbol`, which is then compared by subtraction.
- There is no transcript-level consequence grouping in the code, and no
  separate "unknown" rank. ASC's most severe term is the first of least
  rank, with unranked terms sorted last.
- The search index stores the terms as the pipeline wrote them. They are
  upper case because the pipeline upper-cases them (`GeneModels.SearchTermsSpec`),
  not because the index folds case.
- `isLoggedIn` compares a boolean with `null` and so is always true
  (`Auth.IsLoggedIn`).

## Model

| member | source | states |
|---|---|---|
| AscBrowser.ApplyFilter | src/browsers/asc/ASCBrowser.js:131-136 | with `onlyInAnalysis` off the variants are returned as they are |
| AscBrowser.ApplyFilterKeeps | src/browsers/asc/ASCBrowser.js:131-136 | on rows that have a `group_result`, the filter never throws and keeps exactly the rows with a truthy `group_result.in_analysis`, in input order |
| AscBrowser.DefaultFilterKeepsAll | src/browsers/asc/ASCBrowser.js:128-130 | the default filter state lets every variant through |
| AscBrowser.DefaultGroupIsAnOption | src/browsers/asc/ASCBrowser.js:109-115 | the default analysis group `ASC_DN` is one of the options, and every option has its configured label |
| BipExBrowser.ApplyFilter | src/browsers/bipex/BipExBrowser.js:169-174 | with `onlyInAnalysis` off the variants are returned as they are |
| BipExBrowser.ApplyFilterKeeps | src/browsers/bipex/BipExBrowser.js:169-174 | on rows that have a `group_result`, the filter never throws and keeps exactly the rows with a truthy `group_result.in_analysis`, in input order |
| BipExBrowser.DefaultFilterKeepsAll | src/browsers/bipex/BipExBrowser.js:166-168 | the default filter state lets every variant through |
| BipExBrowser.DefaultGroupIsAnOption | src/browsers/bipex/BipExBrowser.js:98-106 | the default group is one of the six options, and with more than one option the group selector is shown |
| BipExBrowser.DecoderEntries | src/browsers/bipex/BipExBrowser.js:132-163 | the decoder's dictionary maps each of the six terms to its label and category; `NA`, whose label is empty, is shown as `NA` |
| Epi25Browser.ApplyFilter | src/browsers/epi25/Epi25Browser.js:171-176 | with `onlyInAnalysis` off the variants are returned as they are |
| Epi25Browser.ApplyFilterKeeps | src/browsers/epi25/Epi25Browser.js:171-176 | on rows that have an `info` object, the filter never throws and keeps exactly the rows with a truthy `info.in_analysis`, in input order |
| Epi25Browser.ReadsInfoNotGroupResult | src/browsers/epi25/Epi25Browser.js:173 | the filter reads `info.in_analysis`: a variant flagged only in its `group_result` is dropped |
| Epi25Browser.DefaultFilterKeepsAll | src/browsers/epi25/Epi25Browser.js:168-170 | the default filter state lets every variant through |
| Epi25Browser.DecoderEntries | src/browsers/epi25/Epi25Browser.js:132-165 | with no labels configured, every term is shown as itself, with its configured category (`lof`, `missense`, `synonymous`, `other`) |
| Epi25Browser.InAnalysisExport | src/browsers/epi25/Epi25Browser.js:122-130 | the In Analysis column exports `yes` exactly when `info.in_analysis` is truthy, and the empty string otherwise |
| IbdBrowser.ApplyFilter | src/browsers/ibd/IBDBrowser.js:146-151 | with `onlyInAnalysis` off the variants are returned as they are |
| IbdBrowser.ApplyFilterKeeps | src/browsers/ibd/IBDBrowser.js:146-151 | on rows that have a `group_result`, the filter never throws and keeps exactly the rows with a truthy `group_result.in_analysis`, in input order |
| IbdBrowser.DefaultFilterKeepsAll | src/browsers/ibd/IBDBrowser.js:143-145 | the default filter state lets every variant through |
| IbdBrowser.DefaultGroupIsAnOption | src/browsers/ibd/IBDBrowser.js:69-70 | the default group `ibd-control` is one of the options |
| IbdBrowser.DecodedConsequence | src/browsers/ibd/IBDBrowser.js:106-107 | a decoded `missense_variant` is shown as `Missense variant` in category `missense`; any other non-empty term is shown as itself in category `other` |
| SchemaBrowser.ApplyFilter | src/browsers/schema/SCHEMABrowser.js:257-265 | with both flags off the variants are returned as they are |
| SchemaBrowser.ApplyFilterKeeps | src/browsers/schema/SCHEMABrowser.js:257-265 | on rows that have a `group_result`, the filter never throws and keeps exactly the rows with `n_denovos > 0` (if asked) and a truthy `in_analysis` (if asked), in input order |
| SchemaBrowser.DeNovoStep | src/browsers/schema/SCHEMABrowser.js:259-261 | the de novo step keeps exactly the rows whose `group_result.n_denovos` is greater than 0, or every row when the flag is off |
| SchemaBrowser.DefaultFilterKeepsAll | src/browsers/schema/SCHEMABrowser.js:252-255 | both flags start off, so the default filter is a no-op |
| SchemaBrowser.DecoderCategories | src/browsers/schema/SCHEMABrowser.js:203-249 | `lof` is in category lof, `syn` synonymous, `splice` other, and `stoplost`, `startlost`, `mis`, `mis2`, `mis3`, `ns` missense |
| CustomFilters.OnlyInAnalysis | src/browsers/asc/ASCBrowser.js:131-136 | the shared `onlyInAnalysis` filter returns its input unchanged when the flag is off |
| CustomFilters.OnlyInAnalysisKeeps | src/browsers/ibd/IBDBrowser.js:146-151 | where every row can be read at the path, the filter is an order-preserving filter by the truthiness of the value read |
| CustomFilters.GroupResultReadable | src/browsers/asc/ASCBrowser.js:133 | reading `v.group_result.<field>` does not throw on a row that has a `group_result` object |
| Columns.FindColumn | src/browsers/base/GenePage/VariantsInGene.js:225 | the column found has the key and is one of the columns; none is found only when no column has the key |
| Columns.FindColumnFirst | src/browsers/base/GenePage/VariantsInGene.js:225 | `find` answers the first column with the key, whatever columns follow |
| Columns.FindColumnSkip | src/browsers/base/GenePage/VariantsInGene.js:225 | columns before the first match do not affect the answer |
| Consequences.TablesLastWins | src/client/consequences.js:3-9 | a term is in either dictionary exactly when some configured entry has that term, and then both dictionaries hold the category and label of the last such entry |
| Consequences.ConsequenceLookup.constructor | src/client/consequences.js:3-9 | the `forEach` fills both dictionaries with exactly the tables the configured list describes |
| Consequences.ConsequenceLookup.GetCategory | src/client/consequences.js:11 | the configured category of the last entry for the term, and `undefined` for a term no entry configures |
| Consequences.ConsequenceLookup.GetLabel | src/client/consequences.js:13-14 | the label of the last entry for the term when it is a non-empty string, otherwise the term itself |
| VariantSelection.WithGroupResult | src/browsers/base/GenePage/VariantsInGene.js:37 | the row is an object whose `group_result` is the variant's result for the group, with every other field of the variant unchanged |
| VariantSelection.SelectGroupResult | src/browsers/base/GenePage/VariantsInGene.js:34-38 | the rows are, in order, exactly the variants with a truthy result for the group, each with that result copied into `group_result` |
| VariantSelection.SelectMembership | src/browsers/base/GenePage/VariantsInGene.js:34-38 | a row is shown if and only if it is a variant of the input with a result for the group, with that result copied in |
| VariantSelection.SelectConcat | src/browsers/base/GenePage/VariantsInGene.js:34-38 | selection distributes over concatenation, so it keeps the input order |
| VariantSelection.SelectKeepsInfo | src/browsers/base/GenePage/VariantsInGene.js:37 | every selected row keeps its `info` object |
| VariantFilterControls.CategoryNamed | src/browsers/base/GenePage/VariantFilterControls.js:109-114 | the four category names map back to their categories, and any other name to none |
| VariantFilterControls.WithCategory | src/browsers/base/GenePage/VariantFilterControls.js:151-154 | the spread sets one category to the new value and leaves the other three as they were |
| VariantFilterControls.AllIncludedMeansEvery | src/browsers/base/GenePage/VariantsInGene.js:195-198 | the four-flag conjunction holds if and only if every category is included |
| VariantFilterControls.DefaultFilter | src/browsers/base/GenePage/VariantsInGene.js:44-53 | the initial filter includes every category, has empty search text and the browser's default custom filter |
| VariantFilterControls.OnChangeCategories | src/browsers/base/GenePage/VariantFilterControls.js:141-143 | the new filter has the new categories and keeps the search text and custom filter |
| VariantFilterControls.OnChangeSearchText | src/browsers/base/GenePage/VariantFilterControls.js:204-206 | the new filter has the new search text and keeps the categories and custom filter |
| VariantFilterControls.OnChangeCustom | src/browsers/base/GenePage/VariantFilterControls.js:192-194 | the new filter has the new custom state and keeps the categories and search text |
| VariantFilterControls.ShortcutTogglesOne | src/browsers/base/GenePage/VariantFilterControls.js:145-157 | a shortcut negates its own category and leaves the other categories, the search text and the custom filter unchanged |
| VariantFilterControls.ShortcutInvolution | src/browsers/base/GenePage/VariantFilterControls.js:145-157 | pressing the same shortcut twice gives back the original filter |
| VariantFilterControls.CategoryForKey | src/browsers/base/GenePage/VariantFilterControls.js:109-114 | a key toggles a category only when it is that category's shortcut key |
| VariantFilterControls.ShortcutKeysOneToOne | src/browsers/base/GenePage/VariantFilterControls.js:109-114 | the keys `l`, `m`, `s`, `o` are distinct, and each one selects its own category |
| VariantFilterControls.ExportFilename | src/browsers/base/GenePage/VariantFilterControls.js:181 | the file name is the group, `_`, the gene id and `_variants`, in that order |
| VariantDecoder.BuildDecoderTable | src/browsers/base/GenePage/VariantsInGene.js:426-432 | the `forEach` leaves exactly the dictionary the configured list describes (label or term, category or `other`) |
| VariantDecoder.DecoderTableLastWins | src/browsers/base/GenePage/VariantsInGene.js:426-432 | a term is in the dictionary exactly when it is configured, and then the last entry for it wins |
| VariantDecoder.DecoderTableDistinct | src/browsers/base/GenePage/VariantsInGene.js:426-432 | when no term is configured twice, every entry is in the dictionary with its own label and category |
| VariantDecoder.DecoderAgreesWithLookup | src/browsers/base/GenePage/VariantsInGene.js:426-432 | the decoder's label is `getLabelForConsequenceTerm` and its category is `getCategoryFromConsequence` or `other` |
| VariantDecoder.PairKeys | src/browsers/base/GenePage/VariantsInGene.js:442-444 | pairing names with positional values gives an object whose keys are exactly the names |
| VariantDecoder.PairValue | src/browsers/base/GenePage/VariantsInGene.js:451-455 | a name listed once holds the value at its position |
| VariantDecoder.FrequencyBounds | src/browsers/base/GenePage/VariantsInGene.js:457-471 | with a positive allele number the frequency is the ratio, and a count no larger than the allele number gives a frequency between 0 and 1 |
| VariantDecoder.PooledNullIffCountNull | src/browsers/base/GenePage/VariantsInGene.js:457-481 | the pooled `af` is null if and only if one of the four counts is null |
| VariantDecoder.PooledBetween | src/browsers/base/GenePage/VariantsInGene.js:473-481 | with both allele numbers positive, `af_case`, `af_ctrl` and `af` are the three ratios and the pooled frequency lies between the case and control frequencies |
| VariantDecoder.GroupEntriesKeys | src/browsers/base/GenePage/VariantsInGene.js:446-485 | a group has a result exactly when some position listing it holds a truthy value |
| VariantDecoder.GroupEntriesValue | src/browsers/base/GenePage/VariantsInGene.js:446-485 | a group listed once at a truthy position holds the result decoded from that position |
| VariantDecoder.DraftErrorPersists | src/browsers/base/GenePage/VariantsInGene.js:440-489 | once reading a field has thrown, decoding the row fails with that exception |
| VariantDecoder.Finish | src/browsers/base/GenePage/VariantsInGene.js:491-500 | `hgvs` is `hgvsp` or else `hgvsc`; a truthy consequence gets its configured category (else `other`) and label (else the term itself); a falsy one gets category `other`; every other field is kept |
| VariantDecoder.DecodeVariant | src/browsers/base/GenePage/VariantsInGene.js:434-503 | the nested loops compute the decoded variant, or the exception a read throws, as the recursive definition does |
| VariantDecoder.DecodeFields | src/browsers/base/GenePage/VariantsInGene.js:440-488 | the loop over the variant fields computes the object the recursive definition gives after all fields, or the first exception a read throws |
| VariantDecoder.DecodeField | src/browsers/base/GenePage/VariantsInGene.js:441-487 | one pass fills `info`, fills `group_results` or copies the plain value at that position, exactly as one step of the definition |
| VariantDecoder.FillInfo | src/browsers/base/GenePage/VariantsInGene.js:441-444 | the loop over the info field names computes the `info` object of the definition |
| VariantDecoder.FillGroupResults | src/browsers/base/GenePage/VariantsInGene.js:445-485 | the loop over the analysis groups computes `group_results` as the definition does, skipping falsy positions |
| VariantDecoder.DecodeGroupResult | src/browsers/base/GenePage/VariantsInGene.js:450-481 | the inner loop and the three frequency rules compute the group result of the definition |
| VariantDecoder.DecodeRows | src/browsers/base/GenePage/VariantsInGene.js:434-503 | on success there is one decoded variant per row, in order; a failure is the exception of some row |
| VariantDecoder.DecodedShape | src/browsers/base/GenePage/VariantsInGene.js:435-438 | every successfully decoded variant is an object with `info` and `group_results` objects |
| VariantDecoder.FinishCategory | src/browsers/base/GenePage/VariantsInGene.js:493-500 | a decoded variant's category is `other` or the category of some dictionary entry |
| VariantDecoder.DecodedCategoryIsKnown | src/browsers/base/GenePage/VariantsInGene.js:493-500 | when every configured category is one of the four, every decoded variant is in one of the four categories |
| VariantDecoder.TableCategoriesKnown | src/browsers/base/GenePage/VariantsInGene.js:426-432 | when every configured category is one of the four, so is every category in the dictionary |
| VariantTableColumns.GetVariantTableColumns | src/browsers/base/GenePage/variantTableColumns.js:185-198 | the nine base columns come first, then one column per configured column with its key, in order |
| VariantTableColumns.ShownOnGenePage | src/browsers/base/GenePage/VariantsInGene.js:59 | a configured column is shown if and only if it is not marked `showOnGenePage: false` |
| VariantTableColumns.SortMetadata | src/browsers/base/GenePage/variantTableColumns.js:64-198 | every column is sortable; each sorts by its own key except `variant_id`, which sorts by `pos`; from the fourth column on, the comparator is numeric subtraction |
| VariantTableColumns.ResultColumnDefaults | src/browsers/base/GenePage/variantTableColumns.js:186-196 | a configured column's heading defaults to its key, its width to 65, and its CSV value is the raw value at its key unless it configures a renderer |
| VariantTableColumns.VariantIdSortsByPosition | src/browsers/base/GenePage/VariantsInGene.js:225 | looking up `variant_id` always finds the base column, which sorts numerically by `pos` |
| VariantTableColumns.FindConfiguredColumn | src/browsers/base/GenePage/VariantsInGene.js:225 | a key no base column uses is looked up among the configured columns |
| GeneResultTableColumns.GetTableColumns | src/browsers/base/GeneResultsPage/geneResultTableColumns.js:41-58 | `gene_id` and `gene_name` come first, then one column per configured column with its key, in order |
| GeneResultTableColumns.AllSortable | src/browsers/base/GeneResultsPage/geneResultTableColumns.js:8-56 | every column of the gene-results table is sortable |
| GeneResultTableColumns.ResultColumnDefaults | src/browsers/base/GeneResultsPage/geneResultTableColumns.js:42-53 | a configured column's heading defaults to its key, its width to 65, and without a renderer its CSV value is the raw value at its key |
| CsvExport.FormatCell | src/browsers/base/CSVExportButton.js:6-17 | `undefined` and `null` give the empty string, a number its string form, a string its quoted form; an array fails if and only if one element is exactly `,`, `"` or `'` (its `replace` throws), and otherwise gives the text `join` writes for it; booleans and objects throw |
| CsvExport.ArrayCellUnquoted | src/browsers/base/CSVExportButton.js:13-19 | an array of texts none of which is exactly `,`, `"` or `'` is written as its texts joined by commas, unquoted even when a text holds a comma |
| CsvExport.ArrayCellThrows | src/browsers/base/CSVExportButton.js:13-14 | an array whose first element is the text `,` passes `includes` and fails with `value.replace is not a function` |
| CsvExport.DoubleQuotesRoundTrip | src/browsers/base/CSVExportButton.js:13-14 | doubling every quote is undone by reading each `""` back as one quote |
| CsvExport.RfcRoundTrip | src/browsers/base/CSVExportButton.js:13-14 | a field quoted as RFC 4180 prescribes reads back as the original text |
| CsvExport.AsWrittenAgreesWithRfcOnOneQuote | src/browsers/base/CSVExportButton.js:13-14 | for text with at most one double quote, the cell as written equals RFC 4180 quoting and reads back to the text |
| CsvExport.AsWrittenLeavesSecondQuote | src/browsers/base/CSVExportButton.js:14 | `replace` doubles only the first quote: `a"b"c` is exported as `"a""b"c"`, which is not well-formed RFC 4180, unlike `"a""b""c"` |
| CsvExport.FormatRow | src/browsers/base/CSVExportButton.js:19 | on success every cell of the row is its formatted value; the row fails if and only if some cell throws |
| CsvExport.FormatRows | src/browsers/base/CSVExportButton.js:19 | on success every row keeps its length and each cell is formatted; it fails if and only if some cell throws |
| CsvExport.CsvLines | src/browsers/base/CSVExportButton.js:19 | with no carriage return in any cell, splitting the text at `\r\n` gives each row's cells joined by commas, then the empty piece after the final line break |
| CsvExport.ExportRows | src/browsers/base/CSVExportButton.js:50-53 | the header row of headings (or keys), then one row per record of each column's CSV value, all of the column count |
| CsvExport.ExportLineCount | src/browsers/base/CSVExportButton.js:19-53 | an export whose cells format without error and hold no carriage return reads back as the header line plus one line per record |
| VariantsInGene.CategoryStepKeeps | src/browsers/base/GenePage/VariantsInGene.js:194-204 | a variant survives the category step if and only if every category is selected or its own category is; with every category selected, skipping the step changes nothing |
| VariantsInGene.LowerCase | src/browsers/base/GenePage/VariantsInGene.js:210-213 | `toLowerCase` succeeds exactly on strings |
| VariantsInGene.SearchTest | src/browsers/base/GenePage/VariantsInGene.js:208-214 | a row whose `variant_id` is not a string makes the search throw |
| VariantsInGene.SearchTestMatches | src/browsers/base/GenePage/VariantsInGene.js:208-214 | on a searchable row the search never throws and answers whether the lower-cased query occurs in the id, consequence, HGVSc or HGVSp |
| VariantsInGene.FilterVariants | src/browsers/base/GenePage/VariantsInGene.js:189-222 | with no custom filter and no search text, only the category step applies |
| VariantsInGene.FilterVariantsKeeps | src/browsers/base/GenePage/VariantsInGene.js:189-222 | on decoded rows the built-in steps keep exactly the rows the filter shows, in input order, and the custom filter then runs on those |
| VariantsInGene.SearchNeedsVariantId | src/browsers/base/GenePage/VariantsInGene.js:210 | a search over rows one of which has no string `variant_id` throws |
| VariantsInGene.SortVariants | src/browsers/base/GenePage/VariantsInGene.js:224-244 | sorting succeeds if and only if some column has the sort key |
| VariantsInGene.SortVariantsPermutes | src/browsers/base/GenePage/VariantsInGene.js:231 | the sorted copy holds the same rows, each as often |
| VariantsInGene.SortVariantsEmptiesLast | src/browsers/base/GenePage/VariantsInGene.js:235-241 | in both directions every row with an empty sort value comes after every row with a value, and the empty rows keep their input order |
| VariantsInGene.CompareOrders | src/browsers/base/GenePage/VariantsInGene.js:227-229 | on numbers (for subtraction) or strings (for `localeCompare`) the comparator is asymmetric and negatively transitive |
| VariantsInGene.RowsStrictWeak | src/browsers/base/GenePage/VariantsInGene.js:228-243 | on rows with comparable sort values the row comparator is a strict weak order in either direction |
| VariantsInGene.SortVariantsOrders | src/browsers/base/GenePage/VariantsInGene.js:224-244 | rows with non-empty comparable sort values come out non-decreasing for ascending and non-increasing for descending |
| VariantsInGene.NextSortOrder | src/browsers/base/GenePage/VariantsInGene.js:136-139 | the active key flips the direction; a new key sorts descending |
| VariantsInGene.NextSortOrderToggles | src/browsers/base/GenePage/VariantsInGene.js:136-139 | asking for the active key twice restores the direction; the direction changes exactly when the key is the active one or the order was ascending |
| VariantsInGene.FirstBracket | src/browsers/base/GenePage/VariantsInGene.js:171-174 | `findIndex` answers the first row from which the position lies between it and the next row, and none when no row brackets it |
| VariantsInGene.JumpIndex | src/browsers/base/GenePage/VariantsInGene.js:167-179 | the navigator's index is 0 or a valid row index |
| VariantsInGene.JumpIndexBrackets | src/browsers/base/GenePage/VariantsInGene.js:167-179 | on rows in position order: before the first row the index is 0; within the range it is the first row that brackets the position; past the last row it is the last row |
| VariantsInGene.VariantIdSortValue | src/browsers/base/GenePage/variantTableColumns.js:66-72 | the Variant ID column sorts by the numeric `pos` read from the row |
| VariantsInGene.SortByVariantIdOrdersPositions | src/browsers/base/GenePage/VariantsInGene.js:162-165 | sorting rows with numeric positions by Variant ID ascending puts them in position order |
| VariantsInGene.VariantsInGenePage.constructor | src/browsers/base/GenePage/VariantsInGene.js:41-84 | the page starts with the default filter, sorted by Variant ID ascending, on the default group's selected and filtered variants, with navigator index 0 |
| VariantsInGene.VariantsInGenePage.OnChangeAnalysisGroup | src/browsers/base/GenePage/VariantsInGene.js:86-103 | the new group's variants under the current filter, sorted as before; if the filter throws, the state is unchanged |
| VariantsInGene.VariantsInGenePage.OnChangeFilter | src/browsers/base/GenePage/VariantsInGene.js:105-122 | the group's variants under the new filter, sorted as before; if the filter throws, the state is unchanged |
| VariantsInGene.VariantsInGenePage.OnSort | src/browsers/base/GenePage/VariantsInGene.js:132-154 | the rows on screen are re-sorted under the new key and direction, and the same rows stay on screen; an unknown key throws and changes nothing |
| VariantsInGene.VariantsInGenePage.OnClickPosition | src/browsers/base/GenePage/VariantsInGene.js:160-187 | the rows are sorted by Variant ID ascending and the navigator index is the jump index for the position; filter and group are unchanged |
| GeneResultsPage.GroupRecord | src/browsers/base/GeneResultsPage/GeneResultsPage.js:204-210 | one group's record pairs each field name with the value at its position; reading a position of a nullish value throws |
| GeneResultsPage.GroupRecordsOk | src/browsers/base/GeneResultsPage/GeneResultsPage.js:203-213 | decoding the groups fails if and only if a position is read from a nullish cell or a nullish group entry |
| GeneResultsPage.GroupRecordsKeys | src/browsers/base/GeneResultsPage/GeneResultsPage.js:203-213 | every listed analysis group gets a record, none is skipped |
| GeneResultsPage.GroupRecordsValue | src/browsers/base/GeneResultsPage/GeneResultsPage.js:203-213 | a group listed once holds the record read from its own position |
| GeneResultsPage.GroupRecordsErrorPersists | src/browsers/base/GeneResultsPage/GeneResultsPage.js:203-213 | once a group's read throws, the whole decoding fails with that exception |
| GeneResultsPage.FillGroupRecord | src/browsers/base/GeneResultsPage/GeneResultsPage.js:206-210 | the inner loop computes the group's record of the definition |
| GeneResultsPage.FillGroupRecords | src/browsers/base/GeneResultsPage/GeneResultsPage.js:203-213 | the outer loop computes `group_results` of the definition, or its exception |
| GeneResultsPage.DecodeGeneResult | src/browsers/base/GeneResultsPage/GeneResultsPage.js:193-216 | the decoding method computes the decoded gene result of the definition, or its exception |
| GeneResultsPage.DecodedGeneResult | src/browsers/base/GeneResultsPage/GeneResultsPage.js:194-201 | a decoded row holds positions 0 to 4 under `gene_id`, `gene_symbol`, `gene_name`, `chrom`, `pos`, and exactly one record per analysis group |
| GeneResultsPage.DefaultAnalysisGroup | src/browsers/base/GeneResultsPage/GeneResultsPage.js:222-224 | a non-empty given default wins; otherwise the first configured group, and none when there is none |
| GeneResultsPage.AnalysisGroupOptions | src/browsers/base/GeneResultsPage/GeneResultsPage.js:221 | a given list of options is kept, even an empty one; otherwise the configured groups |
| GeneResultsPage.GeneSearchTest | src/browsers/base/GeneResultsPage/GeneResultsPage.js:57 | a `null` or `undefined` result throws when `gene_id` is read from it |
| GeneResultsPage.GeneSearchTestMatches | src/browsers/base/GeneResultsPage/GeneResultsPage.js:55-60 | on a searchable result (an object whose three fields are text or missing) the test does not throw and answers whether the text occurs in the id, the symbol or the upper-cased name |
| GeneResultsPage.Flatten | src/browsers/base/GeneResultsPage/GeneResultsPage.js:61-64 | the spread throws exactly when `group_results` is nullish; otherwise each field comes from the group's record if it has it, else from the result |
| GeneResultsPage.VisibleResultsKeeps | src/browsers/base/GeneResultsPage/GeneResultsPage.js:54-64 | on decoded results the page keeps exactly the matching genes, in order, each flattened with the selected group's fields |
| GeneResultsPage.EmptySearchKeepsAll | src/browsers/base/GeneResultsPage/GeneResultsPage.js:55-60 | an empty search keeps every gene |
| GeneResultsPage.GeneResultsPageState.constructor | src/browsers/base/GeneResultsPage/GeneResultsPage.js:34-37 | the page starts with empty search text and the default group |
| GeneResultsPage.GeneResultsPageState.OnSearchInput | src/browsers/base/GeneResultsPage/GeneResultsPage.js:103 | typing stores the upper-cased text and keeps the group |
| GeneResultsPage.GeneResultsPageState.OnSelectGroup | src/browsers/base/GeneResultsPage/GeneResultsPage.js:85 | choosing a group stores it and keeps the search text |
| GeneResultsTable.InitialSortState | src/browsers/base/GeneResultsPage/GeneResultsTable.js:10-13 | the table starts ascending on the given default key, `gene_id` when none is given |
| GeneResultsTable.NextSortStateToggles | src/browsers/base/GeneResultsPage/GeneResultsTable.js:16-21 | requesting any key but `gene_id` stores it; the direction flips exactly when that key was already stored, so a second request flips it back |
| GeneResultsTable.GeneIdNeverToggles | src/browsers/base/GeneResultsPage/GeneResultsTable.js:19-20 | from the second request for `gene_id` on, the table is ascending on `gene_symbol`: that column can never be sorted descending |
| GeneResultsTable.RepeatGeneIdSettles | src/browsers/base/GeneResultsPage/GeneResultsTable.js:19-20 | after any requests for `gene_id` the stored key is `gene_symbol`, ascending from the second request on |
| GeneResultsTable.SortFunctionFor | src/browsers/base/GeneResultsPage/GeneResultsTable.js:28-31 | `localeCompare` is chosen exactly for `gene_id` and `gene_name`; every other key, `gene_symbol` included, is compared by subtraction |
| GeneResultsTable.RenderedPermutes | src/browsers/base/GeneResultsPage/GeneResultsTable.js:35-50 | the rendered results are a permutation of the given ones |
| GeneResultsTable.RenderedEmptiesLast | src/browsers/base/GeneResultsPage/GeneResultsTable.js:39-45 | in either direction every result whose value is `null` or `''` comes after every other result, in its original order |
| GeneResultsTable.CompareResultsOrders | src/browsers/base/GeneResultsPage/GeneResultsTable.js:33-47 | on empty or comparable values the comparator is antisymmetric and transitive |
| GeneResultsTable.RenderedOrdered | src/browsers/base/GeneResultsPage/GeneResultsTable.js:33-50 | on comparable values the rendered results are ordered by the key, non-decreasing when ascending and non-increasing when descending |
| GeneResultsTable.SymbolSortKeepsOrder | src/browsers/base/GeneResultsPage/GeneResultsTable.js:31-47 | sorting by non-numeric `gene_symbol` values leaves the results in their original order, since every subtraction is `NaN` |
| GeneResultsTable.GeneResultsTableComponent.constructor | src/browsers/base/GeneResultsPage/GeneResultsTable.js:7-14 | the component's state is the initial sort state |
| GeneResultsTable.GeneResultsTableComponent.SetSortKey | src/browsers/base/GeneResultsPage/GeneResultsTable.js:16-22 | the new state is the next sort state of the old one |
| GeneResultsTable.GeneResultsTableComponent.GetRenderedResults | src/browsers/base/GeneResultsPage/GeneResultsTable.js:24-51 | the given array itself is returned, reordered by the comparator of the current state |
| GeneResultsTable.SortInPlace | src/browsers/base/GeneResultsPage/GeneResultsTable.js:35-48 | the in-place sort leaves the array equal to the insertion sort of its old contents |
| GeneResults.DecodeDatasetsOk | src/browsers/base/GenePage/GeneResults.js:23-42 | decoding fails exactly when some dataset with a truthy result has a group it cannot read |
| GeneResults.DecodeDatasetsShape | src/browsers/base/GenePage/GeneResults.js:25-41 | exactly the datasets with a truthy result are decoded, each into one record per group of its own configuration |
| GeneResults.DecodeDatasetsErrorPersists | src/browsers/base/GenePage/GeneResults.js:25-42 | a dataset that throws makes the whole container throw |
| GeneResults.DecodeDatasets | src/browsers/base/GenePage/GeneResults.js:23-45 | the loop over the datasets computes the decoded results of the definition, or its exception |
| GeneResults.ActiveResults | src/browsers/base/GenePage/GeneResults.js:7-14 | nothing is rendered without a component for the active dataset; otherwise the component gets that dataset's results, or `{}` |
| GeneResults.ActiveDatasetResults | src/browsers/base/GenePage/GeneResults.js:9-41 | the active dataset's component sees what its own entry decoded to, or `{}` when it had no truthy result |
| VariantDetails.GroupLabel | src/browsers/base/GenePage/VariantDetails.js:127-137 | a group is shown by its configured label, or by its own name when the label is missing or empty; the group menu's options (VariantFilterControls.js:170) use the same label |
| VariantDetails.OrderedGroupsSplit | src/browsers/base/GenePage/VariantDetails.js:119-130 | the sort puts the default group first, followed by the other groups sorted among themselves |
| VariantDetails.CompareOthers | src/browsers/base/GenePage/VariantDetails.js:127-129 | between two groups that are not the default, the comparator is the order of their labels |
| VariantDetails.OtherGroupsStrictWeak | src/browsers/base/GenePage/VariantDetails.js:120-130 | the comparator is a strict weak order |
| VariantDetails.OrderedGroupsSpec | src/browsers/base/GenePage/VariantDetails.js:119-130 | the table lists every group exactly once; the default group comes first and the others follow in label order |
| VariantDetails.OthersByLabel | src/browsers/base/GenePage/VariantDetails.js:127-129 | behind the default group, the rows are ordered by label |
| VariantDetails.GroupRowsOnePerGroup | src/browsers/base/GenePage/VariantDetails.js:119-153 | there is exactly one row per key of `group_results`, and each row shows that group's own entry |
| VariantDetails.SummaryGroupResult | src/browsers/base/GenePage/VariantDetails.js:49-63 | the summary shows the default group's result, and is left out when the variant has none |
| VariantDetails.CellsAgree | src/browsers/base/GenePage/VariantDetails.js:74-149 | where the summary shows nothing the table shows `''`; otherwise both show the same text or throw the same error |
| Server.ItemsFor | src/server/server.js:113-127 | a match with several gene ids gives one item per id, labelled `word (id)` and linking to that id; otherwise a single item labelled with the word |
| Server.ExpandLength | src/server/server.js:111-127 | the expanded list holds one item per gene id of each multi-id match and one item for every other match, so never fewer items than matches |
| Server.ExpandListsEveryId | src/server/server.js:114-119 | every gene id of a match with several ids is offered as its own item |
| Server.Take | src/server/server.js:128 | the slice is a prefix of the list, of length at most five |
| Server.SearchResponse | src/server/server.js:96-132 | a missing or empty query gives 400 "Query required", a repeated one 400 "One query required", and every single non-empty query is answered |
| Server.SearchAnswers | src/server/server.js:105-131 | an Ensembl gene id in any case is answered with exactly that upper-cased id whatever the index holds; any other query gets the first five items of its expanded matches, or all of them when there are fewer |
| Server.ResolveGene | src/server/server.js:223-238 | a name that starts like a gene id is taken as given; otherwise one gene under the upper-cased symbol resolves to it, none gives 404 "Gene not found" and several 400 "Gene symbol matches multiple genes" |
| Server.PatternNotAnchored | src/server/server.js:227 | since the pattern is anchored only at the start, `ENSG`, one digit and anything at all is taken as a gene id |
| Server.NumberOfText | src/server/server.js:199 | the number of a digit string or of blank text, and `NaN` for anything else, as `Number` reads it |
| Server.Bucket | src/server/server.js:200 | the bucket is three digits whose value is the number modulo 1000 |
| Server.GeneDataDirectory | src/server/server.js:198-203 | a gene id whose remainder is a number lands in `genes/` plus that number's bucket, and any other in `genes/NaN` |
| Server.BucketsAgree | src/server/server.js:198-203 | for `ENSG` or `ENSGR` followed by digits, the server's directory is the one the results writer puts the gene in |
| Server.ResolvePlain | src/server/server.js:241 | normalising segments that are non-empty, not `.` or `..` and hold no `/` keeps them all, in order |
| Server.NormalizePlain | src/server/server.js:241 | `path.normalize` leaves a relative path of such plain segments unchanged |
| Server.JoinInDirectory | src/server/server.js:241 | `path.join` of the gene's bucket directory and a plain file name is the directory, `/` and the name |
| Server.GeneFilePath | src/server/server.js:241 | for an id and a genome name without `/`, the gene's file is `<id>_<genome>.json` directly inside the bucket directory |
| Server.VariantsFilePath | src/server/server.js:271-274 | for an id and a dataset without `/`, the variants file is `<id>_<dataset in lower case>_variants.json` directly inside the bucket directory |
| Server.SameBucket | src/server/server.js:240-274 | for ids and names without `/`, a gene's data file and its variants file lie in the same bucket directory |
| Server.ParentSegmentDropsId | src/server/server.js:224-241 | an id of the form `<first>/../<rest>`, which the unanchored `^ENSGR?\d+` test lets through, is read as `<rest>_<genome>.json` in the id's bucket directory: `path.join` removes `<first>/..` |
| Server.PostingsMembership | src/server/server.js:85-90 | after indexing, a gene id is filed under a term exactly when some line lists that term for that id |
| Server.AddPosting | src/server/server.js:88 | adding an id under a term appends it there and leaves every other term's ids as they were |
| Server.AddLineFiles | src/server/server.js:85-90 | adding one line's terms appends its gene id under each term once per occurrence of that term |
| Server.AddLinesFiles | src/server/server.js:78-94 | adding the lines in order appends, under each term, the ids of the lines that list it, in the order the lines are read |
| Server.GeneSearchIndex.constructor | src/server/server.js:76 | the new index files no gene under any term |
| Server.GeneSearchIndex.Add | src/server/server.js:88 | the index becomes `AddPosting` of the old one: the id is appended under the term and every other term is unchanged |
| Server.GeneSearchIndex.IndexLine | src/server/server.js:85-90 | the index becomes `AddLine` of the old one, so each term of the line gets the line's gene id appended once per occurrence |
| Server.GeneSearchIndex.IndexGenes | src/server/server.js:78-94 | the index becomes `AddLines` of the old one, so reading the lines in order appends, under each term, the ids of the lines that list it, in order |
| Server.DatasetBySubdomainSpec | src/server/server.js:152-158 | a subdomain names a dataset exactly when some dataset lowercases to it, and then it names one of those |
| Server.FindDataset | src/server/server.js:147-149 | the development dataset is one equal to `BROWSER` ignoring case, and there is none only when no dataset matches |
| Server.ProductionDataset | src/server/server.js:159-175 | in production a request gets the dataset whose lowercased name is its first subdomain, and 500 "Unknown dataset" when there is none |
| Server.DatasetConfig | src/server/server.js:180-184 | the configuration holds `datasetId`, every metadata key and every key of the dataset's own entry, the dataset's own values winning over the metadata's, which win over `datasetId` |
| Server.DatasetConfigCache.constructor | src/server/server.js:177 | the memo starts empty |
| Server.DatasetConfigCache.GetDatasetConfig | src/server/server.js:178-188 | the answer is the configuration computed from the metadata, whether or not it was memoised, and the dataset is memoised afterwards |
| Auth.CookieSeparator | src/browsers/base/auth.js:3 | the separator starts with `; `, the same two characters put in front of the cookie string |
| Auth.GetCookie | src/browsers/base/auth.js:1-8 | a value that is found never contains `;` |
| Auth.CookieFound | src/browsers/base/auth.js:1-8 | a cookie that occurs exactly once is read from after its `name=` up to the next `;` or the end |
| Auth.FirstCookieMatchable | src/browsers/base/auth.js:2-5 | thanks to the added `; `, a cookie at the very start of the string is found too |
| Auth.CookieAbsent | src/browsers/base/auth.js:3-7 | a cookie that does not occur reads as `null` |
| Auth.CookieTwice | src/browsers/base/auth.js:3-7 | a cookie that occurs twice also reads as `null`, since the split then has more than two pieces |
| Auth.IsLoggedIn | src/browsers/base/auth.js:10-17 | `isLoggedIn` answers true whatever the cookies hold, because it compares a boolean with `null` |
| Auth.AddAuthHeader | src/browsers/base/auth.js:25-37 | without a non-empty token the options come back unchanged (`{}` when absent); with one, every other field is kept and `headers` gets the old headers plus `Authorization: Bearer <token>`; `null` options throw |
| Auth.AddAuthHeaderIdempotent | src/browsers/base/auth.js:25-37 | adding the header twice with the same token gives the same options as adding it once |
| VariantIds.NormalizedContig | data/data_utils/computed_fields/variant_id.py:4-8 | a leading `chr` is removed, and any other contig is kept as it is |
| VariantIds.VariantId | data/data_utils/computed_fields/variant_id.py:11-17 | the id exists exactly when there are at least two alleles, and is the normalised contig, the position, the reference and the alternate allele joined by `-` |
| VariantIds.VariantIdSplits | data/data_utils/computed_fields/variant_id.py:11-17 | when no part contains `-`, splitting the id on `-` gives back the contig, the position's digits and both alleles |
| VariantIds.ChrPrefixIgnored | data/data_utils/computed_fields/variant_id.py:4-37 | a contig with and without `chr` gives the same id, contig number and position number |
| VariantIds.ContigNumber | data/data_utils/computed_fields/variant_id.py:20-29 | X is 23, Y is 24, any contig starting with M is 25, other contigs are read as 32-bit decimal integers, and anything else fails |
| VariantIds.XPosition | data/data_utils/computed_fields/variant_id.py:32-37 | the position number exists exactly when the contig number does, and equals the contig number times 10^9 plus the position |
| VariantIds.XPositionFits | data/data_utils/computed_fields/variant_id.py:32-37 | with a 32-bit position the 64-bit sum never overflows |
| VariantIds.XPositionDecodes | data/data_utils/computed_fields/variant_id.py:32-37 | for positions below 10^9, the contig number and the position can be read back from the position number |
| VariantIds.XPositionOrder | data/data_utils/computed_fields/variant_id.py:32-37 | for positions below 10^9, ordering by position number is ordering by contig number, then by position |
| CombineDatasets.EncodeTuple | data_pipeline/data_pipeline/pipelines/combine_datasets.py:65 | the tuple has one position per field name, holding that field's value, or missing when the struct lacks it |
| CombineDatasets.PairEncoded | data_pipeline/data_pipeline/pipelines/combine_datasets.py:64-65 | pairing the recorded names with the tuple gives back the struct's fields under those names |
| CombineDatasets.EncodeVariantGroups | data_pipeline/data_pipeline/pipelines/combine_datasets.py:66-77 | one position per analysis group, holding the group's tuple, or missing when the variant has no result in that group |
| CombineDatasets.EncodeGeneGroups | data_pipeline/data_pipeline/pipelines/combine_datasets.py:40-47 | one tuple per analysis group; for a group the gene has no result in, every field of the tuple is missing |
| CombineDatasets.EncodeVariant | data_pipeline/data_pipeline/pipelines/combine_datasets.py:80-93 | the encoded variant has one position per entry of `VARIANT_FIELDS` |
| CombineDatasets.RecordedTypeName | data_pipeline/data_pipeline/pipelines/combine_datasets.py:34 | the recorded type name is the type name with its trailing run of the digits 3, 2, 6 and 4 removed |
| CombineDatasets.RecordedTypeNames | data_pipeline/data_pipeline/pipelines/combine_datasets.py:55-59 | `int32` and `int64` are both recorded as `int`, the floats as `float`; `str` and `bool` are kept |
| CombineDatasets.Names | data_pipeline/data_pipeline/pipelines/combine_datasets.py:54-56 | the recorded field names are the struct's field names, in order |
| CombineDatasets.Types | data_pipeline/data_pipeline/pipelines/combine_datasets.py:55-59 | the recorded field types are the struct's field types without their bit widths, in order |
| CombineDatasets.CombineMetadata | data_pipeline/data_pipeline/pipelines/combine_datasets.py:28-128 | the loop over the datasets accumulates the metadata of the definition |
| CombineDatasets.CombinedMetadataEntries | data_pipeline/data_pipeline/pipelines/combine_datasets.py:108-128 | exactly the combined datasets have an entry, and a dataset's entry is the metadata of its last occurrence |
| CombineDatasets.VariantRoundTrip | data_pipeline/data_pipeline/pipelines/combine_datasets.py:64-93 | decoding an encoded variant with the names recorded beside it gives back its id, position, text fields, info struct and exactly its groups with their fields |
| CombineDatasets.FinishKeepsPlainFields | data_pipeline/data_pipeline/pipelines/combine_datasets.py:80-93 | the id, the position and both HGVS fields reach the browser as they were written |
| CombineDatasets.GeneGroupsRoundTrip | data_pipeline/data_pipeline/pipelines/combine_datasets.py:40-47 | decoding a gene's encoded groups gives every recorded group, each with the gene's fields and missing ones as `null` |
| CombineDatasets.CombinedVariantRoundTrip | data_pipeline/data_pipeline/pipelines/combine_datasets.py:28-128 | a variant of any combined dataset decodes back against the metadata recorded for that dataset |
| CombineDatasets.GeneVariants | data_pipeline/data_pipeline/pipelines/combine_datasets.py:94-106 | a gene gets one encoded variant per variant row of that gene, and an empty array when it has none |
| GeneModels.StripVersion | data_pipeline/data_pipeline/pipelines/prepare_gene_models.py:17-18 | the stripped id contains no `.` and is a prefix of the id |
| GeneModels.StripVersionSpec | data_pipeline/data_pipeline/pipelines/prepare_gene_models.py:17-18 | a versioned id gives back the id without its version, and stripping twice is stripping once |
| GeneModels.GetExons | data_pipeline/data_pipeline/pipelines/prepare_gene_models.py:10-25 | one exon per `exon`, `CDS` or `UTR` row, each of one of those types and with versionless ids |
| GeneModels.GetGenes | data_pipeline/data_pipeline/pipelines/prepare_gene_models.py:28-44 | one gene per `gene` row, in file order, and every gene row gives one; its id is the row's id without the version (no `.`), its symbol the row's name, its contig the row's without `chr`, and strand and interval the row's |
| GeneModels.GetTranscripts | data_pipeline/data_pipeline/pipelines/prepare_gene_models.py:47-63 | one transcript per `transcript` row, in file order, and every transcript row gives one; transcript and gene ids without version (no `.`), the contig without `chr`, and the row's strand and interval |
| GeneModels.TranscriptExons | data_pipeline/data_pipeline/pipelines/prepare_gene_models.py:78-83 | a transcript has exons exactly when some exon row names it, and then exactly the features of those rows |
| GeneModels.AttachExons | data_pipeline/data_pipeline/pipelines/prepare_gene_models.py:79-83 | the transcript keeps its id and gets the exons collected for that id |
| GeneModels.GeneTranscripts | data_pipeline/data_pipeline/pipelines/prepare_gene_models.py:86-90 | a gene has transcripts exactly when some transcript row names it, and each one comes from such a row |
| GeneModels.CanonicalTranscript | data_pipeline/data_pipeline/pipelines/prepare_gene_models.py:135-139 | a kept canonical transcript is one of the gene's transcripts with the canonical id, and one is kept whenever such a transcript exists |
| GeneModels.CanonicalExonsSpec | data_pipeline/data_pipeline/pipelines/prepare_gene_models.py:140-148 | the kept exons are the CDS features when there are any and the `exon` features otherwise; a UTR is never kept |
| GeneModels.GeneCanonicalTranscriptSpec | data_pipeline/data_pipeline/pipelines/prepare_gene_models.py:72-148 | the kept canonical transcript belongs to the gene, has the canonical id, and each of its exons is a CDS or `exon` row of the GTF file for that transcript |
| GeneModels.SymbolList | data_pipeline/data_pipeline/pipelines/prepare_gene_models.py:110-111 | an empty cell stays missing; otherwise one stripped symbol per comma-separated piece |
| GeneModels.HgncGeneId | data_pipeline/data_pipeline/pipelines/prepare_gene_models.py:113 | the HGNC row's Ensembl gene id when given, else the one supplied by Ensembl, missing only when both are |
| GeneModels.LoadHgnc | data_pipeline/data_pipeline/pipelines/prepare_gene_models.py:104-116 | exactly the HGNC rows with an Ensembl id from either source are kept |
| GeneModels.DisplaySymbol | data_pipeline/data_pipeline/pipelines/prepare_gene_models.py:242-244 | the approved symbol wins, then the GRCh38 GENCODE symbol, then the GRCh37 one |
| GeneModels.SearchTermsSpec | data_pipeline/data_pipeline/pipelines/prepare_gene_models.py:247-258 | a term is searchable exactly when it is the upper-case form of one of the gene's defined symbols, so every term is upper case |
| GeneModels.SymbolSearchable | data_pipeline/data_pipeline/pipelines/prepare_gene_models.py:242-258 | the symbol a gene is shown with is always one of its search terms |
| GeneModels.GeneFindable | data_pipeline/data_pipeline/pipelines/prepare_gene_models.py:247-258 | once the search-terms file is indexed, a gene is found under any of its symbols typed in any letter case |
| Validation.CheckInfoSpec | data_pipeline/data_pipeline/validation.py:49-53 | the `info` checks pass exactly when `info` is a struct whose every field has an allowed type |
| Validation.CheckGroupResultsSpec | data_pipeline/data_pipeline/validation.py:39-47 | the `group_results` checks pass exactly when it is a dict from strings to a struct whose every field has an allowed type |
| Validation.CheckRequiredFieldsSpec | data_pipeline/data_pipeline/validation.py:29-37 | the required-field loop passes exactly when every listed field is a string row field; otherwise it reports the first field that is not, as missing or as not a string |
| Validation.ValidateGeneResultsTableSpec | data_pipeline/data_pipeline/validation.py:7-21 | a gene table passes exactly when it is keyed by `gene_id` alone and its `group_results` is a dict of result structs |
| Validation.ValidateVariantResultsTableSpec | data_pipeline/data_pipeline/validation.py:24-53 | a variant table passes exactly when it is keyed by locus and alleles, the locus is GRCh37 or GRCh38, the alleles are strings, the four required fields are strings, and `group_results` and `info` hold result structs |
| Validation.KeyCheckedFirst | data_pipeline/data_pipeline/validation.py:8-25 | a table with the wrong key is reported as such whatever else is wrong with it, and no table is both a valid gene table and a valid variant table |
| Validation.AllowedTypesRecorded | data_pipeline/data_pipeline/validation.py:4 | every allowed result type is recorded in the combined metadata as `bool`, `float`, `int` or `str` |
| AscVariantResults.RankIsIndex | data_pipeline/data_pipeline/datasets/asc/asc_variant_results.py:48-49 | the rank of every listed consequence term is its index in the list |
| AscVariantResults.TermsDistinct | data_pipeline/data_pipeline/datasets/asc/asc_variant_results.py:6-46 | the listed terms are distinct, so no two share a rank |
| AscVariantResults.RankExamples | data_pipeline/data_pipeline/datasets/asc/asc_variant_results.py:6-49 | the list has 39 terms, from `transcript_ablation` ranked 0 to `intergenic_variant` ranked 38, a stop gain ranked above a synonymous change |
| AscVariantResults.MostSevere | data_pipeline/data_pipeline/datasets/asc/asc_variant_results.py:166-169 | the chosen term is one of the terms, and has the least rank among the ranked terms; when none is ranked, the first term is chosen |
| AscVariantResults.Consequence | data_pipeline/data_pipeline/datasets/asc/asc_variant_results.py:166-169 | the consequence is missing exactly when `csq_analysis` is, and is otherwise one of its comma-separated terms |
| AscVariantResults.MostSevereExample | data_pipeline/data_pipeline/datasets/asc/asc_variant_results.py:166-169 | a stop gain is reported over a synonymous change, in either order |
| AscVariantResults.HgvsSuffix | data_pipeline/data_pipeline/datasets/asc/asc_variant_results.py:170-171 | the kept notation is missing exactly when the input is, and never contains `:` |
| AscVariantResults.HgvsSuffixSpec | data_pipeline/data_pipeline/datasets/asc/asc_variant_results.py:170-171 | the text after the last `:` is kept, and a notation without `:` is kept whole |
| AscVariantResults.ParseKey | data_pipeline/data_pipeline/datasets/asc/asc_variant_results.py:96-101 | a parsed key always has exactly two alleles |
| AscVariantResults.ParseKeyRoundTrip | data_pipeline/data_pipeline/datasets/asc/asc_variant_results.py:96-101 | a key written as `chrom:pos:ref:alt` parses back to its contig, position and two alleles |
| AscVariantResults.ParseKeyNeedsFourParts | data_pipeline/data_pipeline/datasets/asc/asc_variant_results.py:96-101 | a key with only three parts fails on the missing fourth |
| AscVariantResults.InAnalysisOf | data_pipeline/data_pipeline/datasets/asc/asc_variant_results.py:149-151 | `in_analysis` comes from an annotation with the row's key, and is missing when the group has none |
| AscVariantResults.KeyGroup | data_pipeline/data_pipeline/datasets/asc/asc_variant_results.py:96-151 | keying a group succeeds exactly when every key parses; each result row keeps its group and counts, drops the frequencies, and takes `in_analysis` from the same group's annotation for its key |
| AscVariantResults.UnionGroups | data_pipeline/data_pipeline/datasets/asc/asc_variant_results.py:72-156 | the loop over `dn`, `dbs` and `swe` computes the union of the keyed groups of the definition |
| AscVariantResults.InAnalysisFromOwnGroup | data_pipeline/data_pipeline/datasets/asc/asc_variant_results.py:110-156 | every unioned result row comes from one group's results and carries `in_analysis` from that same group's annotations |
| AscVariantResults.DistinctByKey | data_pipeline/data_pipeline/datasets/asc/asc_variant_results.py:161 | one annotation is kept per key, every key is kept, and each kept annotation is an input one |
| AscVariantResults.ResultsByGroup | data_pipeline/data_pipeline/datasets/asc/asc_variant_results.py:175-182 | the dict is keyed by exactly the rows' analysis groups, and each entry is the result of a row of that group |
| AscVariantResults.GroupResultsOf | data_pipeline/data_pipeline/datasets/asc/asc_variant_results.py:175-184 | a variant has group results exactly when some result row has its key, keyed by exactly those rows' groups, each entry from such a row |
| AscVariantResults.PrepareVariantResultsSpec | data_pipeline/data_pipeline/datasets/asc/asc_variant_results.py:158-186 | the output has one variant per annotated key and no key twice; its results are keyed by exactly the groups that report it, and its consequence is the most severe of an annotation's analysed terms |
| SchemaVariantResults.And | data_pipeline/data_pipeline/datasets/schema/schema_variant_results.py:49-50 | Hail's `&` on possibly missing booleans: true exactly when both sides are true, false exactly when either side is false, missing otherwise |
| SchemaVariantResults.MissenseBins | data_pipeline/data_pipeline/datasets/schema/schema_variant_results.py:48-52 | a missense variant with an MPC score of at least 3 goes in `>=3`, from 2 to below 3 in `2-3`, and below 2 in `<2` |
| SchemaVariantResults.BinnedConsequenceMissing | data_pipeline/data_pipeline/datasets/schema/schema_variant_results.py:48-52 | any other term passes through even without a score; a missing term, or a missense variant without a score, gives a missing consequence |
| SchemaVariantResults.BinningKeepsTerm | data_pipeline/data_pipeline/datasets/schema/schema_variant_results.py:48-52 | with a score, binning always yields a consequence, loses only the score (the canonical term is recovered from it), and a higher score never lands in a lower bin |
| SchemaVariantResults.CaseCountSpec | data_pipeline/data_pipeline/datasets/schema/schema_variant_results.py:32 | the case count is the case carriers plus the de novo carriers, a missing count standing for 0, and de novo carriers never lower it |
| SchemaVariantResults.CompareStringsStrictWeak | data_pipeline/data_pipeline/datasets/schema/schema_variant_results.py:34 | the string comparison the sort uses is a strict weak order |
| SchemaVariantResults.SortedSourcesSpec | data_pipeline/data_pipeline/datasets/schema/schema_variant_results.py:34 | the sources are listed in ascending order, each exactly as often as in the source set |
| SchemaVariantResults.AscendingUnique | data_pipeline/data_pipeline/datasets/schema/schema_variant_results.py:34 | two ascending lists of the same strings are the same list |
| SchemaVariantResults.SourceTextOrderFree | data_pipeline/data_pipeline/datasets/schema/schema_variant_results.py:34 | the joined source text does not depend on the order in which the set's elements are read |
| SchemaVariantResults.ResultsByGroup | data_pipeline/data_pipeline/datasets/schema/schema_variant_results.py:37-43 | the dict is keyed by exactly the rows' analysis groups |
| SchemaVariantResults.ResultsByGroupLast | data_pipeline/data_pipeline/datasets/schema/schema_variant_results.py:37-43 | a group's entry is the prepared last row of that group |
| SchemaVariantResults.GroupResultsOfSpec | data_pipeline/data_pipeline/datasets/schema/schema_variant_results.py:36-43 | a variant has group results exactly when some result row has its key, and they are keyed by exactly the groups of those rows |
| SchemaVariantResults.PrepareVariantResultsSpec | data_pipeline/data_pipeline/datasets/schema/schema_variant_results.py:45-61 | a variant is in the output exactly when it comes from an annotation and at least one result row has its key, and its group results are keyed by exactly the groups of those rows |

## Left out

- Rendering: JSX markup, styling, plots, tooltips, the throttled scroll window of the variant table, and the gnomAD link of the variant page.
- I/O is left out or made a parameter:
  - `fetch` and file reads;
  - the search-terms file, given as a sequence of lines;
  - the `PrefixTrie`, whose `search` is a function parameter;
  - the stored token and `document.cookie`, given as parameters;
  - the clock in the export file name;
  - the CSV download itself.
- `logout` is left out: it only writes a cookie and navigates.
- Environment variables are left out. So are the readiness probe, the HTTPS redirect, static files and the unknown-API 404 of the server, and the `config.js` text wrapping of the memoised configuration.
- A query parameter given as an object rather than a string or an array is not modelled.
- `localeCompare` is modelled as code-unit order. Locale collation is not modelled.
- Floating-point formatting (`toPrecision`, `String(number)`) is a parameter. Numbers are exact reals, so rounding is not modelled.
- `Number` on text reads only blank text and plain decimal digits: signs, decimals, exponents and hexadecimal are read as `NaN`. Likewise `hl.int` accepts only digits.
- Upper and lower case are mapped on ASCII letters only.
- JavaScript object key order is not kept (objects are maps). The order of `Object.keys` is passed explicitly where it matters.
- Prototype properties of objects are not modelled.
- Lodash `get` paths are dotted keys; bracket syntax is not modelled.
- `Array.prototype.sort` is modelled as a stable insertion sort with the source's comparator. Engines may use another algorithm, which gives a different order when the comparator is not a consistent order.
- Hail semantics that are assumed rather than derived:
  - row order is the order rows are read, not key order;
  - `collect` keeps that order;
  - `&` is three-valued;
  - `hl.sorted` puts missing keys last;
  - a join takes the first matching row;
  - `distinct` keeps the first row of a key;
  - `hl.dict` keeps the last pair of a key.
- The test-gene interval filters, `repartition`, `persist` and `cache` are left out (`asc_variant_results.py` 52-63 and 105-108; `schema_variant_results.py` 6-17 and 26-27). They do not change results outside the test mode.
- Locus validity is not checked: a contig outside the reference genome does not make `hl.locus` fail.
- SchemaVariantResults.CaseCount: does not model the 32-bit wrap-around of `ac_case` plus `n_denovos`.
- Missing elements inside a SCHEMA `source` set are not modelled.
- Gene models:
  - the HGNC annotation is modelled per row (`LoadHgnc`, `DisplaySymbol`), but the table join itself is not;
  - the outer join of the GRCh37 and GRCh38 gene tables is not modelled;
  - the ExAC and gnomAD constraint tables are not modelled;
  - `get_output_path` is not modelled;
  - the `distinct` of the gene table is not modelled;
  - GTF import, including skipped contigs, is not modelled.
- Validation: the order in which the allowed types appear in the failure message depends on Python set order; the model fixes one order.
- AscVariantResults: consequence ranks are proved for the listed terms only. A term outside the list is unranked.
- VariantSelection.SelectGroupResult: requires every variant to be a decoded object, as the decoder produces (`VariantDecoder.DecodedShape`); rows of another shape are not modelled.
- VariantsInGene.VariantsInGenePage.constructor: requires the initial selection and filter to succeed; a page whose custom filter throws on first render is not modelled.
- GeneResultsTable.CompareResultsOrders: orders only values that are empty, strings under `localeCompare`, or numbers under subtraction. `localeCompare` called on a non-string is not modelled.
- GeneResultsTable.GeneResultsTableComponent.GetRenderedResults: a `null` or `undefined` row is read as having no value at the key, where the source would throw.
- VariantDecoder.Quotient / VariantDecoder.Sum: there is no `Infinity`. A non-zero count over a denominator that is zero without being the number 0 (`""`, `"0"`, `false`) gives `Infinity` in JavaScript and `NaN` in the model. A `+` with a text operand concatenates in JavaScript (`"3" + 4` is `"34"`) and gives `NaN` in the model. The two agree when the counts are numbers, which is how the data pipelines write them. The sort by subtraction can therefore order such rows differently.
- Concurrency is not modelled: the server's handlers are run one at a time.
- Server.SameBucket: holds only for ids and names without `/`. An id holding `/..` can leave the bucket directory once `path.join` normalises it (`ParentSegmentDropsId`).
- `sendFile` is I/O and is left out, including its `root` option, which refuses paths that climb above the data directory.
- `path.join` is modelled for POSIX separators only.
