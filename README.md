# Circuit reconciliation, modelled in Dafny

This project models the core of a telecom-circuit management web application. The core is:

- the circuit reconciliation pipeline, which compares a location's active circuits with the circuits a proposal puts there. It sorts them into added, removed and modified entries, each modified entry carrying its list of field differences;
- the pipeline's difference formatter, its cost-impact calculator, its filter and sort stage and its CSV/spreadsheet row encoder;
- the location CSV exporter and its naive splitter-based importer;
- three computations of the proposal-development screen: the per-month cost chart, the stat totals, and the per-location availability stats with the optimistic add/remove of proposal circuits on the cached proposal (rolled back on failure);
- the filter-persistence store, which remembers page filters per page while a flag is on.

Each source file is one module:

| module | file | source |
|---|---|---|
| `Wrappers`, `Text`, `Numbers`, `Seqs`, `Csv` | `wrappers.dfy`, `text.dfy`, `numbers.dfy`, `seqs.dfy`, `csv.dfy` | the JavaScript built-ins the core calls: `toLowerCase`, `includes`, `trim`, `split`, `join`, `localeCompare`, `toString`, `toLocaleString`, `parseInt`, `reduce`, quote doubling |
| `Circuits` | `circuits.dfy` | the circuit row, `CircuitDifference` and `CircuitComparison` types, `COMPARISON_FIELDS` |
| `CircuitUtils` | `circuit_utils.dfy` | `src/utils/circuitUtils.ts` |
| `FilterUtils` | `filter_utils.dfy` | `src/utils/filterUtils.ts` |
| `ExportUtils` | `export_utils.dfy` | `src/utils/exportUtils.ts` |
| `Excel` | `excel.dfy` | `src/lib/excel.ts` |
| `ProposalTimeline` | `proposal_timeline.dfy` | `chartData` in `src/components/proposals/ProposalTimeline.tsx` |
| `ProposalStats` | `proposal_stats.dfy` | the totals in `src/components/proposals/ProposalStats.tsx` |
| `ProposalDevelopment` | `proposal_development.dfy` | `src/components/proposals/ProposalDevelopment.tsx` |
| `FilterPersistence` | `filter_persistence.dfy` | `src/contexts/FilterPersistenceContext.tsx` |

Code that updates state step by step is modelled as methods, each proved against a specification function:

- the `forEach` loops of `compareCircuits`;
- the `reduce` accumulator of `compareCircuitFields`;
- the field-by-field `switch` of the CSV importer;
- the `Map`-filling loops of `chartData` and `locationStats`.

Each such method's `ensures` states that its result equals the specification function. The lemmas then state what the source promises about that function.

The query cache and the React state are modelled as classes:

- `DevelopmentView` holds the expanded location and the cached proposal;
- `FilterPersistenceProvider` holds the persistence flag, the stored filters and the flag's local-storage copy.

Their methods mutate those fields. The pure parts (filters, sorts, encoders, sums) are functions.

Modelling conventions:

- Money is an integer, so every sum and difference is exact.
- Strings are `seq<char>`.
- An optional or nullable field is an `Option`.
- An absent query result (`undefined`) is `None`.

## Model

| member | source | states |
|---|---|---|
| Circuits.Rank | src/utils/circuitUtils.ts:5-17 | a field's position in `COMPARISON_FIELDS`, or -1 exactly for the untracked fields |
| CircuitUtils.CircuitMap | src/utils/circuitUtils.ts:22-24 | the map's keys are exactly the circuit ids, and each key maps to one of the circuits with that id |
| CircuitUtils.CircuitMapLastWins | src/utils/circuitUtils.ts:22-24 | an id maps to the last circuit carrying it, as `new Map` keeps the last pair for a key |
| CircuitUtils.CircuitMapUnique | src/utils/circuitUtils.ts:22-24 | with unique ids, every circuit is what the map holds for its id |
| CircuitUtils.CompareCircuitFields | src/utils/circuitUtils.ts:29-40 | the `reduce` over `COMPARISON_FIELDS`, pushing each unequal field, builds the specified difference list |
| CircuitUtils.Differences | src/utils/circuitUtils.ts:29-40 | every entry carries a tracked field with its differing active and proposed values, and the entries are in `COMPARISON_FIELDS` order |
| CircuitUtils.DifferencesCharacterised | src/utils/circuitUtils.ts:29-40 | every difference carries a tracked field with its active and proposed values; the list is in `COMPARISON_FIELDS` order; a field has an entry iff it is tracked and its two values differ |
| CircuitUtils.DiffsPrefixSound | src/utils/circuitUtils.ts:30-39 | after the first i fields, every entry is a true difference of a field among those i |
| CircuitUtils.DiffsPrefixOrdered | src/utils/circuitUtils.ts:30-39 | after the first i fields, the entries are in field order |
| CircuitUtils.DiffsPrefixComplete | src/utils/circuitUtils.ts:30-39 | after the first i fields, each differing field among them has an entry |
| CircuitUtils.UntrackedNeverDiffer | src/utils/circuitUtils.ts:5-17 | status, notes, id, location id, contract dates and timestamps never appear in a difference |
| CircuitUtils.DifferencesEmptyIff | src/utils/circuitUtils.ts:29-40 | the list is empty iff the circuits agree on every tracked field |
| CircuitUtils.CompareCircuits | src/utils/circuitUtils.ts:45-80 | the two `forEach` loops that push into `added`, `modified` and `removed` build the specified comparison |
| CircuitUtils.Compare | src/utils/circuitUtils.ts:45-80 | no bucket is longer than the list it comes from; an added circuit is proposed and its id is not active; a removed circuit is active and its id is not proposed; a modified entry carries a proposed circuit whose id is active, with a non-empty difference list |
| CircuitUtils.CompareBuckets | src/utils/circuitUtils.ts:57-77 | a proposed circuit is added iff its id is not active; an active one is removed iff its id is not proposed; an entry is modified iff it carries a proposed circuit with an active id and its non-empty difference list against the active circuit with that id; each bucket keeps input order and every copy of a repeated circuit |
| CircuitUtils.CompareDisjoint | src/utils/circuitUtils.ts:57-77 | no id is both added and removed, added and modified, or removed and modified |
| CircuitUtils.CompareAgainstEmpty | src/utils/circuitUtils.ts:45-80 | against no active circuits everything is added; with no proposed circuits everything is removed |
| CircuitUtils.CompareSelf | src/utils/circuitUtils.ts:45-80 | a list of uniquely identified circuits compared with itself gives three empty buckets |
| CircuitUtils.UnmatchedMembers | src/utils/circuitUtils.ts:57-77 | the unmatched selection holds exactly the circuits whose id is outside the other list, each as many times as in the input |
| CircuitUtils.Unmatched | src/utils/circuitUtils.ts:57-61 | no longer than the input, and only circuits whose id is outside the given ids; the exact selection is in `UnmatchedMembers` |
| CircuitUtils.UnmatchedSubsequence | src/utils/circuitUtils.ts:57-77 | the unmatched selection is an order-preserving subsequence of its input |
| CircuitUtils.UnmatchedAll | src/utils/circuitUtils.ts:57-61 | when no id matches, every circuit is kept |
| CircuitUtils.UnmatchedNone | src/utils/circuitUtils.ts:72-77 | when every id matches, nothing is kept |
| CircuitUtils.ModifiedMembers | src/utils/circuitUtils.ts:62-67 | an entry is modified iff its circuit is proposed, its id is active, and its difference list is that non-empty list; it occurs as many times as its circuit is proposed |
| CircuitUtils.ModifiedOf | src/utils/circuitUtils.ts:62-67 | at most one entry per proposed circuit; which entries appear is in `ModifiedMembers` |
| CircuitUtils.ModifiedSubsequence | src/utils/circuitUtils.ts:62-67 | the circuits of the modified entries keep proposed order |
| CircuitUtils.ModifiedOfOwnMap | src/utils/circuitUtils.ts:62-67 | circuits compared with their own map yield no modified entry |
| CircuitUtils.ModifiedOfEmptyMap | src/utils/circuitUtils.ts:58-62 | with no active circuits nothing is modified |
| CircuitUtils.EntryCircuits | src/utils/circuitUtils.ts:66 | the circuits of a list of modified entries, element by element |
| CircuitUtils.FormatValue | src/utils/circuitUtils.ts:86-95 | a boolean shows as `Yes` or `No`; a number of `monthlycost` or `installation_cost` shows as `$` followed by `Grouped` of it, and any other number as its `toString`, each also read back by `parseInt`; a string is shown as it is, and `null` as `null` |
| CircuitUtils.FormatNumber | src/utils/circuitUtils.ts:88-93 | the number branch of `formatValue`: exactly `$` + `Grouped(n)` for the two cost fields and `toString` otherwise, with the same read-back guarantees |
| CircuitUtils.FormatCostGroups | src/utils/circuitUtils.ts:89-91 | a shown cost is `$` followed by the en-US groups of its magnitude (one to three digits, then groups of three), the minus sign leading the first group, and dropping the commas gives `toString` |
| CircuitUtils.FormatNumberInjective | src/utils/circuitUtils.ts:86-95 | two numbers of the same field with the same text are equal |
| CircuitUtils.FormatDifference | src/utils/circuitUtils.ts:97 | the text is the field name and `: `, then the formatted old value, then the separator, then the formatted new value, and nothing else |
| CircuitUtils.FindField | src/utils/circuitUtils.ts:107 | `find` returns a difference of the field from the list, and finds nothing iff no difference has that field |
| CircuitUtils.NumberOf | src/utils/circuitUtils.ts:108 | the value `newValue - oldValue` uses: a number is itself, a boolean 1 or 0, anything else 0 |
| CircuitUtils.CostDeltaOfDifferences | src/utils/circuitUtils.ts:106-109 | a modified entry contributes its proposed minus its active monthly cost (0 when they are equal) |
| CircuitUtils.UnmatchedSplit | src/utils/circuitUtils.ts:104-105 | a list's cost splits into its unmatched circuits' cost plus its matched circuits' cost |
| CircuitUtils.ProposedSplit | src/utils/circuitUtils.ts:104-112 | with unique ids, the proposed cost is the added cost, plus the modified deltas, plus the active cost of the common ids |
| CircuitUtils.CostOfOneId | src/utils/circuitUtils.ts:104-105 | with unique ids, the cost on one id is that circuit's cost, or 0 when the id is absent |
| CircuitUtils.CostInInsert | src/utils/circuitUtils.ts:104-105 | the matched cost is additive over a fresh id |
| CircuitUtils.CostInNone | src/utils/circuitUtils.ts:104-105 | no id matched costs nothing |
| CircuitUtils.LastIdFresh | src/utils/circuitUtils.ts:22-24 | with unique ids, the last id does not occur earlier |
| CircuitUtils.CostImpactOfCompare | src/utils/circuitUtils.ts:103-115 | with unique ids, `monthlyImpact` of a comparison equals the proposed total minus the active total, and `oneTimeImpact` is the installation cost of the proposed circuits whose ids are not active |
| CircuitUtils.CalculateCostImpact | src/utils/circuitUtils.ts:103-115 | with nothing added the one-time impact is 0; with only removals the monthly impact is minus their cost; with only additions it is their cost; an empty comparison has no impact |
| FilterUtils.FilterByMembers | src/utils/filterUtils.ts:39-59 | a filtered bucket holds exactly the bucket's elements whose circuit matches search, carrier and purpose, with every copy of such an element kept |
| FilterUtils.Matches | src/utils/filterUtils.ts:25-43 | with search, carrier and purpose all blank every circuit matches |
| FilterUtils.FilterBy | src/utils/filterUtils.ts:39-59 | no longer than the bucket, and every element kept matches the filter |
| FilterUtils.FilterBySubsequence | src/utils/filterUtils.ts:39-59 | a filtered bucket is an order-preserving subsequence of the bucket |
| FilterUtils.FilterByKeepsAll | src/utils/filterUtils.ts:39-59 | when every element matches, the bucket is unchanged |
| FilterUtils.FilterCircuitsBuckets | src/utils/filterUtils.ts:15-63 | each bucket is populated only when `type` selects it, holds exactly its matching elements with all their copies, tests a modified entry by its circuit, and keeps order |
| FilterUtils.FilterCircuits | src/utils/filterUtils.ts:15-63 | no bucket grows, and a bucket that `type` does not select is empty |
| FilterUtils.MatchesSearchIffSubstring | src/utils/filterUtils.ts:5-13 | a non-empty search matches iff its lowercase form is a substring of the lowercase carrier, type or bandwidth |
| FilterUtils.MatchesSearch | src/utils/filterUtils.ts:5-6 | an absent or empty search matches every circuit |
| FilterUtils.MatchesSearchIgnoresCase | src/utils/filterUtils.ts:5-13 | a search and its lowercase form match the same circuits |
| FilterUtils.FilterWithoutCriteria | src/utils/filterUtils.ts:6-60 | type `all` with blank search, carrier and purpose returns the comparison unchanged |
| FilterUtils.SortCompare | src/utils/filterUtils.ts:69-84 | by monthly cost, a is before b iff its cost is lower (`asc`) or higher (`desc`); by a text field the result is -1, 0 or 1; a circuit ties with itself |
| FilterUtils.SortCompareAntisymmetric | src/utils/filterUtils.ts:69-84 | swapping the two circuits negates the comparator |
| FilterUtils.SortCompareTransitive | src/utils/filterUtils.ts:69-84 | the comparator's "not after" relation is transitive |
| FilterUtils.SortCompareTies | src/utils/filterUtils.ts:69-84 | two circuits that tie with a third tie with each other |
| FilterUtils.InsertPermutation | src/utils/filterUtils.ts:87-89 | inserting into a sorted run adds exactly one element |
| FilterUtils.Insert | src/utils/filterUtils.ts:87-89 | the insertion step of the stable sort: one element longer, holding the inserted element |
| FilterUtils.InsertSorted | src/utils/filterUtils.ts:87-89 | inserting into a sorted run keeps it sorted |
| FilterUtils.InsertTies | src/utils/filterUtils.ts:87-89 | an inserted element lands after every element it ties with |
| FilterUtils.SortByPermutation | src/utils/filterUtils.ts:87-89 | a sorted bucket is a permutation of the bucket |
| FilterUtils.SortBySorted | src/utils/filterUtils.ts:87-89 | a sorted bucket is ordered by the comparator |
| FilterUtils.SortByStable | src/utils/filterUtils.ts:87-89 | elements that tie keep their relative order, as `Array.prototype.sort` is stable |
| FilterUtils.SortBy | src/utils/filterUtils.ts:87-89 | a sorted bucket has the bucket's length |
| FilterUtils.SortCircuitsCorrect | src/utils/filterUtils.ts:65-91 | each of the three buckets comes back as a stably sorted permutation of itself, modified entries ordered by their circuit |
| FilterUtils.SortCircuits | src/utils/filterUtils.ts:86-90 | each bucket keeps its length |
| FilterUtils.SortByCostOrder | src/utils/filterUtils.ts:74-76 | sorting by monthly cost orders numerically, ascending for `asc` and descending for `desc` |
| FilterUtils.SortByTextOrder | src/utils/filterUtils.ts:79-83 | sorting by a text field orders by its lowercased text, reversed for `desc` |
| FilterUtils.SortKeepsCostImpact | src/utils/filterUtils.ts:86-90 | sorting a comparison does not change its cost impact |
| ExportUtils.ChangeTexts | src/utils/exportUtils.ts:23 | one `field: old → new` text per difference, from the raw values |
| ExportUtils.BuildRow | src/utils/exportUtils.ts:5-18 | one key/value pair per column, in column order |
| ExportUtils.Keys | src/utils/exportUtils.ts:50 | `Object.keys` of a row, in insertion order |
| ExportUtils.Lookup | src/utils/exportUtils.ts:58 | `row[header]` is absent iff the key is not in the row, and otherwise is a value paired with it |
| ExportUtils.LookupDistinct | src/utils/exportUtils.ts:58 | with distinct keys, a key reads back its own value |
| ExportUtils.BuildRowKeys | src/utils/exportUtils.ts:5-18 | a built row's keys are its columns |
| ExportUtils.BuildRowLookup | src/utils/exportUtils.ts:5-18 | each column of a built row reads back its value |
| ExportUtils.BaseIndex | src/utils/exportUtils.ts:5-18 | a column's position among the twelve base columns, or 12 when it is not one |
| ExportUtils.BaseColumnsDistinct | src/utils/exportUtils.ts:5-18 | the twelve base columns are distinct and do not include `Changes` |
| ExportUtils.RowColumnsDistinct | src/utils/exportUtils.ts:4-28 | a row's columns are distinct, and include `Changes` iff the row is modified and has differences |
| ExportUtils.FormatCircuitRowColumns | src/utils/exportUtils.ts:4-28 | `formatCircuitForCSV` gives the base columns, plus `Changes` exactly for a modified row with differences; each column holds its value: `Type` is the bucket name, `Usage Charges` is Yes/No, a missing upload bandwidth is `''` |
| ExportUtils.FormatCircuitRow | src/utils/exportUtils.ts:4-28 | twelve columns, plus one exactly for a modified row with differences; the first twelve are the base columns in order; every column holds its value for the circuit |
| ExportUtils.BucketSources | src/utils/exportUtils.ts:35-41 | one row source per added or removed circuit |
| ExportUtils.ModifiedSources | src/utils/exportUtils.ts:43-45 | one row source per modified entry, carrying its differences |
| ExportUtils.Rows | src/utils/exportUtils.ts:33-46 | one formatted row per source |
| ExportUtils.RowSourcesLayout | src/utils/exportUtils.ts:33-46 | the added rows come first, then the removed rows, then the modified rows, each in bucket order; only modified rows carry differences |
| ExportUtils.ExportRowsLayout | src/utils/exportUtils.ts:33-46 | one formatted row per circuit of the comparison, in that layout |
| ExportUtils.Dedup | src/utils/exportUtils.ts:49-51 | the `Set` union keeps each key once, in first-seen order, and holds every key |
| ExportUtils.DedupKnown | src/utils/exportUtils.ts:49-51 | keys already seen add nothing |
| ExportUtils.DedupFresh | src/utils/exportUtils.ts:49-51 | a new key goes last |
| ExportUtils.DedupDistinct | src/utils/exportUtils.ts:49-51 | distinct keys are kept as they are |
| ExportUtils.FlatKeysMembers | src/utils/exportUtils.ts:50 | the flattened keys of shaped rows are the base columns, plus `Changes` when some row has it |
| ExportUtils.HeadersOfShapedRows | src/utils/exportUtils.ts:49-51 | the header of shaped rows is the base columns, followed by `Changes` iff some row has it |
| ExportUtils.HeadersOfOneRow | src/utils/exportUtils.ts:49-51 | the header of one shaped row |
| ExportUtils.RowsShaped | src/utils/exportUtils.ts:4-28 | every formatted row has the base columns, optionally followed by `Changes` |
| ExportUtils.RowsChanges | src/utils/exportUtils.ts:20-25 | some row has `Changes` iff some source has differences |
| ExportUtils.RowSourcesChanged | src/utils/exportUtils.ts:43-45 | some source has differences iff the comparison has a modified entry |
| ExportUtils.ExportRowsShaped | src/utils/exportUtils.ts:33-46 | the export rows are shaped, and some row has `Changes` iff there is a modified entry |
| ExportUtils.HeadersOfExport | src/utils/exportUtils.ts:49-51 | the header is `Type, Carrier, Circuit Type, Purpose, Bandwidth, …, Installation Cost`, followed by `Changes` iff there is a modified entry; no rows give no header |
| ExportUtils.Headers | src/utils/exportUtils.ts:49-51 | `Array.from(new Set(...))` over every row's keys: each key once, and exactly the keys some row has |
| ExportUtils.RowCells | src/utils/exportUtils.ts:57-63 | one escaped cell per header, `''` where the row has no such key |
| ExportUtils.RowLines | src/utils/exportUtils.ts:56-64 | one CSV line per row |
| ExportUtils.ColumnNames | src/utils/exportUtils.ts:55 | the header line's names, one per column |
| ExportUtils.ColumnNameNewline | src/utils/exportUtils.ts:5-23 | no column name contains a newline |
| ExportUtils.HeaderLineNewline | src/utils/exportUtils.ts:55 | the header line contains no newline |
| ExportUtils.CircuitCellQuoting | src/utils/exportUtils.ts:58-62 | a cell is quoted, with inner quotes doubled, iff it contains a comma or a quote; unescaping gives the value back |
| ExportUtils.CircuitCell | src/utils/exportUtils.ts:58-62 | a cell without comma or quote is written bare; one with either is wrapped in quotes |
| ExportUtils.CircuitCellNewline | src/utils/exportUtils.ts:60 | a cell contains a newline iff its value does, since newlines do not cause quoting |
| ExportUtils.RowLineNewline | src/utils/exportUtils.ts:56-64 | a row without newlines in its cells gives a line without newlines |
| ExportUtils.ExportCsvLines | src/utils/exportUtils.ts:54-65 | without newlines in the cells, splitting the CSV text on newlines gives the header line and then one line per row: rows + 1 lines |
| ExportUtils.ExportCsvNewlineSplitsRow | src/utils/exportUtils.ts:54-65 | a newline in any cell gives more than rows + 1 lines |
| ExportUtils.ExportCsv | src/utils/exportUtils.ts:31-65 | the text starts with the header line, and an empty comparison gives the empty text |
| ExportUtils.ColoredRows | src/utils/exportUtils.ts:89-105 | one coloured row per source |
| ExportUtils.ExcelRowsExtendCsvRows | src/utils/exportUtils.ts:89-105 | each spreadsheet row is the CSV row followed by `_rowColor` with its bucket's colour |
| ExportUtils.RowColor | src/utils/exportUtils.ts:89-105 | each bucket's `_rowColor` is a `#` followed by six lower-case hex digits; `RowColorsDistinct` says the three differ |
| ExportUtils.RowColorsDistinct | src/utils/exportUtils.ts:89-105 | the added, removed and modified rows get three different colours |
| ExportUtils.ExcelRows | src/utils/exportUtils.ts:89-105 | one row per circuit of the comparison, each ending with its `_rowColor` |
| ExportUtils.ExportExcel | src/utils/exportUtils.ts:83-136 | a failure in any spreadsheet-library step is rethrown with its own error; otherwise the rows handed to the library are the coloured rows |
| Excel.LocationValues | src/lib/excel.ts:22-37 | every exported row has one value per header, 14 in all |
| Excel.LocationCells | src/lib/excel.ts:43-50 | one escaped cell per value |
| Excel.LocationLines | src/lib/excel.ts:42-51 | one line per location |
| Excel.ExportLocationsCsv | src/lib/excel.ts:40-52 | the text starts with the header line, and no locations give the header line alone |
| Excel.LocationCellQuoting | src/lib/excel.ts:45-49 | a cell is quoted, with inner quotes doubled, iff it contains a comma, a newline or a quote; unescaping gives the value back |
| Excel.LocationCell | src/lib/excel.ts:45-49 | a cell without comma, newline or quote is written bare; one with any of them is wrapped in quotes |
| Excel.LocationRowShape | src/lib/excel.ts:5-37 | 14 cells per row under 14 headers; missing optional texts export as `''` and missing counts as `0` |
| Excel.ParseRecord | src/lib/excel.ts:83-130 | the `forEach`/`switch` that fills a fresh location field by field builds the specified record |
| Excel.RecordFrom | src/lib/excel.ts:85-128 | headers that are no case label from position i on leave the location as it is |
| Excel.Record | src/lib/excel.ts:83-130 | a line under headers none of which is a case label becomes the empty object |
| Excel.UnknownHeaderIgnored | src/lib/excel.ts:87-127 | a header that is none of the 13 case labels, `Company` included, changes nothing |
| Excel.TrimAll | src/lib/excel.ts:77-82 | every split part trimmed |
| Excel.DataLines | src/lib/excel.ts:79-80 | the non-blank lines after the header, in order, each as many times as it occurs |
| Excel.ParseLines | src/lib/excel.ts:81-131 | one parsed location per data line |
| Excel.ParseLine | src/lib/excel.ts:82-127 | a data line under headers none of which is a case label becomes the empty object |
| Excel.CountValue | src/lib/excel.ts:114-123 | the count fallback of the importer: 0 for a missing value or one `parseInt` cannot read, else the integer it reads |
| Excel.ParseLocationsCsv | src/lib/excel.ts:69-142 | a failed read rejects with `Failed to read file`; a load with no text rejects with `Failed to parse CSV file`; a loaded text gives one location per non-blank line after the header |
| Excel.ExportHeaderFields | src/lib/excel.ts:5-127 | the first 13 export headers are exactly the 13 case labels, in order; `Company` is none of them |
| Excel.RecordOfFirstColumns | src/lib/excel.ts:85-108 | under headers whose first seven are the seven text labels, as the export's are, the first seven columns set name, address, city, state, ZIP code, country and criticality |
| Excel.RecordOfExportHeaders | src/lib/excel.ts:85-127 | under the export headers, a line sets every importable field from its column, and the counts are their leading integers or 0 |
| Excel.IntToStringPlain | src/lib/excel.ts:32-34 | an exported count is plain text: no comma, newline, quote or surrounding whitespace |
| Excel.NamePlain | src/lib/excel.ts:5-20 | a header name made of letters and inner spaces is plain |
| Excel.HeadersPlainFirst | src/lib/excel.ts:5-13 | the first seven headers are plain |
| Excel.HeadersPlainRest | src/lib/excel.ts:13-20 | the remaining headers are plain |
| Excel.HeaderLineParses | src/lib/excel.ts:41-77 | the importer reads the exported header line back as the 14 headers |
| Excel.HeaderLineWithoutNewline | src/lib/excel.ts:41 | the header line contains no newline |
| Excel.LinesWithoutNewline | src/lib/excel.ts:42-51 | plain locations export as lines without newlines |
| Excel.ValuesPlain | src/lib/excel.ts:22-37 | a plain location has only plain values |
| Excel.PlainTrimmed | src/lib/excel.ts:82 | trimming leaves plain text alone |
| Excel.TrimAllPlain | src/lib/excel.ts:82 | trimming every part of plain values leaves them unchanged |
| Excel.PlainCells | src/lib/excel.ts:43-50 | plain values are not quoted |
| Excel.PlainSplit | src/lib/excel.ts:50-82 | plain values joined with commas split and trim back into themselves |
| Excel.LineNotBlank | src/lib/excel.ts:50-80 | a line of two or more cells is never skipped as blank |
| Excel.ParseExportedLine | src/lib/excel.ts:22-130 | an exported plain location reads back as that location without its company |
| Excel.ExportedLinesKept | src/lib/excel.ts:80 | no exported line is skipped |
| Excel.SplitLines | src/lib/excel.ts:52-76 | newline-free lines joined with newlines split back into themselves |
| Excel.ParseOfLines | src/lib/excel.ts:76-131 | the import is the parse of the non-blank lines after the header, under the trimmed header fields |
| Excel.ParseExportedLines | src/lib/excel.ts:22-131 | the exported lines of plain locations parse back as those locations, one each |
| Excel.ExportThenImport | src/lib/excel.ts:3-142 | importing the export of plain locations succeeds with one record per location, each the location without its company |
| ProposalTimeline.AddRecord | src/components/proposals/ProposalTimeline.tsx:54-66 | a record keeps its bucket's month and adds its cost to the total; the cost goes to `mpls` when the lowercased type contains `mpls`, else to `dia`, else to `broadband`, else to `lte`, leaving the other three unchanged, and a type naming none of them changes no category |
| ProposalTimeline.TypeKey | src/components/proposals/ProposalTimeline.tsx:55 | the empty string for a record without a type, else the type lowercased: same length, already in lower case |
| ProposalTimeline.Summaries | src/components/proposals/ProposalTimeline.tsx:70 | the buckets of the given month keys, in their order |
| ProposalTimeline.MonthSummary | src/components/proposals/ProposalTimeline.tsx:43-68 | the bucket of a month key is labelled with that key |
| ProposalTimeline.UnseenMonth | src/components/proposals/ProposalTimeline.tsx:45-52 | a month with no record is still a fresh zero bucket |
| ProposalTimeline.TrackStep | src/components/proposals/ProposalTimeline.tsx:43-68 | one pass of the `forEach` keeps the map and its insertion order equal to the first-seen month keys and their buckets |
| ProposalTimeline.AddToMonth | src/components/proposals/ProposalTimeline.tsx:55-66 | the in-place counter updates compute one record's addition to its bucket |
| ProposalTimeline.ChartData | src/components/proposals/ProposalTimeline.tsx:37-71 | the `Map`-filling loop and `Array.from(values())` give no bars without data, and otherwise one bucket per month key in first-seen order |
| ProposalTimeline.FirstIndex | src/components/proposals/ProposalTimeline.tsx:43-45 | the first position of a month key among the records |
| ProposalTimeline.FirstIndexPrefix | src/components/proposals/ProposalTimeline.tsx:43-45 | a later record does not move a key's first position |
| ProposalTimeline.FirstIndexUnique | src/components/proposals/ProposalTimeline.tsx:43-45 | the first position is the one with no earlier occurrence |
| ProposalTimeline.MonthKeysFirstSeen | src/components/proposals/ProposalTimeline.tsx:41-70 | the bars' months are exactly the records' month keys, ordered by first appearance |
| ProposalTimeline.MonthKeysMembers | src/components/proposals/ProposalTimeline.tsx:43-67 | a month key is listed iff some record has it |
| ProposalTimeline.MonthKeys | src/components/proposals/ProposalTimeline.tsx:43-67 | at most one key per record, and the latest record's month is among them; order and membership are in `MonthKeysFirstSeen` |
| ProposalTimeline.MonthKeysOrder | src/components/proposals/ProposalTimeline.tsx:43-67 | the keys are listed in the order of their first records |
| ProposalTimeline.MonthKeysDistinct | src/components/proposals/ProposalTimeline.tsx:41-67 | no month appears twice |
| ProposalTimeline.RecordsOf | src/components/proposals/ProposalTimeline.tsx:43-45 | the records of one month |
| ProposalTimeline.MonthTotal | src/components/proposals/ProposalTimeline.tsx:66 | a month's `totalCost` is the sum of its records' costs |
| ProposalTimeline.CategoryOf | src/components/proposals/ProposalTimeline.tsx:56-64 | the first of mpls, dia, broadband and lte that the lowercased type contains, and none exactly for an uncategorised type |
| ProposalTimeline.InCategory | src/components/proposals/ProposalTimeline.tsx:56-64 | exactly the records whose category is the given one |
| ProposalTimeline.AddRecordCategory | src/components/proposals/ProposalTimeline.tsx:56-64 | a record grows only its own category's segment, by its cost |
| ProposalTimeline.MonthCategory | src/components/proposals/ProposalTimeline.tsx:43-67 | each category segment of a month is the sum of the costs of that month's records whose first matching category it is |
| ProposalTimeline.MonthCategories | src/components/proposals/ProposalTimeline.tsx:54-66 | a month's four categories plus its uncategorized records' costs make its total |
| ProposalTimeline.SumNonNegative | src/components/proposals/ProposalTimeline.tsx:66 | non-negative costs sum to a non-negative total |
| ProposalTimeline.UncategorizedMembers | src/components/proposals/ProposalTimeline.tsx:55-64 | the uncategorized records are among the records |
| ProposalTimeline.CategoriesWithinTotal | src/components/proposals/ProposalTimeline.tsx:54-66 | with non-negative costs, mpls + dia + broadband + lte never exceeds the total |
| ProposalTimeline.Chart | src/components/proposals/ProposalTimeline.tsx:37-71 | absent data gives no bars; otherwise one bar per month key, in first-seen order, labelled with it and holding that month's bucket |
| ProposalStats.ComputeStats | src/components/proposals/ProposalStats.tsx:12-17 | the count is never negative, and each sum is present iff the list is |
| ProposalStats.NoCircuits | src/components/proposals/ProposalStats.tsx:12-17 | an absent list counts 0 circuits; an empty list counts 0 circuits with 0 bandwidth and 0 cost |
| ProposalStats.LeadingBandwidth | src/components/proposals/ProposalStats.tsx:14 | a bandwidth written as a number followed by a unit contributes that number |
| ProposalStats.AddOneCircuit | src/components/proposals/ProposalStats.tsx:12-17 | one more entry adds 1 to the count and its cost to the cost total, and adds its bandwidth's leading integer or skips it when there is none |
| ProposalStats.StatsPermutation | src/components/proposals/ProposalStats.tsx:12-17 | the totals do not depend on the order of the entries |
| ProposalStats.StatsAppend | src/components/proposals/ProposalStats.tsx:12-17 | the totals of two lists together are the sums of their totals |
| ProposalDevelopment.CircuitsAt | src/components/proposals/ProposalDevelopment.tsx:61 | a location's circuits are exactly those of all circuits with its id, in order and with every copy; none when the circuits are not loaded |
| ProposalDevelopment.CircuitsOfLocation | src/components/proposals/ProposalDevelopment.tsx:61 | the `filter` by location keeps exactly that location's circuits, in order and with every copy |
| ProposalDevelopment.EntriesAt | src/components/proposals/ProposalDevelopment.tsx:62 | a location's proposal entries are exactly those with its id, with every copy; none when the proposal has no circuits |
| ProposalDevelopment.EntriesOfLocation | src/components/proposals/ProposalDevelopment.tsx:62-90 | the entries whose location id equals the given one, each as many times as in the input |
| ProposalDevelopment.Unproposed | src/components/proposals/ProposalDevelopment.tsx:65-85 | the circuits whose id is no entry's circuit id, each as many times as in the input, never more than the circuits |
| ProposalDevelopment.IndexOf | src/components/proposals/ProposalDevelopment.tsx:64 | where `Map.set` finds a key, or the map's size when it is new |
| ProposalDevelopment.MapSet | src/components/proposals/ProposalDevelopment.tsx:64 | `Map.set` writes the entry at the key's position, appending it when the key is new, and leaves every other entry as it was |
| ProposalDevelopment.StatFor | src/components/proposals/ProposalDevelopment.tsx:61-70 | `available` is between 0 and the location's circuits, 0 when circuits are not loaded; without proposal circuits nothing is proposed and the cost is 0 |
| ProposalDevelopment.LocationStats | src/components/proposals/ProposalDevelopment.tsx:57-74 | the `forEach` that fills the `Map` builds the specified stats, one `set` per location in order |
| ProposalDevelopment.StatsOf | src/components/proposals/ProposalDevelopment.tsx:57-74 | the map has at most one entry per location |
| ProposalDevelopment.MapSetKeyed | src/components/proposals/ProposalDevelopment.tsx:64-70 | setting a location's own stats keeps every entry tied to its own location, with distinct keys |
| ProposalDevelopment.MapSetKeys | src/components/proposals/ProposalDevelopment.tsx:64 | `Map.set` adds exactly its key |
| ProposalDevelopment.StatsKeyed | src/components/proposals/ProposalDevelopment.tsx:57-74 | the map holds one entry per distinct location id, each with that location's own stats |
| ProposalDevelopment.StatsOfDistinct | src/components/proposals/ProposalDevelopment.tsx:57-80 | with distinct location ids, the map has one entry per location, in order, and the total is the sum of their `available` counts |
| ProposalDevelopment.FreshAppend | src/components/proposals/ProposalDevelopment.tsx:64-78 | setting a new key appends its entry and adds its `available` to the total |
| ProposalDevelopment.TotalAvailableIsSum | src/components/proposals/ProposalDevelopment.tsx:57-80 | with distinct location ids, `totalAvailableCircuits` is the sum of every location's `available`, each entry holding its own location's stats |
| ProposalDevelopment.TotalAvailable | src/components/proposals/ProposalDevelopment.tsx:77-78 | the `reduce` over the map's `available` values is never negative when none of them is |
| ProposalDevelopment.UnproposedWhenNoneProposed | src/components/proposals/ProposalDevelopment.tsx:65-67 | with no entries, every circuit is available |
| ProposalDevelopment.AvailableBounds | src/components/proposals/ProposalDevelopment.tsx:61-69 | a location's `available` is at most its circuits, equals them when it has no entry, and `proposed` is its number of entries |
| ProposalDevelopment.AvailableCircuits | src/components/proposals/ProposalDevelopment.tsx:83-85 | present iff the location's circuits are; holds exactly those not proposed, all of them when the proposal has no circuits |
| ProposalDevelopment.ProposedCircuits | src/components/proposals/ProposalDevelopment.tsx:88-90 | present iff the proposal's circuits are; holds exactly the entries of the expanded location |
| ProposalDevelopment.NothingProposedWhenCollapsed | src/components/proposals/ProposalDevelopment.tsx:88-90 | with no location expanded no entry is selected |
| ProposalDevelopment.EntriesOfNoLocation | src/components/proposals/ProposalDevelopment.tsx:88-90 | no entry belongs to an absent location |
| ProposalDevelopment.WithAdded | src/components/proposals/ProposalDevelopment.tsx:107-116 | the optimistic add: the old entries (none without a cached proposal) followed by the new one; the other proposal fields are kept |
| ProposalDevelopment.TempEntry | src/components/proposals/ProposalDevelopment.tsx:109-115 | the placeholder id is `temp-` followed by digits only; the entry carries the proposal id, the circuit, its id and its location id |
| ProposalDevelopment.TempEntryTime | src/components/proposals/ProposalDevelopment.tsx:110 | the digits after `temp-` read back as the creation time |
| ProposalDevelopment.WithoutId | src/components/proposals/ProposalDevelopment.tsx:158 | keeps exactly the entries whose id is not the given one, with every copy |
| ProposalDevelopment.WithRemoved | src/components/proposals/ProposalDevelopment.tsx:156-159 | the optimistic remove: the entries without the id (none without a cached proposal); the other proposal fields are kept |
| ProposalDevelopment.WithoutIdOrder | src/components/proposals/ProposalDevelopment.tsx:158 | the remaining entries keep their order |
| ProposalDevelopment.WithoutAbsentId | src/components/proposals/ProposalDevelopment.tsx:158 | removing an id no entry has changes nothing |
| ProposalDevelopment.RemoveUndoesAdd | src/components/proposals/ProposalDevelopment.tsx:107-159 | removing a freshly added entry by its new id restores the entries |
| ProposalDevelopment.OptimisticAddEntry | src/components/proposals/ProposalDevelopment.tsx:107-116 | the add appends exactly one entry, after the unchanged old ones, with the proposal id, circuit id, location id and circuit of the new circuit |
| ProposalDevelopment.RollbackRestores | src/components/proposals/ProposalDevelopment.tsx:133-180 | a snapshot is restored exactly; without one the cache is left as it is |
| ProposalDevelopment.RolledBack | src/components/proposals/ProposalDevelopment.tsx:133-138 | `onError`: the snapshot when the context has one, else the cache unchanged |
| ProposalDevelopment.NextExpanded | src/components/proposals/ProposalDevelopment.tsx:188-190 | a click collapses iff it is on the expanded location, and otherwise expands the clicked one |
| ProposalDevelopment.ClickTwice | src/components/proposals/ProposalDevelopment.tsx:188-190 | two clicks on a collapsed location leave it collapsed |
| ProposalDevelopment.DevelopmentView.constructor | src/components/proposals/ProposalDevelopment.tsx:18-23 | nothing is expanded at first |
| ProposalDevelopment.DevelopmentView.HandleLocationClick | src/components/proposals/ProposalDevelopment.tsx:188-190 | the expanded location becomes the next one; the cache is untouched |
| ProposalDevelopment.DevelopmentView.OnMutateAdd | src/components/proposals/ProposalDevelopment.tsx:98-120 | the snapshot is the cache before the change, and the cache becomes the optimistic add |
| ProposalDevelopment.DevelopmentView.OnMutateRemove | src/components/proposals/ProposalDevelopment.tsx:147-163 | the snapshot is the cache before the change, and the cache becomes the optimistic remove |
| ProposalDevelopment.DevelopmentView.RollBack | src/components/proposals/ProposalDevelopment.tsx:133-180 | the cache becomes the snapshot when one exists |
| ProposalDevelopment.DevelopmentView.AddCircuit | src/components/proposals/ProposalDevelopment.tsx:92-143 | on success the optimistic entry stays and `Circuit added successfully` is reported; on failure the snapshot is restored (the optimistic state stays when there was none) and `Failed to add circuit` is reported |
| ProposalDevelopment.DevelopmentView.RemoveCircuit | src/components/proposals/ProposalDevelopment.tsx:145-186 | on success the removal stays and `Circuit removed successfully` is reported; on failure the snapshot is restored (the optimistic state stays when there was none) and `Failed to remove circuit` is reported |
| FilterPersistence.Get | src/contexts/FilterPersistenceContext.tsx:31-33 | `{}` while persistence is off; otherwise the stored entry for the key, or `{}` when there is none |
| FilterPersistence.InitialPersistence | src/contexts/FilterPersistenceContext.tsx:13-16 | no stored flag or a stored `false` starts off; a stored `true` starts on |
| FilterPersistence.Toggle | src/contexts/FilterPersistenceContext.tsx:24-29 | the flag flips; switching on clears every page's filters, and switching off keeps them |
| FilterPersistence.SetPage | src/contexts/FilterPersistenceContext.tsx:35-42 | the flag is kept; while off nothing changes; while on the page holds the new filters and every other page keeps its own |
| FilterPersistence.StorageRoundTrip | src/contexts/FilterPersistenceContext.tsx:13-22 | the flag written to local storage reads back as itself |
| FilterPersistence.Stringify | src/contexts/FilterPersistenceContext.tsx:21 | `JSON.stringify` of the flag is `true` exactly when the flag is on |
| FilterPersistence.ToggleFlips | src/contexts/FilterPersistenceContext.tsx:24-29 | a toggle flips the flag, and two toggles restore it |
| FilterPersistence.NothingReadAfterToggle | src/contexts/FilterPersistenceContext.tsx:24-33 | right after a toggle, in either direction, every page reads `{}` |
| FilterPersistence.OffAndOnForgets | src/contexts/FilterPersistenceContext.tsx:24-29 | switching off and on again forgets every page's filters |
| FilterPersistence.GetAfterSet | src/contexts/FilterPersistenceContext.tsx:31-42 | a page reads back what it stored while persistence is on, and `{}` while it is off |
| FilterPersistence.SetLeavesOthers | src/contexts/FilterPersistenceContext.tsx:35-42 | storing one page's filters leaves what every other page reads unchanged |
| FilterPersistence.SetWhileOff | src/contexts/FilterPersistenceContext.tsx:35-36 | storing while persistence is off changes nothing |
| FilterPersistence.FilterPersistenceProvider.constructor | src/contexts/FilterPersistenceContext.tsx:13-22 | the flag comes from storage, there are no filters, and the flag is written back |
| FilterPersistence.FilterPersistenceProvider.GetFilters | src/contexts/FilterPersistenceContext.tsx:31-33 | reads as `Get` on the provider's state |
| FilterPersistence.FilterPersistenceProvider.TogglePersistence | src/contexts/FilterPersistenceContext.tsx:20-29 | the state becomes its toggle, and the new flag is stored |
| FilterPersistence.FilterPersistenceProvider.SetPageFilters | src/contexts/FilterPersistenceContext.tsx:35-42 | the state becomes the set, and the stored flag is unchanged |
| Text.Lower | src/utils/filterUtils.ts:7-11 | `toLowerCase` works character by character and keeps the length |
| Text.LowerIdempotent | src/utils/filterUtils.ts:7-11 | lowercasing twice is lowercasing once |
| Text.ContainsIffOccurs | src/utils/filterUtils.ts:9-11 | `includes` holds iff the needle occurs at some position |
| Text.Split | src/lib/excel.ts:76-82 | `split` gives at least one part, none containing the separator |
| Text.SplitJoin | src/lib/excel.ts:50-82 | splitting separator-free parts joined by the separator gives the parts back |
| Text.SplitCount | src/utils/exportUtils.ts:65 | a split gives one more part than there are separators |
| Text.TrimEmptyIffBlank | src/lib/excel.ts:80 | a line trims to nothing iff it is all whitespace |
| Text.Trim | src/lib/excel.ts:77-82 | `trim` gives a piece of the text, no longer than it, that neither starts nor ends with whitespace |
| Text.JoinFirst | src/utils/exportUtils.ts:54-65 | a `join` starts with its first part |
| Text.CompareZeroIffEqual | src/utils/filterUtils.ts:82-83 | the text comparison is 0 iff the strings are equal |
| Text.CompareAntisymmetric | src/utils/filterUtils.ts:82-83 | swapping the strings negates the comparison |
| Text.CompareTransitive | src/utils/filterUtils.ts:82-83 | the comparison's "not after" relation is transitive |
| Numbers.NatToString | src/utils/circuitUtils.ts:92 | `toString` of a natural number is a non-empty string of digits without a leading zero |
| Numbers.DecimalValue | src/utils/circuitUtils.ts:92 | the digits of `toString` denote the number |
| Numbers.NatGrouped | src/utils/circuitUtils.ts:90 | the en-US form of a natural number is non-empty and starts with a digit |
| Numbers.Grouped | src/utils/circuitUtils.ts:90 | the en-US form of an integer is non-empty and starts with `-` iff the integer is negative |
| Numbers.NatGroupedShape | src/utils/circuitUtils.ts:90 | the comma-separated groups of a natural number are a first group of one to three digits without a leading zero (unless the number is 0), then groups of exactly three digits |
| Numbers.GroupedShape | src/utils/circuitUtils.ts:90 | a negative number has the groups of its magnitude, with the minus sign leading the first group |
| Numbers.SignedGroupedDigits | src/utils/circuitUtils.ts:90 | the grouped text with its commas removed is `toString` |
| Numbers.ParseIntToString | src/lib/excel.ts:116-122 | `parseInt` reads a number's text back as the number, whatever non-digit text follows |
| Numbers.ParseInt | src/lib/excel.ts:116-122 | a text that is empty after its leading whitespace reads as no number, and a negative result comes from a leading `-` |
| Csv.UnescapeQuote | src/utils/exportUtils.ts:61 | wrapping in quotes with inner quotes doubled can be undone |
| Csv.DoubledQuotesPaired | src/utils/exportUtils.ts:61 | every quote of the doubled text is next to another |
| Csv.DoubledQuotesEven | src/utils/exportUtils.ts:61 | the quotes of the doubled text come in runs of even length: an even number precede every other character, and an even number occur in all |
| Seqs.SumAppend | src/utils/circuitUtils.ts:104-113 | a `reduce` sum is additive over concatenation |
| Seqs.SumPermutation | src/utils/circuitUtils.ts:104-113 | a `reduce` sum does not depend on order |

## Left out

- Downloads, `Blob`/anchor handling, `XLSX.utils`/`XLSX.writeFile`, `FileReader` events and dates in file names are left out. They are I/O. The model stops at the CSV text, the row list and the read result.
- `ExportUtils.ExportExcel`: everything its `try` block hands to the spreadsheet library is one parameter: the dynamic `import('xlsx')`, building the workbook and sheet, and writing the file. A failure in any of them is rethrown unchanged.
- The `console.error` logging in the `catch` block of `exportDifferencesAsExcel` (`src/utils/exportUtils.ts:133-135`) is I/O and is not modelled.
- React Query fetching, cancellation, invalidation, refetching and realtime sync are left out. They are foreign calls. The cache a mutation sees is a field of `DevelopmentView`, and whether the server call succeeded is a parameter. Concurrent, overlapping mutations are not modelled.
- `Date.now()` in the temporary id is a parameter `now`.
- Local storage is the field `storedFlag`. Only the values `"true"` and `"false"` are read back. Any other stored text, which `JSON.parse` would turn into something else or reject, reads as off.
- `localeCompare` is modelled as an ordinal comparison by character code. `toLowerCase` lowers ASCII letters only. Both are locale or Unicode dependent in JavaScript.
- `toLocaleString` is modelled as en-US thousands grouping of integers.
- Money is an integer, not a floating-point number. So `installation_cost || 0` and the subtraction of costs are exact.
- `CircuitUtils.NumberOf`: text values in a `monthlycost` difference read as 0, not as JavaScript's numeric coercion. That field is a number in the row type.
- `Numbers.ParseInt` reads arbitrarily long digit strings exactly. JavaScript's result loses precision beyond 2^53. `-0` is not distinguished from 0.
- `formatMonthYear` is not modelled: it depends on `Date` parsing and the locale. A bar's `month` is the record's month key.
- The filter's `criticality` criterion is carried in `CircuitFilter` but consulted nowhere, as in the source.
- `ProposalDevelopment.getCriticalityBadge` and all rendering are not modelled. They are CSS class lookups and markup.
- An `undefined` value and a field never set are not distinguished in `Excel.ParsedLocation`. Both are `None`.
- `CircuitUtils.CompareSelf` and `CircuitUtils.CostImpactOfCompare` assume unique circuit ids. With repeated ids the map keeps the last circuit for an id, which `CircuitUtils.CircuitMapLastWins` states, and these totals no longer hold.
- `ProposalDevelopment.TotalAvailableIsSum` assumes distinct location ids. With a repeated id the later `Map.set` replaces the entry, which `ProposalDevelopment.StatsKeyed` states.
- `useCircuitComparison` only memoises `compareCircuits` and is not modelled.

Behaviours of the code that a reader might not expect:

- The circuit CSV encoder quotes a cell only for a comma or a quote, not for a newline (`src/utils/exportUtils.ts:60`). The location encoder also quotes newlines (`src/lib/excel.ts:47`).
- A failed mutation rolls the cached proposal back only when a snapshot existed (`context?.previousProposal` at `src/components/proposals/ProposalDevelopment.tsx:135, 178`). Otherwise the optimistic state stays.
- A location's `available` count excludes only the circuits proposed by that location's own entries (`src/components/proposals/ProposalDevelopment.tsx:62-67`). The selection for the expanded location excludes circuits proposed by any entry (`src/components/proposals/ProposalDevelopment.tsx:83-85`).
- The separator in `formatDifference` is the literal at `src/utils/circuitUtils.ts:97`: the characters U+00E2 U+2020 U+2019, not an arrow. The `Changes` column of the export uses U+2192 (`src/utils/exportUtils.ts:23`).
