# Scan tables of the kingdom tracker, in Dafny

The tracker is a React front end over a table store. A user keeps projects, uploads CSV scans of
a kingdom's governors into a project, and browses them. This project models the logic of that front
end and proves properties of it:

- **DKP tracker.** Each governor of the latest scan is matched to the initial scan by id, or by
  name when the id is blank. Matched governors get gains, a score and a rank by KP gained. The rows
  are then searched, sorted and paged, and the detail view shows a completion percentage.
- **KP comparison view.** Every governor of the latest scan is kept, with its KP increase over the
  initial scan. Rows are ranked by that increase, then searched over the visible columns, sorted by
  parsed cell values and paged through a five-button window.
- **Governor detail dialog.** It finds the governor's initial row, falling back to the name when
  the id finds nothing. It then computes the differences and the unclamped completion.
- **Single-scan view.** It shows the visible columns, search, a sort that is numeric when both
  cells are numeric and textual otherwise, paging, and the power / KP / dead totals.
- **Upload dialog.** It accepts `.csv` files only, derives a scan name, and freezes its form while
  an upload runs.
- **Dashboard.** It holds the scan list, newest first. A user can delete a scan, and the tracker
  launches with the first and the last scan.
- **Application shell.** It holds the active project, the open scan and the open comparison, and
  decides which screen is shown.

Cell values are a small JSON datatype (`JsValues.Val`). JavaScript's coercions are written out:
truthiness, `||` chains, `String(v)` and `parseFloat`, which is restricted to integers. Sorting is
a stable insertion sort on values (`Ordering.SortWith`, stable by `Ordering.SortStable`). Every
sort in the source works on a fresh copy, so nothing is lost by sorting values. Components whose
handlers update state step by step are classes whose methods have `modifies` clauses:

- `Table.Controls`: page, page size, search term and sort;
- `Upload.UploadModal`;
- `DashboardView.Dashboard`;
- `Navigation.App`.

Their pure computations are functions with lemmas. The answers of the store and of the CSV parser
are method parameters (`Database.Response`).

Modules: `Base`, `JsStrings`, `JsValues`, `Numbers`, `Ordering`, `Database`, `Table`, `Dkp`,
`Comparison`, `GovernorStats`, `DatasetView`, `Upload`, `DashboardView`, `Navigation`.

## Model

| member | source | states |
|---|---|---|
| `Numbers.ParseNumber` | src/components/DKPViewer.tsx:21-28 | a number is itself; text is parsed with its commas removed, and text that is no number reads as 0; any other value reads as 0 |
| `Numbers.ParseNumberFormatted` | src/components/DatasetViewer.tsx:45-52 | text that is the decimal form of `n` with thousands separators parses back to `n` |
| `Numbers.ParseNumberIgnoresCommas` | src/components/DKPViewer.tsx:24 | commas anywhere in the text do not change the value |
| `Numbers.ParseNumberNoDigit` | src/components/DKPViewer.tsx:24-25 | text with no sign or digit at its head reads as 0 |
| `Numbers.ParseLoose` | src/components/ComparisonViewer.tsx:44-48 | the `\|\| '0'` normaliser: numbers are themselves, empty text reads as 0, non-text non-numbers read as 0 |
| `Numbers.ParseLooseIsParseNumber` | src/components/GovernorStatsModal.tsx:41-45 | with NaN read as 0, the loose normaliser and `parseNumber` agree on every value |
| `Numbers.GetValue` | src/components/DKPViewer.tsx:43-49 | the first alias that is not `undefined` decides the value, even when it parses to 0; no alias present gives 0 |
| `Numbers.GetString` | src/components/DKPViewer.tsx:51-57 | `String` of the first alias present, or `''` when none is |
| `Numbers.GetLoose` | src/components/ComparisonViewer.tsx:50-54 | a missing row reads 0; a present row reads as `GetValue` |
| `JsValues.OrChain` | src/components/ComparisonViewer.tsx:29 | the result is truthy iff some alias is; it is the first truthy alias, or else the last alias's value |
| `JsValues.FirstDefined` | src/components/DKPViewer.tsx:45-47 | none iff every alias is `undefined`; otherwise the first alias that is not |
| `JsStrings.ToLower` | src/components/DKPViewer.tsx:141-144 | same length; every character is lowered |
| `JsStrings.Contains` | src/components/DKPViewer.tsx:143-144 | true iff the term occurs at some index |
| `JsStrings.IndexOf` | src/components/UploadModal.tsx:63 | the first index at which the pattern occurs, or none when it occurs nowhere |
| `JsStrings.DashesToSpaces` | src/components/UploadModal.tsx:63 | same length, no `-` or `_` left, every other character kept |
| `JsStrings.TrimStart` | src/components/DKPViewer.tsx:64 | drops exactly the leading white space |
| `JsStrings.TrimEnd` | src/components/DKPViewer.tsx:64 | drops exactly the trailing white space |
| `JsStrings.RemoveCommas` | src/components/DKPViewer.tsx:24 | no comma is left, and every character other than a comma is still present |
| `JsStrings.RemoveCommasAppend` | src/components/DKPViewer.tsx:24 | removing commas from a concatenation is removing them from each part, so the rest keeps its order |
| `JsStrings.RemoveCommasChar` | src/components/DKPViewer.tsx:24 | a single comma is dropped and any other single character is kept |
| `JsStrings.ParseFloatIntToString` | src/components/DatasetViewer.tsx:48 | `parseFloat(String(n)) == n` for every integer |
| `JsStrings.ParseFloatNoDigit` | src/components/DatasetViewer.tsx:77-78 | text with no sign or digit after white space is NaN |
| `JsStrings.StrLessTransitive` | src/components/DKPViewer.tsx:154-155 | `<` on strings is transitive |
| `JsStrings.StrLessTotal` | src/components/DatasetViewer.tsx:87-89 | two different strings are ordered one way or the other |
| `Ordering.JsLessStrictOrder` | src/components/DKPViewer.tsx:154-155 | `<` on cells is irreflexive, asymmetric and transitive |
| `Ordering.Compare` | src/components/DKPViewer.tsx:150-157 | the comparator is negative iff `a < b` (`b < a` for `desc`) and positive for the reverse |
| `Ordering.CompareDesc` | src/components/ComparisonViewer.tsx:122-124 | `desc` is `asc` negated, or equally with the operands swapped |
| `Ordering.SortWith` | src/components/DKPViewer.tsx:150 | the sort returns a permutation of its input |
| `Ordering.SortSorted` | src/components/DKPViewer.tsx:131 | with a comparator that is a strict order, the result is sorted by it |
| `Ordering.SortStable` | src/components/DKPViewer.tsx:131 | the sort is stable: for a strict-order comparator that looks at elements through a key only, the elements with any one key keep their input order |
| `Ordering.SortByKeyStable` | src/components/DKPViewer.tsx:150-157 | sorting by one column keeps rows with equal cells in their input order |
| `Ordering.SortByKey` | src/components/DKPViewer.tsx:149-158 | ascending (descending) by one field: a permutation in which no key is below (above) an earlier key, so numeric keys end up in number order |
| `Table.RequestSort` | src/components/DKPViewer.tsx:168-174 | the column becomes the key, and the direction is `desc` iff that key was sorted `asc` |
| `Table.RequestSortAlternates` | src/components/ComparisonViewer.tsx:81-87 | repeated clicks alternate the direction, so the third click gives what the first gave |
| `Table.TotalPages` | src/components/DKPViewer.tsx:164 | the ceiling of rows over page size: every row fits, the last page is not empty, and there are 0 pages iff there are no rows |
| `Table.Page` | src/components/DKPViewer.tsx:165-166 | at most `perPage` rows, namely those from `(page - 1) * perPage` on |
| `Table.PageIndex` | src/components/ComparisonViewer.tsx:132-134 | row `i` is at position `i % perPage` of page `i / perPage + 1`, which is one of the `TotalPages` pages |
| `Table.PageBeyondLast` | src/components/DatasetViewer.tsx:97-99 | pages past the last are empty |
| `Table.PageBeforeLast` | src/components/DatasetViewer.tsx:97-99 | every page before the last is full |
| `Table.PrevNextInRange` | src/components/DKPViewer.tsx:299-310 | on a non-empty table both buttons keep the page within `[1, totalPages]`, and "Next" before the last page advances by one |
| `Table.NextOnEmptyTable` | src/components/DatasetViewer.tsx:310-311 | as written, on an empty table "Next" takes page 1 to page 0 |
| `Table.NextPageFixed` | src/components/ComparisonViewer.tsx:337-338 | the intended "Next": a page in range stays in range, it advances by one before the last page and stays put from there |
| `Table.NextPageFixedAgrees` | src/components/ComparisonViewer.tsx:337-338 | on every page of a non-empty table the intended button is the written one |
| `Table.PageWindow` | src/components/ComparisonViewer.tsx:315-320 | as written: `min(5, totalPages)` buttons within `[1, totalPages]` that include the current page |
| `Table.PageWindowRepeatsLast` | src/components/DatasetViewer.tsx:288-293 | on the last of more than five pages, the last two buttons both show the last page |
| `Table.PageWindowSixOfSix` | src/components/ComparisonViewer.tsx:315-320 | page 6 of 6 shows the buttons 3, 4, 5, 6, 6 |
| `Table.PageWindowFixed` | src/components/ComparisonViewer.tsx:315-320 | the intended window: `min(5, totalPages)` consecutive, strictly increasing pages within `[1, totalPages]` that include the current page |
| `Table.PageWindowFixedAgrees` | src/components/DatasetViewer.tsx:288-293 | before the last page the intended window is the written one |
| `Table.SearchRows` | src/components/ComparisonViewer.tsx:94-102 | with a term, exactly the rows one of whose visible cells contains it, ignoring case; without a term, every row |
| `Table.SearchRowsCount` | src/components/DatasetViewer.tsx:59-67 | a kept row is kept as often as it occurs, and a dropped row not at all |
| `Table.SearchRowsAppend` | src/components/DatasetViewer.tsx:59-67 | search distributes over concatenation, so the kept rows keep their order |
| `Table.Controls.constructor` | src/components/ComparisonViewer.tsx:12-19 | page 1, the given page size and sort, no search term; the page size is positive (`Valid`), and every method keeps it so |
| `Table.Controls.SetSearch` | src/components/DKPViewer.tsx:217-220 | typing sets the term and returns to page 1 |
| `Table.Controls.SetPerPage` | src/components/DatasetViewer.tsx:206-209 | choosing 10, 25 or 50 sets the page size and returns to page 1 |
| `Table.Controls.ClickHeader` | src/components/DatasetViewer.tsx:36-42 | a header click sets the sort by `RequestSort` and leaves the page |
| `Table.Controls.Previous` | src/components/DatasetViewer.tsx:281-282 | disabled on page 1, otherwise `max(page - 1, 1)` |
| `Table.Controls.Next` | src/components/DKPViewer.tsx:309-310 | the intended "Next" (`NextPageFixed`): a page in range stays in range |
| `Table.Controls.GoTo` | src/components/ComparisonViewer.tsx:325 | a window button sets the page |
| `Dkp.FindInit` | src/components/DKPViewer.tsx:60-80 | the first initial row that matches: by cleaned id when the id is non-empty, by cleaned name only when it is empty, and never with neither |
| `Dkp.FindInitNoNameFallback` | src/components/DKPViewer.tsx:63-69 | a non-empty id that no initial row has matches nothing, whatever the names say |
| `Dkp.FindInitAnonymous` | src/components/DKPViewer.tsx:79 | a row without id and name matches nothing |
| `Dkp.MakeRecord` | src/components/DKPViewer.tsx:87-123 | each gain is current minus initial; score = 10·T4 + 20·T5 + 10·dead gains; power drop = initial minus current power |
| `Dkp.MakeRecordSelf` | src/components/DKPViewer.tsx:93-107 | a governor compared with itself has zero gains, score and power drop |
| `Dkp.Reconciled` | src/components/DKPViewer.tsx:82-125 | the reference for the records: never more records than latest rows |
| `Dkp.BuildRecords` | src/components/DKPViewer.tsx:82-125 | the `forEach` loop computes exactly `Reconciled(latest, init)` |
| `Dkp.ReconciledStep` | src/components/DKPViewer.tsx:84-85 | one more row adds its record when it has a match, and nothing otherwise |
| `Dkp.ReconciledRows` | src/components/DKPViewer.tsx:84-85 | the records are exactly those of the matched latest rows, each consistent; unmatched rows give none |
| `Dkp.ReconciledSnoc` | src/components/DKPViewer.tsx:83-124 | records follow the latest rows' order |
| `Dkp.KpDescStrict` | src/components/DKPViewer.tsx:131 | `b.kp_gained - a.kp_gained` is a strict order |
| `Dkp.RankIn` | src/components/DKPViewer.tsx:133 | one more than the first position with that id, or 0 when the id is absent |
| `Dkp.WithRanks` | src/components/DKPViewer.tsx:130-135 | as written: every record, in order, paired with the rank of its id |
| `Dkp.RanksInRange` | src/components/DKPViewer.tsx:133 | every rank lies in `1..N` |
| `Dkp.RankPosition` | src/components/DKPViewer.tsx:131-133 | with distinct ids, rank `k` means position `k - 1` of the sorted copy |
| `Dkp.RanksDistinct` | src/components/DKPViewer.tsx:131-135 | with distinct ids, different records have different ranks |
| `Dkp.RanksOnto` | src/components/DKPViewer.tsx:131-135 | with distinct ids, position `p` of the sorted copy holds rank `p + 1`, so the ranks are a permutation of `1..N` |
| `Dkp.RankAt` | src/components/DKPViewer.tsx:131-135 | the record at a sorted position is ranked one more than that position |
| `Dkp.RanksMonotone` | src/components/DKPViewer.tsx:131-135 | with distinct ids, a strictly larger KP gain gets a strictly better rank |
| `Dkp.SharedIdSharesRank` | src/components/DKPViewer.tsx:133 | records with equal ids get equal ranks |
| `Dkp.BlankIdsAllRankedFirst` | src/components/DKPViewer.tsx:133 | when every id is blank, every record is ranked 1 |
| `Dkp.KpSortStable` | src/components/DKPViewer.tsx:131 | records with equal KP gains keep their order in the sorted copy |
| `Dkp.KpOrder` | src/components/DKPViewer.tsx:131 | the stable sort order as record indices: a permutation of `0..N-1` |
| `Dkp.KpOrderFacts` | src/components/DKPViewer.tsx:131 | the order has no duplicates, holds every index, and is non-increasing in KP gained |
| `Dkp.PositionRank` | src/components/DKPViewer.tsx:133 | one more than the position of an index in the order, or 0 when it is absent |
| `Dkp.WithRanksFixed` | src/components/DKPViewer.tsx:130-135 | intended ranks by position: every record, in order, with its rank |
| `Dkp.FixedRanksDistinct` | src/components/DKPViewer.tsx:130-135 | intended ranks lie in `1..N` and differ, whatever the ids |
| `Dkp.FixedRanksOnto` | src/components/DKPViewer.tsx:130-135 | the intended ranks are a permutation of `1..N` |
| `Dkp.FixedRanksMonotone` | src/components/DKPViewer.tsx:130-135 | under the intended ranks a larger KP gain gets a better rank |
| `Dkp.SortedIsAtOrder` | src/components/DKPViewer.tsx:131 | sorting the records is sorting their indices and looking the records up |
| `Dkp.FixedRanksAgree` | src/components/DKPViewer.tsx:130-135 | with distinct ids, the intended ranks are the ranks the source computes |
| `Dkp.RankAgrees` | src/components/DKPViewer.tsx:133 | with distinct ids, ranking by id in the sorted records is ranking by index in the order |
| `Dkp.SearchRecords` | src/components/DKPViewer.tsx:140-146 | with a term, exactly the records whose name or id contains it, ignoring case; without one, all of them, ranks included |
| `Dkp.SearchRecordsAppend` | src/components/DKPViewer.tsx:142-145 | search distributes over concatenation |
| `Dkp.SearchRecordsCount` | src/components/DKPViewer.tsx:142-145 | a kept record is kept as often as it occurs |
| `Dkp.Field` | src/components/DKPViewer.tsx:109-123 | `row[key]` of a ranked record: `rank`, `kp_gained`, `score` and `name` are its fields |
| `Dkp.SearchAndSort` | src/components/DKPViewer.tsx:137-158 | a permutation of the searched records, unchanged unless the sort key is truthy, and ordered by that key when it is |
| `Dkp.ProcessRecords` | src/components/DKPViewer.tsx:129-161 | with the intended ranks (`WithRanksFixed`) in place of the id lookup: rank first, then search, then sort, as `SearchAndSort` states |
| `Dkp.ProcessRecordsAsWritten` | src/components/DKPViewer.tsx:129-161 | with the ranks the source computes (`WithRanks`): rank first, then search, then sort, as `SearchAndSort` states |
| `Dkp.ProcessedRanks` | src/components/DKPViewer.tsx:130-138 | a shown rank is the record's rank in the full data, so search and sort do not change it |
| `Dkp.Completion` | src/components/DKPViewer.tsx:350-352 | at most 100; 0 without positive initial power; 100 iff KP gained reaches three times the initial power; negative iff the gain is; the exact ratio below the cap |
| `Dkp.NewControls` | src/components/DKPViewer.tsx:11-17 | ten rows a page, sorted by score, descending |
| `Comparison.FindInit` | src/components/ComparisonViewer.tsx:28-41 | the first initial row that matches: by `String` id when the id chain is truthy, by lower-cased name only when it is falsy |
| `Comparison.FindInitNoNameFallback` | src/components/ComparisonViewer.tsx:30-32 | a truthy id that no initial row has matches nothing |
| `Comparison.FindInitAnonymous` | src/components/ComparisonViewer.tsx:40 | falsy id and name chains match nothing |
| `Comparison.GetKp` | src/components/ComparisonViewer.tsx:49-54 | a missing row reads 0; otherwise the first KP alias present |
| `Comparison.WithDiff` | src/components/ComparisonViewer.tsx:57-63 | `_kp_increase` is the current KP minus the initial KP (0 without a match), and every other column is kept |
| `Comparison.WithDiffs` | src/components/ComparisonViewer.tsx:57-63 | one row per latest row, in order |
| `Comparison.IncreaseDescStrict` | src/components/ComparisonViewer.tsx:66 | the increase comparator is a strict order |
| `Comparison.IncreaseSortStable` | src/components/ComparisonViewer.tsx:66 | rows with equal increases keep their order, so the earlier of two tied rows gets the smaller rank |
| `Comparison.AssignRanks` | src/components/ComparisonViewer.tsx:69-72 | row `k` gets `dkp_rank = k + 1`, and every other column is kept |
| `Comparison.AssignRanksMonotone` | src/components/ComparisonViewer.tsx:66-72 | after sorting by increase, increases do not grow with rank |
| `Comparison.ComparisonData` | src/components/ComparisonViewer.tsx:23-73 | as many rows as the latest scan, ranks 1..N in order, non-increasing increases, a permutation of the rows with increases |
| `Comparison.VisibleHeaders` | src/components/ComparisonViewer.tsx:75-78 | the rank column first, then exactly the columns that are not `id` / `governor_name` in lower case |
| `Comparison.VisibleHeadersAppend` | src/components/ComparisonViewer.tsx:75-78 | the shown columns keep their order |
| `Comparison.ParseVal` | src/components/ComparisonViewer.tsx:111-117 | text that parses becomes a number, and other text becomes its lower-case form; other values are kept |
| `Comparison.NumericStringsCompareNumerically` | src/components/ComparisonViewer.tsx:119-124 | numeric texts compare by their numbers, in either direction |
| `Comparison.TextCompareIgnoresCase` | src/components/ComparisonViewer.tsx:119-124 | non-numeric texts compare by their lower-case forms |
| `Comparison.NumberAndTextTie` | src/components/ComparisonViewer.tsx:122-124 | a number and a non-numeric text compare as equal |
| `Comparison.ProcessComparison` | src/components/ComparisonViewer.tsx:90-129 | a permutation of the searched rows, unchanged unless the sort key is truthy (`null` and `""` do not sort), ordered by the parsed key when it is |
| `Comparison.NewControls` | src/components/ComparisonViewer.tsx:12-19 | ten rows a page and no sort |
| `GovernorStats.InitGov` | src/components/GovernorStatsModal.tsx:15-38 | nothing without initial data; else the first id match, or when no row matches the id the first name match |
| `GovernorStats.NameFallbackDiffersFromTable` | src/components/GovernorStatsModal.tsx:25-35 | a governor whose truthy id finds nothing but whose name does is matched here and unmatched in the comparison table |
| `GovernorStats.GetVal` | src/components/GovernorStatsModal.tsx:52-58 | a missing row reads 0; otherwise the first alias present |
| `GovernorStats.Percent` | src/components/GovernorStatsModal.tsx:83 | the exact ratio times 100 when the target is positive, and 0 otherwise; above 100 when the gain exceeds the target, negative when the gain is |
| `GovernorStats.Stats` | src/components/GovernorStatsModal.tsx:50-92 | current and initial values from the alias lists, differences current minus initial, target three times initial power, completion `Percent(diffKp, target)`; without an initial row everything initial is 0 |
| `GovernorStats.CompletionUnclamped` | src/components/GovernorStatsModal.tsx:83 | a gain above the target reads above 100 |
| `GovernorStats.CompletionMatchesTracker` | src/components/GovernorStatsModal.tsx:79-83 | capped at 100, the dialog's percentage is the tracker's |
| `GovernorStats.Angle` | src/components/GovernorStatsModal.tsx:137 | at most 360 degrees, exactly 360 from 100 percent on, and `3.6 ×` the percentage below |
| `GovernorStats.GovName` | src/components/GovernorStatsModal.tsx:95 | always truthy: the first truthy name alias, or `Unknown Governor` |
| `DatasetView.VisibleHeaders` | src/components/DatasetViewer.tsx:19-33 | exactly the columns whose lower-case form is not excluded |
| `DatasetView.VisibleHeadersAppend` | src/components/DatasetViewer.tsx:19-33 | the visible columns keep their order |
| `DatasetView.NumbersAreNumeric` | src/components/DatasetViewer.tsx:77-78 | every number is numeric and reads as itself |
| `DatasetView.LocaleCompare` | src/components/DatasetViewer.tsx:88-89 | negative, zero or positive as the first string is before, equal to or after the second |
| `DatasetView.CompareCells` | src/components/DatasetViewer.tsx:71-90 | two numeric cells compare by number; any other pair compares by `String(v)`; operands are swapped for `desc` |
| `DatasetView.CompareCellsDesc` | src/components/DatasetViewer.tsx:83-89 | `desc` is `asc` negated |
| `DatasetView.RowCompareStrict` | src/components/DatasetViewer.tsx:80-84 | on an all-numeric column the comparator is a strict order |
| `DatasetView.NumericColumnSorted` | src/components/DatasetViewer.tsx:70-91 | sorting an all-numeric column orders it by number |
| `DatasetView.ProcessDataset` | src/components/DatasetViewer.tsx:55-94 | a permutation of the searched rows, unchanged unless the sort key is truthy (`null` and `""` do not sort), and in number order when the key is truthy and the column numeric |
| `DatasetView.ChainValue` | src/components/DatasetViewer.tsx:133-135 | the first truthy alias decides the value; none truthy gives 0 |
| `DatasetView.FalsyReadsZero` | src/components/DatasetViewer.tsx:133 | a falsy cell reads as 0 |
| `DatasetView.ComputeStats` | src/components/DatasetViewer.tsx:131-138 | the `reduce` loop returns the sums of power, KP and dead over every row |
| `DatasetView.StatsIgnoreOrder` | src/components/DatasetViewer.tsx:131-138 | the totals do not depend on the row order |
| `DatasetView.StatsAppend` | src/components/DatasetViewer.tsx:131-138 | the totals of two parts add up |
| `DatasetView.NewControls` | src/components/DatasetViewer.tsx:10-16 | ten rows a page and no sort |
| `Upload.IsCsvIgnoresCase` | src/components/UploadModal.tsx:59 | a file is accepted iff its name ends with a dot and `c`, `s`, `v`, each in either case |
| `Upload.CsvNameNonEmpty` | src/components/UploadModal.tsx:59 | an accepted name has at least four characters |
| `Upload.DeriveName` | src/components/UploadModal.tsx:63 | no `-` or `_` in the result; four characters shorter when `.csv` occurs, the same length when not |
| `Upload.RemoveFirstAt` | src/components/UploadModal.tsx:63 | the replace cuts out exactly the first occurrence |
| `Upload.DeriveNameOfStem` | src/components/UploadModal.tsx:63 | `stem.csv` with no dot in the stem becomes the stem with dashes and underscores spaced out |
| `Upload.UpperCaseExtensionKept` | src/components/UploadModal.tsx:59-63 | `A.CSV` is accepted but keeps its extension in the derived name |
| `Upload.OnlyFirstSuffixRemoved` | src/components/UploadModal.tsx:63 | only the first `.csv` is removed: `a.csv.csv` gives `a.csv` |
| `Upload.StoredName` | src/components/UploadModal.tsx:241 | the typed name, or the file name when the typed name is empty; empty only when both are |
| `Upload.StoredNameOfCsvNonEmpty` | src/components/UploadModal.tsx:241 | a scan from an accepted file never gets an empty name |
| `Upload.UploadModal.constructor` | src/components/UploadModal.tsx:13-17 | no file, no name, today's date, neither dragging nor uploading |
| `Upload.UploadModal.Open` | src/components/UploadModal.tsx:20-28 | opening resets file, name, dragging and uploading, and sets the date to today |
| `Upload.UploadModal.DragOver` | src/components/UploadModal.tsx:32-35 | the highlight goes on, and nothing else changes |
| `Upload.UploadModal.DragLeave` | src/components/UploadModal.tsx:37-40 | the highlight goes off, and nothing else changes |
| `Upload.UploadModal.ProcessFile` | src/components/UploadModal.tsx:58-69 | an accepted file is set, and names the scan only when no name is typed; a refused file changes neither file nor name |
| `Upload.UploadModal.Drop` | src/components/UploadModal.tsx:42-49 | the highlight always goes off; during an upload, or with no file, file and name stay |
| `Upload.UploadModal.Select` | src/components/UploadModal.tsx:51-56 | during an upload nothing changes; otherwise the first file is processed |
| `Upload.UploadModal.SetScanName` | src/components/UploadModal.tsx:128-130 | the name field sets the name except during an upload |
| `Upload.UploadModal.SetScanDate` | src/components/UploadModal.tsx:138-140 | the date field sets the date except during an upload |
| `Upload.UploadModal.BeginUpload` | src/components/UploadModal.tsx:221-244 | a request exists iff a file is set and no upload runs; it carries `scanName \|\| file.name` (never empty), the date and the file name, and the flag goes on |
| `Upload.UploadModal.FinishUpload` | src/components/UploadModal.tsx:250-271 | whatever the outcome the flag goes off, and only a success closes the dialog |
| `Upload.FrozenWhileUploading` | src/components/UploadModal.tsx:52 | while uploading, selecting, typing and picking change neither file, name nor date |
| `Upload.TypedNameSurvives` | src/components/UploadModal.tsx:61-64 | a typed name is not overwritten by the auto-name of a later accepted file |
| `DashboardView.LaunchPair` | src/components/Dashboard.tsx:99-106 | offered iff there are at least two scans: latest is the first scan, init is the last |
| `DashboardView.LaunchPairSpansHistory` | src/components/Dashboard.tsx:28 | on a newest-first list no scan is newer than latest or older than init |
| `DashboardView.WithoutId` | src/components/Dashboard.tsx:80 | exactly the scans with another id, each as often as before |
| `DashboardView.WithoutIdAppend` | src/components/Dashboard.tsx:80 | the remaining scans keep their order |
| `DashboardView.WithoutIdNewestFirst` | src/components/Dashboard.tsx:80 | deleting keeps the list newest first |
| `DashboardView.Dashboard.constructor` | src/components/Dashboard.tsx:14-16 | no scans, loading, the dialog closed |
| `DashboardView.Dashboard.StartFetch` | src/components/Dashboard.tsx:23 | loading starts and the list stays |
| `DashboardView.Dashboard.FinishFetch` | src/components/Dashboard.tsx:30-36 | an error keeps the list, data replaces it (`null` by `[]`), and loading ends in both cases |
| `DashboardView.Dashboard.DeleteDataset` | src/components/Dashboard.tsx:70-86 | a confirmed delete removes exactly the scans with that id; a failed one changes nothing |
| `DashboardView.Dashboard.OpenUpload` | src/components/Dashboard.tsx:169-171 | offered only once loading has finished; the dialog opens and the list stays |
| `DashboardView.Dashboard.CloseUpload` | src/components/Dashboard.tsx:186-189 | the dialog closes and a fetch starts |
| `Navigation.ScreenOf` | src/App.tsx:111-133 | the open scan first, then the comparison, then the active project's dashboard, then the placeholder, which shows whether projects are loading |
| `Navigation.ScreenIgnoresLoading` | src/App.tsx:129-131 | the loading flag matters only on the placeholder |
| `Navigation.WithoutProject` | src/App.tsx:82 | exactly the projects with another id, each as often as before |
| `Navigation.WithoutProjectAppend` | src/App.tsx:82 | the remaining projects keep their order |
| `Navigation.App.constructor` | src/App.tsx:13-17 | nothing active, no projects, loading |
| `Navigation.App.FinishFetchProjects` | src/App.tsx:29-50 | data replaces the list; its first project becomes active only if none was active and the list is not empty; loading ends in every case |
| `Navigation.App.SelectProject` | src/App.tsx:99-103 | the project becomes active, the scan and comparison close, and the dashboard is shown |
| `Navigation.App.CreateProject` | src/App.tsx:52-71 | a returned project is appended and made active; the open scan and comparison stay |
| `Navigation.App.DeleteProject` | src/App.tsx:73-92 | a confirmed delete removes every project with that id; it clears the active project and the scan only if that project was active; nothing else changes |
| `Navigation.App.SelectDataset` | src/App.tsx:126 | the scan opens and is shown |
| `Navigation.App.LaunchDkp` | src/App.tsx:127 | the comparison opens and is shown |
| `Navigation.App.BackFromDataset` | src/App.tsx:114 | only the scan closes |
| `Navigation.App.BackFromDkp` | src/App.tsx:120 | only the comparison closes |
| `Navigation.DatasetRoundTrip` | src/App.tsx:111-128 | opening a scan and going back returns to the same screen |
| `Navigation.DkpRoundTrip` | src/App.tsx:116-128 | launching the comparison and going back returns to the same screen |
| `Navigation.ComparisonOutlivesDeletedProject` | src/App.tsx:82-86 | deleting the active project while its comparison is open leaves the comparison shown with no active project |

## Left out

- The store (Supabase) reads, inserts and deletes are not modelled. Their outcome is a method
  argument (`Database.Response`), and the filter by project and the `created_at` ordering are the
  store's. `DashboardView.NewestFirst` states that ordering, and it is assumed where it is used.
- CSV parsing (`Papa.parse`), the `setTimeout` before closing, toasts, console output and
  `new Date()` are I/O. Today's date is a parameter.
- Asynchrony and stale closures are not modelled. Each handler runs to completion on the current
  state. `fetchProjects` reads `activeProject` from the closure of the first render. The model
  reads the current value, which is the same whenever nothing is selected during the fetch.
- Numbers are integers. `parseFloat` reads an optional sign and a run of digits. Decimals,
  exponents and `Infinity` are not modelled, and neither is floating-point rounding. Ratios
  (completion, angle) are `real`.
- `Numbers.ParseLoose`: text that is not a number gives NaN in the source and 0 here. NaN
  arithmetic and NaN comparisons are not modelled.
- `Ordering.JsLess`: `<` between a number and a string, which JavaScript decides by converting
  the string, is false here (incomparable). `null`, `undefined` and booleans are incomparable too.
  Strings compare by Unicode code point, where JavaScript compares UTF-16 code units. The two
  orders differ only for characters outside the Basic Multilingual Plane: `"\u{1F600}" < "\uFFFF"`
  holds in JavaScript and fails here.
- `DatasetView.LocaleCompare` is a stand-in for `localeCompare`: code-point order, with no locale
  collation.
- `JsStrings.ToLower` lowers ASCII letters only. White space is the ASCII set plus no-break space
  and BOM.
- `Array.prototype.sort` is modelled as a stable insertion sort. For the comparators that are not
  strict orders (text mixed with numbers), the model fixes one order where engines may differ.
- `Dkp.ProcessRecords` ranks with `WithRanksFixed`, not with the source's id lookup. The two
  differ only when ids repeat, for example in scans without id columns (see Findings).
  `Dkp.ProcessRecordsAsWritten` is the pipeline with the source's ranks.
- `DatasetView.ProcessDataset` states number order only when every cell of the column is numeric.
  On mixed columns the comparator is not an order, and only the permutation is stated.
- Formatting and rendering are not modelled: `toLocaleString`, labels, cell formatting, colours,
  the numeric-column lists used only for display, the skeleton loaders, the page "of" label, the
  "Showing x to y" line and the progress ring's colours. The ring's angle is modelled.
- The detail dialogs' open and close state (`selectedGovernor`) and the row-click warning are not
  modelled. So are the Sidebar and Header components, `src/lib/supabase` and `main.tsx`.
- The upload dialog's file-size display (`size / 1024 / 1024`) is not modelled; `FileInfo.size`
  is carried only.

## Findings

| source | as written | input that shows it | evidently intended | confidence | as-written member | corrected member |
|---|---|---|---|---|---|---|
| src/components/ComparisonViewer.tsx:315-320 (also src/components/DatasetViewer.tsx:288-293) | on the last page of more than five, `currentPage - 3 + 4` passes the end and becomes `totalPages - 0`, so the last page appears twice (same React key) | 6 pages, current page 6: buttons 3, 4, 5, 6, 6 | five distinct consecutive pages ending at the last page: 2, 3, 4, 5, 6 | not executed | `Table.PageWindowSixOfSix`, `Table.PageWindowRepeatsLast` | `Table.PageWindowFixed` (agreement before the last page: `Table.PageWindowFixedAgrees`) |
| src/components/DatasetViewer.tsx:310-311 (also src/components/ComparisonViewer.tsx:337-338, src/components/DKPViewer.tsx:309-310) | "Next" is disabled only when `currentPage === totalPages`; a search with no hits gives 0 pages, so "Next" is enabled on page 1 and moves to page 0 | no matching rows (0 pages), page 1, click "Next": page 0 | "Next" disabled from the last page on, and on an empty table | not executed | `Table.NextOnEmptyTable` | `Table.NextPageFixed`, used by `Table.Controls.Next` (agreement on non-empty tables: `Table.NextPageFixedAgrees`) |
| src/components/DKPViewer.tsx:133 | the rank is the first sorted position with the record's id; scans without id columns are matched by name and give every record the id `""`, so all are ranked 1 | a scan with name but no id columns and two matched governors: both ranked 1 | ranks 1..N by position in the KP-sorted order | not executed | `Dkp.BlankIdsAllRankedFirst` (as written: `Dkp.WithRanks`, `Dkp.ProcessRecordsAsWritten`) | `Dkp.WithRanksFixed`, used by `Dkp.ProcessRecords` (agreement for distinct ids: `Dkp.FixedRanksAgree`; permutation: `Dkp.FixedRanksOnto`) |
