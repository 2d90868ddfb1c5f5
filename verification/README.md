# LonerboxData dashboard: aggregation and filtering core

The dashboard loads CSV files of casualty claims. Each page parses the rows into records and derives a table or a chart from them:

- **Organizations page.**
  - An occurrence count per distinct affiliation text, sorted by text.
  - A seven-label loss summary. It credits each record to the first known group label its "Orient Affiliation" text mentions. The record counts as civilian when the text mentions "Civilian" or "Unaffiliated", and as militia otherwise.
  - The "Militant vs Civilian" pie values.
- **Affiliation-losses page.** The same summary over six labels, with a filter that drops an "Unaffiliated" row, and the rows ordered by militia count. None of the six labels is "Unaffiliated", so the filter never removes anything. The outside labels of its pie are then placed by one spacing sweep.
- **Civilian-losses page.** An open-set summary with one row per distinct affiliation text, in order of first appearance.
- **Verdicts page.** A count per distinct trimmed verdict.
- **Timeline page.** Records whose date of death parses, grouped by date and then by their raw "Orient claim" value. This also yields the y-axis top and the legend domain.
- **Home page.** Two exact-match drop-down filters over the raw records. Each drop-down offers the distinct values found in the data.

The Dafny model follows the pages one module each (`Organizations`, `AffiliationLosses`, `CivilianLosses`, `Verdicts`, `Timeline`, `Filtering`, `LabelLayout`). They share these modules:

- `Records`: a record is a map from header to cell. A missing header is JavaScript's `undefined`. `TrimmedField` is the `?.trim()` then truthiness test.
- `Text`: ECMAScript `trim` with its exact whitespace set, `includes`, and a code-point order.
- `Tallies`: a count map in `Object.values` order, meaning first-insertion order.
- `Losses`: the fixed-set and open-set loss summaries.
- `Sorting`: a stable sort by comparator, as ECMAScript's `Array.prototype.sort` is stable.
- `Sequences`: `[...new Set(xs)]` and subsequences.

Every aggregation is paired with an independent reference definition and a lemma that connects the two for all inputs:

- counts are tied to "how many records carry this value";
- row lists are tied to `Distinct` of the values;
- the open-set loop is tied to a plain tally;
- the filter is tied to multiset counts plus order preservation and maximality;
- the label sweep method is tied to a functional definition, with its least-fixpoint property.

## Model

| member | source | states |
|---|---|---|
| Text.Trim | app/organizations/page.tsx:69 | `trim` removes only whitespace, and only from the two ends, and leaves a result that neither starts nor ends with whitespace |
| Text.TrimIsBlankIff | app/organizations/page.tsx:69-70 | a trimmed value is falsy (empty) exactly when the cell holds only whitespace |
| Text.ContainsTransitive | app/organizations/page.tsx:103-105 | a text that includes a label includes every substring of that label, so a label mentioning "Unaffiliated" passes its marker on to every text credited to it |
| Text.LexLeTransitive | app/organizations/page.tsx:81 | the text order used for sorting is transitive |
| Text.LexLeTotal | app/organizations/page.tsx:115 | the text order used for sorting compares every pair |
| Text.LexLeAntisymmetric | app/organizations/page.tsx:81 | two texts ordered both ways are equal, so distinct keys sort strictly |
| Records.TrimmedField | app/organizations/page.tsx:100-102 | a cell is acted on exactly when present and not all whitespace, and then as its trimmed, non-empty text |
| Records.PresentValuesCounts | app/organizations/page.tsx:68-70 | the values the loops act on are the records' non-blank trimmed cells: one value per such record, each value as often as records carry it |
| Records.BlankRecordIgnored | app/verdicts/page.tsx:55-56 | a record whose cell is missing or blank contributes nothing |
| Sequences.Distinct | app/page.tsx:69 | `[...new Set(xs)]` lists no value twice, only values of `xs`, and every value of `xs` |
| Sequences.DistinctFirstAppearanceOrder | app/page.tsx:69 | the set's values come in order of first appearance |
| Sorting.SortBy | app/organizations/page.tsx:81 | sorting returns a permutation of its input (same multiset) |
| Sorting.SortBySorted | app/organizations/page.tsx:115 | for a consistent comparator the result is ordered by it |
| Sorting.SortByStable | app/affiliation_losses/page.tsx:85 | elements the comparator ties keep their input order (the sort is stable) |
| Sorting.SortBySortedIsIdentity | app/organizations/page.tsx:115 | an already ordered input comes back unchanged |
| Sorting.SortByDistinctKeys | app/organizations/page.tsx:81 | sorting never makes two rows share a key |
| Tallies.TallyKeys | app/verdicts/page.tsx:54-67 | the count map's rows are the distinct values in first-insertion order |
| Tallies.TallyCounts | app/verdicts/page.tsx:57-63 | each row counts exactly the occurrences of its value, so never zero |
| Tallies.TallyTotal | app/verdicts/page.tsx:54-65 | the counts add up to the number of values counted |
| Tallies.PermutedTallyCounts | app/organizations/page.tsx:81 | reordering the count rows keeps every row's count equal to its value's occurrences |
| Tallies.PermutedTallyCovers | app/organizations/page.tsx:81 | after reordering there is a row for a value exactly when the value occurs |
| Losses.FirstMatch | app/organizations/page.tsx:103 | `groups.find(g => text.includes(g))`: the first label in list order that the text includes, and none exactly when it includes no label |
| Losses.FixedLossCounts | app/organizations/page.tsx:87-113 | row i of the fixed-set summary counts exactly the texts whose first matching label is label i, split by the civilian markers, and total = militia + civilian |
| Losses.FixedLossTotal | app/organizations/page.tsx:99-113 | the totals add up to the number of texts that mention some label; the others are dropped |
| Losses.CivilianLabelHasNoMilitia | app/organizations/page.tsx:103-108 | a label that itself mentions a civilian marker never receives a militia count |
| Losses.PieSlicesAddUp | app/organizations/page.tsx:226-231 | the two pie values (summed militia, summed civilian) add up to the summed totals of a balanced summary |
| Losses.OpenLossIsTally | app/civilian_losses/page.tsx:53-77 | the open-set loop equals the plain occurrence tally of the texts, each row's whole count put in the civilian or the militia column by its text |
| Losses.FromTallyTotal | app/civilian_losses/page.tsx:73 | the open-set totals add up to the tally's total |
| Organizations.GroupsSorted | app/organizations/page.tsx:31 | the seven labels are listed in the order the sort would give them |
| Organizations.EntryLeIsTotalPreorder | app/organizations/page.tsx:81 | the claim-text comparator is a total preorder, so the stable sort is well defined |
| Organizations.SortedTallyAscending | app/organizations/page.tsx:81 | the sorted claim counts have strictly ascending keys |
| Organizations.SortedTallyCorrect | app/organizations/page.tsx:65-84 | sorted count rows: strictly ascending distinct texts, each counted by its occurrences, a row exactly for each occurring text |
| Organizations.OrientClaimsCorrect | app/organizations/page.tsx:65-84 | `generateOrientClaims`: one row per distinct trimmed non-blank affiliation, counting the records carrying it, strictly ascending, a row exactly when some record carries the text |
| Organizations.BlankAffiliationIgnored | app/organizations/page.tsx:99-102 | a record with a missing or blank affiliation leaves both summaries unchanged |
| Organizations.SummaryIsFixedLoss | app/organizations/page.tsx:115 | sorting the seven-row summary by label leaves it as built |
| Organizations.LossSummaryCorrect | app/organizations/page.tsx:87-118 | `generateLossSummary`: seven rows in label order, sorted, each counting the records credited to its label by classification, each balanced |
| Organizations.UnaffiliatedHasNoMilitia | app/organizations/page.tsx:103-110 | the "Unaffiliated" row always has zero militia |
| Organizations.PieValuesCoverMatched | app/organizations/page.tsx:226-231 | both pie values together, and the totals, equal the number of non-blank affiliations that mention a label |
| AffiliationLosses.MilitiaLeIsTotalPreorder | app/affiliation_losses/page.tsx:85 | comparing by militia count is a consistent comparator |
| AffiliationLosses.WithoutAbsentClaim | app/affiliation_losses/page.tsx:84 | filtering out a claim no row has removes nothing |
| AffiliationLosses.UnaffiliatedFilterKeepsAll | app/affiliation_losses/page.tsx:83-84 | the "Unaffiliated" filter is a no-op, since that label is not among the six |
| AffiliationLosses.PermutationBalanced | app/affiliation_losses/page.tsx:83-85 | reordering rows keeps every row balanced |
| AffiliationLosses.MilitiaSortCorrect | app/affiliation_losses/page.tsx:85 | ordering a balanced summary by militia count gives a balanced reordering, sorted by militia, with equal-militia rows in their original order |
| AffiliationLosses.LossSummaryCorrect | app/affiliation_losses/page.tsx:55-87 | six rows, a permutation of the per-label summary, ordered by militia count, rows with equal militia count in label-list order, all balanced |
| AffiliationLosses.RowPerGroup | app/affiliation_losses/page.tsx:67-81 | every label keeps its own row, counting exactly the records credited to it by classification |
| LabelLayout.InitialOffsets | app/affiliation_losses/page.tsx:123-128 | one anchor per slice, 1.1 radii to the right when the slice's mid angle is below pi and to the left otherwise; consecutive anchors are 20 apart plus the centroids' difference; the first is 10·n above its centroid |
| LabelLayout.SweptProperties | app/affiliation_losses/page.tsx:131-139 | after the sweep every label sits at least 20 below the previous one, x and the first label are unchanged, and no label moves up |
| LabelLayout.WellSpacedIncreasing | app/affiliation_losses/page.tsx:132-136 | spaced labels are strictly increasing in y |
| LabelLayout.SweptWellSpacedUnchanged | app/affiliation_losses/page.tsx:134 | already spaced labels are left where they are |
| LabelLayout.SweptIdempotent | app/affiliation_losses/page.tsx:131-139 | a second sweep changes nothing |
| LabelLayout.SweptIsLeast | app/affiliation_losses/page.tsx:131-139 | the sweep moves labels no further than needed: any spaced placement that moves no label up is at or below it |
| LabelLayout.InitialSpreadNeedsNoSweep | app/affiliation_losses/page.tsx:123-141 | when the centroids do not rise from slice to slice, the initial anchors are already spaced and the sweep keeps them |
| LabelLayout.AdjustLabelPositions | app/affiliation_losses/page.tsx:131-139 | the in-place pass yields exactly the swept positions: spaced, x and first label kept, no label moved up |
| Losses.OpenLossRows | app/civilian_losses/page.tsx:53-77 | the open-set rows are the distinct texts in first-appearance order, each total the text's occurrences, balanced, the whole total in the civilian column for a text with a marker and in the militia column otherwise |
| CivilianLosses.LossSummaryCorrect | app/civilian_losses/page.tsx:53-79 | one row per distinct trimmed non-blank affiliation in first-appearance order; total = number of records carrying it; balanced; the whole count in the civilian column for texts with a marker, in the militia column otherwise |
| CivilianLosses.BlankAffiliationIgnored | app/civilian_losses/page.tsx:56-59 | a record with a missing or blank affiliation adds no row and changes no count |
| CivilianLosses.PieValuesCoverPresent | app/civilian_losses/page.tsx:94-100 | the two pie values together equal the number of records with a non-blank affiliation |
| Verdicts.VerdictsCorrect | app/verdicts/page.tsx:51-70 | `generateVerdicts`: rows are the distinct trimmed non-blank verdicts in first-appearance order, each counting the records carrying it, adding up to the records with a verdict |
| Verdicts.BlankVerdictIgnored | app/verdicts/page.tsx:55-56 | a record with a missing or blank verdict changes nothing |
| Verdicts.TwoCombatantsOneCivilian | app/verdicts/page.tsx:54-67 | the trimmed verdicts "Combatant", "Combatant", "Civilian" count as Combatant: 2 then Civilian: 1, in order of first appearance |
| Filtering.ApplyFilters | app/page.tsx:42-49 | the filtered table is an order-preserving subsequence of the data in which every record passes both drop-downs |
| Filtering.ApplyFiltersCounts | app/page.tsx:43-47 | every copy of a passing record is kept and no copy of a failing one |
| Filtering.ApplyFiltersMaximal | app/page.tsx:43-47 | any passing subsequence of the data is a subsequence of the table |
| Filtering.NoFiltersShowsAll | app/page.tsx:21-24 | with both drop-downs on "All" (the initial state) the whole data set is shown |
| Filtering.NarrowingFiltersFiltered | app/page.tsx:43-47 | a narrower selection can be applied to the already filtered table, and shows a subsequence of it |
| Filtering.ApplyFiltersIdempotent | app/page.tsx:43-47 | filtering the filtered table again changes nothing |
| Filtering.FiltersCompose | app/page.tsx:44-46 | both drop-downs at once equal filtering by affiliation and then by verdict |
| Filtering.ClearingAFilterWidens | app/page.tsx:42-53 | setting one drop-down back to "All" never hides a row: the table before is a subsequence of the table after |
| Filtering.HandleFilterChange | app/page.tsx:51-53 | `handleFilterChange` sets the named drop-down and leaves the other as it was |
| Filtering.PaddedValueHidden | app/page.tsx:44 | the filter compares untrimmed text: a record reading " Hamas" is hidden under "Hamas", though the aggregations count it as "Hamas" |
| Filtering.OptionValuesCorrect | app/page.tsx:69 | the options list each raw value once, offer every record's value and nothing else, in first-appearance order |
| Filtering.SelectingAnOptionShowsARecord | app/page.tsx:61-85 | choosing any non-empty option of one drop-down, with the other on "All", leaves at least one record shown |
| Timeline.DatedCounts | app/timeline/page.tsx:59-63 | `claimsByDate` keeps one (date, claim) pair per record whose date parses, each pair as often as records give it |
| Timeline.DatedFromRecords | app/timeline/page.tsx:60-63 | every pair comes from a record whose date parses to it and whose claim it carries |
| Timeline.RollupDates | app/timeline/page.tsx:68-73 | the rollup has one group per distinct date, in order of first appearance |
| Timeline.RollupClaims | app/timeline/page.tsx:68-73 | each date's group is the count map of that date's claims, in first-appearance order |
| Timeline.ClaimsOnCount | app/timeline/page.tsx:70-72 | a claim's count within a date is the number of pairs with that date and claim |
| Timeline.RollupTotal | app/timeline/page.tsx:68-73 | every pair is counted exactly once across all groups |
| Timeline.RollupBars | app/timeline/page.tsx:68-73 | within each date's group every claim appears once, counted by its (date, claim) pairs, and every claim paired with that date has a bar |
| Timeline.TimelineCorrect | app/timeline/page.tsx:59-73 | one group per distinct parsed date; within it one bar per distinct claim, and a bar for every claim some record with that date carries, counting exactly the records with that date and claim (so never zero); the bars add up to the records whose date parses |
| Timeline.MaxCount | app/timeline/page.tsx:82 | the inner `d3.max`: none for no bars, otherwise a bar's count bounding all of them |
| Timeline.YMax | app/timeline/page.tsx:81-82 | the y-domain top is the largest count of any bar, and is undefined exactly when there are no bars |
| Timeline.YMaxDefinedIff | app/timeline/page.tsx:81-82 | the y-domain top exists exactly when some record's date parses |
| Timeline.BarsHaveColors | app/timeline/page.tsx:86-87 | the colour domain lists each claim once and every bar's claim is in it |

## Left out

- Fetching the CSV files, Papa Parse, React state and effects, console logging and the error path of `fetch`: I/O and framework plumbing. The model starts from the parsed records.
- All D3 rendering: scales, axes, bar and arc geometry, colours, tooltips and legend layout. The timeline's bar offsets and widths are left out too. Only the values these are drawn from are modelled.
- The organizations and verdicts bar-chart y domains (`d3.max` of the totals or counts). They are plain maxima and are modelled only for the timeline.
- Percent labels (`toFixed(1)` of a ratio), including the division by a zero total: floating-point formatting.
- `d3.timeParse("%d/%m/%Y")` is a parameter `parse: string -> Option<D>`. Calendar parsing is not modelled. Dates group by equality of the parsed values, as d3 groups `Date` keys by their time value.
- Timeline.TimelineCorrect: describes the rollup for any parser, not for the `%d/%m/%Y` format in particular, because the parser is a parameter.
- Organizations.OrientClaimsCorrect: orders keys by code point. `localeCompare` uses locale collation, which is not modelled, so the stated order is that of plain code points. It also has the same `Object.prototype` gap as Verdicts.VerdictsCorrect.
- Organizations.SortedTallyAscending: same code-point stand-in for `localeCompare` as above.
- Tallies.TallyKeys: states plain first-insertion order and a row for every distinct value. The pages count into plain `{}` objects (app/verdicts/page.tsx:51-63, app/organizations/page.tsx:65-77, app/civilian_losses/page.tsx:53-73). There, integer-like keys (such as "2023") are listed first in numeric order. A value naming an inherited `Object.prototype` member ("constructor", "toString", "valueOf", "hasOwnProperty", "__proto__", and so on) finds that member truthy, so no own entry is created and `Object.values` shows no row for it. Neither quirk is modelled.
- Verdicts.VerdictsCorrect: promises a row for every distinct verdict, including one spelled like an `Object.prototype` member, which the page would drop; see Tallies.TallyKeys.
- CivilianLosses.LossSummaryCorrect: the same `Object.prototype` gap as Verdicts.VerdictsCorrect.
- LabelLayout.AdjustLabelPositions: works on exact reals rather than IEEE doubles. The slice centroids and the `midAngle < π` test are inputs (`centroids`, `onRight`) because the arc geometry is not modelled.
- Losses.FixedLossCounts: rows are keyed by list position, not by the label text. The two are the same for the label lists the pages use, which hold no label twice.
- Filtering.OptionValuesCorrect: an `undefined` cell is offered as a `None` option. What the browser makes of an `<option>` whose value is `undefined` is not modelled.
- The home page's table markup, striped rows and "No data available" row, the page layout (app/layout.tsx) and hooks/useCsvData.ts are not part of this model.
