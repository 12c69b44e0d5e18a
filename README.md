# Silay City barangay analytics, modelled in Dafny

This project models the data logic of a Silay City resident-registry web
application. The registry has three collections: senior citizens (OSCA),
persons with disability (PWD/PDAO) and youth (LYDO/SK). Each resident record
carries a free-text barangay label.

The model covers these parts of the application:

- **Grouping.** The MongoDB `$group` / `$sort` stage counts the residents per
  label, including the "Male", "Female" and "Yes" sub-counts, and sorts the
  groups with the null label first. The analytics endpoints then drop falsy
  labels and number the remaining groups 1..k.
- **Reconciliation.** The three map endpoints (PWD, youth, seniors) give each
  of the sixteen hard-coded barangays the counts of one group. The group is
  found by three tiers tried in order: exact label, case-insensitive label,
  then a substring/alias test. A barangay that no tier matches gets zero
  counts. The model writes this reconciler once, generic over the breakdown
  record that the three copies differ in.
- **Youth analytics.** `getYouthAnalytics` matches case-insensitively only,
  then adds a total and a rounded mean.
- **Update helpers.** These are the empty-to-null field cleaning of
  `updatePwd` / `updateYouth`, the parent-name split of `updateSenior`, and
  the status toggle of `editUserStatus`.
- **The OSCA analytics page** (`analytics.js`). Its module-level state is the
  class `OscaTable.Analytics`. The model covers the totals, the rounded mean,
  the highest and lowest barangay, the search box, the page setter, the page
  slice of the table, and the page window and entry range of the pagination
  bar.

The modules follow the source:

- `Options`: JavaScript `null` and truthiness.
- `Text`: `toLowerCase`, `includes`, `trim`, `split(' ')` and `join(' ')`.
- `Numbers`: `Math.round` and `Math.ceil` of a quotient.
- `Grouping`: the aggregation.
- `Reconcile`: the generic three-tier matcher.
- `MapData`: the endpoints built on the reconciler and the canonical list.
- `Records`: the update helpers.
- `OscaTable`: `analytics.js`.

Some choices of representation:

- Labels and optional fields are `Option<string>`. `None` is a missing field
  or `null`. `Some("")` is an empty string.
- The sort order is code-point lexicographic order with `null` first.
- Latitude and longitude are carried unchanged as their decimal spelling.
- In the code `&&`
  binds tighter than `||`, so the `hawaiian` clause is an independent
  condition. A label "Hawaiian Sur" is matched to "Barangay Hawaiian" even
  though neither lower-cased name contains the other
  (`MapData.HawaiianClause`). Only the `poblacion` clause is dead, and that
  holds for this canonical list only (`MapData.PoblacionClauseDead`).

## Model

| member | source | states |
|---|---|---|
| Numbers.RoundDiv | files/assets/js/analytics.js:35 | `Math.round(t / n)` on non-negative integers: `2t - n < 2nr <= 2t + n`, the quotient rounded half up |
| Numbers.RoundDivUnique | controller/controller.js:1425 | only one integer lies in that rounding bracket, so the model's rounding is the only one with it |
| Numbers.RoundDivExamples | controller/controller.js:1425 | 32/16 and 33/16 and 24/16 round to 2, 23/16 to 1 and 0/16 to 0 |
| Numbers.CeilDiv | files/assets/js/analytics.js:137 | `Math.ceil(len / size)`: the least `r` with `size * r >= len` |
| Text.Lower | controller/controller.js:1205 | `toLowerCase` keeps the length and lower-cases each ASCII capital, leaving other characters alone |
| Text.LowerIdempotent | controller/controller.js:1205 | lower-casing twice equals lower-casing once |
| Text.ContainsIff | controller/controller.js:1219-1223 | `includes` holds exactly when the needle occurs at some index |
| Text.MissingChar | controller/controller.js:1219-1223 | a needle with a character the haystack lacks is not included |
| Text.ContainsLonger | controller/controller.js:1219-1223 | a needle longer than the haystack is not included |
| Text.Trim | controller/controller.js:624 | `trim` returns the slice left once the ECMAScript white space on both ends is removed; the result has no white space at either end |
| Text.Split | controller/controller.js:624 | `split(' ')` gives at least one piece and no piece contains the separator |
| Text.SplitCount | controller/controller.js:624 | a split gives one more piece than there are separators |
| Text.JoinSplit | controller/controller.js:624-629 | joining the pieces of a split with the same separator gives the string back |
| Grouping.KeyLessTotal | controller/controller.js:473 | the `$sort: { _id: 1 }` order relates any two different labels (with `KeyLessIrreflexive` and `KeyLessTransitive`: a strict total order, null first) |
| Grouping.GroupSpec | controller/controller.js:466-474 | the grouping is sorted by label, has one group per distinct label of the records and no other, and each group holds the sums of exactly the records with that label |
| Grouping.TallyOfSpec | controller/controller.js:494-496 | the count of a label is the number of records carrying it; `maleCount + femaleCount` and each "Yes" count fit in the count |
| Grouping.GroupCounts | controller/controller.js:1261-1274 | every group of the pipeline has a count at least 1, equal to its records' number, and sub-counts within it |
| Grouping.LabelHasGroup | controller/controller.js:466-474 | every label some record carries has its group |
| Grouping.FilterTruthy | controller/controller.js:476-477 | `filter(r => r._id)` keeps exactly the groups with a non-empty label |
| Grouping.FilterTruthySorted | controller/controller.js:476-477 | filtering keeps the groups sorted |
| Grouping.AnalyticsEntriesSpec | controller/controller.js:502-510 | entries numbered `idx + 1`, names non-empty and strictly ascending, each entry's sums exactly its records', and every non-empty label has its entry |
| Grouping.OscaAnalyticsSpec | controller/controller.js:464-478 | each OSCA entry is numbered by position and counts exactly the seniors labelled with its name |
| Grouping.PdaoAnalyticsSpec | controller/controller.js:488-510 | each PDAO entry is numbered by position, counts exactly the PWDs labelled with its name, and its gender split fits in the count |
| Reconcile.FindFirst | controller/controller.js:1214-1224 | `find` under one tier: the index of the first matching bucket, or none when no bucket matches |
| Reconcile.Resolve | controller/controller.js:1194-1230 | the hit matches in its tier, is the first match of that tier, and no earlier tier has any match; no hit exactly when no tier matches |
| Reconcile.MergeRow | controller/controller.js:1192-1241 | the callback copies name, coordinates and population and takes the counts of the resolved bucket, or zeros |
| Reconcile.ReconcileAll | controller/controller.js:1192 | one row per canonical entry |
| Reconcile.ReconcileSpec | controller/controller.js:1192-1241 | rows in list order with name, lat, lon, population copied; all-zero counts when no tier matches, and otherwise counts copied verbatim from a matching bucket |
| Reconcile.ReconcilePreserves | controller/controller.js:1192-1241 | a property of the counts that the zero record and every bucket have holds in every row |
| Reconcile.FalsyNeverMatches | controller/controller.js:1205-1206 | a null or empty label matches no non-empty name under any tier |
| Reconcile.TierOrder | controller/controller.js:1194-1230 | an exact match always wins; the partial tier decides only when the exact and case-insensitive tiers found nothing |
| MapData.PwdMapDataSpec | controller/controller.js:1148-1241 | sixteen rows in list order; zero counts without a match, else the PWD counts of exactly the records with the chosen label; `maleCount + femaleCount <= pwdCount` |
| MapData.YouthMapDataSpec | controller/controller.js:1252-1363 | sixteen rows in list order; zero or exactly the chosen label's youth sums, within their bounds |
| MapData.SeniorMapDataSpec | controller/controller.js:1445-1526 | sixteen rows in list order; zero or exactly the number of seniors with the chosen label |
| MapData.YouthSummarySpec | controller/controller.js:1404-1425 | one row per listed name with `id = index + 1`; the first case-insensitive match or zero; total is the sum of `lydoCount`; mean rounded, 0 for an empty list |
| MapData.YouthAnalyticsShape | controller/controller.js:1396-1425 | the youth analytics has sixteen rows named as the map list, each within the sub-count bounds |
| MapData.HawaiianClause | controller/controller.js:1222 | "Hawaiian Sur" matches "Barangay Hawaiian" in the partial tier although neither lower-cased name contains the other |
| MapData.PoblacionClauseDead | controller/controller.js:1223 | no canonical name contains "poblacion", so for this list the partial test is the other three clauses |
| MapData.NamesLackPOrC | controller/controller.js:1172-1189 | every canonical name lacks `p`/`P` or `c`/`C` |
| MapData.OneLabelFillsEveryRow | controller/controller.js:1214-1224 | a single bucket labelled "Barangay" fills all sixteen rows, so counts are not conserved |
| MapData.ExactBeatsPartial | controller/controller.js:1194-1224 | with "Barangay" sorted before "Barangay Hawaiian" in the bucket list, the row "Barangay Hawaiian" still takes the exact bucket: the exact tier is tried before the partial one |
| MapData.PartialLabelFirst | controller/controller.js:1214-1224 | "Barangay" sorts before "Barangay Hawaiian" and matches it in the partial tier, so in `MapData.ExactBeatsPartial` the partial bucket really comes first |
| MapData.CaseInsensitiveTier | controller/controller.js:1204-1207 | a label differing only in case is taken by the second tier |
| Records.CleanFields | controller/controller.js:419-423 | the `forEach` loop returns the cleaned body |
| Records.CleanedSpec | controller/controller.js:413-423 | exactly the listed fields that are `''` or undefined become `null`; no other field is added; every other field keeps its value |
| Records.CleanedIdempotent | controller/controller.js:945-949 | cleaning twice equals cleaning once |
| Records.CleanedKeepsFilled | controller/controller.js:420 | a present field that is not `''` (`null`, a non-empty string, a non-string) is kept |
| Records.AddParentName | controller/controller.js:623-643 | with two or more parts of the trimmed name, first and last names are set, the middle name only with more than two parts; otherwise nothing changes; no other key changes |
| Records.FamilyKeysDistinct | controller/controller.js:626-629 | the first, last and middle update paths are distinct |
| Records.NameSplitRoundTrip | controller/controller.js:624-629 | first, middle and last joined by spaces give the trimmed name back; first and last contain no space |
| Records.DoubleSpaceGivesEmptyMiddle | controller/controller.js:624-629 | two spaces between a first and a last name give an empty middle name |
| Records.NextStatus | controller/controller.js:1550 | the next status is always "Active" or "Inactive", and "Active" exactly when the current one is "Inactive" |
| Records.ToggleTwice | controller/controller.js:1550 | toggling twice restores "Active" / "Inactive"; any other status goes to "Inactive" and then cycles |
| OscaTable.TableRowsSpec | files/assets/js/analytics.js:58-66 | each `allData` row keeps key, name and count, takes a missing pension as 0, and `withPension + withoutPension = oscaCount` |
| OscaTable.HighestSpec | files/assets/js/analytics.js:40-47 | the highest barangay is the first entry with the greatest count, or `{ '', 0 }` when every count is 0 |
| OscaTable.LowestScanSpec | files/assets/js/analytics.js:41-50 | the scan stays `Infinity` exactly when no count is positive, else holds the first smallest positive count |
| OscaTable.LowestSpec | files/assets/js/analytics.js:41-54 | the lowest barangay is the first entry with the smallest positive count, or `{ 'N/A', 0 }` |
| OscaTable.MatchingSpec | files/assets/js/analytics.js:196-198 | the filter embeds in `allData` at increasing positions, keeps only rows whose lower-cased name contains the term, and keeps every such row |
| OscaTable.MatchingMembers | files/assets/js/analytics.js:196-198 | a row is kept exactly when it is one of the rows and its lower-cased name contains the term |
| OscaTable.MatchingEmptyTerm | files/assets/js/analytics.js:192-199 | the filter with the empty term keeps every row |
| OscaTable.SearchResultSpec | files/assets/js/analytics.js:189-199 | the search result equals the filter by the lower-cased input, is a subsequence of `allData`, and an empty input restores `allData` |
| OscaTable.TotalPagesSpec | files/assets/js/analytics.js:137 | just enough pages for the rows, and none exactly for an empty list |
| OscaTable.SliceIndex | files/assets/js/analytics.js:104 | a `slice` index is clamped to the length |
| OscaTable.JsSlice | files/assets/js/analytics.js:104 | for `0 <= start <= end`, `slice` is the clamped subsequence, at most `end - start` long |
| OscaTable.Analytics.constructor | files/assets/js/analytics.js:2-20 | the initial values of the module-level variables |
| OscaTable.Analytics.InitializeData | files/assets/js/analytics.js:29-68 | totals, the total without pension, the rounded mean, the highest and lowest barangays, `allData` rows and `filteredData` a copy of them; page number kept |
| OscaTable.Analytics.HandleSearch | files/assets/js/analytics.js:189-203 | `filteredData` becomes the search result, the page becomes 1, nothing else changes |
| OscaTable.Analytics.ChangePage | files/assets/js/analytics.js:179-186 | a page between 1 and the page count is taken, any other request changes nothing |
| OscaTable.Analytics.PageData | files/assets/js/analytics.js:101-104 | at most five rows: `filteredData[(p-1)*5 .. min(p*5, len)]`, or none past the end |
| OscaTable.Analytics.RenderTable | files/assets/js/analytics.js:101-113 | the no-results branch is taken exactly when the page slice is empty |
| OscaTable.Analytics.RenderPagination | files/assets/js/analytics.js:136-176 | `startItem` is 0 or `(p-1)*5+1`; `endItem = min(p*5, len)`; window `startPage = max(1, min(p - 2, totalPages - 4))` to `endPage = min(totalPages, startPage + 4)`, within `1..totalPages`, at most five pages, `min(5, totalPages)` buttons numbered consecutively, containing a valid current page; previous disabled on page 1, next on the last page |
| OscaTable.RangeMatchesPage | files/assets/js/analytics.js:101-105 | on an existing page the table shows exactly rows `startItem..endItem` of the entry range, never an empty page |
| OscaTable.NoResultsPastLastPage | files/assets/js/analytics.js:101-113 | past the last page, or on an empty list, the no-results message shows |

## Left out

- MongoDB, Express, sessions, EJS and bcrypt are foreign I/O. The aggregation result is modelled as a function of the record sequence.
- `sendSms` is left out. It is a network client with timeouts.
- `getSilayBoundary` (a file read) and `getVillages` (static data) are left out.
- `console.log` diagnostics and the exploratory `find` queries before the aggregations are logging only.
- Latitude and longitude are floats. They are carried unchanged as their decimal spelling.
- All percentage strings (`toFixed`, `parseFloat`), the `avgComparison` percentage and the chart code are floating point or DOM work.
- `loadOscaData` is left out: the `fetch` and its 65% / 35% default pension split, which is floating point. `barangayData` is taken as already loaded, as the sequence `Object.entries` lists.
- Duplicate `id` keys in `barangayData` and the integer-key order of `Object.entries` are not modelled.
- The markup of `renderTable` and `renderPagination` and the event handlers are DOM work. Their data is modelled: the page slice, the no-results test, the entry range, the button window, and the disabled flags.
- Count conservation is not claimed, because the code does not keep it. Unmatched labels are dropped, and the partial tier can give one bucket to several rows (`MapData.OneLabelFillsEveryRow`).
- Only the parent-name split of `updateSenior` is modelled. The rest of the `updateObject` construction copies request fields one by one.
- Text.Lower: lower-cases ASCII letters only. `toLowerCase` also maps non-ASCII capitals, and this model does not.
- Text.Split: splits on a single-character separator only, which is all the source uses.
- Records.AddParentName: assumes the name field is a string when present. A truthy non-string would make `trim` throw in the source.
- Records.CleanFields: models `undefined` as an absent key. A key present with the value `undefined` cannot arise from a JSON body.
- OscaTable.Analytics.InitializeData: counts are non-negative integers. Non-numeric or missing `oscaCount` values, which make JavaScript sums `NaN`, are not modelled.
- MapData.YouthSummarySpec: states the rounding bracket for the mean. The mean is also 0 whenever the total is below half the number of rows, not only for an empty list.
