# Course rank-order summary, modelled in Dafny

The repository ranks a survey's courses by perceived benefit. `load_rank_data` reads a
fixed band of spreadsheet columns into a rank table: one column per course, named after
its label, with one optional rank per respondent. `summarize_rankings` turns that table
into a summary. Each course gets the number of present ranks (`n`) and their mean
(`mean_rank`). The courses are stably sorted by mean and numbered 1..k (`final_rank`).

The model has five modules, one file each:

- `wrappers.dfy` (`Wrappers`): `Option` (pandas' NaN is `None`) and `Result`.
- `pystr.dfy` (`PyStr`): Python's argument-less `str.strip()`, with the whitespace set of `str.isspace()`.
- `rank_load.dfy` (`RankLoad`): the post-read part of `load_rank_data`.
  - The layout constants.
  - The row slice, with Python's slicing rule.
  - Label trimming.
  - Numeric coercion, as a pure specification `ExtractRankTable`.
  - The coercion loop, as the method `CoerceColumns`; `LoadRankData` is proved equal to the specification.
- `summarize.dfy` (`Summarize`): `summarize_rankings`.
  - Counts, and means as exact reals.
  - The stable sort, as an insertion sort, with `None` ordered after every defined mean.
  - The final ranks.
- `rank_order.dfy` (`RankOrder`): both steps on the survey's own layout (columns L..S, labels on row 1, answers from row 3), plus two worked examples.

The sheet is a grid of cells (`Num(real) | Text(string) | Empty`). Two things are decided
inside the spreadsheet library, so they are parameters:
- how a text cell parses as a number (`parse`);
- the header string given to a numeric or blank label cell (`HeaderFormat`).

A non-empty text label becomes its own text. An empty text label is read exactly like a blank one and gets the blank-label placeholder.

The model follows the code on these points, where a reader might expect otherwise:
- Labels are only trimmed. They are not split on a `" - "` delimiter.
- All-blank respondent rows are kept and counted as rows, not dropped.
- There is no static column-to-name table.
- A name may be empty after trimming.
- The summary keeps courses that have no present rank. Their mean is undefined, and they sort after every defined mean.

## Model

| member | source | states |
|---|---|---|
| RankLoad.SurveyLayout | src/rank_order.py:13-16 | the band L..S is columns 11..18 (eight courses), labels are row 1, answers start at row 3 |
| RankLoad.PySliceFrom | src/rank_order.py:47 | Python's `s[k:]`: a suffix of `s`, of length `|s|-k` for `0 <= k <= |s|`, empty for larger `k`, the last `-k` elements for negative `k` |
| RankLoad.RespondentRows | src/rank_order.py:39-47 | the respondent rows are a suffix of the sheet lying strictly below the label row |
| RankLoad.ToNumeric | src/rank_order.py:54 | coercion with `errors="coerce"`: a number cell is present with its value, a text cell is whatever the number parser makes of it, and a blank cell is absent |
| RankLoad.RespondentRowsFromDataStart | src/rank_order.py:39-47 | reading with the label row as header, then dropping the rows before the data start, keeps exactly the rows from the data-start index on (none if the sheet is shorter) |
| RankLoad.ExtractRankTable | src/rank_order.py:35-56 | loading fails exactly when the sheet has no label row (MissingLabelRow) or two trimmed labels coincide (DuplicateCourseName); otherwise it yields one column per band column, each as long as the respondent rows |
| RankLoad.HeaderText | src/rank_order.py:50 | `str(col)` of a label: a non-empty text label is its own text; a blank or empty-text label gets the reader's placeholder for its position |
| RankLoad.ExtractedColumn | src/rank_order.py:50-54 | course k is band column k in order: its name is the stripped header string of its label, its i-th value the coerced cell of respondent row i |
| RankLoad.CoerceColumns | src/rank_order.py:52-54 | the column-by-column coercion loop yields the specified table when the names are distinct and fails with DuplicateCourseName otherwise |
| RankLoad.LoadRankData | src/rank_order.py:39-56 | the post-read steps (row slice, label trim, coercion) compute exactly ExtractRankTable |
| PyStr.LeadingSpaces | src/rank_order.py:50 | the count of leading whitespace: everything before it is whitespace, the character at it is not |
| PyStr.TrailingStart | src/rank_order.py:50 | where the trailing whitespace begins: everything from it on is whitespace, the character before it is not |
| PyStr.Strip | src/rank_order.py:50 | the stripped label is no longer than the label and neither starts nor ends with whitespace |
| PyStr.StripCutsSpaces | src/rank_order.py:50 | the stripped label is the slice of the label between a whitespace-only prefix and a whitespace-only suffix |
| PyStr.StripUnique | src/rank_order.py:50 | any slice surrounded by whitespace and with no whitespace at its ends is the stripped label |
| PyStr.StripIdempotent | src/rank_order.py:50 | stripping a stripped label changes nothing |
| Summarize.CountPresent | src/rank_order.py:63 | `n` never exceeds the number of respondent rows |
| Summarize.CountPlusMissing | src/rank_order.py:63 | `n` plus the number of missing values is the number of rows |
| Summarize.MeanRank | src/rank_order.py:64 | the mean is undefined exactly when `n = 0`; otherwise mean times `n` is the sum of the present ranks |
| Summarize.MeanWithin | src/rank_order.py:64 | when every present rank lies in [lo, hi] and `n > 0`, the mean lies in [lo, hi] |
| Summarize.Aggregate | src/rank_order.py:60-65 | a course's summary row keeps the column's name and has `n` at most the column length |
| Summarize.Insert | src/rank_order.py:68 | inserting a row adds exactly that row to the multiset of rows |
| Summarize.SortByMean | src/rank_order.py:68 | the sort returns a permutation of its input |
| Summarize.SortByMeanSorted | src/rank_order.py:68 | the sorted rows have non-decreasing means, with every undefined mean after every defined one |
| Summarize.SortByMeanStable | src/rank_order.py:68 | for every mean value, the rows with that mean appear in the same relative order as in the input |
| Summarize.SortedWithSameGroupsEqual | src/rank_order.py:68 | two mean-ordered sequences that list the rows of every mean in the same order are equal |
| Summarize.StableSortIsSortByMean | src/rank_order.py:68 | any stable ascending sort by mean (pandas' mergesort included) returns exactly SortByMean's result |
| Summarize.SortByMeanNames | src/rank_order.py:68 | sorting permutes the course names |
| Summarize.AssignRanks | src/rank_order.py:71 | row i gets final rank i+1 and keeps its name, `n` and mean |
| Summarize.SummarizeRankings | src/rank_order.py:59-72 | one summary row per course; an empty table gives an empty summary |
| Summarize.FinalRanksDense | src/rank_order.py:68-71 | final ranks are positions plus one: all in 1..k and pairwise distinct, so exactly 1..k |
| Summarize.SummaryIsStableSort | src/rank_order.py:59-72 | the summary without its ranks is the per-course rows, permuted, mean-ordered with undefined last, and in column order within equal means |
| Summarize.SummaryRowsComeFromColumns | src/rank_order.py:60-71 | every summary row carries the name, count and mean of some input column |
| Summarize.SummaryNames | src/rank_order.py:60-68 | the summary's course names are a permutation of the rank table's column names |
| Summarize.UndefinedMeansLast | src/rank_order.py:64-68 | after a course with undefined mean only courses with undefined mean follow |
| RankOrder.SurveyRespondentRows | src/rank_order.py:13-47 | on the survey layout the respondents are the rows from index 3 on; the label row and the row after it are skipped |
| RankOrder.SurveyTable | src/rank_order.py:13-54 | on the survey layout the table has eight courses from columns L..S in order, each with one value per row from index 3 (none when the sheet ends at the label rows), named by its trimmed row-1 label, value i being the coerced cell of row 3 + i |
| RankOrder.SurveyCell | src/rank_order.py:13-54 | on the survey layout a number in column 11 + k of row 3 + i is course k's i-th rank with that value, and a blank cell there is an absent rank |
| RankOrder.UnlabelledSurveyLoads | src/rank_order.py:43-54 | a label row of only blank or empty-text labels loads, as long as the placeholders stay distinct after trimming |
| RankOrder.SurveySummary | src/rank_order.py:13-72 | the survey summary has eight rows ranked 1..8, and no `n` exceeds the number of respondent rows |
| RankOrder.CoercionScenario | src/rank_order.py:52-64 | with ranks [1, blank, "x"] and [2, 3, 4], the first course has n = 1 and mean 1, the second n = 3 and mean 3 |
| RankOrder.TieBreakScenario | src/rank_order.py:59-72 | with means A = 2, B = 1, C = 1 the summary is B (rank 1), C (rank 2), A (rank 3) |

## Left out

- The command line, the input-existence check and the spreadsheet read (`parse_args`, `pd.read_excel`; src/rank_order.py:26-44) are I/O. The model starts from the grid of cells the read produces.
- Cells of columns a short row does not reach are treated as blank. What the reader does when the sheet is narrower than column S is not modelled.
- The spreadsheet library's own header handling is a parameter (`HeaderFormat`). This covers the printed form of a numeric label and the placeholder name of a blank or empty-text label.
- RankLoad.ExtractRankTable: the library renames identical raw labels (`X`, `X.1`) before trimming. The model does not rename them, so for such a sheet it reports DuplicateCourseName where the source goes on with the renamed labels.
- Labels that are distinct as read but equal after trimming make the column lookup in the coercion loop return two columns, and the coercion then raises. The model reports this as DuplicateCourseName.
- RankLoad.ExtractRankTable: a sheet without a label row is reported as MissingLabelRow. What the library does there is not part of this model.
- `pd.to_numeric` on text is the parameter `parse`. Boolean and date cells are not modelled.
- Means are exact reals, not IEEE doubles. NaN is `None`, ordered after every number, as pandas' `na_position="last"` places it.
- pandas' mergesort itself is not modelled. An insertion sort stands in for it, and StableSortIsSortByMean proves that every stable ascending sort gives the same result.
- These parts of `main` (src/rank_order.py:93-117) are output plumbing, so they are not modelled: the chart (`save_chart`, src/rank_order.py:75-90), the CSV export, the reflection text, directory creation and the audit printouts.
