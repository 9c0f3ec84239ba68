# CEOP patient-satisfaction dashboard: the metrics engine in Dafny

The CEOP dashboard reads the answers of a patient-satisfaction survey from a
spreadsheet and shows them as metrics. Each answer has a reception desk, a
timestamp, a 0..10 service rating, a 0..10 recommendation rating and a
comment. The metrics are a Net Promoter Score with its category, the
promoter, neutral and detractor shares, a histogram of grades, mean ratings
per hour of the day and per month, and the headline means. The user can
narrow all of them to one month and one reception.

This project models that engine as written in `DASHBOARD/ceop_dashboard.py`,
one module per part:

- `Text`: the bits of Python string behaviour the code relies on.
  - `'%02d'`, `strftime('%Y')` and `str(int)`.
  - `str.split` on one character.
  - Code-point order of strings, with lemmas that it is a strict total order.
- `Survey`: the sheet and the normalised evaluation record. Also row
  selection by a mask (`df[mask]`), which gives an order-preserving
  subsequence.
- `Normaliser`: the positional column mapping of `ler_dados_google_sheets`.
  Column k of the sheet feeds a field only when the sheet has more than k
  columns. Parsing turns failures into missing values, and the calendar
  columns are derived from the timestamp.
- `Periods`: the "YYYY-MM" period keys and the Portuguese labels of the
  period selector. It covers `converter_periodo_para_formato`, the label
  round trip, the current month's label and the short chart labels.
- `Catalogue`: `obter_periodos_disponiveis`. The distinct keys are sorted
  newest first by an in-place insertion sort on an array. The labels are
  appended in a loop, the current month is inserted, and the two sentinels
  go in front. This module also holds the sort failure recorded under
  Findings.
- `Filters`: `filtrar_por_periodo`, the reception filter of `main`, and the
  two applied in turn to the selector's entry.
- `Nps`: `calcular_nps`, the three percentage functions and
  `categoria_de_nps`, in exact real arithmetic.
- `Distribution`: `calcular_distribuicao_notas`.
- `Trends`: the headline means and their fallback to 0, and
  `calcular_tendencia_diaria`. Also the monthly evolution chart.

The model treats some parts of the system as parameters:

- The clock (`datetime.now()`) is a `now: DateTime` parameter.
- The outcome of the spreadsheet read is a `ReadOutcome` value.
- The pandas parsers `pd.to_datetime` and `pd.to_numeric` are opaque
  functions from a cell's text to an optional value.

Ratings are `real`, so a half grade such as 6.5 is representable.

Two behaviours of the code are easy to misread:

- A reception cell holding an empty text is not missing. `fillna` leaves it
  as `""`, so the reception is not guaranteed to be non-empty.
- A non-empty sheet in which no timestamp parsed gives the selector
  `["Atual", "Todos", <current month>]`, not `["Todos"]`. The test at line 131
  only looks at emptiness and at the presence of the `ano_mes` column.

## Model

| member | source | states |
|---|---|---|
| Text.Pad2 | DASHBOARD/ceop_dashboard.py:156 | `'%02d'` of 0..99 is two decimal digits that read back as the number |
| Text.Pad4 | DASHBOARD/ceop_dashboard.py:86 | `%Y` of a year is four decimal digits that read back as the year |
| Text.DecimalOfFourDigits | DASHBOARD/ceop_dashboard.py:156 | for a four-digit year, `str(ano_atual)` and `%Y` write the same text |
| Text.SplitInTwo | DASHBOARD/ceop_dashboard.py:149 | `split` on a separator that occurs once, in neither part, gives back exactly the two parts |
| Text.LexLessTransitive | DASHBOARD/ceop_dashboard.py:136 | the order `list.sort` uses on strings is transitive |
| Text.LexLessTotal | DASHBOARD/ceop_dashboard.py:136 | of two different strings one always sorts first |
| Survey.KeyOf | DASHBOARD/ceop_dashboard.py:86 | `ano_mes` is seven characters: the four-digit year, '-', the two-digit month |
| Survey.Present | DASHBOARD/ceop_dashboard.py:190 | dropping missing ratings keeps exactly the present values, never more than the input |
| Survey.PresentKeepsMultiplicity | DASHBOARD/ceop_dashboard.py:190 | each present value is kept as many times as it occurs in the column |
| Survey.Where | DASHBOARD/ceop_dashboard.py:118 | `df[mask]` keeps exactly the rows that match, in their original order |
| Survey.WhereKeepsMultiplicity | DASHBOARD/ceop_dashboard.py:118 | `df[mask]` keeps a matching row as many times as it occurs and drops every other row |
| Survey.SubsequenceTransitive | DASHBOARD/ceop_dashboard.py:348-353 | filtering a filtered frame still keeps rows in their original order |
| Normaliser.Coerce | DASHBOARD/ceop_dashboard.py:76-80 | a blank cell becomes missing; a filled cell becomes exactly what the parser makes of its text, a value or missing (`errors='coerce'`) |
| Normaliser.RecordOf | DASHBOARD/ceop_dashboard.py:48-86 | column k is read only when the sheet has more than k columns; a missing reception becomes 'Não informado'; a present timestamp or rating cell is parsed into its field and a blank one is missing; the comment is copied when its column exists, else ""; the derived columns agree with the timestamp |
| Normaliser.Normalise | DASHBOARD/ceop_dashboard.py:46-86 | one normalised record per sheet row, row i being the normal form of sheet row i, all well formed |
| Normaliser.LoadSurvey | DASHBOARD/ceop_dashboard.py:24-93 | a failed read or an empty sheet gives no rows; otherwise one record per row |
| Normaliser.DerivedColumns | DASHBOARD/ceop_dashboard.py:83-86 | `ano`, `mes` and `ano_mes` are missing exactly when the timestamp is, and `ano_mes` is the zero-padded year and month |
| Periods.MonthTables | DASHBOARD/ceop_dashboard.py:173-178 | the inverse month table undoes the forward one, and no month name or number holds '/' or '-' |
| Periods.KeyOfIsKey | DASHBOARD/ceop_dashboard.py:86 | every derived `ano_mes` is a well-formed key with a month in the month table |
| Periods.ConvertLabel | DASHBOARD/ceop_dashboard.py:168-185 | "Todos" and "Atual" come back unchanged; any other entry has no key exactly when it does not split into two parts on '/' |
| Periods.LabelOfKey | DASHBOARD/ceop_dashboard.py:149-151 | the label of a well-formed key is its month's full name, '/', and its four-digit year |
| Periods.KeyRoundTrip | DASHBOARD/ceop_dashboard.py:149-183 | the selector's label of a well-formed key converts back to that key |
| Periods.LabelsDistinct | DASHBOARD/ceop_dashboard.py:149-151 | different keys get different labels |
| Periods.LabelIsNotSentinel | DASHBOARD/ceop_dashboard.py:149-151 | no key's label is "Todos" or "Atual" |
| Periods.CurrentLabel | DASHBOARD/ceop_dashboard.py:154-156 | the current month's label is the label the catalogue gives the key of now's year and month |
| Periods.CurrentLabelOfKey | DASHBOARD/ceop_dashboard.py:154-156 | the current month's label is the label of the current month's key and converts back to it |
| Periods.ShortLabel | DASHBOARD/ceop_dashboard.py:485-487 | the chart label of a well-formed key is its month's short name, '/', and the third and fourth characters of its year |
| Periods.ShortLabelOfKey | DASHBOARD/ceop_dashboard.py:485-487 | the chart label of a key is the short month name, '/', and the last two digits of the year |
| Periods.KeyOfInjective | DASHBOARD/ceop_dashboard.py:86 | two timestamps share an `ano_mes` only when they share year and month |
| Catalogue.UniqueKeys | DASHBOARD/ceop_dashboard.py:135 | the distinct present keys, each once, exactly those of the data; and whether a missing key occurs |
| Catalogue.SortKeys | DASHBOARD/ceop_dashboard.py:136 | sorts the array in place, ascending or with `reverse` descending, as a permutation of its contents |
| Catalogue.InsertAt | DASHBOARD/ceop_dashboard.py:136 | one insertion step extends the sorted prefix by one element and keeps the contents |
| Catalogue.SortedKeys | DASHBOARD/ceop_dashboard.py:136 | distinct keys come out strictly ordered, with the same elements |
| Catalogue.CatalogueOf | DASHBOARD/ceop_dashboard.py:139-165 | "Atual" and "Todos" first, then the current month's label and every key's label, with at most one entry added to the keys' labels besides the sentinels |
| Catalogue.BuildCatalogue | DASHBOARD/ceop_dashboard.py:139-163 | the loop, the insertion of the current label and the sentinels build the selector's entries |
| Catalogue.LabelsOfDistinctKeys | DASHBOARD/ceop_dashboard.py:147-151 | the labels of distinct keys are distinct and are no sentinel |
| Catalogue.CatalogueSpec | DASHBOARD/ceop_dashboard.py:153-165 | "Atual", "Todos" first; no duplicate; the current month's label present; the data's labels last in key order; every later entry converts to the current or a data key |
| Catalogue.CatalogueLastEntry | DASHBOARD/ceop_dashboard.py:147-163 | the selector's last entry converts back to the oldest data key |
| Catalogue.AvailablePeriods | DASHBOARD/ceop_dashboard.py:121-165 | as written: no rows gives ["Todos"]; present and missing keys together make the sort fail; otherwise the catalogue of the keys sorted newest first |
| Catalogue.AvailablePeriodsCorrected | DASHBOARD/ceop_dashboard.py:131-165 | with missing keys left out before the sort, every sheet gets the catalogue of its present keys, newest first |
| Catalogue.MixedSheetCatalogue | DASHBOARD/ceop_dashboard.py:135-136 | a sheet with one parsed and one unparsed timestamp makes the written code fail, while the corrected one lists that month |
| Catalogue.PeriodKeysAreKeys | DASHBOARD/ceop_dashboard.py:149 | every key found in the data splits into year and month |
| Filters.FilterByPeriod | DASHBOARD/ceop_dashboard.py:97-118 | none, "" or "Todos" keep every row; "Atual" keeps exactly the rows of now's month and year; a key keeps exactly its rows; every kept row as often as it occurs, in the original order |
| Filters.FilterByReception | DASHBOARD/ceop_dashboard.py:351-353 | "Todas" keeps every row, any other choice exactly the rows of that reception, each as often as it occurs, in order |
| Filters.SelectRows | DASHBOARD/ceop_dashboard.py:347-353 | a row is kept exactly when the period filter of the converted entry keeps it and the reception is "Todas" or the row's own; as often as it occurs, in the original order |
| Filters.PeriodFilterNeedsTimestamp | DASHBOARD/ceop_dashboard.py:112-118 | a row without a timestamp is never kept by "Atual" or by a key |
| Filters.CurrentLabelSelectsCurrentMonth | DASHBOARD/ceop_dashboard.py:112-118 | picking the current month's label selects the same rows as picking "Atual" |
| Filters.CatalogueEntrySelects | DASHBOARD/ceop_dashboard.py:339-353 | picking a month from the selector, with every reception, gives exactly `df[df['ano_mes'] == key]` for that month's key |
| Filters.AllEntriesSelectEverything | DASHBOARD/ceop_dashboard.py:108-109 | "Todos" with every reception selects the whole frame |
| Filters.MalformedEntrySelectsEverything | DASHBOARD/ceop_dashboard.py:180-185 | an entry that is not "<month>/<year>" has no key and selects every row |
| Nps.Count | DASHBOARD/ceop_dashboard.py:195-196 | a band count is at most the number of ratings: all of them when all are in the band, none when none is |
| Nps.Percent | DASHBOARD/ceop_dashboard.py:200-222 | 0 with no rating present, otherwise within [0, 100]; 100 when every rating is in the band, 0 when none is |
| Nps.PercentPromoters | DASHBOARD/ceop_dashboard.py:200-206 | 0 with no rating present, otherwise within [0, 100]; 100 when every rating is at least 9, 0 when none is |
| Nps.PercentNeutral | DASHBOARD/ceop_dashboard.py:208-214 | 0 with no rating present, otherwise within [0, 100]; 100 when every rating is from 7 to 8, 0 when none is |
| Nps.PercentDetractors | DASHBOARD/ceop_dashboard.py:216-222 | 0 with no rating present, otherwise within [0, 100]; 100 when every rating is at most 6, 0 when none is |
| Nps.NpsOf | DASHBOARD/ceop_dashboard.py:188-198 | 0 with no rating present; always within [-100, 100] |
| Nps.NpsIsDifference | DASHBOARD/ceop_dashboard.py:188-222 | the score is the promoters' percentage minus the detractors' |
| Nps.NpsOfOneBand | DASHBOARD/ceop_dashboard.py:188-198 | only promoters give 100, only detractors -100, only neutral ratings 0 |
| Nps.BandsPartition | DASHBOARD/ceop_dashboard.py:195-214 | whole-number ratings fall in exactly one of the three bands |
| Nps.PercentagesSum | DASHBOARD/ceop_dashboard.py:200-222 | for whole-number ratings the three percentages add up to 100, and never to more |
| Nps.HalfGradeInNoBand | DASHBOARD/ceop_dashboard.py:195-222 | a 6.5 counts in every total but in no band, so it pulls the score towards 0 |
| Nps.CategoryOf | DASHBOARD/ceop_dashboard.py:265-272 | Excelente from 75, Bom from 50 below 75, Regular from 0 below 50, Crítico below 0 |
| Nps.CategoryMonotone | DASHBOARD/ceop_dashboard.py:265-272 | a higher score never gets a worse category |
| Distribution.CountGrade | DASHBOARD/ceop_dashboard.py:228-229 | a grade's count never exceeds the number of rows |
| Distribution.Histogram | DASHBOARD/ceop_dashboard.py:224-237 | eleven rows, row g for grade g, no count above the number of rows |
| Distribution.GradeDistribution | DASHBOARD/ceop_dashboard.py:224-237 | eleven rows, grade i in row i with the counts of service and recommendation ratings equal to i |
| Distribution.HistogramTotal | DASHBOARD/ceop_dashboard.py:224-237 | each column adds up to the rows whose rating is a whole number from 0 to 10, at most the number of rows |
| Distribution.HalfGradeNotCounted | DASHBOARD/ceop_dashboard.py:228-229 | a 6.5 rating is in no row of the histogram |
| Trends.Mean | DASHBOARD/ceop_dashboard.py:367-368 | the mean is missing exactly when no value is present |
| Trends.MeanBounds | DASHBOARD/ceop_dashboard.py:367-368 | the mean lies within any bounds of the present values |
| Trends.MeanIgnoresMissing | DASHBOARD/ceop_dashboard.py:255-256 | a missing rating inserted anywhere in a column does not change its mean |
| Trends.HeadlineMean | DASHBOARD/ceop_dashboard.py:367-375 | 0 when no rating is present, otherwise the mean |
| Trends.HeadlineMeanInScale | DASHBOARD/ceop_dashboard.py:367-375 | with ratings from 0 to 10 the headline mean is from 0 to 10 |
| Trends.HourLabel | DASHBOARD/ceop_dashboard.py:251 | the hour label is five characters ending in ":00" |
| Trends.HourNumberOfLabel | DASHBOARD/ceop_dashboard.py:260 | `hora_num` read from an hour's label is that hour |
| Trends.HoursFrom | DASHBOARD/ceop_dashboard.py:251-261 | the hours some timestamp falls in, each once, ascending |
| Trends.BucketOf | DASHBOARD/ceop_dashboard.py:251-257 | an hour's bucket reads back as that hour, and a mean is missing exactly when no row of that hour has that rating |
| Trends.HourlyTrend | DASHBOARD/ceop_dashboard.py:239-263 | no rows for an empty frame or one without a timestamp; otherwise a bucket for every hour some timestamp falls in and no other row, ordered by hour number |
| Trends.MonthlyEvolution | DASHBOARD/ceop_dashboard.py:464-487 | no points without a timestamp; otherwise one point per present `ano_mes`, ascending, with its rows' means and short label |

## Left out

- Reading the spreadsheet: the Google Sheets connection, `conn.read()` and
  the 30-second cache (lines 22-29) are foreign I/O. Their outcome is the
  `ReadOutcome` parameter of `Normaliser.LoadSurvey`.
- The parsing rules of `pd.to_datetime` and `pd.to_numeric`: they are
  library code. The model takes them as opaque functions and keeps only the
  outcome, a value or missing, with a missing cell always missing.
- `mes_nome` (line 85) and the sidebar's `%B` text (line 359): they depend
  on the system locale.
- The list of receptions offered in the sidebar (line 332): the model takes
  any selected reception string.
- Everything drawn with Streamlit and Plotly: the header, logo, cards,
  charts, `int(round(nps))`, the comment table and its colours. Also the
  auto-refresh loop (lines 594-621) and `run_dashboard.py`, which only
  launches the server and a browser.
- Separate clock readings: the source calls `datetime.datetime.now()` once
  for the month and once for the year, in `filtrar_por_periodo` (lines
  113-114) and in `obter_periodos_disponiveis` (lines 154-155), and the two
  functions run at different moments of one script run (lines 340 and 349).
  The model takes a single `now` for all of them. Across a month or year
  boundary the source can read two different months, so the selector's
  current label and the "Atual" filter can disagree; the model, and with it
  `Filters.CurrentLabelSelectsCurrentMonth`, does not cover that case.
- Floating point: percentages and means are exact reals, with no IEEE
  rounding.
- Years outside 1000..9999: a pandas timestamp always has a four-digit year,
  so `Survey.Year` is limited to these years.
- The check for a missing `ano_mes` column (line 131): the normaliser always
  adds that column to a non-empty frame. The frame without it is empty, and
  the model treats that case as having no rows.
- Catalogue.SortKeys: the sort is an insertion sort, not Timsort. The keys
  are distinct strings in a total order, so stability does not matter and
  the result is the same.
- Trends.HourlyTrend: the model enumerates the hours 0..23 instead of
  grouping by label and sorting by `hora_num`. The labels are zero-padded,
  so the result has the same buckets in the same order.
- Trends.MonthlyEvolution: the missing-key branch of the label lambda
  (line 486) is not modelled. `groupby` has already dropped the missing key,
  so that branch is never reached.

## Findings

| source | as written | input that shows it | evidently intended | confidence | as-written member | corrected member |
|---|---|---|---|---|---|---|
| DASHBOARD/ceop_dashboard.py:135-136 | the distinct `ano_mes` values, which hold NaN when some timestamp did not parse, are sorted directly; comparing a key with NaN raises `TypeError` before the NaN guard at line 148 runs | a sheet with one answer whose timestamp parses and one whose timestamp does not (`Catalogue.MixedSheet`) | skip the missing key, as the guard at line 148 intends, and list the present periods newest first | not executed | Catalogue.AvailablePeriods, Catalogue.MixedSheetCatalogue | Catalogue.AvailablePeriodsCorrected |
