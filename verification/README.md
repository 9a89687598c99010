# StockRevenueLab decision logic in Dafny

StockRevenueLab is a set of Streamlit dashboards about Taiwanese listed
companies. They relate each company's monthly revenue growth (year-on-year
or month-on-month) to its annual stock return. Most of the code builds SQL,
runs it and draws charts. This project models the deterministic rules
inside that code, with query results given as sequences of records:

- **Return buckets** (`buckets.dfy`). The close-price classifier of the
  main heatmap has 22 buckets: ten-point steps below 0% and hundred-point
  steps up to 1000%. The maximum-return page (year high against year open)
  has 11 buckets. Each is a first-match SQL `CASE` for the label and a
  second `CASE` for `bin_order`.
- **Report calendar** (`report_calendar.dfy`):
  - Minguo years (Gregorian − 1911).
  - `YYY_MM` report keys and their text order.
  - The report-year filters of every page.
  - The announcement base date: the 10th of the month after the report month.
- **Main dashboard** (`dashboard.dfy`):
  - The statistic dispatch and its fallback.
  - The positive share and the two coefficients of variation.
  - The worst falling and best rising bucket quoted in the AI prompt.
  - The falling/rising stock totals.
  - The "research sample" count at the top of the page.
  - The loop that builds the prompt's summary table.
- **Timing lab** (`timing.dfy`):
  - The first-crossing ("spark") rule.
  - The five day windows around the announcement date.
  - The five-bucket distribution summary, built by a loop.
  - The advanced statistics, with their significance labels, and the loop collecting them per stage.
  - The interquartile outlier filter.
- **Probability lab** (`probability.dfy`):
  - Hit counting in a growth band `[low, high)`.
  - Grouping stocks by hits, with per-group rates. The SQL query is a specification function; the Python fallback loop is a method proved equal to it, up to its one documented difference.
  - Annual returns may be NULL: such a stock counts in its group's size and in the rates' denominators, but the average, median, extremes and deviation skip it.
  - The expected-value scores.
  - The multi-year return lookup.

Shared vocabulary lives in `common.dfy` (optional values for SQL NULL and
pandas NaN, sums, counts, percentages) and `text.dfy` (decimal text,
zero padding, code-point order of text, substring search, `SPLIT_PART`).

Floating-point statistics are not computed. Medians, standard deviations,
quantiles, skewness and kurtosis enter as given values (`GivenMoments`) or
as function parameters (`medianOf`, `stdOf`). The `:.1f`-style formatting
enters as a parameter `fmt`.

## Model

| member | source | states |
|---|---|---|
| Common.PresentExact | pages/timing_lab.py:59 | a value survives `dropna` exactly when the column holds it |
| Common.PresentAppend | pages/timing_lab.py:43 | `dropna` works entry by entry: it keeps the present values in order and with their multiplicity |
| Common.PresentMissing | pages/probability.py:145-151 | a column has a missing value exactly when dropping the missing values shortens it |
| Common.Percent | pages/probability.py:147-148 | a share of a non-empty whole lies in [0, 100]; it is 100 exactly when every item counts and 0 exactly when none does |
| Common.PercentMonotone | pages/probability.py:84-85 | a larger count of the same group is a larger percentage |
| Common.CountAboveAntitone | pages/probability.py:84-85 | a higher return threshold counts no more stocks, so the double rate (>100) never exceeds the win rate (>20) |
| Common.TailsDisjoint | pages/timing_lab.py:84-85 | values below −5 and values above 5 are disjoint, so left tail + right tail ≤ data points |
| Common.Mean | pages/timing_lab.py:236-240 | `AVG` over no rows is NULL, and over any row is present |
| Text.BeforeDot | pages/probability.py:70 | `SPLIT_PART(symbol, '.', 1)` is the longest dot-free prefix of the symbol |
| Text.BeforeDotOfTicker | pages/probability.py:70 | a ticker `id.suffix` splits back to its stock id `id` |
| ReportCalendar.PageYearWindows | app.py:105-106 | for a page year g and its Minguo year g − 1911, the heatmap and hit filters keep exactly December of g − 1 and January to November of g, and the timing target is the months of g |
| ReportCalendar.KeyOrder | app.py:230 | zero-padded `YYY_MM` keys are equal, and sort as text, exactly as their (year, month) pairs do |
| ReportCalendar.HeatmapWindowExact | app.py:205-214 | the heatmap filter (`= prev_12`, or `LIKE 'y_%'` and `< 'y_12'`) keeps exactly last December and January to November; pages/11_app_high.py:164-171 repeats this filter |
| ReportCalendar.HitWindowExact | pages/probability.py:62-65 | the hit filter's `<= 'y_11'` keeps exactly the same months as the heatmap's `< 'y_12'` |
| ReportCalendar.TimingRowsExact | pages/timing_lab.py:213-224 | the first-crossing query reads the whole target year plus last December, but takes events only from the target year |
| ReportCalendar.ReportYearHasTwelveReports | app.py:206-214 | the report year is twelve keys in strictly increasing order, and a key is one of them iff the heatmap filter keeps it |
| ReportCalendar.BaseDateIsNextMonthTenth | pages/timing_lab.py:217-220 | the base date is a valid date on the 10th, exactly one month after the report month, with December rolling into January of the next year |
| ReportCalendar.BaseDateTextIsIso | pages/timing_lab.py:217-220 | both branches of the date text spell that base date as ISO `YYYY-MM-DD` |
| Buckets.ReturnPct | app.py:150 | for a positive open price the return is non-negative iff the price is at least the open |
| Buckets.ReturnSql | app.py:150 | the SQL return is a value iff both prices are present and the open is non-zero, and then it is the percentage return; it divides by zero iff both are present and the open is 0 |
| Buckets.CloseBinExact | app.py:178-201 | every return gets exactly one `bin_order` in 0..21: 0 is r ≤ −100, 1 is −100 < r < −90, then half-open ten-point buckets up to 0, hundred-point buckets up to 1000, and 21 is r ≥ 1000 |
| Buckets.CloseBinMonotone | app.py:178-201 | a larger return never gets a lower `bin_order` |
| Buckets.CloseLabelsAgree | app.py:151-201 | the label `CASE` and the order `CASE` pick the same bucket |
| Buckets.DetailLabelsAgree | app.py:672-697 | the detail query labels every return exactly as the heatmap query does |
| Buckets.CloseLabelPrefix | app.py:153-175 | the two-digit prefix of each label is its `bin_order` |
| Buckets.CloseLabelOrder | app.py:151-201 | sorting labels as text sorts buckets by `bin_order` |
| Buckets.CloseLabelDirection | app.py:153-175 | a label contains 下跌 iff its bucket is 0..10, and contains 上漲 iff its bucket is 11..21 |
| Buckets.CloseCaseAsWritten | app.py:150-201 | the unfiltered classification: a present return gets its bucket, a NULL return takes the `ELSE` bucket 21, and a zero open fails the query |
| Buckets.NullCloseLandsInTopBin | app.py:175-200 | a stock with a missing year-close price is classified as "21. 上漲1000%以上", a bucket whose interval excludes a 0% return |
| Buckets.ClassifyCloseRow | app.py:150-201 | with the row filter applied, a row is classified iff both prices are present and the open is positive, into the bucket whose interval holds its return and with that bucket's label |
| Buckets.FilteredCloseAgrees | app.py:150-201 | on every row the filter keeps, the filtered classification equals the one the query computes |
| Buckets.HighBinExact | pages/11_app_high.py:145-157 | every maximum return gets exactly one `bin_order` in 1..11: 1 is r < 100 (negatives included), k in 2..10 is [100(k−1), 100k), 11 is r ≥ 1000 |
| Buckets.HighBinMonotone | pages/11_app_high.py:145-157 | a larger maximum return never gets a lower `bin_order` |
| Buckets.HighLabelsAgree | pages/11_app_high.py:130-157 | the label `CASE` and the order `CASE` pick the same bucket |
| Buckets.HighLabelPrefix | pages/11_app_high.py:131-142 | the two-digit prefix of each label is its `bin_order` |
| Buckets.HighLabelOrder | pages/11_app_high.py:130-157 | sorting labels as text sorts buckets by `bin_order` |
| Buckets.HighLabelsRise | pages/11_app_high.py:131-142 | every maximum-return label contains 上漲 and none contains 下跌 |
| Buckets.ClassifyHighRow | pages/11_app_high.py:129-162 | a row is classified iff open and high are present and the open is positive, into bucket 1..11 holding its return and with that bucket's label |
| Buckets.HighAtLeastOpen | pages/11_app_high.py:145-147 | a year high at or above the open gives a non-negative return, and bucket 1 holds exactly returns below 100% |
| Dashboard.SelectAggregate | pages/11_app_high.py:87-121 | whenever the dispatch falls to the average, it prints the label 平均值 |
| Dashboard.SelectNamedMethod | app.py:109-140 | each of the eight named statistic methods selects its own aggregate and its own label |
| Dashboard.UnknownMethodIsAverage | app.py:141-143 | any other method name selects the average, labelled 平均值 |
| Dashboard.SidebarOffersEveryMethod | app.py:88-98 | the sidebar offers exactly eight names, every aggregate's name among them, and only the average's name gets the fallback label |
| Dashboard.PositiveShareOf | app.py:139 | the positive share lies in [0, 100]; it is 100 iff every value is positive and 0 iff none is |
| Dashboard.HeatmapCoefVar | app.py:119 | a zero mean gives 0; otherwise the value is present iff the deviation is, and is non-negative for a non-negative deviation |
| Dashboard.SummaryCoefVar | app.py:329 | `NULLIF(AVG, 0)` makes the summary's value present iff the mean is non-zero and the deviation is present |
| Dashboard.CoefVarsAgree | app.py:119 | the heatmap's coefficient is 100 times the summary's for a positive mean and −100 times it for a negative mean; at a zero mean one is 0 and the other NULL |
| Dashboard.ExtremeIndex | app.py:348-366 | `idxmin`/`idxmax` on one side: none iff no row is on that side, otherwise the first row on that side with the extreme average return |
| Dashboard.HighlightOf | app.py:348-365 | the worst falling / best rising bucket's name, return and positive rate; "無資料" with zeros when no bucket is on that side |
| Dashboard.HighlightIsExtreme | app.py:348-366 | the worst falling bucket's average is ≤ every falling row's, and the best rising bucket's is ≥ every rising row's |
| Dashboard.SideTotal | app.py:379-380 | one side's stock total never exceeds the total over all rows |
| Dashboard.SidesSplitTotal | app.py:379-380 | on the close-price summary, falling stocks + rising stocks = all stocks |
| Dashboard.SideTotalAllOrNone | app.py:379-380 | a side holding every row counts every stock, and a side holding none counts none |
| Dashboard.MaxCount | app.py:469 | the per-bucket maximum `stock_count` bounds every row and is attained by one |
| Dashboard.TotalSamplesBounds | app.py:469 | the sample total is 0 for an empty query, at least any single row's count and at most the sum of all counts |
| Dashboard.SplitCount | app.py:469 | splitting rows by bucket keeps the sum of the counts |
| Dashboard.TotalSamplesOneMonth | app.py:469 | when each bucket has one row (one report month), the sample total is the plain sum |
| Dashboard.BuildSummaryTable | app.py:368-376 | the loop yields the header line, the rule line, then one line per summary row in row order |
| Dashboard.TableLineIsOneLine | app.py:372-376 | a row whose label and printed values hold no line break adds exactly one line |
| Dashboard.BodyLines | app.py:368-376 | after header and rule, the table has exactly one line per summary row |
| Timing.DistBinExact | pages/timing_lab.py:48-50 | a value is in bucket k iff it lies in k's interval: (−∞,−5), [−5,−1), [−1,1), [1,5), [5,∞) |
| Timing.BinCountsPartition | pages/timing_lab.py:47-50 | the five bucket counts add up to the number of values |
| Timing.DistEntriesExact | pages/timing_lab.py:51-54 | the listed buckets carry their true counts, appear in label order, and every non-empty bucket is listed |
| Timing.ListedCountsCoverData | pages/timing_lab.py:47-54 | the listed counts add up to the number of values |
| Timing.AiSummaryDist | pages/timing_lab.py:41-55 | "無數據" for a column without values; otherwise the non-empty buckets in label order joined by " / " |
| Timing.SkewLabelsMirror | pages/timing_lab.py:92 | skew > 0.5 is right-skewed exactly when its negation is left-skewed; "接近對稱" exactly for −0.5..0.5 |
| Timing.KurtosisLabelsExact | pages/timing_lab.py:89 | "高峰態" iff > 2, "低峰態" iff < −2, "常態峰態" iff within −2..2 |
| Timing.AdvancedStatsOf | pages/timing_lab.py:57-112 | none for fewer than two values; otherwise the data-point count, the mean of the values, the win rate as the share above 0, the tails as the counts below −5 and above 5, the tail ratio (infinite iff no left tail), the CV std/abs(mean)·100 (infinite iff the mean is 0), IQR = q75 − q25, mean − median, the skewness present iff there are at least three values and the kurtosis iff at least four, each significance label from its moment when present and otherwise "接近對稱" / "常態峰態" |
| Timing.TwoValuesNeutralLabels | pages/timing_lab.py:69-92 | with exactly two values the statistics exist and both significance labels are the neutral ones, whatever the moments |
| Timing.CollectAdvancedStats | pages/timing_lab.py:382-386 | the loop collects exactly the stages whose statistics exist |
| Timing.StagesWithStatsExact | pages/timing_lab.py:382-386 | the collected statistics are in stage order, each is its own column's, and every stage with statistics is listed |
| Timing.DetectOutliers | pages/timing_lab.py:187-201 | nothing for fewer than four values; otherwise exactly the rows strictly below Q1 − t·IQR or strictly above Q3 + t·IQR, in row order |
| Timing.OutliersShrinkWithThreshold | pages/timing_lab.py:197-200 | a wider threshold never reports a row a narrower one would not |
| Timing.RawEvents | pages/timing_lab.py:209-214 | the query reads exactly the rows of the target year and last December |
| Timing.SparksFrom | pages/timing_lab.py:215-225 | the reported months are exactly the spark rows' months |
| Timing.NoAdjacentSparks | pages/timing_lab.py:211-223 | a spark is a first crossing: the stock's next row cannot be a spark |
| Timing.SparkMonths | pages/timing_lab.py:222-225 | every spark month is a month of the target year |
| Timing.PreviousDecemberOnlySuppresses | pages/timing_lab.py:213-224 | last December's row is never itself a spark; dropping it changes nothing except that January may then become a spark |
| Timing.WeeklyReturn | pages/timing_lab.py:229-230 | the weekly return exists iff both closes exist and the previous close is non-zero |
| Timing.StageOf | pages/timing_lab.py:236-240 | a day offset falls into some window iff it is within −38..30 |
| Timing.StageWindowsPartition | pages/timing_lab.py:236-240 | the windows [−38,−9), [−9,−3], (−3,4], (4,11], (11,30] are disjoint: an offset is in a window iff that is its one stage |
| Timing.StageAverage | pages/timing_lab.py:236-240 | a stage's average is NULL iff no bar of its window has a return |
| Timing.EventKeptExact | pages/timing_lab.py:245 | `pre_week IS NOT NULL` keeps an event exactly when some weekly bar 9 to 3 days before the base date has a return |
| Timing.StagesShareBars | pages/timing_lab.py:236-240 | every bar with a return inside −38..30 is averaged into exactly one stage |
| Probability.HitCount | pages/probability.py:59-67 | a stock's hits never exceed its rows |
| Probability.HitTableExact | pages/probability.py:59-67 | a stock is in the hit table iff it has at least one hit, and its entry is its hit count |
| Probability.HitMonths | pages/probability.py:62-66 | a row is a hit iff it is last December or January–November of the year and its metric lies in [low, high) |
| Probability.JoinedExact | pages/probability.py:69-78 | a sample is joined iff some price row of the page year names a stock of the hit table; it carries that stock's hits and that row's return, NULL included |
| Probability.JoinedAppend | pages/probability.py:74-78 | the join goes row by row: joining two runs of price rows joins each |
| Probability.JoinedHaveHits | pages/probability.py:74-78 | every joined stock has at least one hit |
| Probability.GroupOf | pages/probability.py:79-88 | a group has its hit value, counts all its stocks (at least one), and has 0 ≤ double rate ≤ win rate ≤ 100 |
| Probability.GroupStatsExact | pages/probability.py:81-88 | the rates count the present returns above 20 and above 100 against `COUNT(*)`; the average is the mean of the present returns; median, minimum and maximum exist iff some return is present; the deviation is NULL iff fewer than two are |
| Probability.MissingReturnNeverWins | pages/probability.py:84 | a stock with a NULL return counts in the group size but never as a win, so its group's win rate is below 100 |
| Probability.GroupExtremes | pages/probability.py:82-87 | the minimum and maximum are returns of the group and bound all its present returns, and the average lies between them |
| Probability.GroupsDescending | pages/probability.py:90-91 | the groups are strictly descending in hits, and every stock's hit value has a group |
| Probability.EveryStockInOneGroup | pages/probability.py:79-91 | the group sizes add up to the number of joined stocks |
| Probability.AltStat | pages/probability.py:151 | the fallback reports the SQL values, except that a single-stock group's deviation is 0 |
| Probability.AltStatOnlyStd | pages/probability.py:140-151 | the fallback's record of a group differs from the SQL one in the deviation only |
| Probability.FetchProbDataAlt | pages/probability.py:135-154 | the fallback loop returns nothing for no rows, and otherwise the SQL path's groups in the same descending order, with 0 for single-stock deviations |
| Probability.ClampStd | pages/probability.py:174 | the clamped deviation is at least 1 and at least the deviation, and is one of the two |
| Probability.RiskAdjustedAsWritten | pages/probability.py:174-175 | as written, a missing deviation scores 0; with a deviation the score is NaN iff the average is, and score × clamped deviation = average |
| Probability.SingleStockScoresDependOnPath | pages/probability.py:174-175 | a single-stock group with a non-zero return gets a risk score of 0 from the SQL path and its return from the fallback path |
| Probability.RiskAdjusted | pages/probability.py:174-175 | the score exists iff the average does, and score × clamped deviation = average, a missing deviation clamped like 0 |
| Probability.RiskAdjustedAgrees | pages/probability.py:174-175 | the correction changes nothing where a deviation is present |
| Probability.RiskAdjustedBounded | pages/probability.py:174-175 | the risk score is no larger in size than the average, and keeps a non-negative average's sign |
| Probability.Scored | pages/probability.py:163-195 | mean − median when both exist; expected score × 100 = avg·count; success score × 100 = avg·win rate; a NaN average makes those NaN; the composite is 0 when avg·count is 0, else three times it is the sum of the three scores, and NaN when the risk score is |
| Probability.ScoreOf | pages/probability.py:163-195 | as written: the risk score is `RiskAdjustedAsWritten`, so a missing deviation leaves the composite defined and equal to (expected + success)/3 |
| Probability.CorrectedScoreOf | pages/probability.py:174-194 | with the corrected risk score the composite exists exactly when the average does |
| Probability.CorrectionOnlyForMissingDeviation | pages/probability.py:174-175 | the correction leaves every score but the risk and composite scores unchanged, and changes nothing where the deviation is present |
| Probability.ZeroAverageScoresZero | pages/probability.py:191-194 | for a non-empty group the expected score is 0 iff the average is 0, and then the composite is 0 |
| Probability.PathsScoreAlike | pages/probability.py:174-175 | with the corrected risk score, the SQL and fallback records of every group score alike |
| Probability.CalculateExpectedValue | pages/probability.py:157-197 | nothing for no groups; otherwise one row per group, in order, with that group's scores as written |
| Probability.YearRows | pages/probability.py:36-45 | every returned row is of a listed stock and a year from target − 2 to target + 1 |
| Probability.YearRowsExact | pages/probability.py:36-45 | a row is returned iff it comes from a price row of a listed stock with a year from target − 2 to target + 1, with the return SQL computes |
| Probability.YearRowsFail | pages/probability.py:40 | some returned row divides by zero iff some selected price row has a zero open and a closing price |
| Probability.MultiYearData | pages/probability.py:27-49 | no query iff the stock list is empty; the query fails iff a selected row has a zero open price; otherwise it returns exactly the selected rows |

## Left out

- Database access is not modelled: the engine, secrets, connections, `read_sql_query` and `st.cache_data`. Query inputs are sequences of records.
- The Streamlit widgets, layout, CSS, Plotly figures, CSV downloads and `datetime.now()` stamps are UI and are not modelled.
- The Gemini call, the ChatGPT/Claude/DeepSeek links and the free text of the AI prompts are foreign services and cosmetic text. Only the data the prompt builder selects and the summary table are modelled.
- Floating-point statistics are given values, not computed: mean, median, standard deviation, skewness, kurtosis, `percentile_cont`/`quantile` interpolation, `round` and `:.1f` formatting. `Percent` and the averages are exact rationals.
- SQL `LIKE` is modelled for the literal report keys only. A `_` is any one character and a `%` is any suffix; stored keys are assumed to be `YYY_MM` with a three-digit year. The keyword filter of the timing query is not modelled.
- Row order of query results is taken as given. `ORDER BY bin_order, report_month` is covered by `CloseLabelOrder`/`HighLabelOrder` and `KeyOrder`, not by sorting.
- `create_stat_summary` in the timing lab (appending description lines) produces display text only and is not modelled.
- The heatmap rows, pivot and per-month aggregates are not modelled beyond `total_samples`.
- `falling_ratio`/`rising_ratio` are not modelled: they divide by `total_samples`, which the page leaves at 0 when the heatmap is empty.
- Probability.Joined: the annual return of a price row is given, NULL or a value. A zero open price, which makes the probability query and its fallback raise, is not modelled.
- Timing.AdvancedStatsOf: the floating-point figures (median, standard deviation, quantiles, skew, kurtosis) are given and otherwise arbitrary, the mean is the exact mean, and `round` is not applied; only the NaN cases of skewness (fewer than three values) and kurtosis (fewer than four) are modelled, as `None` with the neutral labels.
- Dashboard.HighlightOf: a NaN average return, for a bucket without any price, is not modelled.
- Timing.SparkMonths: the rows of each stock are given already sorted by `report_month`. The window `LAG` over all stocks is not modelled.

## Findings

| source | as written | input that shows it | evidently intended | confidence | as-written member | corrected member |
|---|---|---|---|---|---|---|
| app.py:150-201 | the close-price bucketing has no row filter, so a NULL return matches no `WHEN` and falls to `ELSE` | a stock whose `year_close` is NULL is labelled "21. 上漲1000%以上" with `bin_order` 21 | classify only rows with both prices present and a positive open, as pages/11_app_high.py:160-162 does | high, not executed | Buckets.CloseCaseAsWritten, Buckets.NullCloseLandsInTopBin | Buckets.ClassifyCloseRow, Buckets.FilteredCloseAgrees |
| pages/probability.py:174-175 | `max(std, 1)` with a NaN deviation stays NaN, and `NaN > 0` is false, so the risk score is 0 | a single-stock group with return 50: the SQL path (`STDDEV` of one row is NULL) gives a risk score of 0, the fallback path (deviation reported as 0, line 151) gives 50 | clamp a missing deviation like a zero one, so both paths score alike | medium, not executed | Probability.ScoreOf, Probability.SingleStockScoresDependOnPath | Probability.CorrectedScoreOf, Probability.PathsScoreAlike |
