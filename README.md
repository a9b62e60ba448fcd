# Fund temperature: a Dafny model

The repository turns a valuation export from the Lixingren site (one CSV row
per index, with PE/PB values or their historical percentiles) into a table of
index "temperatures" on a 0–100 scale, each with an investment advice. A small
Flask page shows that table. This project models the data side of the system
and proves properties about it:

- **`process_lixingren_csv`** (data_processor.py): the pipeline.
  - It renames vendor columns to canonical ones.
  - It turns percentile cells into fractions.
  - It computes a temperature, either from the percentiles (industry indices
    use PB alone) or with a logarithmic estimator from raw PE/PB.
  - It gives each row an advice band.
  - It drops rows with missing percentiles or a zero temperature.
  - It sorts by attention (descending), category order (ascending) and
    temperature (descending).
- **`index()`** (app.py): the home page.
  - It recomputes the temperature and formats it as a coloured badge.
  - It cleans '=' signs and shows changes as percentages.
  - It applies three row masks.
  - It sorts, then numbers the rows 1..n in a 序号 column.
- **`allowed_file`** (app.py), **`extract_date_from_filename`** and
  **`check_password`** (utils.py).

How it is modelled:

- **Tables.** A DataFrame is a header plus rows of cells (`Missing` for NaN,
  `Text`, `Num`). A column is read at its first occurrence.
- **Exceptions.** An exception that escapes to the top-level `except` (an
  unparseable percentage, a missing key column, a text value reaching a
  numeric comparison) is `None`.
- **Row-wise `apply`.** The pipeline and the page are methods.
  - Row-wise `apply` is `MapEach` or `ApplyEach`, with a loop proved against
    `MapAll` or `Mapped`.
  - A boolean mask is `KeepWhere`, proved against `Filter`.
  - `sort_values` is an insertion sort, `SortBy`, proved to return a sorted
    permutation for any total preorder.
- **Collaborators as parameters** (`Env`): Python's `float()` on strings,
  `math.log10`, the index_categories functions, and the `.2f` and `.1f` number
  formatting.

The page sorts on its 基金温度 column after that column has been replaced by
the badge markup. So the third sort key is the badge text compared as a
string, not the number; `App.DisplayOrder` models it that way.

The logarithmic estimator does not keep the range its comments describe
(data_processor.py:44-57 map PE and PB onto 0–95). For 0 < PB < 0.5 the PB
term `log10(pb + 0.5)` is negative, and so the temperature can be negative.
The model keeps the code's behaviour: `DataProcessor.PbTemperatureNegative`
proves the negative term, and `DataProcessor.FallbackInRange` proves the
range the code actually has.

`to_percentage` (app.py:235-239) tests `num > 1`, not the magnitude of the
value, so a change of -5 is shown as -500.00%. The model keeps this behaviour.

## Model

| member | source | states |
|---|---|---|
| DataProcessor.RenameColumns | data_processor.py:81-98 | every mapped vendor label becomes its canonical name, one of five; every other label is kept in place |
| DataProcessor.CanonicalNamesAreFixed | data_processor.py:81-96 | every image of the mapping is canonical, and each canonical name maps to itself |
| DataProcessor.RenameIdempotent | data_processor.py:98 | renaming an already renamed header changes nothing |
| DataProcessor.WithoutEquals | data_processor.py:108-109 | exactly one leading '=' is dropped; a text without it is unchanged |
| DataProcessor.ProcessQuantile | data_processor.py:103-121 | NaN, '-' and '' → 0; a number above 1 is divided by 100, others are kept; a text holding '%' (after one leading '=' is dropped) gives float(rest without '%')/100, and None exactly when that parse fails; any other text gives float of the text after one leading '=' is dropped, or 0 when it does not parse |
| DataProcessor.QuantileEqualsPrefix | data_processor.py:108-109 | a single leading '=' does not change the result |
| DataProcessor.WholePercentMatchesFraction | data_processor.py:118-119 | the number p in (1, 100] and the fraction p/100 give the same value |
| DataProcessor.PercentTextMatchesNumber | data_processor.py:111-119 | the text "p%" and the number p > 1 give the same fraction |
| DataProcessor.QuantileUnclamped | data_processor.py:118-119 | 120 gives 1.2: no clamping to [0, 1] |
| DataProcessor.MalformedPercentAborts | data_processor.py:111-112 | a percentile cell holding '%' whose number (leading '=' and '%' removed) does not parse makes the whole run return None |
| DataProcessor.ProcessAttention | data_processor.py:188-200 | non-text → 0; '-' and '' → 0; otherwise the parse of the text with '=' and ',' removed, 0 when it fails |
| DataProcessor.AttentionIgnoresSeparators | data_processor.py:193-198 | inserting a '=' or ',' anywhere into an attention value leaves its key unchanged |
| DataProcessor.CleanedFilters | data_processor.py:194-196 | the text handed to `float()` is the value with exactly its '=' and ',' characters deleted, the rest kept in order |
| DataProcessor.CleanedIgnoresSeparator | data_processor.py:194-196 | the cleaned text is blind to an inserted '=' or ',' |
| DataProcessor.Round1 | data_processor.py:132 | the result lies within 0.05 of x and is a multiple of 0.1 |
| DataProcessor.RoundHalfEven | data_processor.py:61 | the nearest integer, within 0.5; on a tie, the even one |
| DataProcessor.Round1InRange | data_processor.py:132 | rounding keeps [0, 100] |
| DataProcessor.Round1Exact | data_processor.py:132 | a value with one decimal is unchanged |
| DataProcessor.QuantileTemperature | data_processor.py:128-132 | industry: round(PB·100); otherwise round((PE+PB)/2·100) |
| DataProcessor.QuantileTemperatureInRange | data_processor.py:128-132 | fractional percentiles give a temperature in [0, 100] |
| DataProcessor.QuantileTemperatureExamples | data_processor.py:128-132 | industry (0.4, 0.6) → 60.0; broad (0.2, 0.4) → 30.0 |
| DataProcessor.PeTemperature | data_processor.py:39-47 | the PE term: 0 for PE ≤ 0, 95 above 50, log10(PE + 1)/log10(51)·95 between; its bounds are stated by PeTemperatureInBand |
| DataProcessor.PbTemperature | data_processor.py:50-57 | the PB term: 0 for PB ≤ 0, 95 above 10, log10(PB + 0.5)/log10(10.5)·95 between; its bounds are stated by PbTemperatureInBand and PbTemperatureNegative |
| DataProcessor.CalculateFundTemperature | data_processor.py:30-61 | a missing PE or PB gives 50; a text PE or PB (TypeError) gives None; otherwise the rounded mean of the PE and PB terms |
| DataProcessor.FallbackExtremes | data_processor.py:39-61 | PE > 50 and PB > 10 give 95; PE ≤ 0 and PB ≤ 0 give 0 |
| DataProcessor.PeTemperatureInBand | data_processor.py:39-47 | for a real logarithm, the PE term lies in [0, 95] |
| DataProcessor.PbTemperatureInBand | data_processor.py:50-57 | the PB term is at most 95, and non-negative unless 0 < PB < 0.5 |
| DataProcessor.FallbackInRange | data_processor.py:30-61 | the estimate is at most 95, and non-negative unless 0 < PB < 0.5 |
| DataProcessor.PbTemperatureNegative | data_processor.py:50-57 | for 0 < PB < 0.5 the PB term is negative |
| DataProcessor.Round1AtMost95 | data_processor.py:61 | rounding keeps a value ≤ 95 at most 95 |
| DataProcessor.Round1NonNegative | data_processor.py:61 | rounding keeps a value ≥ 0 non-negative |
| DataProcessor.GetAdvice | data_processor.py:143-151 | four bands, < 30, < 50, < 70 and the rest, each stated as an iff; each boundary falls in the higher band |
| DataProcessor.AdviceMonotone | data_processor.py:143-151 | a higher temperature never gets a lower advice band |
| DataProcessor.AdviceExamples | data_processor.py:143-151 | 29.9, 30, 60 and 70 land in the four bands |
| DataProcessor.QuantileCellValid | data_processor.py:162-171 | a percentile cell passes when it is not '-', not NaN, not '0' or '0%', and not the number 0 when both columns are numeric |
| DataProcessor.QuantilesValid | data_processor.py:162-171 | `valid_quantiles` of a row: both percentile cells pass |
| DataProcessor.RowTemperature | data_processor.py:100-140 | with both percentile columns, the percentile rule (None when a cell raises or 指数名称 is missing); otherwise the estimator on PE and PB, defaulting to 15 and 1.5 when a column is absent |
| DataProcessor.RateRow | data_processor.py:128-153 | one row of the 基金温度 and 投资建议 assignments: None exactly when its temperature raises; otherwise the row's own cells with that temperature and the advice of that temperature |
| DataProcessor.Survivors | data_processor.py:160-180 | the rows left by the percentile mask (when both columns exist) and then the non-zero-temperature mask |
| DataProcessor.CategoryRank | data_processor.py:207-213 | the position in the fixed category order when listed, past the end (NaN) otherwise |
| DataProcessor.CategoryCell | data_processor.py:209-211 | the 类别 of a row: the existing 类别 cell when that column exists, and only otherwise the category of its 指数名称 |
| DataProcessor.RankRow | data_processor.py:186-213 | one row of the 关注度数值, 类别 and 类别排序 assignments: the attention value of its 关注度 (0 without that column), the 类别 chosen by `CategoryCell`, and the rank of that 类别 |
| DataProcessor.Outcome | data_processor.py:98-213 | the unsorted result: None when a row raises, when nothing survives the masks, or when there is no 类别 source; a Some result is never empty |
| DataProcessor.RankedOrder | data_processor.py:216 | attention descending, then category rank ascending, then temperature descending |
| DataProcessor.RankedOrderIsTotalPreorder | data_processor.py:216 | the three-key order is total and transitive |
| DataProcessor.ProcessLixingrenCsv | data_processor.py:98-218 | None exactly when the function `Outcome` is None; otherwise the rows of `Outcome`, permuted and sorted by the three keys, and never empty |
| DataProcessor.RatedRowOrigin | data_processor.py:128-153 | every rated row is one of the input rows, with that row's temperature and its advice |
| DataProcessor.OutcomeRowsValid | data_processor.py:128-213 | every returned row is one of the input rows; it has that row's non-zero temperature, valid percentiles when those columns exist, the advice of its temperature, the rank of its category, and as 类别 the existing 类别 cell when that column exists and otherwise the category of its 指数名称 |
| DataProcessor.SurvivorPassed | data_processor.py:160-180 | a surviving row passed the percentile mask and the zero-temperature mask |
| DataProcessor.SurvivorsInOrder | data_processor.py:160-180 | the masks only delete rows, keeping their order, and every row satisfying both masks survives |
| DataProcessor.SortedKeyOrder | data_processor.py:215-216 | in the sorted result, higher attention comes first, then the lower category rank |
| DataProcessor.SortExample | data_processor.py:215-216 | attention [100, 100, 50] with categories [行业, 大盘, 大盘] sorts to 大盘-100, 行业-100, 大盘-50 |
| Tables.RenameLabels | data_processor.py:98 | `rename` replaces each mapped label in place and keeps the others |
| Tables.FilterMembers | data_processor.py:173 | a row survives a mask exactly when it satisfies it |
| Tables.FilterIsSubseq | data_processor.py:173 | a mask keeps the survivors in their original order |
| Tables.FilterTwice | data_processor.py:173-180 | two successive masks equal their conjunction |
| Tables.FilterAppend | data_processor.py:173 | masking a concatenation masks each part |
| Tables.RemoveAllFilters | app.py:211 | `s.replace(c, '')` keeps exactly the characters other than `c`, in order |
| Tables.KeepWhere | data_processor.py:173 | applying a mask row by row gives `Filter` |
| Tables.MapAll | data_processor.py:128-140 | a row-wise step succeeds on every row with those results, and fails exactly when some row raises |
| Tables.MapEach | data_processor.py:128-140 | the row loop computes `MapAll` |
| Tables.ApplyEach | data_processor.py:202-213 | the row loop computes `Mapped` |
| Tables.SortBy | data_processor.py:216 | the result is sorted by the order and is a permutation of the input |
| Tables.InsertSorted | data_processor.py:216 | inserting into a sorted sequence keeps it sorted, with one more occurrence of the inserted row |
| Utils.Search | utils.py:22 | `re.search`: the reported match is the leftmost, and None means no position matches |
| Utils.ValidDate | utils.py:26 | a date `datetime` accepts: year at least 1, month 1–12, day within the month, with Gregorian leap years |
| Utils.IsDateString | utils.py:26 | `strptime(d, '%Y-%m-%d')` succeeds: ten characters dddd-dd-dd whose numbers form a valid date |
| Utils.DashedDate | utils.py:21-29 | the first attempt returns only strings that `strptime` accepts |
| Utils.CompactDate | utils.py:32-41 | the second attempt returns only strings that `strptime` accepts |
| Utils.ExtractDateFromFilename | utils.py:18-43 | any result is a valid dddd-dd-dd date; None exactly when both attempts fail |
| Utils.DashedValidity | utils.py:25-27 | a dashed match is accepted exactly when its year, month and day form a calendar date |
| Utils.DashedTakesPriority | utils.py:21-27 | a valid leftmost dddd-dd-dd is returned verbatim |
| Utils.FirstDashedOnly | utils.py:22-41 | when the first dashed match is not a date, the 8-digit attempt decides |
| Utils.CompactLeftmost | utils.py:32-41 | without a dashed match, the leftmost 8-digit run is the date or the result is None |
| Utils.CompactValidity | utils.py:35-39 | the rewritten run is accepted exactly when its numbers form a calendar date |
| Utils.CompactByNumbers | utils.py:32-41 | for a name without '-', the result is decided by the numbers of the leftmost run |
| Utils.NoMatchNone | utils.py:18-43 | a name matching neither pattern gives None |
| Utils.DateWithSuffix | utils.py:21-27 | a date followed by any suffix (a file name) gives that date |
| Utils.ExtractIdempotent | utils.py:18-43 | extracting again from the extracted date, or from the file named after it, gives the same date |
| Utils.CompactLeapDay | utils.py:32-39 | 20240229 after a prefix holding no digit and no '-', followed by a suffix holding no '-', gives 2024-02-29 |
| Utils.CompactNoLeapDay | utils.py:32-41 | 20230229 after a prefix holding no digit and no '-', followed by a suffix holding no '-', gives None |
| Utils.CompactLeftmostOnly | utils.py:32-41 | 12345678 after a prefix holding no digit and no '-', followed by a suffix holding no '-', gives None: the run is rejected and no later run is tried |
| Utils.InvalidFirstDashed | utils.py:21-43 | an invalid first dashed date hides a valid later one |
| Utils.DashedBeatsEarlierCompact | utils.py:21-27 | a valid dashed date wins over an earlier 8-digit run |
| Utils.CheckPassword | utils.py:64-68 | accepted iff the input is the fixed password |
| Utils.PasswordExact | utils.py:64-68 | exactly one password is accepted; the comparison is case- and space-sensitive |
| App.LastDot | app.py:47 | None iff there is no '.'; otherwise the position of a '.' with none after it |
| App.Lower | app.py:47 | ASCII lower-casing, character by character |
| App.AllowedFile | app.py:46-47 | `allowed_file`: a '.' is present and the text after the last one, lower-cased, is `csv`; the characterisation is AllowedFileEnding |
| App.AllowedFileEnding | app.py:46-47 | a name is accepted iff it ends in '.' followed by `csv` in any case |
| App.AllowedFileAccepts | app.py:46-47 | any stem followed by `.CSV` or `.csv` is accepted |
| App.AllowedFileRejects | app.py:46-47 | only the last extension counts: `x.csv.txt` is refused |
| App.DisplayRename | app.py:130-135 | the two percentile aliases are renamed wherever present, and every other label is kept |
| App.DisplayRenameKeeps | app.py:130-135 | the presence of any other label is unchanged |
| App.ProcessQuantile | app.py:140-158 | the only failure is a text holding '%' |
| App.ProcessQuantileAgrees | app.py:140-158 | the page's `process_quantile` equals the pipeline's on every cell |
| App.RecomputedTemperature | app.py:164-166 | industry: PB·100; otherwise the mean of PE and PB, times 100 |
| App.TemperatureAgrees | app.py:164-186 | rounded, the page's temperature equals the pipeline's |
| App.ToneOf | app.py:170-181 | the badge band: success below 30, info below 50, warning below 70, danger otherwise |
| App.BadgeMarkup | app.py:183 | the `<span class="badge bg-…">icon text°C</span>` markup of a band and a number text |
| App.FormatTemperature | app.py:169-183 | `format_temperature`: the markup of the temperature's band with its `.1f` text |
| App.ToneMatchesAdvice | app.py:169-181 | the badge's colour bands are exactly the advice bands |
| App.BadgeInjective | app.py:183 | a badge determines its band and its number text |
| App.ZeroBadgeExactly | app.py:169-183 | a temperature gets the zero badge iff it is below 30 and formats as `0.0` |
| App.Badge | app.py:138-187 | without a temperature source: None. With both percentile columns: the badge of the pipeline's percentile temperature; None when a percentile raises or 指数名称 is missing. Otherwise, from the stored 基金温度: a number gives the badge of its rounded value, NaN gives the `nan` badge, and a text gives None because `round` raises |
| App.CleanValue | app.py:205-212 | non-text is kept; after a leading '=' only that sign goes; otherwise exactly the '=' characters are deleted and the rest is kept in order |
| App.CleanValueNoEquals | app.py:205-212 | a text without '=' is unchanged |
| App.CleanValueExamples | app.py:205-212 | "==5" → "=5"; "1=2=3" → "123" |
| App.Percent | app.py:234-239 | the `.2f` text of num when num > 1, of num·100 otherwise, followed by '%' |
| App.ToPercentage | app.py:220-242 | '-' and NaN → '-'; a text holding '%' or not parsing is kept; a number → its percentage text |
| App.ToPercentageIdempotent | app.py:220-247 | converting a converted value changes nothing |
| App.Field | app.py:193-199 | a column that exists is read; a missing one reads as '-' |
| App.DisplayCategory | app.py:189-191 | the 类别 on the page: the category of 指数名称 whenever that column exists, overriding an existing 类别 (the opposite preference to `CategoryCell`); otherwise the existing 类别 cell |
| App.PrepareRow | app.py:185-247 | one row of the page: None exactly when `Badge` raises; otherwise the row's own cells with its badge; 今年涨跌 and 昨涨跌 as `to_percentage(clean_value(...))` of its 今年以来涨跌幅 and 涨跌幅 cells; 关注度 cleaned; a missing column as '-'; and the 类别 of `DisplayCategory` |
| App.HasChanges | app.py:251 | the first mask: 今年涨跌, 昨涨跌 and 关注度 are all other than '-' |
| App.VisibleTemperature | app.py:276-278 | the third mask on the formatted 基金温度: not the zero badge and not '-' |
| App.Visible | app.py:250-278 | the three masks in order, the percentile mask only when both columns exist |
| App.DisplayOutcome | app.py:130-302 | the unsorted rows of the page: None when there is no temperature or 类别 source, or when a row raises |
| App.KeyRow | app.py:298-302 | the 关注度数值 and 类别排序 of one shown row: None exactly when its attention key raises; otherwise that key and the rank of its 类别 |
| App.StrLeLexicographic | app.py:305 | `StrLe`, Python's `<=` on `str`, holds exactly when the first text is a prefix of the second or has the smaller code point at the first position where they differ |
| App.DisplayOrder | app.py:305 | attention key descending, then category rank ascending, then the badge text descending as a string |
| App.AttentionKey | app.py:298 | a text other than '-' → the parse of it with ',' removed (a failure raises); anything else → 0 |
| App.DisplayOrderIsTotalPreorder | app.py:305 | the page's three-key order is total and transitive |
| App.NumberRows | app.py:308 | row i gets 序号 i + 1, and the rows are unchanged |
| App.RenderIndex | app.py:130-308 | None exactly when `DisplayOutcome` is None; otherwise its rows, permuted, sorted by the page order and numbered 1..n |
| App.VisibleExactly | app.py:250-278 | the three masks keep, in order, exactly the rows satisfying all of them |
| App.PreparedRowOrigin | app.py:185-247 | every prepared row is one of the input rows, with that row's badge, its 今年涨跌 and 昨涨跌 as percentages of its cleaned 今年以来涨跌幅 and 涨跌幅, its cleaned 关注度 and its page 类别 |
| App.DisplayedRowPassed | app.py:185-305 | every row on the page is one of the input rows and passed the three masks; it carries that row's badge, its 今年涨跌 and 昨涨跌 as percentages of its cleaned 今年以来涨跌幅 and 涨跌幅, its cleaned 关注度, the keys of that 关注度 and of its 类别, and as 类别 the category of 指数名称 when that column exists and otherwise the existing 类别 cell |
| App.AbsentChangeColumnHidesAll | app.py:193-252 | without a 今年以来涨跌幅, 涨跌幅 or 关注度 column the page is empty |
| App.AbsentFieldNoChanges | app.py:193-252 | a row prepared without one of those columns fails the first mask |
| App.MalformedAttentionAborts | app.py:298 | an attention text that is not a number after removing ',' turns the page into its error message |
| App.ZeroTemperatureHidden | app.py:270-278 | no row on the page shows the zero badge, in particular none whose temperature formats as `0.0` (on exact reals, which have no -0.0) |

## Left out

- Reading files: `read_csv` with its list of encodings, the upload folder, the
  SCF environment switch and `get_latest_data_date` work on the file system
  and the clock. The model starts from the parsed table.
- Flask: request handling, sessions, `login_required`, templates and the HTML
  of `to_html` are left out. The model returns the rows the page renders.
- The search box (app.py:281-295) is left out. It filters by a request
  parameter with pandas' case-insensitive `str.contains`.
- The 数据更新时间 column (data_processor.py:156) is the current time. It is
  not modelled.
- Floating point: the model uses exact reals.
  - `round(x, 1)` is exact round-half-to-even, without binary rounding.
  - `float()` never returns NaN or infinity.
  - The `.1f`/`.2f` formatting and `math.log10` are parameters. The
    estimator functions, `Outcome` and `ProcessLixingrenCsv` require
    `LogScaleDefined`: log10(51) and log10(10.5) are not zero, so the two
    divisions are defined. The range lemmas also require `LogLike`: log10(1)
    is 0 and log10 is increasing.
  - There is no signed zero. In Python a small negative percentile, such as
    "-0.01%" on an industry row, rounds to -0.0, which `.1f` writes as
    `-0.0`. That badge is not the zero badge, so the mask at app.py:278 keeps
    the row. `App.ZeroTemperatureHidden` does not cover this case.
- `str.lower()` and `\d` cover ASCII only. Python's Unicode lower-casing and
  Unicode digits are not modelled.
- Duplicate column labels: the model reads a column at its first
  occurrence. In the source, two labels that rename to one canonical name
  (for example PE-TTM(分位点%) and PE分位点) leave two columns under that name.
  Reading it then gives a two-column frame. The percentile and estimator
  code raise on it, and `process_lixingren_csv` returns None. The same holds for a second column
  created under an existing label, such as a CSV that already holds 今年涨跌
  when 今年以来涨跌幅 is renamed to it. Neither case is modelled.
- The helper columns PE分位点数值 and PB分位点数值 (data_processor.py:124-125)
  are not kept in `Rated`. Nothing after the temperature reads them.
- Logging: the `print` and `traceback.print_exc()` calls in the `except`
  blocks (data_processor.py:220-224, app.py:104-106) and the diagnostic
  prints of app.py are output only.
- The final projection onto `columns_to_keep` (app.py:311-315) and the HTML
  of `generate_custom_html_table` (app.py:326 onwards) only choose and render
  columns. The model stops at the numbered rows before that step.
- `is_numeric_dtype` of the two percentile columns is a boolean parameter.
  The model does not infer it from the cells. The 基金温度 column is always
  numeric in the pipeline and always a string column on the page.
- The branch of `process_quantile` for a value that is neither text nor a
  number cannot arise with the three cell kinds.
- index_categories (`is_industry_index`, `get_index_category`) is not part of
  this model. Both are parameters.
- DataProcessor.ProcessLixingrenCsv and App.RenderIndex: the result is stated
  as a permutation of the rows, sorted by the keys. The stability of pandas'
  sort among rows with equal keys is not stated.
