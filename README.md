# GDELT search dashboard: a verified model of its data transformations

`main.py` is a Streamlit dashboard over the GDELT DOC API. Beneath the widget
and Plotly calls it does four deterministic things, and this project models
each of them in Dafny and proves what they promise:

1. **Filter building** (main.py:101-123). The comma-separated domain and
   country fields become one stripped string, or a list of stripped pieces, or
   the empty list. The dates are written as `YYYY-MM-DD`. Each keyword gets one
   `Filters` value, and these are stored in a dictionary keyed by the keyword
   (`FilterBuilder`, with `Text`, `OrderedDict` and `Calendar`).
2. **The timeline pipeline** `process_timeline_data` (main.py:53-76). The loop
   visits each keyword and each of the three timeline types (main.py:96-98), in
   that nested order. For each pair it:
   - fetches one table, and treats an exception as an empty table;
   - skips the pair if the table is empty;
   - otherwise sorts the rows by timestamp in place;
   - stores the sorted table under `"<api>:<keyword>"` in `raw_data`;
   - stores its smoothed copy, `calculate_moving_average` (main.py:10-27),
     under the same key in `smoothed_data`.

   This is modelled in `Series` and `Timeline`.
3. **Chart trace selection** `generate_timeline_chart` (main.py:29-40). It
   makes one trace per dictionary entry whose key, before its first `:`, names
   the timeline type. The trace is named by the key's second `:` piece; its x
   values are the timestamps and its y values the value column (`Chart`).
4. **Article normalisation** `generate_artical_data` (main.py:42-51). For each
   keyword it searches, tags the rows with the keyword and keeps seven columns.
   It rewrites the seen date from `YYYYMMDDThhmmssZ`, the basic format of ISO
   8601 (section 4.3.2 of ISO 8601:2004), into `"Mon DD, YYYY HH:MM"`. The
   results are concatenated in dictionary order (`Articles`).

Modelling choices:
- **Dictionaries.** A Python dictionary is a sequence of key/value pairs in
  insertion order. Assigning to a key that is already present replaces its value
  in place (`OrderedDict.Put`).
- **The two GDELT calls become function parameters.**
  - `Timeline.Fetcher` stands for the timeline service and returns
    `FetchRaised` or a table.
  - `Articles.Searcher` stands for the article service and returns
    `SearchFailed` or a table.
  - Each (api, filter) pair is asked once per run, so a function is as general
    as the service for one run.
- **Exceptions that escape are `Err` values of `Base.Error`:**
  - the article search raising;
  - a KeyError for a missing column in `calculate_moving_average`, the chart or
    the article projection;
  - the IndexError of `split(":")[1]` on a key without `:`;
  - the ValueError of `strptime`.

  An error ends the computation, as the uncaught exception does.
- **The in-place sort** `sort_values('datetime', inplace=True)` is an insertion
  sort on an `array<Row>` (`Series.SortByDatetime`).
  - Its contract promises only "sorted, and a permutation", because pandas'
    default sort is not stable.
  - The pipeline's specification `Timeline.Run` therefore takes the sorted
    tables as a ghost argument. `ProcessTimelineData` returns the orders its
    sort actually produced.
  - Every other fact is proved for any valid choice of orders.
- **The rolling window.** pandas' `rolling(window=30, center=True).mean()` uses
  a fixed-window indexer:
  - the window ends, exclusive, at `i + 1 + (w - 1) // 2` and starts `w`
    before that, both clipped to the series;
  - `min_periods` defaults to `w`.

  For `w = 30`, index `i` therefore averages `[i − 15, i + 14]`. It is defined
  exactly when `15 <= i <= N − 15` and all 30 values are present
  (`Series.RollingMean30`).

  For 40 complete points, positions 0–14 and 26–39 are therefore undefined and
  15–25 defined (`Series.RollingMean30Forty`); centring an even window puts one
  more point before `i` than after it.

## Model

| member | source | states |
|---|---|---|
| `Text.Split` | main.py:104 | `s.split(sep)` has one more piece than there are separators, and no piece contains the separator |
| `Text.JoinSplit` | main.py:104 | joining the pieces of a split with the separator gives back the original string |
| `Text.SplitJoin` | main.py:107 | splitting a join of separator-free pieces gives back the pieces |
| `Text.TrimStartSlice` | main.py:105 | `TrimStart`, the model of `lstrip`, removes exactly a whitespace prefix, and what remains does not start with whitespace |
| `Text.TrimEndSlice` | main.py:105 | `TrimEnd`, the model of `rstrip`, removes exactly a whitespace suffix, and what remains does not end with whitespace |
| `Text.StripIsSlice` | main.py:105-107 | `Strip`, the model of `strip()`, is the slice between a whitespace prefix and a whitespace suffix, and neither starts nor ends with whitespace |
| `Text.StripBlank` | main.py:105-107 | `strip()` gives the empty string exactly for all-whitespace input |
| `Text.StripUnpadded` | main.py:107 | a string without surrounding whitespace is its own strip |
| `Text.StripIdempotent` | main.py:105-107 | stripping twice is the same as stripping once |
| `OrderedDict.Get` | main.py:72 | the lookup used to state what the dictionaries hold after the writes at main.py:72, 74 and 123 (the code itself never looks a key up): it misses exactly when the key is absent, and a hit is a stored pair |
| `OrderedDict.PutKeys` | main.py:123 | `Put`, the model of `d[k] = v` (also main.py:72 and 74), keeps the key order: assigning a key keeps the position of a present key or appends a new one at the end |
| `OrderedDict.PutGet` | main.py:123 | after `Put`, the key holds the new value and every other key looks up what it did before |
| `OrderedDict.Dedup` | main.py:114-123 | the first-occurrence order of a key sequence has no repeats and the same members |
| `OrderedDict.DedupOfDistinct` | main.py:114-123 | distinct keys keep their order |
| `OrderedDict.DistinctPrefix` | main.py:44 | in a dictionary the last key occurs nowhere before it, and what precedes it is again a dictionary |
| `OrderedDict.GetDistinct` | main.py:31 | iterating over a dictionary visits each pair under its own key |
| `Calendar.NumberOfPad` | main.py:49 | reading back a zero-padded number gives the number |
| `Calendar.PadOfNumber` | main.py:49 | zero-padding the value of a digit string gives back the string |
| `Calendar.SeenDateText` | main.py:49 | the service's seen-date form of a date-time has 16 characters |
| `Calendar.ParseSeenDate` | main.py:49 | `strptime(x, '%Y%m%dT%H%M%SZ')` yields only real calendar date-times: month 1–12, a day that exists in that month (leap years included), hour below 24, minute and second below 60 |
| `Calendar.ParseSeenDateText` | main.py:49 | every valid date-time written as `YYYYMMDDThhmmssZ` parses back to itself |
| `Calendar.SeenDateTextOfParse` | main.py:49 | every string that parses is the canonical text of its date-time |
| `Calendar.MonthAbbrev` | main.py:49 | `%b` is a three-letter English month abbreviation |
| `Calendar.DisplayText` | main.py:49 | `'%b %d, %Y %H:%M'` is 18 characters |
| `Calendar.MonthAbbrevInjective` | main.py:49 | `%b` gives different months different abbreviations |
| `Calendar.DisplayTextInjective` | main.py:49 | `'%b %d, %Y %H:%M'` tells apart any two date-times that differ in something other than the seconds |
| `Calendar.ReformatSeenDate` | main.py:49 | the reformat fails, with ValueError on that text, exactly when the text does not parse; otherwise it gives 18 characters |
| `Calendar.ReformatSeenDateText` | main.py:49 | the reformat of a valid date-time's text is its display form, with the seconds dropped |
| `Calendar.DisplayTextExample` | main.py:49 | 2020-05-10 15:30:00 is shown as `"May 10, 2020 15:30"` |
| `Calendar.ReformatExample` | main.py:49 | `"20200510T153000Z"` becomes `"May 10, 2020 15:30"` |
| `Calendar.FebruaryThirtiethRejected` | main.py:49 | February 30 raises; there is no fallback |
| `Calendar.MonthThirteenRejected` | main.py:49 | month 13 raises |
| `Calendar.LeapDayAccepted` | main.py:49 | 29 February 2020 is accepted |
| `Calendar.CenturyLeapDayRejected` | main.py:49 | 29 February 1900 raises, because 1900 is not a leap year |
| `Calendar.IsoDateText` | main.py:117-118 | `strftime('%Y-%m-%d')` is 10 characters with dashes at positions 4 and 7 |
| `Calendar.IsoDateTextFields` | main.py:117-118 | the year, month and day can be read back from the date text |
| `FilterBuilder.StripAllItemsUnpadded` | main.py:107 | every piece of the list comprehension `StripAll` neither starts nor ends with whitespace, so stripping the list again changes nothing |
| `FilterBuilder.SplitFieldWithoutComma` | main.py:104-105 | `SplitField`, the domain and country rule of main.py:104-112: a field without a comma becomes its stripped text, except the empty field, which becomes the empty list |
| `FilterBuilder.SplitFieldWithCommas` | main.py:106-107 | `SplitField`: a field with k commas becomes the list of its k + 1 pieces, each stripped, in order, with empty pieces kept |
| `FilterBuilder.SplitFieldScalarIff` | main.py:104-107 | the value is a single string exactly when the field is non-empty and has no comma |
| `FilterBuilder.SplitFieldBlank` | main.py:104-105 | a whitespace-only field becomes the empty string, not the empty list |
| `FilterBuilder.SplitFieldOfJoin` | main.py:106-107 | round trip: a comma-joined list of two or more clean items splits back into that list |
| `FilterBuilder.SplitFieldExamples` | main.py:104-107 | `""` gives the empty list and `"a,,b"` gives `["a", "", "b"]` |
| `FilterBuilder.SplitFieldDefaultDomains` | main.py:91 | the default domain field gives the two-domain list |
| `FilterBuilder.SplitFieldDefaultCountries` | main.py:92 | the default country field gives the two-country list |
| `FilterBuilder.BuildFilters` | main.py:102-123 | the dictionary has one entry per distinct keyword, in order of first occurrence; each entry is `MakeFilter` of its own key, the `Filters(...)` call of main.py:115-122 |
| `FilterBuilder.BuildFiltersKeys` | main.py:103 | three distinct keywords give three entries in field order; a repeated keyword keeps its first position |
| `Series.SortByDatetime` | main.py:69 | the in-place sort leaves the rows in non-decreasing timestamp order and a permutation of the original rows |
| `Series.InsertLast` | main.py:69 | one insertion step extends the sorted prefix by one: it permutes only the rows up to `i`, leaves every later row where it was, and so permutes the whole table |
| `Series.SortedPermutationsAgree` | main.py:69 | any two sorted orders of the same rows have the same timestamp column |
| `Series.SortIdempotent` | main.py:69 | rows whose timestamps strictly increase come back unchanged from any sort |
| `Series.CountPresent` | main.py:25 | the number of non-missing values in a window is at most its length, and equals it exactly when none is missing |
| `Series.RollingMean` | main.py:25 | the rolling mean has one entry per row |
| `Series.RollingMeanAtFullWindow` | main.py:25 | `RollingMeanAt`, the centred rolling mean at i is the plain mean of the whole window when it lies inside the series with no missing value, and is missing otherwise; partial windows are never averaged |
| `Series.RollingMean30` | main.py:25 | with window 30, index i averages `[i − 15, i + 14]` and is defined exactly when `15 <= i <= N − 15` and those values are present |
| `Series.RollingMean30Short` | main.py:25 | a series shorter than 30 has no defined average |
| `Series.RollingMean30Forty` | main.py:25 | a complete 40-point series is averaged exactly at indices 15 to 25 |
| `Series.SumPresentBounds` | main.py:25 | a sum of n values between lo and hi lies between n·lo and n·hi |
| `Series.RollingMeanWithinRange` | main.py:25 | a smoothed value never leaves the range of the values it averages |
| `Series.MovingAverage` | main.py:10-27 | the copy has the same rows, timestamps and columns; every column other than `col_name` is unchanged, and `col_name` is the rolling mean of the original column (the input is a value, so it is not modified) |
| `Series.MovingAverageAt` | main.py:25 | the smoothed column index by index, for the default window of 30 |
| `Timeline.SplitSeriesKey` | main.py:71 | `SeriesKey`, the f-string `"<api>:<keyword>"`: a composite key splits into its kind followed by the pieces of the keyword |
| `Timeline.SeriesKeyInjective` | main.py:71 | two composite keys are equal exactly when their kinds and keywords are equal |
| `Timeline.TimelineTypesDistinct` | main.py:96-98 | the three search kinds are colon-free and pairwise different |
| `Timeline.JobsForMembership` | main.py:58 | the inner loop `JobsFor` visits exactly the pairs of its keyword and filter with a listed type |
| `Timeline.JobsMembership` | main.py:57-58 | the loops visit exactly the pairs (dictionary entry, type) |
| `Timeline.JobsPrefix` | main.py:57-58 | a prefix of the dictionary gives a prefix of the visited pairs |
| `Timeline.JobKeysDistinct` | main.py:57-71 | with distinct keywords and kinds, every visited pair has its own key |
| `Timeline.RunFromAppend` | main.py:57-74 | `RunFrom` folds `Step`, one inner iteration on its sorted table (skip an empty table, assign both dictionaries or raise KeyError), over the pairs; running two stretches of iterations one after the other is running their concatenation |
| `Timeline.RunFromErr` | main.py:74 | an uncaught KeyError ends the run |
| `Timeline.SkipEmptyPair` | main.py:59-67 | a pair whose fetch raised or came back empty leaves the run exactly as if it were absent, so later pairs are still processed |
| `Timeline.RunOkIff` | main.py:67-74 | the run raises exactly when some non-empty table lacks its value column |
| `Timeline.RunErr` | main.py:74 | the error raised is the KeyError of the first such table |
| `Timeline.LastWriter` | main.py:72-74 | the last pair that stored a table under a key, with no later writer |
| `Timeline.RunKeys` | main.py:72-74 | `raw_data` and `smoothed_data` have the same keys, in order of first assignment |
| `Timeline.RunRaw` | main.py:72 | `raw_data[key]` is the sorted table of the key's last writer, and the key is absent when nothing was stored under it |
| `Timeline.RunSmoothed` | main.py:74 | `smoothed_data[key]` is the moving average of that same sorted table |
| `Timeline.LastWriterDistinct` | main.py:71-72 | when keys are distinct, a pair's key is written only by that pair |
| `Timeline.PipelineEntry` | main.py:55-76 | for `Run`, the whole fold from two empty dictionaries, and `FetchedRows`, a fetch with its exception swallowed: for every keyword and type, `"<api>:<keyword>"` is in both dictionaries exactly when the fetch did not raise and returned rows; `raw_data` then holds those rows sorted by timestamp (not necessarily stably), and `smoothed_data` holds their moving average |
| `Timeline.ProcessPair` | main.py:59-74 | one inner iteration: fetch, swallow the exception, sort in place, assign both dictionaries |
| `Timeline.ProcessKeyword` | main.py:58-74 | the inner loop for one keyword |
| `Timeline.ProcessTimelineData` | main.py:53-76 | the method visits a prefix of the pairs in nested-loop order, with valid sorted orders, and returns exactly the run of its specification; it visits all pairs unless a KeyError ends it |
| `Chart.GenerateTimelineChart` | main.py:29-40 | the figure carries the selected traces, the type's title, `Date` as x title, the value column as y title and `Data Type` as legend title, or the first exception |
| `Chart.ChartErrSticky` | main.py:31-34 | an exception ends the loop |
| `Chart.Selection` | main.py:32 | every entry of the selection is an entry of the dictionary whose key, before its first `:`, is the type's search kind |
| `Chart.SelectionAtPositions` | main.py:31-32 | the selection is the dictionary read at `SelectedPositions`, the positions of the selected entries |
| `Chart.SelectedPositionsIncrease` | main.py:31-32 | those positions strictly increase, so the selection keeps dictionary order |
| `Chart.SelectedPositionsCover` | main.py:31-32 | every selected entry's position is among them, so nothing selected is skipped |
| `Chart.SelectionComplete` | main.py:31-32 | every selected entry is in the selection |
| `Chart.ChartOkIff` | main.py:32-34 | `ChartTraces` folds `EntryTrace`, one loop iteration, over the dictionary; the chart raises exactly when a selected key has no `:` or a selected table lacks the value column |
| `Chart.ChartTracesOfSelection` | main.py:31-34 | there is one trace per selected entry, in dictionary order, named by the key's second piece, with the timestamps as x and the value column as y |
| `Chart.TraceName` | main.py:32-33 | a composite key is selected by its own kind, and its trace is named by the keyword up to its first `:`; a keyword containing `:` is truncated |
| `Chart.StoredWriter` | main.py:72-74 | each dictionary entry after a run is a stored pair's sorted table, or its moving average, under that pair's key |
| `Chart.ChartOfPipeline` | main.py:29-34 | charting what `process_timeline_data` stored never raises, for either dictionary |
| `Articles.MissingColumnOf` | main.py:48 | the projection fails on a column some row lacks, and succeeds exactly when every row has every column |
| `Articles.ReformatRowsOk` | main.py:47-49 | `ReformatRows`, the `apply` over the projected rows: reformatting succeeds exactly when every seen date parses; it keeps the rows one for one, each tagged, projected and with its display date |
| `Articles.ReformatRowsErr` | main.py:49 | the ValueError is raised for the first seen date that does not parse |
| `Articles.KeywordBlockOk` | main.py:45-49 | `KeywordBlock`, one iteration, projecting through `NormaliseArticles`: a search exception escapes; a table that is `.empty` (no row, or no column because no row has a field) contributes nothing; otherwise the keyword contributes one row per returned row, every one tagged with the keyword |
| `Articles.FieldlessRowSkipped` | main.py:46 | a table of one row without any field is `.empty` and contributes nothing |
| `Articles.ArticleDataBlocks` | main.py:44-50 | `ArticleData`, the loop's outcomes collected in dictionary order, against `Blocks`, the block of each keyword: the table is built exactly when no keyword raised, and it is then the concatenation of the keywords' blocks in dictionary order |
| `Articles.CollectFlatten` | main.py:44-50 | collecting the keywords' outcomes succeeds exactly when none raised, and then gives their blocks one after the other |
| `Articles.ArticleDataLast` | main.py:50 | a built table is the table of the earlier keywords followed by the last keyword's block |
| `Articles.TaggedWithLast` | main.py:44-50 | the rows a built table tags with a keyword are those of the earlier keywords, then the last keyword's block when it is that keyword |
| `Articles.TaggedWithLastKeyword` | main.py:44-50 | the last keyword, occurring nowhere earlier, tags exactly its own block |
| `Articles.TaggedWithEarlierKeyword` | main.py:44-50 | an earlier keyword that differs from the last one tags the same rows as in the table of the earlier keywords |
| `Articles.ArticlesOfKeyword` | main.py:44-50 | rows are grouped by keyword: the rows tagged with the i-th keyword are exactly what its search contributed |
| `Articles.TaggedWithNone` | main.py:47 | a keyword absent from the dictionary tags no row |
| `Articles.GenerateArticleData` | main.py:42-51 | the loop builds exactly the specified table, or raises the first exception |
| `Articles.CollectErrSticky` | main.py:45-49 | an exception ends the loop |

## Left out

- The Streamlit UI and session state (main.py:81-100, 125-156). These are widget calls and a store managed by the framework.
- Plotly figure objects and the `mode='lines'` and `hovermode` settings (main.py:30, 34-39). Only the trace list and the four layout titles are kept.
- The GDELT client (main.py:3, 45, 61, 79). The two searches are function parameters, so one run's answers are fixed per (kind, filter) pair. Call order, timing and retries of the real service are not modelled.
- `print` logging of swallowed timeline exceptions (main.py:63), and the unused `matplotlib` import (main.py:5).
- `pd.to_datetime` (main.py:68). Timestamps are already-ordered integers.
- Floating-point arithmetic and NaN. Values are `real`, and a missing value is `None`.
- A timeline table without a `datetime` column: every row carries a timestamp.
- A timeline table whose value column has a missing cell: tables are assumed rectangular. Rows are maps, and `HasColumn` treats a column that only some rows carry as absent, so `Timeline.Step` raises KeyError where pandas would fill the gaps with NaN.
- An article table whose present column has a missing cell: rows are maps, and a column is missing when some row lacks it. A table counts as `.empty` when it has no row or no row has any field, as pandas derives the columns from the rows' keys.
- Locale dependence of `%b`: English abbreviations are assumed.
- `Calendar.ParseSeenDate`: only the fixed-width 16-character form with upper-case `T` and `Z` is accepted. Python's `strptime` also accepts shorter digit runs, a space-padded field, lower-case `t` and `z`, and non-ASCII decimal digits (its patterns use Unicode `\d`, so full-width digits parse).
- `Calendar.DisplayText` and `Calendar.IsoDateText`: the year is always written with four digits, both in the article date (`%Y` at main.py:49) and in the date-picker dates (`'%Y-%m-%d'` at main.py:117-118). For years below 1000, platform `strftime` behaviour may differ.
- `Text.Split`: only the one-character separators the dashboard uses (`,` and `:`) are modelled.
- `Series.SortByDatetime`: any sorted permutation is allowed, where pandas' quicksort fixes one particular order of equal timestamps.
