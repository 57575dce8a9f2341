# nginx log analyzer: a Dafny model of its core

The analyzer (`TEST.py`) reads the newest nginx access log of a directory and
writes an HTML report of per-URL statistics. This project models its core and
proves properties about that model:

- **Choosing the log** (`get_latest_logfile`). Every file name that matches
  `nginx-access-ui.log-YYYYMMDD` is a candidate. It may carry an optional
  `_SHORT` or `.gz` suffix. The newest date wins, and the first of several
  names with that date wins (module `LogFiles`).
- **Choosing the reader** (`log_parser`). A path ending in `.gz` is read
  through gzip, any other as plain text (module `LogFiles`).
- **Aggregating** (`calculate`). One pass over the `(url, request_time)` pairs
  builds an insertion-ordered table of accumulators. Each accumulator holds
  `count`, `time_sum` and the list of times. The pass also keeps the totals.
  A second pass turns each accumulator into `count_pers`, `time_pers`,
  `time_avg`, `time_max` and `time_med`, each rounded to 3 decimals, and drops
  the list of times (module `Aggregate`). The numeric building blocks are in
  module `Numeric`: the sum, `max`, `statistics.median` (middle of the sorted
  sample) and `round(x, 3)` (round half to even).
- **Flattening for the report** (`data_for_html`). The table becomes the list
  of eight-field rows the report embeds. Only `time_sum` is rounded at this
  step (module `Report`).

How the source is modelled:

- A Python dict, which keeps insertion order, becomes a key sequence (`order`)
  plus a `map`.
- The accumulation and finalization loops are methods with loop invariants.
  Each is proved against specification functions defined one input pair at a
  time: `Urls`, `TimesOf`, `TotalTime`, `AccumOf` and `FinalStats`.

`calculate` returns an empty table only for an empty input. For a non-empty
input whose times add up to zero, line 69 raises `ZeroDivisionError`, which the
model returns as `Err(ZeroDivision)`.

## Model

| member | source | states |
|---|---|---|
| Aggregate.Calculate | TEST.py:50-75 | empty input gives an empty table; it fails with `ZeroDivision` exactly when there is at least one pair and the total time is zero; otherwise the keys are the input URLs in order of first appearance, and each key maps to the finalized statistics of its times |
| Aggregate.Accumulate | TEST.py:51-65 | after the pass, the key order is the URLs in order of first appearance; each accumulator holds that URL's count, time sum and list of times; `total_requests` is the number of pairs and `total_time` the running sum of their times |
| Aggregate.AccumulatedStep | TEST.py:55-63 | one iteration (create the accumulator if the URL is new, then record the time) keeps the key order and the accumulators equal to those of the pairs seen so far |
| Aggregate.Record | TEST.py:61-63 | recording a time adds one to `count`, adds the time to `time_sum` and appends it to `times` |
| Aggregate.FinalizeAll | TEST.py:67-74 | fails exactly when there is a key and the total time is zero (line 69 divides by it); otherwise every key is finalized and nothing else is added |
| Aggregate.Finalize | TEST.py:68-74 | `count` and `time_sum` pass through finalization unchanged, and the list of times is dropped |
| Aggregate.FinalizedMax | TEST.py:71 | `time_max` is the rounding of one of the URL's times, and no time of the URL rounds above it |
| Aggregate.FinalizedAvgAndMedianBounds | TEST.py:70-72 | `time_avg` and `time_med` lie between the rounded minimum time and `time_max` |
| Aggregate.TimesOfNonEmpty | TEST.py:55-63 | a URL has a non-empty list of times exactly when it is a key, so `max`, `median` and the average never see an empty list |
| Aggregate.UrlsOccur | TEST.py:54-60 | a URL is a key exactly when some input pair carries it |
| Aggregate.UrlsDistinct | TEST.py:55-56 | no URL is listed twice among the keys |
| Aggregate.UrlsInFirstAppearanceOrder | TEST.py:55-56 | if key `i` comes before key `j`, then key `i` occurs in the input before any occurrence of key `j` |
| Aggregate.CountIsOccurrences | TEST.py:61 | a URL's `count` is its number of occurrences in the input |
| Aggregate.FinalCountAndSum | TEST.py:61-62 | in the finalized table, `count` is the number of occurrences and `time_sum` the sum of the URL's times |
| Aggregate.OccurrencesSnoc | TEST.py:61 | one more pair raises the occurrence count of its own URL by one and leaves every other URL's count unchanged |
| Aggregate.TotalsStep | TEST.py:61-65 | one more pair adds one to the sum of counts and its time to the sum of time sums over the keys |
| Aggregate.CountsAddUp | TEST.py:61-64 | the counts of all URLs add up to `total_requests` |
| Aggregate.TimesAddUp | TEST.py:62-65 | the time sums of all URLs add up to `total_time` |
| Aggregate.CountShareTotalIsShareOfTotal | TEST.py:68 | the sum of the unrounded request shares is the share of the sum of counts |
| Aggregate.TimeShareTotalIsShareOfTotal | TEST.py:69 | the sum of the unrounded time shares is the share of the sum of time sums |
| Aggregate.CountSharesSumTo100 | TEST.py:68 | before rounding, the request shares of all URLs add up to exactly 100 |
| Aggregate.TimeSharesSumTo100 | TEST.py:69 | before rounding, the time shares of all URLs add up to exactly 100 |
| Aggregate.RoundedSharesNear | TEST.py:68-69 | for any list of keys, the rounded shares add up to within 0.0005 per key of the unrounded ones |
| Aggregate.ReportedSharesNear100 | TEST.py:68-69 | the reported `count_pers` and `time_pers` each add up to 100 within 0.0005 per URL |
| Numeric.Max | TEST.py:71 | `max` returns an element of the list that no element exceeds |
| Numeric.Min | TEST.py:70-72 | the minimum is an element of the list that no element is below (used to bound the average and the median) |
| Numeric.MeanBetweenMinMax | TEST.py:70 | `time_sum / count` lies between the minimum and the maximum time |
| Numeric.MeanBetween | TEST.py:70 | bounds on every element bound the mean |
| Numeric.SumBetween | TEST.py:62 | bounds on every element bound the sum by the same multiple of the length |
| Numeric.Insert | TEST.py:72 | inserting into a sorted list keeps it sorted, adds exactly that element, and puts the smaller of the element and the old head first |
| Numeric.SortedCopy | TEST.py:72 | the sample `statistics.median` sorts becomes a sorted permutation of itself |
| Numeric.MiddleBetween | TEST.py:72 | the middle of a sorted list lies between its two middle elements |
| Numeric.Median | TEST.py:72 | the median lies between the minimum and the maximum of the sample |
| Numeric.MedianSplitsSample | TEST.py:72 | at least half of the sample is at most the median, and at least half is at least the median |
| Numeric.CountOnSidePermutation | TEST.py:72 | how many elements lie on one side of a value depends only on the multiset of elements, not on their order |
| Numeric.SortedSplit | TEST.py:72 | in a sorted list, a value between elements `lo - 1` and `hi` has at least `lo` elements at most it and `n - hi` elements at least it |
| Numeric.RoundHalfEven | TEST.py:68-72 | rounding to an integer moves a value by at most one half, and an exact tie goes to the even neighbour |
| Numeric.Round3 | TEST.py:68-72 | `round(x, 3)` moves a value by at most 0.0005 |
| Numeric.Round3Monotone | TEST.py:68-72 | rounding never reverses the order of two values |
| Numeric.RoundHalfEvenMonotone | TEST.py:68-72 | rounding to an integer never reverses the order of two values |
| Report.DataForHtml | TEST.py:77-99 | one row per key in key order; every field is copied from the key's statistics, and only `time_sum` is rounded to 3 decimals |
| Report.ReportCoversInput | TEST.py:77-99 | for the table `calculate` produces, the report has one row per distinct URL in order of first appearance, and its `count` column adds up to the number of input pairs |
| Report.RowCountsArePrefixTotals | TEST.py:81 | the `count` column of the first `n` rows adds up to the occurrence counts of the first `n` keys |
| LogFiles.SelectReader | TEST.py:48 | a path is read through gzip exactly when it ends in `.gz` |
| LogFiles.Digits | TEST.py:118 | a date is written as exactly eight decimal digits |
| LogFiles.DecimalOfDigits | TEST.py:121 | `int` of the eight-digit rendering of a date gives back the date |
| LogFiles.DigitsOfDecimal | TEST.py:118-121 | every digit string is the zero-padded rendering of its `int` value |
| LogFiles.LogDateOfLogName | TEST.py:118-121 | every log file name (prefix, eight digits, optional `_SHORT` or `.gz`, optional final newline accepted by `$`) matches, and the match yields its date |
| LogFiles.LogDate | TEST.py:118-121 | a name that matches yields an eight-digit date, and the name is built from that date, an optional `_SHORT` or `.gz` and an optional final newline; `LogDateOfLogName` gives the converse |
| LogFiles.LatestLogfile | TEST.py:112-133 | the result is `None` exactly when no name matches with a positive date; otherwise it is the name with the greatest date, the first such name if several share it, and any name with those two properties is that result |

## Left out

- Reading the log lines (TEST.py:27-39, 43-44): file and gzip I/O, generators, and the regular expression that extracts the URL and the time. `calculate` is modelled on the sequence of extracted pairs, and `log_parser` only by its choice of reader.
- Floating point: times are exact reals. The sums, divisions and `round(x, 3)` are exact on reals, and `round` rounds half to even on the exact value, not on the nearest binary float.
- `init_config`, `make_report` (HTML template and JSON output), `main` and logging: these are I/O.
- LogFiles.LatestLogfile: it takes the directory listing as a parameter (`os.listdir` is left out) and returns the matching file name rather than `os.path.join(log_dir, name)`. The `ValueError` branch (TEST.py:125-126) cannot be reached, because eight matched digits always convert.
- LogFiles.LogDate: `\d` is modelled as the ASCII digits `0`-`9` only. Python's `\d` on `str` also matches other Unicode decimal digits.
- Report.ReportCoversInput: it takes occurrence counts as a hypothesis instead of the full finalized statistics. `Aggregate.Calculate` and `Aggregate.FinalCountAndSum` supply that hypothesis.
