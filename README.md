# Economic-calendar reconciliation, modelled in Dafny

This project models the reconciliation step of the economic-data bot in
`test.py`. The bot scrapes US economic-calendar rows (date, event name,
actual, forecast, previous), keeps the rows whose event name contains one of
the target keywords, and maps each event to a FRED series. That mapping uses
the registry entry with the longest keyword contained in the name. For
events not after today, it fetches FRED observations and overwrites the
scraped Actual and Previous figures with formatted FRED values. Finally it
removes duplicate rows.

Modules, one per file:

- `Wrappers` (`wrappers.dfy`): `Option`, standing for Python's `None`.
- `Registry` (`registry.dfy`): `SERIES_MAPPING` as an ordered sequence of
  entries (a dict iterates in insertion order), `TARGET_KEYWORDS`, Python's
  substring test, and the lookup of the first entry with a given series id.
- `Metric` (`metric.dfy`): `format_fred_value` and `get_fred_data`. The HTTP
  response is an input. Display values are `Unavailable` (the `暫無`
  sentinel), `NotApplicable` (`N/A`) or `Num(value, decimals, suffix)`.
  No digit strings are produced.
- `Calendar` (`calendar.dfy`): the keyword filter and the `'---'`
  placeholders of `get_filtered_calendar_data`. The rows arrive already
  parsed from the HTML.
- `Matcher` (`matcher.dfy`): the longest-keyword matching loop of `main`.
- `Reconcile` (`reconcile.dfy`): the year inference and date gate, the
  in-place override loop over an array of rows, `drop_duplicates`, and the
  whole run from scraped rows to the final table.

Where the code differs from what a reader might expect, the model follows
the code:

- An event dated in a later month than today is assigned the previous year.
  So a next-month event is treated as past, and it is overwritten rather than
  skipped. Only an event later in today's own month is skipped
  (`DateGate`, `NextMonthIsNotSkipped`).
- `level_change` does not divide by 1000. A change from 120000 to 150000 in
  unit `K` is the value 30000 with suffix `K`, not 30 (`LevelChangeIsNotScaled`).
  The unit suffix is appended for every unit, not only for thousands.
- `yoy` and `mom` append the entry's own unit, not a fixed percent sign.
  Every such entry in the registry has unit `%`.
- `get_fred_data` formats with the first registry entry that has the series
  id, not with the entry the event matched. It picks the reference
  observation by the matched entry's method.
- `strptime` raises outside any `try` for a row whose inferred date does not
  exist (29 February in a non-leap year), or whose inferred year is below
  1000 ('%Y' reads exactly four digits). The run then ends without a table
  (`Crashed`).
- A kept calendar row whose timestamp `strptime` rejects makes the whole
  calendar fetch return an empty table.

## Model

| member | source | states |
|---|---|---|
| Registry.FirstWithId | test.py:121 | the found entry carries the series id and no earlier entry does; none is found exactly when no entry has the id |
| Registry.SeriesMappingWellFormed | test.py:31-44 | the registry's keys are distinct and non-empty, so `if best_match_key` holds for every match and Matcher.Annotate's no-match clause applies to it |
| Metric.FormatFredValue | test.py:128-138 | a missing current value gives the unavailable sentinel, and only then; `latest` ignores the reference, scales K by 1/1000 with 0 decimals, keeps a `%` unit with 2 decimals, and otherwise uses 1 decimal and no suffix; any other method with a missing or zero reference gives N/A; yoy/mom give the percent change that carries the reference to the current value (1 decimal, unit suffix); level_change gives the unscaled difference (0 decimals, unit suffix); an unknown method gives N/A |
| Metric.LevelChangeIsNotScaled | test.py:137 | 150000 over 120000 under level_change in unit K is 30000 with suffix K |
| Metric.YearOverYearExample | test.py:136 | 310.3 over 300.0 under yoy is a rise of 103/30 percent, one decimal, suffix % |
| Metric.ParseAll | test.py:120 | parsing succeeds exactly when every value is "." or a number; it keeps the length, "." becomes missing and a number keeps its value |
| Metric.ParseObservations | test.py:120 | the parse loop yields what ParseAll specifies, including the failure on the first unparsable value |
| Metric.GetFredData | test.py:109-126 | a result is returned exactly when the fetch succeeded, at least three observations came back, all parse, and the series id is in the registry |
| Metric.FredReferencePairs | test.py:121-123 | Actual compares observation 0 with 12 (yoy, more than 12 observations) or 1; Previous compares 1 with 13 (yoy, more than 13) or 2; both use the first entry with the series id; each is unavailable exactly when its current observation is "." |
| Metric.FetchFredValues | test.py:109-126 | the step-by-step fetch, parse, lookup and format return what GetFredData specifies |
| Calendar.OrPlaceholder | test.py:103 | an empty figure becomes "---" and a non-empty one is kept |
| Calendar.Collect | test.py:91-104 | the collected rows exist exactly when every kept row has a readable timestamp; each kept row appears, every row's name contains a target keyword, and its actual and previous texts are non-empty; order and multiplicity are fixed by Calendar.CollectComposes |
| Calendar.CollectComposes | test.py:92-104 | the rows of a page are those of its first part followed by those of the rest, and one row gives its own record when kept, nothing when dropped and a failure when its timestamp fails; so the result is exactly the kept rows, once each, in page order |
| Calendar.GetFilteredCalendarData | test.py:85-107 | the scraping loop returns the collected rows, or an empty table when the fetch or a timestamp fails |
| Matcher.Longest | test.py:155-159 | the chosen entry's non-empty keyword is in the name, no contained keyword is longer, every earlier contained keyword is strictly shorter; nothing is chosen exactly when no non-empty keyword is contained |
| Matcher.LongestIsBestMatch | test.py:155-159 | the loop's choice is exactly the declarative best match (longest, first on ties) |
| Matcher.MatchSeries | test.py:155-159 | the inner loop with its running best index and length returns Longest's choice |
| Matcher.Annotate | test.py:160-162 | a written id and method belong to the best match; with non-empty keys, nothing is written only when no keyword matched |
| Matcher.AnnotateRows | test.py:153-162 | the outer matching loop annotates every row with Annotate of its name |
| Reconcile.DateGate | test.py:168-172 | the inferred date is invalid exactly when `strptime` would raise; a valid event is skipped exactly when it is in today's month on a later day |
| Reconcile.NextMonthIsNotSkipped | test.py:169-172 | an event on 02-05 seen on 2025-01-28 is dated 2024 and so treated as past |
| Reconcile.ReconcileRow | test.py:166-179 | the run raises for a row exactly when it matched and its date is invalid; date, name and forecast never change; a row not overwritten is unchanged; an overwritten row takes both FRED values |
| Reconcile.OverrideAllOrNothing | test.py:172-179 | for a scraped row, Actual changes exactly when Previous does, and exactly when the row matched, is not after today and the fetch succeeded; a future event keeps its row |
| Reconcile.ReconcileRows | test.py:166-179 | the in-place loop completes exactly when no matched row has an invalid date, and then each row is ReconcileRow of its old value |
| Reconcile.Distinct | test.py:181 | the result holds exactly the input's rows, without repeats, in the order of their first occurrences |
| Reconcile.PipelineFacts | test.py:145-181 | a run ends with "no data" exactly when the filtered calendar is empty; a final table has no duplicate rows and contains, unchanged, every row that matched nothing or is later in today's month |
| Reconcile.Run | test.py:145-181 | filtering, matching, the in-place override and deduplication together give the Pipeline outcome |

## Left out

- HTTP calls to the calendar site, FRED and Telegram. Each response is an input value; a failed call is `None`.
- HTML traversal with BeautifulSoup, the text stripping, and `strptime` of the scraped timestamp. Scraped rows arrive parsed, with the timestamp as an optional month and day.
- The `limit` request parameter (3, or 15 for yoy). The model accepts a response of any length.
- Float parsing and f-string rounding. Values are `real`, a display is a value with a decimals count, and `nan`/`inf` inputs are not modelled.
- `datetime.now()`. "Today" is a parameter.
- Environment-variable configuration, the Telegram test-mode prefix, `tabulate` rendering, the header and source lines, pandas display options, and printing.
- Sending the "no data" message is represented by the `NoData` outcome. Delivery itself is not modelled.
- check_market_day.py is not part of this model. Its trading-day decision is a lookup in an external exchange calendar.
- Metric.ParseObservations: builds a new sequence rather than rewriting each observation's `value` field in place.
- Reconcile.Distinct: compares rows as model values. Two FRED values that would print the same digits, or a scraped text equal to a printed FRED value, are not collapsed as `drop_duplicates` would collapse the rendered strings.
- Reconcile.Run: takes the registry and keyword set as parameters, and `main` passes `SeriesMapping` and `TargetKeywords`. FRED answers are given per row by position, with one answer for each row that fetches.
