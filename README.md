# APGO residency directory scraper, modelled in Dafny

`scraper.py` walks the APGO residency directory one id at a time. For each
page it fetches, it cuts fields out of the HTML by splitting on fixed
delimiter strings. It then assembles a `ResidencyInfo` record and flattens
every record into a row of a CSV file. This project models that pipeline:

- `Text.dfy`: Python's `str.split` on a non-empty separator (`Split`, found
  with `Find`), together with an independent character-by-character scan.
  `Count` counts non-overlapping occurrences and `Past` gives what follows
  the n-th one. Lemmas connect the two definitions.
- `Errors.dfy`: the exceptions `ScrapingError`, `AuthError` and
  `requests.exceptions.ReadTimeout`, as values of a `Result` type.
- `Extraction.dfy`: covers three functions.
  - `scrape_item_between` (`Extract`): `source.split(before)[instance].split(after)[0]`.
  - `safe_scrape_item_between` (`SafeExtract`).
  - `scrape_section` (`ScrapeSection`), whose markers are `"<n>.&nbsp;"`.
- `Fields.dfy`: every `scrape_*` field parser and the two records. It also
  holds the parsing half of `get_residency_info` (`ParsePage`). Layout lemmas
  show which bold span each field reads from a section laid out as a run of
  `<span class="bold">…</span>` spans.
- `Driver.dfy`: covers three pieces.
  - `scrape_page`'s classification of a response (`ScrapePage`).
  - `get_residency_info` (`GetResidencyInfo`).
  - The id loop of `scrape` (`Scrape`), a method whose loop invariant ties
    the accumulated list to the specification function `Successes`.
- `Csv.dfy`: the header and the 19-cell row that `generate_csv` writes for
  each record.

Where the code and its own documentation disagree, the model follows the
code. The docstring of `scrape_item_between` (scraper.py:85-87) promises
"the substring between before and after" and an error "if no such item
exists". The code (scraper.py:97-103) only fails when there are too few
`before` delimiters. A missing `after` is not a failure: `split(after)[0]`
always exists, so the result runs to the next `before` or to the end of the
text (`ExtractToEnd`).

Two consequences follow from that code.

- `scrape_section` (scraper.py:106-110) fails only when the marker of
  section `n` is missing. A missing marker for `n + 1` is not a failure.
- A record can be assembled with some fields empty. `SalaryMissingYears`
  shows this for a salary section that holds too few spans.

## Model

| member | source | states |
|---|---|---|
| Text.Split | scraper.py:98 | `str.split` on a non-empty separator yields at least one piece; its meaning is given by the lemmas below, against the scan `Count`/`Past` and against `Join` |
| Text.Find | scraper.py:98 | the position found is an occurrence of the separator with none before it; no position means the separator does not occur |
| Text.SplitJoin | scraper.py:98 | joining the pieces of a split with the separator gives back the original string |
| Text.SplitPiecesFree | scraper.py:98 | no piece of a split contains the separator |
| Text.SplitHead | scraper.py:98 | the first piece is the longest prefix in which no separator starts, and it stops at the end or at a separator |
| Text.SplitCount | scraper.py:98 | a split has one piece more than there are non-overlapping occurrences, counted by the scan |
| Text.SplitPast | scraper.py:98-99 | piece `n` exists exactly when the scan finds an `n`-th occurrence, and it is the first piece of what follows that occurrence |
| Text.CountPositive | scraper.py:98 | the scan counts at least one occurrence exactly when the separator occurs |
| Text.PastSuffix | scraper.py:98 | what follows the `n`-th occurrence is a suffix of the string, with the separator right in front of it |
| Text.SplitCons | scraper.py:98 | a piece free of the separator, followed by the separator, splits off as the first piece |
| Extraction.Extract | scraper.py:84-103 | the strict extraction fails exactly when there are fewer than `instance` occurrences of `before`, and then with a `ScrapingError` naming both delimiters |
| Extraction.ExtractOk | scraper.py:97-98 | on success the text starts right after the `instance`-th `before`, is a substring of the source, holds neither delimiter and ends at an `after`, the next `before` or the end |
| Extraction.DelimitedUnique | scraper.py:98 | at most one text satisfies that description, so it determines the result |
| Extraction.ExtractBetween | scraper.py:98 | text between a first `before` and a following `after` (with no `before` in between) is exactly what is returned |
| Extraction.ExtractToEnd | scraper.py:98 | with no `after` present, the extraction still succeeds and returns the rest of the text |
| Extraction.SafeExtract | scraper.py:65-81 | the best-effort wrapper never fails: `""` when there are too few `before`s, otherwise the strict result |
| Extraction.SafeExtractMeaning | scraper.py:65-81 | the best-effort result is `""` or the delimited text after the `instance`-th `before` |
| Extraction.Decimal | scraper.py:108-109 | `'{}'.format(n)` is a non-empty string of digits with no leading zero, denoting `n` |
| Extraction.Marker | scraper.py:108-109 | the marker of section `n` ends in `.&nbsp;` with at least one character before it |
| Extraction.MarkerDigits | scraper.py:108-109 | what stands before the `.&nbsp;` of a marker is the decimal digits of `n`, denoting `n` |
| Extraction.MarkerInjective | scraper.py:108-109 | different section numbers have different markers |
| Extraction.ScrapeSection | scraper.py:106-110 | extracting section `n` fails exactly when its marker is absent, with a `ScrapingError` naming the markers of `n` and `n + 1` |
| Fields.ScrapeName | scraper.py:113-117 | the program name is the best-effort text after its label, up to `</span>` |
| Fields.ScrapeState | scraper.py:120-124 | the state is the best-effort text after its label, up to `</span>` |
| Fields.ScrapeCity | scraper.py:127-131 | the city is the best-effort text after its label, up to `</span>` |
| Fields.ScrapeSalary | scraper.py:134-143 | fails exactly when section 10 is missing; otherwise four salaries, the best-effort bold spans 1, 3, 5 and 7 of that section |
| Fields.ScrapePto | scraper.py:146-155 | fails exactly when section 10 is missing; otherwise four time-off entries, bold spans 2, 4, 6 and 8 |
| Fields.ScrapeAvgStepScores | scraper.py:158-165 | fails exactly when section 19 is missing; otherwise two scores, bold spans 1 and 2 |
| Fields.ScrapeMinStepScores | scraper.py:168-175 | fails exactly when section 27 is missing; otherwise two scores, bold spans 2 and 3 |
| Fields.ScrapeDemographics | scraper.py:178-187 | fails exactly when section 17 is missing; otherwise total is span 1, female span 3 and male span 4 |
| Fields.ScrapeLastUpdated | scraper.py:190-194 | the date is the best-effort text after its label, up to the next `<` |
| Fields.ParsePage | scraper.py:197-209 | a record exists exactly when sections 10, 17, 19 and 27 are all present; otherwise the error is that of the first missing one, in the order 10, 27, 19, 17; a record holds 4 salaries, 4 time-off entries and 2 scores of each kind, each field being its parser's result |
| Fields.SalaryPtoLayout | scraper.py:134-155 | in a section of plain bold spans, salaries are the odd spans and time off the even spans |
| Fields.AvgScoresLayout | scraper.py:158-165 | in a section of plain bold spans, the average scores are the first two spans |
| Fields.MinScoresLayout | scraper.py:168-175 | in a section of plain bold spans, the minimum scores are spans 2 and 3, never the first |
| Fields.DemographicsLayout | scraper.py:178-187 | in a section of plain bold spans, total, female and male are spans 1, 3 and 4 |
| Fields.SpansCount | scraper.py:98 | plain text around a run of plain bold spans holds as many opening tags as spans |
| Fields.SalaryMissingYears | scraper.py:134-143 | a salary section with too few spans yields an empty salary for that year, not a failure |
| Driver.ScrapePage | scraper.py:36-62 | a page is returned exactly for a 200 response whose body does not say "Not Authorized"; a refused connection or another status is a `ScrapingError`, even when the body says "Not Authorized"; a 200 response saying it is an `AuthError`; a read timeout is passed on |
| Driver.GetResidencyInfo | scraper.py:197-209 | a failed fetch is the result; otherwise the result is the parse of the page, a record exists exactly when the page has all four sections and is well formed, and a missing section is a `ScrapingError` for a missing item (a failure for the scan, not a skip) |
| Driver.PageToRecord | scraper.py:197-209 | a 200 response with a complete page always yields its parsed record |
| Driver.SuccessesMatchIds | scraper.py:218-231 | the k-th record kept is the record of the k-th id kept |
| Driver.SuccessIdsMembership | scraper.py:218-231 | an id is kept exactly when it is in range and its record assembles; skips and failures contribute nothing |
| Driver.SuccessIdsAscending | scraper.py:218-231 | the ids kept lie in the range and strictly ascend |
| Driver.SuccessesBound | scraper.py:218-231 | at most one record per id in the range |
| Driver.SuccessesWellFormed | scraper.py:218-231 | every record kept is well formed |
| Driver.Scrape | scraper.py:212-231 | the loop over ids 1 to 286 returns exactly the successful records in ascending id order, at most 286 of them, all well formed |
| Csv.Row | scraper.py:261-279 | a record flattens to as many cells as there are headers (19), and reading the row back gives the record |
| Csv.RowFromRow | scraper.py:261-279 | every 19-cell row is the row of the record read from it |
| Csv.Header | scraper.py:237-255 | the nineteen column names, in the order the source lists them |
| Csv.RowCells | scraper.py:261-279 | name, state and city are cells 0-2, salaries 3-6, time off 7-10, minimum scores 11-12, average scores 13-14, then total, male, female and the update date |
| Csv.HeaderNames | scraper.py:237-255 | the headers of cells 0-2 and 15-18 name those fields, male before female |
| Csv.YearHeader | scraper.py:240-247 | year `y + 1` of the salaries and of the time off sits under the header for that year |
| Csv.ScoreHeader | scraper.py:248-251 | step `y + 1` of the minimum and average scores sits under the header for that step |

## Left out

- The network. A request's result is a `FetchOutcome`: a response with a
  status and a body, a refused connection, or a read timeout. `Scrape` takes
  the outcome of every id as a parameter. `Refused` stands for
  `ConnectionError` and its subclass `ConnectTimeout`, both caught at
  scraper.py:53. `TimedOut` stands for `ReadTimeout`. The URL and the
  30-second timeout are not modelled. Neither is any other `requests`
  exception.
- Progress messages (`print`). They only distinguish SUCCESS, SKIP and FAIL
  on the console. The match in `Scrape` names the three cases.
- Writing the CSV file: opening `residency_info.csv`, the `csv.writer`
  quoting, and the Python 2 `unicode(...).encode("utf-8")` step. Only the
  header and the row are modelled. `main` only chains `scrape` and
  `generate_csv`.
- `str.split` with an empty separator raises `ValueError`. Every delimiter
  in the scraper is a non-empty literal, so `Extract` requires non-empty
  delimiters instead.
- `instance` is a natural number. Python's negative list indices are not
  modelled, and no call site uses them.
- Csv.Row requires a well-formed record. The source would raise
  `IndexError` on a shorter list, but every record `scrape` returns is well
  formed (`Driver.Scrape`).
- Strings are sequences of characters. Text encoding is not modelled.
