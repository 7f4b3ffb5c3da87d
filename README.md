# LinkDetective scraper: extraction pipeline model

A Dafny model of the extraction core of the LinkDetective scraper
(`scrape_linkdetective` in `streamlit_app.py`, and the URL check the start
button applies before calling it). The scraper opens a dashboard page, waits
for its summary table, and reads each summary row. For each row it parses a
domain from cells 1 to 3. It then opens the row's detail overlay and reads
seller/price lines from the overlay's nested table. Every line becomes a
`(domain, seller, price)` record. When the overlay work throws, the row
gets one degraded `(domain, "", "")` record after any records already read
from it. The run ends with either the records or one error message.

The browser is not modelled. The page is plain data:

- `Pipeline.Page`: how the launch went, whether a summary row appeared
  within the wait, and the summary rows.
- `Pipeline.SummaryRow`: a row's text, its cell texts, and the outcome of
  its overlay work.
- `Detail.Overlay`: the nested rows read in full before any exception,
  plus a flag saying whether an exception followed them. This covers a
  missing trigger, an overlay that never became visible, a nested row that
  could not be read, and a failed Escape fallback after the close button
  could not be used (a failing close button alone is caught at line 141).
  A total failure is no rows with the flag set. The prefix is exact
  because appending a record is the last step of each nested-row
  iteration.

Files, one module each:

- `wrappers.dfy`: `Option`.
- `text.dfy`: Python's `str.strip()`, `str.split()` and `in` on strings,
  over the whitespace set of `str.isspace`.
- `domain.dfy`: the domain heuristic of lines 92-103.
- `detail.dfy`: the nested-row filter, the sentinel stop and the degraded
  record.
- `pipeline.dfy`: per-row contribution, accumulation over the rows, and
  the run outcome as specification functions, with the lemmas about them.
- `scraper.dfy`: the loops of the source as methods. They are the cell
  scan with `break`, the nested-row loop with `break` and the fallback
  append, and the row loop with `continue`. Each is proved to compute the
  specification functions.
- `app.dfy`: the URL check and the start-button flow.

Where one might expect otherwise, the model follows the code:

- A row with a domain whose overlay completes without any qualifying nested
  row contributes no record at all. One might expect every row with a
  domain to yield at least one record; the code does not do that.
  `Pipeline.RowRecordsEmptyIff` states when this happens.
- An overlay that fails part way keeps the records already read and gets
  the degraded record after them, not a single degraded record in their
  place. `Detail.OverlayFallback` states this.
- The browser is not told to quit when starting it or navigating raises
  (the handler at line 164). Teardown is not unconditional.
  `Scraper.Scrape` returns `quit == false` in that case.
- The URL check only tests the prefix `http`, so `httpfoo` is admitted,
  not only URLs with an HTTP(S) scheme.
- The empty-table check looks only at the first row's text, whether or
  not it is the only row.

## Model

| member | source | states |
|---|---|---|
| Text.StripSpec | streamlit_app.py:97 | `strip()` leaves text that neither starts nor ends with whitespace, and removes only whitespace at the two ends |
| Text.StripIdempotent | streamlit_app.py:97 | stripping twice is stripping once |
| Text.SplitEmptyIff | streamlit_app.py:98 | `split()` yields no token exactly when the text is all whitespace |
| Text.SingleTokenIff | streamlit_app.py:98 | on stripped text, `len(txt.split()) == 1` holds exactly when the text is non-empty with no whitespace in it |
| Text.ContainsAt | streamlit_app.py:123 | the `in` test succeeds whenever the pattern occurs at some index of the text |
| Text.ContainsIff | streamlit_app.py:123 | the `in` test holds exactly when the pattern occurs at some index of the text |
| Domain.DomainTextIff | streamlit_app.py:97-98 | a stripped cell passes the domain test exactly when it contains a `.` and has no whitespace |
| Domain.DomainOfNone | streamlit_app.py:92-103 | a row has no domain exactly when none of cells 1 to 3 passes; a row with fewer than 2 cells never has one |
| Domain.DomainOfSome | streamlit_app.py:95-100 | a parsed domain is the stripped text of a cell among 1 to 3 that passes, with no earlier cell in that range passing |
| Domain.DomainOfFirstCell | streamlit_app.py:95-100 | the first of cells 1 to 3 that passes always gives the row's domain |
| Domain.DomainOfWindowOnly | streamlit_app.py:96 | cell 0 and cells past index 3 never influence the domain |
| Detail.DetailRecords | streamlit_app.py:122-136 | every record read from nested rows carries the row's domain and a seller that is neither empty nor the sentinel; no more records than nested rows |
| Detail.DetailRecordsSnoc | streamlit_app.py:122-136 | reading one more non-sentinel nested row appends exactly that row's record, if it qualifies, after the earlier ones |
| Detail.DetailStopsAtSentinel | streamlit_app.py:122-124 | no nested row at or after the first sentinel row contributes |
| Detail.DetailRecordOrigin | streamlit_app.py:126-136 | every real record comes from a qualifying nested row before the sentinel: at least 2 cells, seller = stripped cell 0, price = stripped cell 1 |
| Detail.DetailRecordComplete | streamlit_app.py:126-136 | every qualifying nested row before the sentinel yields its record |
| Detail.OverlayFallback | streamlit_app.py:107-151 | an interrupted overlay adds exactly one fallback record, last, after the real records already read, which are kept; a completed overlay adds no fallback, and adds nothing when no nested row qualifies |
| Pipeline.RowRecordsEmptyIff | streamlit_app.py:91-144 | a summary row contributes nothing exactly when it has no domain, or its overlay completed with no qualifying nested row before the sentinel |
| Pipeline.CollectAppend | streamlit_app.py:85-151 | the records of later rows follow those of earlier rows: accumulation over `a + b` is accumulation over `a` followed by that over `b` |
| Pipeline.CollectAppendOnly | streamlit_app.py:85-151 | records are only appended: the records after `i` rows are a prefix of those after `j >= i` rows |
| Pipeline.CollectLast | streamlit_app.py:87-151 | processing one more row appends exactly that row's contribution |
| Pipeline.CollectFirst | streamlit_app.py:87-151 | the first row's records come first, then those of the remaining rows |
| Pipeline.CollectOrigin | streamlit_app.py:95-151 | every accumulated record carries the parsed domain of some summary row and is among that row's records |
| Pipeline.CollectFallbacks | streamlit_app.py:146-151 | the result holds exactly one degraded record per row that has a domain and whose overlay work failed |
| Pipeline.RunResultExclusive | streamlit_app.py:156-162 | the run returns records or an error, never both and never neither; returned records are all that was collected, and non-empty |
| Pipeline.RunResultCases | streamlit_app.py:57-165 | no rows in time gives "Data did not load", a first row showing the sentinel gives "Table is empty", nothing collected gives "No data collected", an escaping exception gives its message, otherwise the records |
| Scraper.ScanDomain | streamlit_app.py:95-100 | the cell loop with `break` computes the row's domain |
| Scraper.ReadStep | streamlit_app.py:122-136 | one pass of the nested-row loop over a non-sentinel row extends the accumulated records by exactly that row's records |
| Scraper.ReadNestedRow | streamlit_app.py:126-136 | reading one nested row before the sentinel appends exactly its record when it has two cells and a real seller, and nothing otherwise |
| Scraper.ReadOverlay | streamlit_app.py:107-151 | the nested-row loop with `break` and the exception handler append exactly the overlay's records to the accumulated ones |
| Scraper.Scrape | streamlit_app.py:54-165 | the whole run returns the specified outcome; the browser is told to quit exactly when it was started and navigated |
| App.AcceptsUrl | streamlit_app.py:186 | a URL is admitted exactly when it is `http` followed by anything |
| App.OnStart | streamlit_app.py:185-202 | a rejected URL shows the invalid-URL message and the scraper never runs; otherwise the run's error, or its non-empty records, are shown |

## Left out

- Browser setup (`setup_driver`, lines 30-51): Chrome options, driver paths and page-load timeout are foreign library configuration. Launch and navigation are modelled only by their outcome (`Pipeline.Launch`).
- Selenium waits, the `time.sleep` settle delays, JavaScript `scrollIntoView` and `click`, CSS selector lookups and the Escape key press (lines 62-70, 108-144). They appear only through their outcome: whether rows appeared (`Page.loaded`), and the nested rows read plus the exception flag (`Detail.Overlay`).
- Which step of the overlay work threw is not distinguished (trigger, visibility wait, nested-row read, close button or Escape fallback). Only how many nested rows were read before it matters to the records.
- Progress bar fractions and status texts (lines 58-105): floating-point UI side channels.
- The Streamlit layout, metrics, mean sellers per domain, top-10 chart and preview (lines 168-223, 237-259): presentation.
- The pandas DataFrame and the CSV export with its timestamped file name (lines 159, 225-235): library I/O. The records are modelled as a sequence of `Detail.Record` in the same order and with the same fields.
- The per-row `except: continue` (lines 153-154). It fires only on UI or library errors outside the overlay block: progress updates, status text, cell lookup and cell text reads. The model has no such failures, so no row is skipped that way.
- Exceptions that reach the outer handler (line 164) from anywhere other than starting the browser or navigating, such as the table lookup at line 76. Only launch and navigation failures are modelled there.
- The table read at line 76 is taken to be the rows the wait saw: the model has one row list per page, so a table that changes between the wait and the read is not represented.
- Idempotence of re-running against an unchanged page holds trivially, because every specification function is a function of the page. It is not stated as a lemma.
