# Price-history table shaping, modelled in Dafny

This project models the table-shaping core of a small stock-price report
script (`main.py`). The script downloads a ticker's price history and writes a
CSV of it, a one-row summary CSV and a price chart. Its logic lies between the
download and the files:

- **Column normalisation** (`_normalize_yfinance_columns`). The download's
  column labels are single-level or (field, ticker) pairs. Pairs collapse to
  the level that contains `"Close"`, and the first level wins when both do.
  When neither level contains it, each pair is joined with `"_"` and stripped.
- **History shaping** (`fetch_price_history` after the download). A missing or
  empty frame is refused with a `ValueError` naming the ticker. Otherwise the
  labels are normalised and the date index becomes a leading column
  (`reset_index`). The table is then cut down to those of
  `Date, Open, High, Low, Close, Volume` that are present, in that order.
- **Summary** (`export_summary_csv` without the file write). It reads the last
  row. `latest_date` is the first ten characters of the printed date. Each
  price and the volume is null exactly when its column is absent. A field
  that comes back as a collection is unwrapped to its last element.
- **Chart guard** (`export_price_png`). The chart refuses a table that lacks
  `Date` or `Close`.

Tables are immutable values (`Frames`). Each table is a list of column labels
plus one cell sequence per column. Labels may repeat, as pandas allows.
A repeated label explains the "value is a collection" case. `row[label]` yields
the cells of every column carrying the label (`Summary.Lookup`), and
`df[cols]` keeps all of those columns (`History.Project`). Cells are
identified by their printed form (`Scalar.text`). `float()` and `int()` are
kept abstract as `FloatOf`/`IntOf` of the chosen cell.

Modules: `Text` (Python's `str.strip()` and `[:n]`), `Frames` (data model,
label positions), `Columns` (normalisation), `History` (reset-index,
projection, fetch), `Summary` (summary record), `Report` (chart guard and
properties of the whole pipeline).

`fetch_price_history` does not check that `Date` and `Close` survived the
projection; only the guard in `export_price_png` (main.py:99-100) refuses such
a table. The summary's defensive unwrapping of collection-valued fields is
modelled as written.

## Model

| member | source | states |
|---|---|---|
| Text.Strip | main.py:40 | the result is the input minus its leading and trailing whitespace (Python's `isspace` set) and nothing else; neither end of the result is whitespace |
| Text.StripIdentityIff | main.py:40 | stripping leaves a string unchanged exactly when neither of its ends is whitespace |
| Text.StripIdempotent | main.py:40 | stripping an already stripped label changes nothing |
| Text.StripKeepsNonSpace | main.py:40 | every non-whitespace character, such as the joining "_", survives stripping |
| Columns.Normalize | main.py:24-42 | normalisation keeps the column count, the index and every cell; only labels change |
| Columns.NormalizeFlatIdentity | main.py:29-42 | single-level labels pass through unchanged, so normalising a normalised frame is the identity |
| Columns.FirstLevelWins | main.py:31-35 | with "Close" among first-level labels, each column takes its first-level label, even when the second level also has "Close" |
| Columns.SecondLevelFallback | main.py:32-37 | with "Close" only at the second level, each column takes its second-level label |
| Columns.JoinedFallback | main.py:38-40 | without "Close" at either level, column i becomes strip(a + "_" + b) and keeps the "_" |
| Columns.JoinedNeverCanonical | main.py:38-40 | a joined fallback label is never one of Date/Open/High/Low/Close/Volume |
| Columns.CloseSurvivesIff | main.py:34-40 | after normalisation "Close" is a label exactly when it was a label at some level before |
| History.NoDataMessage | main.py:55 | the no-data error message ends with the ticker |
| History.ResetIndex | main.py:60 | the index becomes column 0 (named by the index, else "index", or "level_0" when "index" is taken) ahead of the unchanged columns and the row count is kept; it fails exactly when that name is already a column |
| History.Wanted | main.py:63 | the selected label list holds exactly the canonical labels present, each once, in canonical order |
| History.Project | main.py:63-64 | rows are kept; the columns equal the reference list (each wanted label once per column carrying it); each kept column holds the cells of an input column with the same label |
| History.ProjectCounts | main.py:63-64 | each canonical label keeps all of its columns and every other label loses all of them, so a canonical label is present after projection iff it was before |
| History.ProjectOrdered | main.py:63 | projected columns follow the order Date, Open, High, Low, Close, Volume |
| History.ProjectUniqueLabels | main.py:63-64 | with no repeated labels the projected columns are exactly the present canonical labels in canonical order |
| History.ProjectKeepsOrder | main.py:64 | columns sharing a label keep their original relative order |
| History.Fetch | main.py:54-66 | an absent or empty (no rows or no columns) download gives the ValueError naming the ticker; a success has at least one row, as many as the download, and only canonical labels |
| History.FetchSucceedsIff | main.py:57-64 | a non-empty download fails only when the reset-index name is already a column; otherwise the result is the projection of the reset frame |
| Summary.Lookup | main.py:87-91 | `row[label]` is a single cell exactly when the label names one column, and then it is that column's cell of the row; otherwise it holds, in column order, the row's cell of each column carrying the label |
| Summary.UnwrapIsLastColumn | main.py:74-82 | unwrapping a looked-up value yields the row's cell in the right-most column carrying the label |
| Summary.FloatField | main.py:87-90 | a price field is null iff its column is absent, and otherwise the float of the last-row cell in the right-most column of that label |
| Summary.IntField | main.py:91 | the volume field is null iff the column is absent, and otherwise the int of the last-row cell in the right-most Volume column |
| Summary.LatestDate | main.py:86 | the date is at most ten characters; it is "" without a Date column, the first ten characters of the Date cell's printed form with one Date column, and the first ten characters of the printed collection of all Date cells of the row with several |
| Summary.Summarize | main.py:69-92 | a table without rows raises IndexError; otherwise the record carries the ticker, the ten-character date prefix (of the Date cell, or of the printed collection of Date cells when the label repeats) and the five null-iff-absent fields, all from the last row |
| Report.CheckChartColumns | main.py:99-100 | the chart export fails with its ValueError exactly when Date or Close is not a column |
| Report.FetchedHasLabel | main.py:57-64 | a canonical label is a column of the fetched table iff it is the reset-index name or a normalised label |
| Report.FetchedChartReadyIff | main.py:54-100 | the chart accepts a fetched table iff Date and Close survived shaping; for an index named "Date" that is iff "Close" was a label at some level |
| Report.FetchedSummaryExists | main.py:54-92 | every fetched table has a summary, and its close is null iff the table has no Close column |
| Report.FetchedSummaryDate | main.py:60-86 | for a download indexed by "Date", latest_date is the first ten characters of the last index value's printed form |

## Left out

- The download itself (`yf.download`, main.py:46-52) is not modelled. It is an input value: absent, or a frame.
- Plotting, `savefig` and `close` (main.py:102-111) are not modelled. Only the column guard before them is.
- Directory creation, the timestamped run directory, CSV writing and `main()` (main.py:13-21, 94-95, 114-136) are not modelled. They are I/O, the wall clock and orchestration.
- `float()` and `int()` are abstract (`FloatOf`, `IntOf` of the chosen cell). IEEE rounding, integer truncation and the conversion error on a non-numeric cell are not modelled.
- Summary.LatestDate and Summary.Summarize: when several columns are labelled "Date", `str()` of the resulting collection is pandas' printed form. The model takes that rendering as the parameter `seriesText` (applied to the row's Date cells in column order) and does not reproduce it.
- Column labels have at most two levels, which is what the download produces. Joining three or more levels is not modelled, and labels are strings, so `map(str, ...)` is the identity.
