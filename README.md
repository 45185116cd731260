# Study Efficiency Tracker — a Dafny model of its log and analytics logic

The application is two Streamlit pages around one file, `data.csv`.

- The **survey page** (`Lab02/pages/Survey.py`) collects a study session through a form. It refuses a submission without topics. Otherwise it appends one six-column row to `data.csv`, writing the header only when it creates the file. Under the form it shows "Total Sessions", "Total Study Hours" and "Average Focus", or a "no data" warning.
- The **analytics page** (`Lab02/pages/Visuals.py`) loads `data.csv`, falling back to an empty table when that fails. It draws three things:
  - a fixed table of subject scores;
  - a study-hours line chart, filtered by a subject select box whose options are `'All'` followed by the sorted distinct subjects;
  - a focus/understanding chart, filtered by an inclusive study-hours range.

  The line and scatter charts each have fixed example data for when the table is empty; the score chart never reads the table.

The model keeps the values these widgets and charts receive. It drops the widgets themselves.

- `study_data.dfy`, module `StudyData`: the file format. A session (`Session`) is the six-field record. The cells of its row follow the column order of the header. `ReadCsv` plays the part of `pd.read_csv`. `ParseRowsOfEncode` proves that the encoded rows parse back as exactly those sessions, and `ReadCsvOfLog` that a whole file made of the header and those rows does.
- `survey.dfy`, module `Survey`:
  - the form (`Form`), with the bounds its select box and sliders impose;
  - `Validate`, the topics check and the record it builds;
  - the class `DataFile`, which is `data.csv` itself. Its fields are `present` (whether the file exists) and `lines` (header first), plus a ghost `log` of sessions. `Append` and `Submit` change them. `Summary` is the metrics section;
  - the totals behind the metrics, with their lemmas.
- `string_order.dfy`, module `StringOrder`: Python's `<` on `str` (code point by code point) and `sorted(set(xs))`. The lemmas prove it is a strict total order and that the strictly ascending arrangement of a set of strings is unique.
- `visuals.dfy`, module `Visuals`: `load_csv_data`, the score table, the filters and the chart views.
  - A pandas boolean-mask filter keeps the index labels of the surviving rows. Both charts are drawn against those labels, since no x column is given. So a filter is modelled by the ascending list of labels it keeps (`Where`), and chart points carry the row label.

Representation choices:

- Study hours are whole numbers of half hours. The survey slider steps by 0.5 from 0.5 to 8.0, so 1..16 represents them exactly.
- The analytics page's range slider is a float slider with Streamlit's default step of 0.01. Its bounds are therefore hundredths of an hour, and a row is kept when `lo <= 50 * halfHours <= hi`.

What the code does and does not do:

- The survey page checks only that topics are non-empty. The numeric ranges are guaranteed by the widgets alone, so `Submit` takes `form.InWidgetRange()` as a precondition rather than returning a range error.
- Reading does not skip malformed rows one by one. Any read failure makes `load_csv_data` return an empty table.
- The subject scores are a hard-coded dictionary in `create_subject_scores_chart`.
- No correlation or other statistic beyond the count, the hours sum and the focus mean is computed.

## Model

| member | source | states |
|---|---|---|
| `StudyData.CellsFollowColumns` | Lab02/pages/Survey.py:64-71 | A new row has six cells. The i-th cell is the value that the i-th header column (timestamp, subject, study_hours, focus_level, understanding, topics_covered) looks up. No other name is a column. |
| `StudyData.ParseCells` | Lab02/pages/Survey.py:89 | A row read back as a session is exactly the cells that session writes. |
| `StudyData.ParseCellsOfCells` | Lab02/pages/Survey.py:73-78 | A written session's row reads back as that session. |
| `StudyData.Encode` | Lab02/pages/Survey.py:76 | The log's data lines: one per session, in order, each being that session's row. |
| `StudyData.EncodeAppend` | Lab02/pages/Survey.py:76 | Appending a session appends exactly its row to the file's data lines. |
| `StudyData.ParseRows` | Lab02/pages/Survey.py:89 | The rows below the header parse exactly when every line is a well-formed data row. A successful parse re-encodes to those very lines. |
| `StudyData.ReadCsv` | Lab02/pages/Survey.py:88-89 | A missing file is a read error, and so is an existing empty file. A successful read means the file was the header followed by the rows of the returned sessions. |
| `StudyData.ParseRowsOfEncode` | Lab02/pages/Survey.py:73-89 | Parsing the encoded rows of any log gives back that log, unchanged and in order. |
| `StudyData.ReadCsvOfLog` | Lab02/pages/Survey.py:73-89 | A file holding the header and a log's rows reads back as that log. |
| `Survey.Validate` | Lab02/pages/Survey.py:60-71 | A submission is rejected with the topics error exactly when topics are empty. Otherwise the record carries the form's five values unchanged, stamped with the given timestamp. |
| `Survey.ValidatedIsAccepted` | Lab02/pages/Survey.py:23-71 | An accepted record from in-range widgets meets four bounds: subject is one of the seven labels, hours are 0.5 to 8.0 in half-hour steps, both levels are 1 to 10, and topics are non-empty. |
| `Survey.TotalHalfHours` | Lab02/pages/Survey.py:95 | `df['study_hours'].sum()` in half hours: when every session has at least half an hour, the total is at least half an hour per session. `TotalsAppend` and `TotalsBounds` state the rest. |
| `Survey.TotalFocus` | Lab02/pages/Survey.py:98 | The sum of the focus levels, the numerator of `df['focus_level'].mean()`: when every level is at least 1, the total is at least 1 per session. `TotalsAppend` and `TotalsBounds` state its growth and bounds. |
| `Survey.TotalsAppend` | Lab02/pages/Survey.py:95 | Appending a record increases the total hours by exactly its hours and the focus total by exactly its focus. |
| `Survey.TotalsBounds` | Lab02/pages/Survey.py:93-99 | For accepted records, total hours lie between 0.5 and 8.0 hours per session, and the focus total between 1 and 10 per session. |
| `Survey.DataFile.constructor` | Lab02/pages/Survey.py:75 | The initial state: no data.csv exists, so there are no lines and no sessions. |
| `Survey.DataFile.Append` | Lab02/pages/Survey.py:73-78 | The invariant is kept and the log grows by the session. If the file existed, the old lines are a prefix and exactly one row is added with no header. Otherwise the file becomes the header followed by the one row. |
| `Survey.DataFile.Submit` | Lab02/pages/Survey.py:60-78 | Empty topics: the error is returned and the file is untouched. Otherwise exactly one record is written, holding the form's values and the timestamp, with the header-or-append rule of `Append`. The session count grows by one and the hours total grows by exactly the record's hours. |
| `Survey.DataFile.Summary` | Lab02/pages/Survey.py:88-103 | For a file that keeps the invariant, the "no data" warning appears exactly when no session is recorded. Otherwise "Total Sessions" is the number of records and "Total Study Hours" is their summed hours. The focus total backs "Average Focus" and lies within 1 to 10 per session. |
| `StringOrder.Below` | Lab02/pages/Visuals.py:48 | Python's `<` on `str`, used by `sorted`: code point by code point, a proper prefix first. Its own contract says only that it is strict (no string is below an equal one); the order laws are the lemmas below. |
| `StringOrder.BelowIrreflexive` | Lab02/pages/Visuals.py:48 | No string sorts before itself. |
| `StringOrder.BelowTransitive` | Lab02/pages/Visuals.py:48 | The string order is transitive. |
| `StringOrder.BelowTotal` | Lab02/pages/Visuals.py:48 | Of two different strings, one sorts before the other. |
| `StringOrder.BelowAsymmetric` | Lab02/pages/Visuals.py:48 | Two strings never sort before each other. |
| `StringOrder.AscendingHasNoDuplicates` | Lab02/pages/Visuals.py:48 | A strictly ascending list repeats no value. |
| `StringOrder.Insert` | Lab02/pages/Visuals.py:48 | Inserting into a strictly ascending list keeps it strictly ascending. The values afterwards are the old ones plus the new one. |
| `StringOrder.SortedUnique` | Lab02/pages/Visuals.py:48 | The result is strictly ascending and holds exactly the input's values. |
| `StringOrder.AscendingIsUnique` | Lab02/pages/Visuals.py:48 | Two strictly ascending lists with the same values are equal. So the result is what any correct `sorted(unique(...))` returns. |
| `Visuals.SubjectScores` | Lab02/pages/Visuals.py:15-33 | The subject and score columns have the same length as the dictionary; `SubjectScoresAsGiven` states their contents. |
| `Visuals.LoadCsvData` | Lab02/pages/Visuals.py:8-12 | Loading never fails. Any read error gives the empty table; a successful read gives its rows. |
| `Visuals.LoadSeesLog` | Lab02/pages/Visuals.py:8-12 | The analytics page loads exactly the sessions the survey page recorded, in submission order; no file gives no rows. |
| `Visuals.SubjectScoresAsGiven` | Lab02/pages/Visuals.py:19-30 | The score table has five subjects and five scores of equal length, as listed, paired position by position, with no subject repeated. |
| `Visuals.Where` | Lab02/pages/Visuals.py:53 | The boolean-mask indexing `frame[mask]` (also at lines 74-77). Its own contract says only that it keeps at most as many labels as rows; what it keeps is stated by `WhereSound`, `WhereAscending`, `WhereComplete` and `WhereExact`. |
| `Visuals.WhereSound` | Lab02/pages/Visuals.py:53 | Every label a boolean mask keeps names a row, and that row's mask entry is true. |
| `Visuals.WhereAscending` | Lab02/pages/Visuals.py:53 | The kept labels are strictly ascending, so the kept rows are an order-preserving subsequence. |
| `Visuals.WhereComplete` | Lab02/pages/Visuals.py:53 | Every row whose mask entry is true is kept. |
| `Visuals.WhereExact` | Lab02/pages/Visuals.py:74-77 | A mask keeps exactly the rows whose entry is true, in row order. The result is empty exactly when no entry is true. |
| `Visuals.SubjectFilter` | Lab02/pages/Visuals.py:51-53 | Row i is kept exactly when `'All'` is selected or row i's subject equals the selection. The kept labels are ascending. |
| `Visuals.AllKeepsEveryRow` | Lab02/pages/Visuals.py:51-52 | Selecting `'All'` returns the loaded rows unchanged. |
| `Visuals.SubjectKeepsItsRows` | Lab02/pages/Visuals.py:53 | Selecting a subject returns exactly the loaded records with that subject. |
| `Visuals.HourFilter` | Lab02/pages/Visuals.py:74-77 | Row i is kept exactly when lo <= its hours <= hi. The kept labels are ascending. The result is empty exactly when no row is in range. |
| `Visuals.HourBoundsInclusive` | Lab02/pages/Visuals.py:74-77 | A row whose hours equal either bound is kept. |
| `Visuals.HourRangeInverted` | Lab02/pages/Visuals.py:74-77 | A range with lo > hi keeps nothing. |
| `Visuals.RangeExample` | Lab02/pages/Visuals.py:74-77 | Rows of 1.0, 3.0 and 5.0 hours filtered to 2.0..5.0 keep the last two, which total 8.0 hours. |
| `Visuals.SubjectOptions` | Lab02/pages/Visuals.py:48 | The options begin with `'All'` and the rest are strictly ascending; `SubjectOptionsShape` adds that they are exactly the data's subjects. |
| `Visuals.SubjectOptionsShape` | Lab02/pages/Visuals.py:48 | The options start with `'All'`. The rest are strictly ascending, so free of duplicates, and are exactly the subjects present in the data. |
| `Visuals.TrendView` | Lab02/pages/Visuals.py:36-57 | `create_study_trends_chart`: the example series exactly when the table is empty, otherwise at most one point per row. See `TrendFallback` and `TrendPlotsSelectedRows` for the full statement. |
| `Visuals.TrendFallback` | Lab02/pages/Visuals.py:39-46 | The trend chart shows the example series exactly when the table is empty. That series is three dates with 3.5, 2.0 and 4.0 hours. |
| `Visuals.TrendPlotsSelectedRows` | Lab02/pages/Visuals.py:47-55 | With rows, the chart offers the subject options. It plots every row the selection keeps, and only those, as (row label, hours), in row order. |
| `Visuals.ScatterView` | Lab02/pages/Visuals.py:60-84 | `create_focus_understanding_chart`: the example exactly when the table is empty; a drawn chart has at least one and at most one point per row. See `ScatterFallback`, `ScatterEmptyRange`, `ScatterPlotsRowsInRange` and `DefaultRangeShows`. |
| `Visuals.DefaultRangeShows` | Lab02/pages/Visuals.py:72-82 | On the slider's initial range (1.0, 4.0) the chart keeps exactly the rows of 1.0 to 4.0 hours, both included, and shows the message exactly when there is none. |
| `Visuals.ScatterFallback` | Lab02/pages/Visuals.py:63-70 | The focus/understanding chart shows the fixed five-point example exactly when the table is empty. |
| `Visuals.ScatterEmptyRange` | Lab02/pages/Visuals.py:79-82 | With rows, "No data in selected range." appears exactly when no row's hours lie in the range. A chart is never drawn with zero points. |
| `Visuals.ScatterPlotsRowsInRange` | Lab02/pages/Visuals.py:72-80 | With rows, the chart plots exactly the rows in range, in row order, each with its own focus and understanding. |

## Left out

- Streamlit is left out because it is UI: page configuration, titles, the form, sliders and select boxes, messages, `st.metric`, `st.dataframe` and the charts. The model keeps only the values they receive or return, including the selected subject and the chosen range.
- The success message and session summary text (Survey.py lines 80-82) are left out because they are display text.
- `datetime.now()` is a clock. The timestamp is an opaque string parameter of `Submit` and `Validate`.
- `Survey.DataFile.Summary`: the mean and the `:.1f` formatting are left out because they are floating point. The model gives the sums and the count over integers, and proves the average focus lies in 1..10.
- CSV text is left out: quoting, separators, the textual form of numbers, and pandas type inference. Cells are typed values. In particular, pandas reads a topics text that is one of its NA markers (`NA`, `None`, `null`, `nan`, `N/A`) back as NaN, and a topics column whose texts all look numeric back as numbers; the model reads every text back unchanged. No chart or metric uses the topics.
- `StudyData.ReadCsv` / `Visuals.LoadCsvData`: a header other than the six columns in their order, or a row outside the schema, is a read error of the model's own, so the analytics page falls back to the empty table. pandas rejects only a row with more fields than the header (a ParserError): then the analytics page falls back to the empty table as the model does, and the survey page, whose read at Survey.py line 89 has no `try`, raises. Other hand-edited files pandas reads, and the pages then either work (the same columns in another order, since Visuals.py lines 48-55 and 74-80 select columns by name) or raise: a KeyError for a missing `subject` column (Visuals.py line 48) or `study_hours` column (Survey.py line 95); a TypeError for a non-numeric `study_hours` cell (compared with a float at Visuals.py line 75) or an empty `subject` cell (NaN in `sorted` at Visuals.py line 48); a ValueError for a non-numeric `study_hours` cell on the survey page (the joined text formatted with `:.1f` at Survey.py line 96).
- Row values that are not multiples of half an hour cannot be represented. They can only come from a hand-edited file.
- `Survey.DataFile.Summary` requires the file invariant, so its "warning exactly when no session is recorded" holds only for files the invariant admits. The invariant holds when only the survey page writes data.csv, as the application does. Files outside it, and what the source page shows for each:
  - a data.csv that exists with zero bytes: Survey.py line 88 checks the size, so the page shows the warning, as the model does for no file;
  - a data.csv holding only the header: it passes the size check and reads as zero rows, so the page shows "Total Sessions" 0, "0.0" hours and "nan/10" average focus instead of the warning;
  - a zero-byte data.csv to which a submission appends: the row is written with no header (Survey.py line 76), pandas takes it as the header, and the page raises a KeyError at line 95;
  - a data.csv with a foreign header: see the `StudyData.ReadCsv` line above.
- A subject literally named `All` in the data is left out. It cannot come from the survey's seven labels. Such a row would appear in the options beside the sentinel but could never be selected alone.
- Concurrent submissions are left out: the model assumes a single writer. The page takes no lock, so simultaneous submissions from two browser sessions can both find data.csv absent (Survey.py line 75) and both create it (line 78), losing one row, and their appends can interleave.
- Correlation statistics are left out because the code computes none.
- `main` and the `__main__` guard of Visuals.py are left out because they only wire the pieces together: `main` calls `load_csv_data` and passes the table to the trend and scatter charts, after drawing the score chart. `LoadCsvData`, `TrendView` and `ScatterView` are those pieces.
