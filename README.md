# ERCOT SCED ORDC loader, modelled in Dafny

`execute` in `main.py` loads one day of ERCOT's SCED system lambda reports
(report type 13221) and writes them to S3 as Parquet. It works in five steps:

1. It selects the publication window from the clock: from the midnight that
   starts yesterday up to the midnight that starts today.
2. It keeps the listed documents published in that window whose friendly
   name ends in `csv`.
3. It downloads each kept document and appends its table to the combined
   table.
4. It normalises the combined table:
   - strips the column labels;
   - renames `SCEDTimestamp` to `effective_from`, and two other columns;
   - drops `BatchID`;
   - parses `effective_from` with `%m/%d/%Y %H:%M:%S`;
   - adds `effective_to` five minutes later;
   - floors both to five minutes;
   - adds `delivery_date` as `YYYY-MM-DD`;
   - sorts the rows by `effective_from`.
5. It hands the table to pyarrow. pyarrow refuses repeated column labels.

The project has one module per concern:

- `Civil`: the proleptic Gregorian calendar. Instants are integer
  microseconds on a local clock without daylight-saving shifts.
- `Text`: `str.strip`, `str.endswith`, decimal digits and zero padding.
- `Timestamps`: strptime for the report's format, the five-minute floor,
  and strftime for the delivery date.
- `Window`: the window, as one clock reading defines it and as the code
  computes it from ten readings.
- `Documents`: the filter.
- `Frames`: positional tables, `DataFrame.append`, and the download loop
  `Accumulate`.
- `Normalize`: the normalisation.
  - Each step is specified by a function (`ParseFrom`, `Derive`, `Convert`,
    `Prepare`, `SortRows`).
  - The steps also run as methods of a `Frame` class whose fields are
    changed in place, the way pandas' `inplace=True` calls change the
    DataFrame.
- `Job`: one whole run.

Tables are kept positional (a list of labels and rows of cells) because
labels can repeat after stripping and renaming. Lookup by label takes the
first column with that label. Each pandas or pyarrow step that fails on a
repeated label is modelled as failing with `DuplicateColumn`.

Failures are values of type `Error`:

- `NoDocuments`: the listing is not empty but the filter kept nothing, so
  `df` is still `None` at line 71.
- `DownloadFailed`: the downloads map has no table for a kept document.
- `MissingColumn`, `DuplicateColumn`: a label is missing or repeated. An
  empty listing is `MissingColumn("Document.PublishDate")`: line 33 makes a
  frame without columns from it, and line 34 raises KeyError.
- `BadTimestamp`: an `effective_from` text does not parse.

Three behaviours of the code that the model follows:

- When a non-empty listing keeps no document, the assertion at line 49 does
  not trip, because it only tests for `None`. The run fails at line 71
  (`NoDocuments`). An empty listing fails earlier, at line 34.
- A reading at 23:57:18 gets `effective_to` = 00:00 of the next day. It
  does not get 23:55: the five minutes are added before the floor.
- `sort_values` uses quicksort, which is not stable. The model therefore
  fixes only the order of the datetimes, not the order among equal ones.

## Model

| member | source | states |
|---|---|---|
| Window.SelectWindow | main.py:17-25 | to_date is a midnight, with now in the day it starts; from_date is exactly one day earlier |
| Window.WindowMidnights | main.py:17-25 | to_date is 00:00 of now's date and from_date is 00:00 of the previous date |
| Window.WindowIsYesterday | main.py:17-25 | an instant is in the window exactly when its date is the day before now's date |
| Window.AsWrittenAgreesOnOneReading | main.py:17-25 | when all ten clock reads give the same instant, the code's arithmetic gives SelectWindow |
| Window.TickBetweenReads | main.py:17-25 | reads at 23:59:59.999999 then 00:00:00 give a to_date one microsecond before midnight, which is neither day's window |
| Window.ClockOffset | main.py:18-25 | the time of day subtracted from a bound, built from separate readings, is at least zero and less than one day |
| Window.WindowAsWritten | main.py:17-25 | from the ten readings in evaluation order, from_date lies within the day that ends one day before its first reading, and to_date within the day before its own reading |
| Window.StartOfDay | main.py:22-25 | subtracting hour, minute, second and microsecond leaves the midnight at or before the instant |
| Documents.Keep | main.py:43-44 | a document passes exactly when its publish date is at or after from_date and before to_date and its name is some text followed by csv |
| Documents.FilterDocuments | main.py:43-44 | every kept document is in the window and has a name ending in csv, and there are at most as many as listed (KeptCount states the multiplicities) |
| Documents.KeptCount | main.py:43-44 | each passing document is kept as often as it is listed; each other document is kept zero times |
| Documents.KeptIff | main.py:43-44 | a document is kept exactly when it is listed and passes both tests |
| Documents.FilterConcat | main.py:43-44 | filtering a listing in two parts gives the two results one after the other, so listing order is kept |
| Documents.FilterKeepsAll | main.py:43-44 | a listing whose documents all pass is kept whole |
| Text.EndsWith | main.py:44 | endswith(suffix) holds exactly when the name is some text followed by suffix |
| Text.SuffixSplit | main.py:44 | comparing the last characters with the suffix is the same as splitting the name into some text and the suffix |
| Documents.SuffixExamples | main.py:44 | endswith('csv') is case-sensitive and needs no dot: x_csv passes, x.CSV and sced.zip do not |
| Job.KeptAreYesterday | main.py:17-44 | every kept document was published on the day before the run's date, under a name ending in csv |
| Frames.Append | main.py:66 | append keeps every row of both tables; the result is rectangular with as many rows as both together |
| Frames.AppendColumns | main.py:66 | the appended table keeps the first table's labels in front and has a column for each label of either table |
| Frames.AppendKeepsValues | main.py:66 | every row of either table keeps its value under every label, at its new position |
| Frames.AppendKeepsRow | main.py:66 | row i of the result is row i of the first table, or row i minus its length of the second |
| Frames.AppendDistinct | main.py:66 | appending two tables with distinct labels gives distinct labels |
| Frames.Combined | main.py:53-66 | df after the loop has taken the first m tables: None exactly when m is 0, otherwise a rectangular table with as many rows as those m tables |
| Frames.CombinedColumns | main.py:53-66 | the combined table has a column for a label exactly when one of the first m tables has it |
| Frames.CombinedDistinct | main.py:53-66 | the combined labels are distinct when every taken table's labels are |
| Frames.CombinedKeepsRows | main.py:53-66 | row j of table k is found after the rows of the tables before it, with the same value under every label |
| Frames.CombinedLastRows | main.py:62-66 | the rows of the table taken last follow all rows taken before it, value for value |
| Frames.CombinedGrows | main.py:62-66 | taking one more table leaves every row already in df at its place with its values |
| Frames.Accumulate | main.py:53-66 | the loop succeeds exactly when every kept document downloads, and then returns the combination of their tables in order, with distinct labels; otherwise it fails on the first document that does not download |
| Frames.Batches | main.py:53-61 | the k-th table is the download of the k-th kept document |
| Frames.Lookup | main.py:82-94 | a label the table lacks reads as a missing value |
| Frames.LookupIndex | main.py:82-94 | a row's value under a label is its cell in the first column with that label, or missing when no column has it |
| Frames.Omit | main.py:79 | drop keeps one cell for every column not labelled with the dropped label |
| Frames.DropColumn | main.py:79 | drop succeeds exactly when the label is present, and otherwise fails with MissingColumn of that label; it keeps a rectangular table with the same rows and without the label |
| Frames.OmitLabels | main.py:79 | after the drop, the dropped label occurs zero times and every other label as often as before |
| Frames.OmitLookup | main.py:79 | the drop keeps every other label's value in every row |
| Frames.ColumnOf | main.py:82-94 | df[name] succeeds exactly when the label occurs once; it fails with MissingColumn or DuplicateColumn otherwise, and gives each row's cell |
| Frames.SetItem | main.py:82-94 | df[name] = values keeps the table rectangular and its row count |
| Frames.SetItemLookup | main.py:82-94 | after df[name] = values, row i holds values[i] under name and is otherwise unchanged |
| Frames.SetItemColumns | main.py:85-94 | assignment adds the label at the right only when it is not there yet |
| Frames.WithLabel | main.py:85-94 | the new labels contain the assigned label and keep the old ones in front |
| Frames.IndexOf | main.py:97 | the first column with the label |
| Text.TrimStart | main.py:71 | the result is a suffix of s, it drops only whitespace, and it does not start with whitespace |
| Text.TrimEnd | main.py:71 | the result is a prefix of s, it drops only whitespace, and it does not end with whitespace |
| Text.Strip | main.py:71 | the stripped label has no whitespace at either end |
| Text.StripSurrounded | main.py:71 | stripping a trimmed word padded with whitespace on either side gives the word |
| Text.StripIdempotent | main.py:71 | stripping twice is stripping once |
| Normalize.StripLabels | main.py:71 | one label per column, each without surrounding whitespace |
| Normalize.Relabel | main.py:74-76 | rename gives one label per label |
| Normalize.RelabelKeeps | main.py:74-76 | a label that rename neither replaces nor produces occurs as often as before |
| Normalize.RelabelMerges | main.py:74-76 | a label produced from one key, and not itself renamed, then occurs as often as it and that key did before |
| Normalize.LabelsTrimmed | main.py:71-76 | after strip and rename there is one label per column, none with surrounding whitespace |
| Normalize.LabelsFrom | main.py:71-76 | after strip and rename, effective_from occurs once for each stripped SCEDTimestamp or effective_from label |
| Normalize.StrippedHeader | main.py:71 | padded SCEDTimestamp and BatchID labels strip to the bare labels |
| Normalize.RenamedHeader | main.py:74-76 | SCEDTimestamp is renamed to effective_from and BatchID is kept |
| Normalize.OmittedHeader | main.py:79 | dropping BatchID from effective_from, BatchID leaves effective_from |
| Normalize.HeaderExample | main.py:71-79 | padded SCEDTimestamp, BatchID headers become effective_from, BatchID and then effective_from alone |
| Normalize.ParseCell | main.py:82 | a cell fails only when it is text, with that text; a parsed cell is never text |
| Normalize.ParseCells | main.py:82 | the column parses exactly when every cell does, cell by cell; otherwise it fails with the first bad cell's error |
| Normalize.ParseFrom | main.py:82 | the parsed table keeps its labels and row count |
| Normalize.ParseFromLookup | main.py:82 | after a successful parse, effective_from holds the parsed cell and every other label is unchanged |
| Normalize.ParseFromBad | main.py:82 | with one effective_from column, the parse fails on the first text that does not parse |
| Normalize.Derive | main.py:85-94 | df[target] = f(df[source]) succeeds exactly when source occurs once, fails with MissingColumn or DuplicateColumn otherwise, and adds target at the right |
| Normalize.DeriveLookup | main.py:85-94 | row i then holds f of its source cell under target and is otherwise unchanged |
| Normalize.ShiftCell | main.py:85 | adding five minutes keeps NaT as NaT and moves a datetime to the next five-minute interval |
| Normalize.FloorCell | main.py:88-91 | floor keeps NaT as NaT and gives the five-minute boundary at or before a datetime, less than five minutes before it |
| Normalize.DateCell | main.py:94 | strftime gives text exactly for a datetime with a printable year, ten characters with dashes at positions 4 and 7 |
| Normalize.Intervals | main.py:85-91 | the table gains effective_to at the right unless present, and keeps its rows |
| Normalize.IntervalsOutcome | main.py:85-91 | with one effective_from column, only a repeated effective_to stops lines 85 to 91, and it fails with DuplicateColumn(effective_to) |
| Normalize.Convert | main.py:82-94 | a successful conversion has the labels with effective_to and delivery_date added, and as many rows as before |
| Normalize.ConvertOutcome | main.py:82-94 | a missing effective_from, a repeated effective_from, the first bad text, or a repeated effective_to stops lines 82 to 94, in that order; nothing else fails |
| Normalize.ConvertLookup | main.py:82-94 | each converted row holds the floored parsed time, the floored time five minutes later, and the floored time's date; its other cells are unchanged |
| Normalize.Prepare | main.py:71-100 | a prepared table is rectangular, keeps the row count, has distinct labels and an effective_from column |
| Normalize.PrepareMissing | main.py:71-82 | a missing BatchID fails at line 79; a missing or repeated effective_from fails at line 82 |
| Normalize.PrepareBadTimestamp | main.py:71-82 | with one effective_from column, the run fails on a timestamp exactly when some text does not parse, and then on the first one |
| Normalize.PrepareDuplicates | main.py:82-100 | once every text parses, a repeated effective_to fails at line 91; otherwise the run succeeds exactly when the final labels are distinct, and any failure names a label that occurs twice |
| Normalize.PrepareOfConvert | main.py:79-100 | the run's outcome is the conversion's error, or the converted table when its labels are distinct |
| Normalize.PreparedIsConverted | main.py:79-94 | a successful run had a BatchID column, and its table is the conversion of the table without BatchID |
| Normalize.PreparedColumns | main.py:71-94 | the final labels are the stripped, renamed labels without BatchID, plus effective_to and delivery_date |
| Normalize.PreparedRows | main.py:71-94 | every row of the result is the input row, with effective_from, effective_to and delivery_date derived from its timestamp and BatchID gone |
| Normalize.PreparedIntervals | main.py:82-94 | every prepared row is an interval: start on a five-minute boundary, end five minutes later, delivery date the start's date; or all three missing |
| Normalize.IntervalOfCells | main.py:85-94 | the three cells derived from one parsed timestamp form an interval |
| Normalize.ReadingCells | main.py:82-94 | a parsed reading floors to its own date, hour and minute rounded down to five; its end is five minutes later; its delivery date is the reading's date |
| Normalize.ReadingOf | main.py:85-94 | for a real date and time, the floored start, the end and the delivery date are those of the reading |
| Normalize.Stamped | main.py:97 | the rows with a datetime in the sort column |
| Normalize.Unstamped | main.py:97 | the rows with NaT in the sort column |
| Normalize.SplitCount | main.py:97 | together, the rows with a datetime and the rows with NaT are all the rows, each as often |
| Normalize.Insert | main.py:97 | inserting into a sorted sequence keeps it sorted and adds exactly that row |
| Normalize.InsertionSort | main.py:97 | the result is sorted by the column and a permutation of the input |
| Normalize.SortRows | main.py:97 | one order sort_values may give: the rows with a datetime sorted, then the NaT rows in their original order |
| Normalize.SortedIsPermutation | main.py:97 | any such order holds the same rows, each as often |
| Normalize.RowsOfSorted | main.py:97 | sorting keeps the table rectangular, and every sorted row is an input row |
| Normalize.DuplicateLabel | main.py:100 | names a label that occurs at least twice |
| Normalize.Frame.constructor | main.py:61-66 | the frame holds the combined table |
| Normalize.Frame.SetColumns | main.py:71 | df.columns = names replaces the labels and keeps the rows |
| Normalize.Frame.Rename | main.py:74-76 | rename(inplace=True) replaces the labels found in the map and keeps the rows |
| Normalize.Frame.Drop | main.py:79 | drop(inplace=True) leaves the frame as DropColumn gives it, or reports its error and leaves the frame unchanged |
| Normalize.Frame.SetItem | main.py:82-94 | df[name] = values leaves the frame as SetItem gives it |
| Normalize.Frame.ToDatetime | main.py:82 | the frame becomes ParseFrom of the old frame, or the method reports ParseFrom's error and leaves the frame as it was |
| Normalize.Frame.Assign | main.py:85-94 | the frame becomes Derive of the old frame, or the method reports Derive's error and leaves the frame as it was |
| Normalize.Frame.ConvertTimestamps | main.py:82-94 | the frame becomes Convert of the old frame, or the method reports Convert's error; a failure at line 82 leaves the frame as it was |
| Normalize.Frame.SortValues | main.py:97 | sort_values(inplace=True) keeps the labels and leaves the rows in an order sort_values may give |
| Normalize.Normalize | main.py:71-100 | None fails with NoDocuments; otherwise the run fails with Prepare's error or returns the prepared table sorted; every returned row is an interval |
| Job.Run | main.py:11-100 | an empty listing fails at line 34; a run fails with NoDocuments when nothing is kept, and on the first kept document that does not download; once all download, it fails with Prepare's error on the combined table or returns that prepared table's labels and its rows in a sort_values order on effective_from, one per downloaded row, every row an interval |
| Timestamps.Floor5 | main.py:88-91 | the floor is on a five-minute boundary, at or before t, and less than five minutes before it |
| Timestamps.Floor5Idempotent | main.py:88-91 | flooring twice is flooring once |
| Timestamps.Floor5Unique | main.py:88-91 | the floor is the only boundary within five minutes at or before t |
| Timestamps.FloorOfShift | main.py:85-91 | flooring t plus five minutes gives the floor of t plus five minutes |
| Timestamps.FloorKeepsDay | main.py:88-94 | flooring never moves an instant to another day |
| Timestamps.FloorOnClock | main.py:88 | a floored instant reads a minute divisible by five, with zero seconds and microseconds |
| Timestamps.FloorOfReading | main.py:88 | the floor of a reading keeps its date and hour and rounds its minute down to a multiple of five |
| Timestamps.ScanTimestamp | main.py:82 | a parsed text names a real date and time in years 1 to 9999 with no microseconds |
| Timestamps.ScanDateOf | main.py:82 | the zero-padded date MM/DD/YYYY is read back as that date |
| Timestamps.ScanClockOf | main.py:82 | the zero-padded time HH:MM:SS is read back as that time |
| Timestamps.ParseFormatted | main.py:81-82 | parsing the report's zero-padded text of any date and time gives that reading's instant |
| Timestamps.DeliveryDate | main.py:94 | ten characters, with dashes at positions 4 and 7 |
| Timestamps.DeliveryDateOfReading | main.py:82-94 | the delivery date of a parsed, floored reading is its own date written as YYYY-MM-DD |
| Timestamps.ParsedDay | main.py:82-94 | the floored instant of any parsed text has a printable year and falls on the text's date |
| Timestamps.ParseTimestamp | main.py:82 | the text parses exactly when it scans as a real date and time, and the instant is then a whole second |
| Timestamps.WholeSeconds | main.py:82 | a reading without microseconds has an instant that is a whole number of seconds |
| Timestamps.FormatDate | main.py:94 | ten characters: four digits, a dash, two digits, a dash, two digits |
| Timestamps.FormatDateReads | main.py:94 | the year, month and day read back from the text are the date's own |
| Timestamps.ExampleLateEvening | main.py:81-94 | 05/19/2023 23:57:18 parses to the instant of that reading and gives the interval from the instant of 23:55 to that of 00:00 on May 20, delivered on 2023-05-19 |
| Timestamps.LateEveningInstants | main.py:81-91 | the instants ExampleLateEvening names are 2023-05-19 23:57:18, 2023-05-19 23:55 and 2023-05-20 00:00 |
| Timestamps.ExampleYearEnd | main.py:81-91 | 12/31/2023 23:57:18 gives an interval that ends at the instant of 2024-01-01 00:00 |
| Timestamps.YearEndInstants | main.py:81-91 | the instants ExampleYearEnd names are 2023-12-31 23:57:18, 2023-12-31 23:55 and 2024-01-01 00:00 |
| Timestamps.FormatLateEvening | main.py:81 | the report's text of 2023-05-19 23:57:18 is 05/19/2023 23:57:18 |
| Text.DigitRun | main.py:82 | the run is digits and stops at a non-digit or at the width limit |
| Text.DigitRunOf | main.py:82 | a digit run followed by a non-digit is read whole |
| Text.Pad2Value | main.py:82 | two zero-padded digits read back as the value |
| Text.Pad4Value | main.py:82 | four zero-padded digits read back as the value |
| Text.NatOfBound | main.py:82 | n digits write a number below 10 to the n |
| Civil.DateTimeOf | main.py:17-25 | the reading of an instant is a real date and time whose instant is that instant |
| Civil.DateTimeOfInstant | main.py:17-25 | reading the instant of a date and time gives it back |
| Civil.ReadingOfInstant | main.py:17-25 | an instant's date is its day number and its time of day is its remainder in the day |
| Civil.PrevDate | main.py:17 | the day before a real date is a real date |
| Civil.PrevDateNumber | main.py:17 | the day before has the previous day number |
| Civil.NextDate | main.py:85 | the day after a real date is a real date |
| Civil.NextDateNumber | main.py:85 | the day after has the next day number |
| Civil.DateOfDay | main.py:94 | every day number names one real date |
| Civil.DateOfDayNumber | main.py:94 | the date of a date's day number is that date |
| Civil.DayNumberInjective | main.py:94 | two real dates with the same day number are the same date |
| Civil.YearLength | main.py:94 | a year is as many days long as the leap-year rule says |
| Civil.YearOfOrdinalBounds | main.py:94 | the year computed for an ordinal day contains that day |
| Civil.YearsIncrease | main.py:94 | years follow one another without overlap |
| Civil.MonthLength | main.py:94 | months follow one another without gaps, and December ends the year |
| Civil.MonthOfYearDay | main.py:94 | the month found for a day of the year contains that day |

## Left out

- Input and output are not modelled. This covers `misutil.get_ice_doc_list`,
  `misutil.get_zipped_file_contents`, UTF-8 decoding, `pd.read_csv` and the
  JSON round trip of the listing (lines 30-46). The listing is a parameter,
  and the downloads are a map from document id to the table read from the
  document. A download that fails is a document id missing from the map.
- The write to S3 (`pq.write_to_dataset`, lines 101-102) and `lambda_handler`
  are not modelled.
- The columns `Document.PublishDateStr` and `Document.PublishHour` (lines
  36-40) are not modelled. Nothing reads them.
- Time zones are not modelled. America/Chicago, the daylight-saving shifts
  and the `%z` offsets of `Document.PublishDate` are all left out. All
  instants are on one local clock without shifts, so a day is always 24
  hours long.
- Window.SelectWindow reads the clock once. The code reads it ten times;
  Window.WindowAsWritten models those ten readings.
- Normalize.ParseCell:
  - It does not model pandas' datetime range (years 1677 to 2262). Any year
    from 1 to 9999 parses.
  - It does not accept seconds 60 and 61.
  - It reads only ASCII digits.
  - It does not model dtype inference. A column read as numbers counts as
    missing cells or text.
- Normalize.DateCell: a date whose year strftime cannot print as four
  digits gives a missing value. Such years cannot occur inside pandas'
  range.
- Normalize.Frame.SortValues fixes the order of the datetimes but not the
  order among equal ones. pandas' default quicksort is not stable, so any
  order of equal keys is allowed.
- Normalize.Normalize does not model the index column that
  `pa.Table.from_pandas` adds. The only failure it models there is a
  repeated label.
- Frames.Append looks every column up by its label, so it would give every
  copy of a repeated label the first copy's cells. pandas keeps them apart.
  The model assumes each downloaded table has distinct labels
  (Frames.AllReadable), as `pd.read_csv` gives by renaming a repeated header
  name `x` to `x.1`.
- Normalize.Labels has no contract of its own. Normalize.LabelsTrimmed,
  Normalize.LabelsFrom, Normalize.RelabelKeeps and Normalize.RelabelMerges
  state what strip and rename do to the labels.
- Normalize.Frame.ConvertTimestamps does not state the partly converted
  frame that a failure after line 82 leaves. The run stops there and does
  not use that frame.

## Findings

| source | as written | input that shows it | evidently intended | confidence | as-written member | corrected member |
|---|---|---|---|---|---|---|
| main.py:17-25 | each bound reads the clock five times, once for the instant and once each for hour, minute, second and microsecond, so a tick between reads shifts the bound | the first six reads at 2023-05-19 23:59:59.999999 and the last four at 2023-05-20 00:00:00 give to_date 2023-05-19 23:59:59.999999 instead of midnight | both bounds come from one reading: from_date the start of yesterday, to_date the start of today | not executed | Window.WindowAsWritten, shown by Window.TickBetweenReads | Window.SelectWindow |
