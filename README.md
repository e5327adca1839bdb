# wordschool report filling, modelled in Dafny

wordschool fills Word report templates for language-school students. This
project models two parts of it.

- **`ReportWriter`** (readworddoc.py) keeps the template's first two tables.
  The heading table holds the student's details. The marks table has one row
  per week of a ten-week term and a break row 6 in the middle. The class
  overwrites fixed paragraphs of these tables:
  - `writeinitial` writes the id, name, course, class, start date and end date.
  - `writedates` writes the starting date of each week.
  - `writemarks` writes a grid of marks.
- **The conversion loop** (makerepfromtsv.py) turns each tab-separated
  student line `ID NAME START_DATE END_DATE` into a blank report record. The
  record is one YAML document of five lines.

Files:

- `wrappers.dfy`: the `Option` and `Result` datatypes.
- `tables.dfy` (module `Tables`): the document as the code sees it.
  - A table is rows of cells, a cell is a list of paragraphs, and a paragraph
    is the texts of its runs.
  - Overwriting a paragraph (`Assign`) puts the new text in run 0 and clears
    every later run.
  - A missing cell, a missing paragraph or a paragraph without runs is the
    IndexError the code would raise.
  - `ApplyWrites` makes a list of overwrites in order and stops at the first
    one that raises. Writes made before it stay made.
- `report_writer.dfy` (module `ReportWriting`): the `ReportWriter` class.
  - The class has fields `heading` and `marks`. `AssignTextToHeading`,
    `AssignTextToMarks`, `WriteInitial`, `WriteDates` and `WriteMarks` model
    the Python methods of the same names. `AssignDetail` has no Python
    counterpart: it is one `has_key` step of `writeinitial`. `save` has no
    method, because saving the document is left out. The three writing
    methods are each proved against a specification function:
    - `InitialWrites` for `WriteInitial`;
    - `DatesEffect` for `WriteDates`;
    - `MarksEffect` for `WriteMarks`.
  - Lemmas say where each value lands, what is left untouched, and when an
    IndexError is raised.
- `text_split.dfy` (module `TextSplit`): Python's `str.split(sep)` and
  `sep.join`, and the facts about them that the conversion needs.
- `tsv_reports.dfy` (module `TsvReports`): the conversion loop.
  - `MakeReports` is the loop, with the output file as a growing string.
  - The loop is proved against `Reports`, a function over the input lines.
  - `Reports` is related to the record form documented at the head of
    makerepfromtsv.py (`RecordLines`). The lemmas prove that a file of
    well-formed lines produces text that reads back, line by line, as those
    records.
  - They also prove exactly where a malformed line stops the output.

Python exceptions are values:

- `Outcome` is `Done` or `Raised(error)`.
- `Conversion` holds the text written and the index of the line whose fields
  ran out.
- Whatever was written before the exception is kept, as it would be in the
  document or the output file.

## Model

| member | source | states |
|---|---|---|
| Tables.Overwritten | readworddoc.py:15-18 | An overwritten paragraph keeps its number of runs. Run 0 holds the new text and every later run is empty. |
| Tables.OverwrittenReadsText | readworddoc.py:16-18 | After an overwrite, the paragraph's text is exactly the new text: nothing of the old text is left in any run. |
| Tables.Assign | readworddoc.py:14-18 | An overwrite succeeds exactly when the cell exists, the cell has that paragraph, and the paragraph has a run 0. Otherwise it fails with the IndexError for the first missing part: cell, then paragraph, then run. |
| Tables.AssignOverwrites | readworddoc.py:14-18 | A successful overwrite keeps the shape of the table (rows, cells, paragraphs, runs). The target paragraph becomes the overwritten paragraph and every other paragraph is unchanged. |
| Tables.ApplyWritesShape | readworddoc.py:14-24 | No sequence of overwrites adds or removes rows, cells, paragraphs or runs, whether or not one of them raises. |
| Tables.ApplyWritesAppend | readworddoc.py:38-49 | Making writes a then b is making a, then making b only if a raised nothing. |
| Tables.RaisedPrefixDecides | readworddoc.py:56-59 | Once some prefix of the writes has raised, the later writes are never made. |
| Tables.ApplyWritesFrame | readworddoc.py:14-24 | A paragraph that no write addresses keeps its runs, even if a write raised. |
| Tables.ApplyWritesDone | readworddoc.py:14-24 | A sequence of writes completes without an exception exactly when every write's paragraph is addressable in the starting table. |
| Tables.ApplyWritesRaised | readworddoc.py:14-24 | When write m is the first non-addressable one, the writes before it are made, it raises its IndexError, and nothing after it is made. |
| Tables.ApplyWritesPlaces | readworddoc.py:14-24 | When the writes complete and address distinct paragraphs, each target paragraph ends up overwritten with its text. |
| Tables.FirstWritePlaced | readworddoc.py:14-24 | A write is not undone by later writes to other paragraphs. |
| ReportWriting.HeadingSlots | readworddoc.py:38-49 | Displays the slot table's definition: id goes to (0,0) paragraph 2, name to (0,1) paragraph 2, course to (0,2) paragraph 1, cl to (1,2) paragraph 1, sd to (0,3) paragraph 2 and ed to (0,4) paragraph 2. |
| ReportWriting.HeadingSlotsDiffer | readworddoc.py:38-49 | No two details share a heading paragraph. |
| ReportWriting.InitialWritesInOrder | readworddoc.py:38-49 | Displays the definition of InitialWrites: the writes of writeinitial are the six optional writes in the order id, name, course, cl, sd, ed. The source's order is checked through WriteInitial and AssignDetail. |
| ReportWriting.InitialWritesChain | readworddoc.py:38-49 | writeinitial is six steps, each made only when the ones before raised nothing. |
| ReportWriting.KeyWritesSkipAbsent | readworddoc.py:38-49 | A paragraph that is the slot of no present key is not written. In particular an absent key's slot is not written. |
| ReportWriting.KeyWritesPlace | readworddoc.py:38-49 | When the writes complete, the slot of each present key holds that key's value. |
| ReportWriting.FirstKeyMisses | readworddoc.py:38-49 | The first key's write leaves the heading paragraph of a later, different key as it was, and it does not change which slots exist. |
| ReportWriting.WriteInitialPlaces | readworddoc.py:38-49 | When writeinitial completes, each present detail is in its own heading paragraph, and that paragraph existed with a run. |
| ReportWriting.WriteInitialLeavesRest | readworddoc.py:38-49 | Every heading paragraph that is not the slot of a present detail keeps its runs, even if a write raised. |
| ReportWriting.DateWritesDistinct | readworddoc.py:56-59 | The ten date writes address ten distinct paragraphs. |
| ReportWriting.DatesDone | readworddoc.py:51-59 | writedates completes exactly when there are at least ten dates and column 1, paragraph 0 of rows 1-5 and 7-11 is addressable. |
| ReportWriting.DatesPlaced | readworddoc.py:56-59 | When writedates completes, date i (i < 5) is in row i+1 and date i (5 <= i < 10) is in row i+2 (the break row 6 is skipped), column 1, paragraph 0. |
| ReportWriting.DatesLeaveRest | readworddoc.py:56-59 | Row 0, row 6, rows past 11, every column but 1 and every paragraph but 0 are never written, even if a write raised. |
| ReportWriting.DatesStop | readworddoc.py:56-59 | A date write that raises ends writedates: no later date is written. |
| ReportWriting.DatesShort | readworddoc.py:56-59 | Displays DatesEffect's short-list branch: with fewer than ten dates, writedates writes all the dates it has, then raises IndexError at the first missing index. |
| ReportWriting.GridWritesAre | readworddoc.py:71-73 | Every write of writemarks puts some mark (i, j) at row start+i, column j+2, paragraph 0, and every mark of the grid has such a write. |
| ReportWriting.GridWritesDistinct | readworddoc.py:71-73 | No two marks go to the same paragraph. |
| ReportWriting.MarksPlaced | readworddoc.py:67-73 | When writemarks completes, mark (i, j) is in row StartRow(firstweek)+i, column j+2, paragraph 0. Grid rows go to consecutive table rows, so a grid that crosses the break row writes a row of marks on row 6. |
| ReportWriting.MarksLeaveRest | readworddoc.py:67-73 | Columns 0 and 1, paragraphs other than 0, and rows outside the grid's span are never written, even if a write raised. |
| ReportWriting.MarksLeaveOthers | readworddoc.py:71-73 | Every paragraph that is no mark's target keeps its runs, even if a write raised. This includes the cells past a short row of a ragged grid. |
| ReportWriting.MarksDone | readworddoc.py:67-73 | writemarks completes exactly when every mark's paragraph is addressable. |
| ReportWriting.MarksStop | readworddoc.py:71-73 | A mark write that raises ends writemarks: no later mark is written. |
| ReportWriting.MarksStartAtWeekRow | readworddoc.py:56-70 | For weeks 1-10, the start row of writemarks is the row that holds week firstweek's date, on both sides of the break row, and the grid's first write goes to that row. |
| ReportWriting.OverwriteRuns | readworddoc.py:15-18 | The loop over the runs produces the overwritten paragraph: the text in run 0, every later run cleared, the count unchanged. |
| ReportWriting.ReportWriter.constructor | readworddoc.py:8-12 | The writer starts from the template's heading table and marks table. |
| ReportWriting.ReportWriter.AssignTextToHeading | readworddoc.py:14-18 | The heading table after the call, and the outcome, are exactly one overwrite of that paragraph. An IndexError leaves the table unchanged. |
| ReportWriting.ReportWriter.AssignTextToMarks | readworddoc.py:20-24 | The same for the marks table. |
| ReportWriting.ReportWriter.AssignDetail | readworddoc.py:38-49 | One `has_key` step: the key's value is written to its slot when the key is present, and nothing happens otherwise. |
| ReportWriting.ReportWriter.WriteInitial | readworddoc.py:27-49 | The heading table and outcome are those of InitialWrites, so the lemmas on InitialWrites above apply to the method. |
| ReportWriting.ReportWriter.WriteDates | readworddoc.py:51-59 | The marks table and outcome are those of DatesEffect. |
| ReportWriting.ReportWriter.WriteMarks | readworddoc.py:61-73 | The marks table and outcome are those of MarksEffect: grid row i goes to table row StartRow(firstweek)+i, so a grid that crosses the break row writes a row of marks on row 6. The week count computed from lastweek has no effect. |
| TextSplit.IndexOf | makerepfromtsv.py:29 | The result is the position of the first occurrence of the character. |
| TextSplit.Split | makerepfromtsv.py:29 | A split has at least one field, and no field contains the separator. |
| TextSplit.JoinSplit | makerepfromtsv.py:29 | Joining the fields of a split with the separator gives back the original string. |
| TextSplit.SplitJoin | makerepfromtsv.py:29 | Splitting the join of separator-free fields gives back those fields. |
| TextSplit.SplitAfter | makerepfromtsv.py:29 | A separator-free piece followed by the separator is split off as the first field. |
| TextSplit.SplitLength | makerepfromtsv.py:29-34 | The number of fields is the number of separators plus one. |
| TextSplit.LeadingFieldsAvoid | makerepfromtsv.py:29-33 | Every field of a split except the last lies before the string's last character. So a character that appears at most at the end, like a line's newline, is in none of them. |
| TextSplit.FirstFieldIsCut | makerepfromtsv.py:34 | The first field is the prefix of the string up to its first separator, or the whole string when there is none. |
| TsvReports.FormatReadsNamedArgs | makerepfromtsv.py:36-37 | `format(*tabsplit)` reads only the fields the template names; later fields do not matter. |
| TsvReports.MappingText | makerepfromtsv.py:36-37 | The mapping is `name: "<field 1>", id: "<field 0>", sd: "<field 2>", ed: "<field 3>"`. |
| TsvReports.RenderIsRecord | makerepfromtsv.py:30-41 | The five writes for one line are the record documented at makerepfromtsv.py:8-12, as five lines each followed by a newline, filled from fields 0-2 and field 3 cut at its newline. |
| TsvReports.RenderReadsFourFields | makerepfromtsv.py:31-37 | Fields after the fourth are never read. |
| TsvReports.LeadingFieldsOneLine | makerepfromtsv.py:28-33 | Every tab field of a file line except the last is free of newlines. |
| TsvReports.SelectOneLine | makerepfromtsv.py:31-35 | The four values taken from a file line are all free of newlines. |
| TsvReports.RecordLinesOneLine | makerepfromtsv.py:8-12 | A record built from newline-free values consists of five single lines. |
| TsvReports.RecordReadsAsFiveLines | makerepfromtsv.py:30-41 | What one file line with four fields produces reads back as exactly the five record lines. |
| TsvReports.SplitTerminated | makerepfromtsv.py:38-41 | Newline-terminated single lines split on newline back into those lines, followed by one empty remainder. |
| TsvReports.BlockPresent | makerepfromtsv.py:29-34 | A line produces a record exactly when it has at least three tabs, and otherwise raises IndexError. |
| TsvReports.UntilSnoc | makerepfromtsv.py:28-41 | One more line after lines that all went through appends either its record, or `---` followed by the failure at that line. |
| TsvReports.UntilStops | makerepfromtsv.py:28-34 | After a failure, later lines add nothing to the output. |
| TsvReports.UntilComplete | makerepfromtsv.py:28-34 | The loop ends without an exception exactly when every line yields a record. |
| TsvReports.UntilFailAt | makerepfromtsv.py:28-34 | The first failing line ends the output with its `---` and is the reported failure. |
| TsvReports.UntilRecords | makerepfromtsv.py:28-41 | When every line yields a record, the output is those records' lines in order, each newline-terminated. |
| TsvReports.ReportsComplete | makerepfromtsv.py:28-34 | The conversion of a file finishes exactly when every line has at least three tabs. |
| TsvReports.ReportsFailAt | makerepfromtsv.py:30-34 | At the first line with fewer than three tabs, the output is the records of the lines before it plus `---`, with the failure at that line. |
| TsvReports.ReportsText | makerepfromtsv.py:28-41 | With four fields on every line, the output is the documented records in input order, every line newline-terminated. |
| TsvReports.ReportsReadAsRecords | makerepfromtsv.py:28-41 | For file lines with four fields each, the output splits into 5 lines per input line plus an empty remainder. Line 5k+m of the output is line m of input line k's record. |
| TsvReports.UntilStep | makerepfromtsv.py:28-41 | One turn of the loop either appends the line's record or ends the conversion at that line. |
| TsvReports.MakeReports | makerepfromtsv.py:28-41 | The loop's output text and failure point are exactly Reports(lines), so every lemma about Reports holds for the loop. |

## Left out

- Loading and saving the document (readworddoc.py:10-12, 77-78) is left out. The python-docx `Document` is given to the constructor as its two tables.
- Tables.Assign, ReportWriting.MarksDone, ReportWriting.MarksLeaveRest, ReportWriting.MarksLeaveOthers, ReportWriting.DatesDone: python-docx addresses `cell(row, col)` in one flat list of cells, at index row times the column count plus col. A column index at or past the column count therefore reaches the next row's cells. In the model each row is its own list of cells, and such a column is a missing cell that raises IndexError. So for a grid of marks that is too wide, the model raises IndexError, while python-docx overwrites columns 0-1 of the next row. Merged cells share one cell object under several addresses. That aliasing is not modelled either.
- Tables.Text: paragraph content outside the paragraph's direct runs is not modelled. This covers text inside a hyperlink, a field or a tracked insertion. python-docx's `paragraph.runs` does not include it, so readworddoc.py:16-18 does not clear it and a reader still sees it.
- Python's negative indices are not modelled. Rows, columns, paragraph numbers and week numbers are `nat`.
- ReportWriting.ReportWriter.WriteMarks: `firstweek` is a `nat`. A negative week, which Python would take as an index from the end of the table, is not modelled.
- A run's formatting is not modelled. A run is only its text, and `clear()` leaves the run in place with empty text.
- The demo script at readworddoc.py:80-106 (prints, a sample document, a demo report) is left out.
- ReportWriting.ReportWriter.WriteInitial: `initid` is a `map` from strings to strings. Values of other types, which python-docx would reject or convert, are not modelled. `has_key` is map membership.
- The command-line handling and file opening at makerepfromtsv.py:17-27 are left out. The input file is a sequence of lines, and the output file is the string `MakeReports` returns.
- Reading the output back with `yaml.load_all` (makerepfromtsv.py:45) is not modelled. The lemmas prove that the output splits into the documented record lines. They do not prove that a YAML parser accepts it. Each field is put between double quotes, but its contents are not escaped. So a value containing `"` or `\` does not give the intended YAML, in the source as in the model.
- TsvReports.ReportsReadAsRecords: the read-back lemmas assume that each input line has a newline only at its end (`IsLine`), which is how a file is read line by line. The conversion itself (`MakeReports`, `Reports`) accepts any strings.
- TsvReports.MakeReports: the failure records only the index of the line whose fields ran out. Which field was missing (1, 2 or 3) is not recorded.
