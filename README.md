# regchula_scraper in Dafny

A model of the core of `regchula_scraper.py`, a scraper that reads the course
pages of Chulalongkorn University's registration site and writes one JSON
array of course records. The model covers what the scraper does with the
texts it has read off a page. The browser automation is not modelled.

- `text.dfy` (module `Text`): the text primitives the scraper relies on.
  - Python's `str.strip()` with the full `isspace` set.
  - `int()` on ASCII digits, with optional sign and whitespace. `int()` strips
    a narrower set than `str.strip()`: the separators U+001C to U+001F are
    whitespace to `strip()` but make `int()` fail.
  - `a, b = s.split('/')`.
  - The end-of-line rule of its regular expressions: `$` also matches just
    before one final newline.
- `normalise.dfy` (module `Normalise`): the line normalisers. Each regular
  expression is a recogniser for its one shape.
  - The id line `1234567  SHORT NAME`.
  - The credit header `3.0 CREDIT HOURS =  TYPE`. The credit is kept as a
    whole number of half credits.
  - The detailed-credit line, in its plain `(X)` and special `(X)  Y` forms.
  - The prerequisite placeholder `-`.
- `exam.dfy` (module `Exam`): the Thai month table and the exam-line
  converter.
  - A line starting `TDF` (the exam date is still to be fixed) gives three
    absent fields.
  - A line `D MON YYYY เวลา HH:MM-HH:MM น.` gives the date `YYYY-M-D` and the
    two clock times.
- `sections.dfy` (module `Sections`): the fold of a course's schedule table
  into sections and slots.
  - `Reconstruct` is the fold as a function.
  - `BuildSections` is the scraper's loop, proved equal to `Reconstruct`. Its
    column offset lives across passes, as in the scraper, and every successful
    pass resets it to 0.
  - `Blocks` cuts the table before every section-opening row. This gives an
    independent description of which rows end up in which section.
- `course.dfy` (module `Course`): one page assembled into one course record,
  and group mode's list of `(course id, section number)` pairs.
- `writer.dfy` (module `Writer`): the output file as an object with its
  content and its position.
  - The array is opened with `[` and a line break.
  - Each record is appended followed by `,` and a line break.
  - The array is closed by seeking back three characters and writing a line
    break and `]`.
  - The line break a text-mode file writes (`"\n"` or `"\r\n"`) is a parameter.
- `cli.dfy` (module `Cli`): the check of the course ids given on the command
  line, and the list of search terms.

A few details of what the code does:
- The exam year is written exactly as it appears on the page. No Buddhist-era
  offset is subtracted.
- The month number is not zero-padded (`"1"` to `"12"`).
- A ten-cell row opens a section and also adds its own slot, so a section has
  one slot per row of its block, including the opening row.
- The credit header has two spaces after `=`.

## Model

| member | source | states |
|---|---|---|
| Text.Strip | regchula_scraper.py:162 | `str.strip()`: the text without its leading and trailing `isspace` characters; its properties are `StripShape` and `StripPadded` |
| Text.StripShape | regchula_scraper.py:162 | for `strip()`'s whitespace and for `int()`'s alike, stripping keeps one contiguous slice of the text; everything before and after it is whitespace, and the slice neither starts nor ends with whitespace |
| Text.StripPadded | regchula_scraper.py:162 | for either whitespace set, stripping padding of that set from a text with no whitespace at its ends gives back exactly that text |
| Text.ParseInt | regchula_scraper.py:203-209 | `int()` on a text: strip `int()`'s whitespace, then an optional sign and ASCII digits give their value, and anything else is None (the ValueError); its properties are the four lemmas below |
| Text.ParseIntDecimal | regchula_scraper.py:203 | `int()` reads back every non-negative integer's decimal spelling, padded with any of `int()`'s whitespace (the `isspace` characters but U+001C to U+001F) |
| Text.ParseIntNegativeDecimal | regchula_scraper.py:203 | `int()` reads a `-` followed by a decimal spelling as the negative number, padded with any of `int()`'s whitespace |
| Text.NegativeLiteral | regchula_scraper.py:203 | a text that strips, by `int()`'s whitespace, to `-` and digits is read as minus the digits' value |
| Text.IntKeepsSeparators | regchula_scraper.py:203 | U+001C before a digit is stripped by `strip()` but makes `int()` fail |
| Text.DecimalValue | regchula_scraper.py:203 | the decimal spelling of `n` has the value `n` |
| Text.SplitOnce | regchula_scraper.py:205 | `a, b = s.split('/')` succeeds exactly when `s` holds the separator once; `s` is then `a`, the separator, `b`, and neither part holds it |
| Text.RestOfLine | regchula_scraper.py:112-117 | the tail `(.+)$` captures a non-empty text without a newline, which is the whole line or the line minus one final newline |
| Text.RestOfLineCaptures | regchula_scraper.py:112-117 | every non-empty text without a newline is captured whole, with or without one final newline |
| Normalise.ParseIdLine | regchula_scraper.py:153-155 | a match of the pattern at line 112 gives a seven-digit id and a one-line non-empty short name that rebuild the line; anything else is an error naming the line |
| Normalise.IdLineRoundTrip | regchula_scraper.py:153-155 | every seven-digit id, two spaces and one-line name is read back to that id and name |
| Normalise.MatchCredit | regchula_scraper.py:113 | a match gives an amount of the form `-` or digits, point, `0`/`5`, and a one-line type text, which rebuild the line around ` CREDIT HOURS =  ` |
| Normalise.MatchCreditComplete | regchula_scraper.py:113 | every such amount and one-line type text is matched, with or without one final newline |
| Normalise.HalfCredits | regchula_scraper.py:160-161 | the credit is absent exactly for the placeholder `-` |
| Normalise.HalfCreditsRoundTrip | regchula_scraper.py:160-161 | every credit in half credits, and no credit, is read back from its spelling |
| Normalise.CreditType | regchula_scraper.py:162-164 | `(S/U)` is the only type that is rewritten, and it becomes `S/U` |
| Normalise.ParseCreditHeader | regchula_scraper.py:159-164 | the header is an error exactly when the credit pattern does not match, and the error names the line |
| Normalise.CreditHeaderRoundTrip | regchula_scraper.py:159-164 | a header built from any credit and one-line type gives back that credit and the type, stripped, with `(S/U)` collapsed |
| Normalise.SatisfactoryUnsatisfactoryHeader | regchula_scraper.py:159-164 | a `-` header whose type strips to `(S/U)` gives no credit and type `S/U` |
| Normalise.LastSplit | regchula_scraper.py:171 | the greedy first group of `^\((.+)\)  (.+)$` ends at the last split point: no later split exists |
| Normalise.DetailedCredit | regchula_scraper.py:165-172 | absent exactly for an empty line; an error exactly when the line is neither parenthesised nor of the form `(X)  Y` |
| Normalise.DetailedCreditPlain | regchula_scraper.py:168-169 | `(X)` gives `X` |
| Normalise.DetailedCreditSpecial | regchula_scraper.py:170-172 | `(X)  Y`, with `Y` free of `)`, gives `X (Y)` |
| Normalise.DetailedCreditSpecialEndingInParenthesis | regchula_scraper.py:168-172 | a line `(X)  Y` whose `Y` ends in `)` is taken by the plain pattern first, so it gives everything between the outer parentheses |
| Normalise.Prerequisite | regchula_scraper.py:173-175 | the prerequisite is absent exactly when the text is `-`, and is otherwise the text unchanged |
| Exam.MatchGroups | regchula_scraper.py:117 | a match gives well-shaped groups (1-2 digit day, month of the form `x.y.`, 4-digit year, two `H:MM` or `HH:MM` times) that rebuild the line |
| Exam.MatchExamLine | regchula_scraper.py:117 | the same, for a line with or without one final newline |
| Exam.MatchExamLineComplete | regchula_scraper.py:117 | every well-shaped exam line is matched back to its groups, with or without one final newline |
| Exam.ConvertExam | regchula_scraper.py:177-192 | for the mid-term and the final alike, a `TDF` line gives three absent fields; a success has all three fields present or all absent; an error happens exactly when the line is not `TDF` and either does not match or names a month outside the table |
| Exam.NotDeferred | regchula_scraper.py:116-117 | no well-shaped exam line starts with `TDF` |
| Exam.ConvertExamDate | regchula_scraper.py:177-192 | a well-shaped line with a known month gives `year-month-day`, the year and day as written and the month's number unpadded, and the two clock times |
| Exam.ConvertExamUnknownMonth | regchula_scraper.py:182 | a well-shaped line with a month outside the table is an error naming the month (the KeyError of the lookup, here and at line 190) |
| Exam.MonthTableShapes | regchula_scraper.py:99-117 | every abbreviation in the table has the month shape the exam pattern accepts |
| Exam.MonthTableNumbers | regchula_scraper.py:99-110 | the table's numbers are exactly `"1"` to `"12"` |
| Exam.MonthTableInjective | regchula_scraper.py:99-110 | no two abbreviations share a number |
| Sections.ParseHeader | regchula_scraper.py:203-209 | the section fields of a ten-cell row: `int()` of column 1, status 1 exactly when column 0 is empty, and `int()` of the two halves of column 9 split at its one `/`; the first of these that fails is the error; its round trip is `ParseHeaderRoundTrip` |
| Sections.SlotOf | regchula_scraper.py:214-230 | the slot a row adds: the seven cells from column 2 (column 1 for an eight-cell row), the last one absent when empty; `ReconstructByBlocks` and `SlotIdsDense` state what the fold does with it |
| Sections.Reconstruct | regchula_scraper.py:199-231 | the fold of the table's rows into sections, one `Step` per row, stopping at the first row's error; its properties are the lemmas below and `BuildSections` |
| Sections.ParseHeaderRoundTrip | regchula_scraper.py:202-210 | an opening row with decimal number and `registered/maximum` cells gives those numbers; the status is 1 exactly when column 0 is empty |
| Sections.Step | regchula_scraper.py:201-231 | one row of the fold, when it succeeds, leaves at least one section |
| Sections.AddRow | regchula_scraper.py:202-231 | the loop body takes the offset from the previous pass, sets it to -1 for an eight-cell row and resets it to 0 after the append; entered with offset 0 it does exactly one step of the fold, and a successful pass leaves offset 0 |
| Sections.BuildSections | regchula_scraper.py:199-231 | the scraper's loop over the rows, with the column offset carried across passes, computes the fold: the sections, or the first row's error |
| Sections.ReconstructNext | regchula_scraper.py:201-231 | the fold of one more row is one step from the fold so far |
| Sections.ReconstructStops | regchula_scraper.py:201-231 | a row that fails makes the whole table fail with its error |
| Sections.ErrorPersists | regchula_scraper.py:201-231 | once a prefix of the table fails, the whole table fails with the same error |
| Sections.SectionAndSlotCounts | regchula_scraper.py:199-231 | there are as many sections as ten-cell rows, and as many slots in all as rows |
| Sections.StepOk | regchula_scraper.py:201-231 | a row succeeds exactly when it has its slot columns, its header parses if it opens a section, and some section is open or it opens one |
| Sections.ReconstructSucceedsIff | regchula_scraper.py:199-231 | the table folds without error exactly when it is empty or starts with an opening row, and every row is accepted |
| Sections.BlocksSnoc | regchula_scraper.py:202-211 | one more row starts a new block when it has ten cells, and otherwise extends the last block |
| Sections.ReconstructByBlocks | regchula_scraper.py:199-231 | section j is made of exactly block j: its header comes from the block's opening row, and it has one slot per row of the block, numbered from 1, each read from that row's own columns (the offset never carries to the next row) |
| Sections.SlotIdsDense | regchula_scraper.py:223 | in every section the slot ids are 1, 2, ... in order, and no section is empty |
| Course.Assemble | regchula_scraper.py:152-249 | the record of one page, or the error of the first failing step in the scraper's order (id line, credit header, detailed credit, mid-term, final, table), each pinned down by its own clause; a record has a seven-digit id, the two names as read, exam fields all present or all absent, and a prerequisite absent exactly for `-` |
| Course.AssembleSucceedsIff | regchula_scraper.py:152-231 | a page gives a record exactly when every line has its shape, both exams convert and the table is well formed |
| Course.AssembleRendered | regchula_scraper.py:152-249 | a page rendered from known values (id, name, credit, type, two dated exams, a well-formed table) is read back to those values |
| Course.ScrapeCourse | regchula_scraper.py:152-231 | the scraper's steps on one page, with the table folded by the loop, give the record `Assemble` describes |
| Course.ScrapeGroupCourse | regchula_scraper.py:286-294 | group mode gives one pair per row, the row's first and third cells, in row order; a row with fewer than three cells is an error naming the first such row's width |
| Writer.ArrayFile.Open | regchula_scraper.py:95-96 | the file holds `[` and a line break, with no record |
| Writer.ArrayFile.Write | regchula_scraper.py:308 | a text-mode write replaces what lies under it at the position, keeps what lies beyond, and moves the position past it |
| Writer.ArrayFile.Seek | regchula_scraper.py:307 | a negative position is refused and changes nothing; any other position is taken |
| Writer.ArrayFile.AppendRecord | regchula_scraper.py:249 | the file stays the open array, one record longer |
| Writer.AsWrittenOutput | regchula_scraper.py:306-308 | the file after the scraper's closing step: the open array overwritten, three characters before its end, by a line break and `]`; None when that position is negative; its properties are the `AsWritten` lemmas below |
| Writer.ArrayFile.FinalizeAsWritten | regchula_scraper.py:306-308 | the scraper's closing step leaves exactly `AsWrittenOutput`, or fails on a negative seek and leaves the file as it was |
| Writer.ArrayFile.Finalize | regchula_scraper.py:306-308 | the corrected closing step leaves the array: `[`, the records separated by `,` and line breaks, a line break and `]`, for any number of records |
| Writer.WriteAllAsWritten | regchula_scraper.py:306-308 | a whole run as the scraper writes it gives `AsWrittenOutput` of the records |
| Writer.WriteAll | regchula_scraper.py:306-308 | a whole run closed by the corrected step gives the array of the records |
| Writer.ArrayOnDiskTranslates | regchula_scraper.py:95-96 | the array on disk is the array text with every line break written as the platform's line break |
| Writer.BodyJoin | regchula_scraper.py:249 | after at least one record, the file past `[` is the joined records plus one separator |
| Writer.CloseOverSeparator | regchula_scraper.py:306-308 | writing a line break and `]` over the last separator closes the array |
| Writer.AsWrittenExactOnCrLf | regchula_scraper.py:306-308 | with a two-character line break and at least one record, seeking back three characters closes the array exactly |
| Writer.AsWrittenWrongOnLf | regchula_scraper.py:306-308 | with a one-character line break and at least one record, the file ends in a line break, not `]`, so it is not the array |
| Writer.AsWrittenOneRecordOnLf | regchula_scraper.py:306-308 | the single record `{}` with a `"\n"` line break yields `[`, newline, `{`, newline, `]`, newline instead of the array |
| Writer.AsWrittenEmpty | regchula_scraper.py:306-308 | with no record the seek is negative on a `"\n"` system and the opening bracket is overwritten on a `"\r\n"` system |
| Writer.AsWrittenCorrectIff | regchula_scraper.py:306-308 | the scraper's closing step writes the array exactly when there is at least one record and the line break has two characters |
| Cli.FacultyCodes | regchula_scraper.py:73 | every option of the faculty menu but the first, the placeholder; `SearchTerms` states how it is used |
| Cli.SearchTerms | regchula_scraper.py:73-80 | the lengths are checked first, at lines 36-40. Without ids the search terms are every faculty option but the first. With ids, the ids are returned exactly when every id has 2 to 7 characters and starts with a known faculty code. Otherwise the error names the first id of bad length, or, when all lengths are good, the first unknown faculty code |

## Left out

- The browser automation: starting the driver, filling in and submitting the search form, following links and switching frames, waiting for elements. This is `safe_click` and the Selenium calls. Its results are the inputs of the model: the texts of the page's cells and lines.
- The reading of the DOM: which table and which `font` element each line comes from, and the skipping of header rows. The page is given as its texts (`Course.CoursePage`), and the table as its rows of cell texts.
- The command-line parsing, the progress bar, the messages and `exit()`. `Cli.SearchTerms` returns an error where the scraper prints and exits.
- `json.dumps`: records are opaque texts in `Writer`, and `Course.CourseRecord` holds the fields in the scraper's key order.
- Floating point: the credit is kept as a whole number of half credits, which is exact for every amount the pattern accepts.
- The regular-expression engine: each pattern is a recogniser for its one shape.
- Non-ASCII digits: `\d` and `int()` in Python also accept other Unicode decimal digits, and `int()` also accepts underscores between digits. The model accepts ASCII digits only.
- The translation of line breaks by the operating system is a parameter of the writer (`"\n"` or `"\r\n"`), not a property of the platform.
- Course.ScrapeCourse: an error is returned for the one page. In the scraper every such error is an uncaught exception that ends the whole run and leaves the output without its closing bracket.
- Sections.Step: a slot row before any section-opening row is an error. In the scraper this raises NameError in the first course of a run; in later courses the row's slot is added to the previous course's last section, which has already been written.
- Positions in `Writer.ArrayFile` count characters, while Python's `tell()` and `seek()` count bytes. They agree because every text written is ASCII: `json.dumps` escapes non-ASCII characters by default (`ensure_ascii`), and the brackets, commas and line breaks are ASCII. The records are opaque texts, so the model does not state this.
- Writer.ArrayFile.Seek: Python also allows seeking past the end of the file. The scraper never does, so `Seek` requires a position no later than the end.

## Findings

| source | as written | input that shows it | evidently intended | confidence | as-written member | corrected member |
|---|---|---|---|---|---|---|
| regchula_scraper.py:307-308 | closes the array by seeking back three characters, the length of `,` and a Windows line break | the single record `{}` written on a system whose line break is `"\n"`: the file becomes `[`, newline, `{`, newline, `]`, newline | seek back over the last separator, whatever its length, giving `[`, newline, `{}`, newline, `]` | not executed | Writer.AsWrittenWrongOnLf | Writer.ArrayFile.Finalize |
| regchula_scraper.py:307-308 | seeks back three characters even when no record was written | a run where no search term finds a course: the seek position is -1 on a `"\n"` system (ValueError), and on a `"\r\n"` system the file becomes a line break and `]` | an empty array: `[`, a line break, a line break, `]` | not executed | Writer.AsWrittenEmpty | Writer.ArrayFile.Finalize |
