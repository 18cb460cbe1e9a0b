/** The exam-line converter of regchula_scraper.py. An exam line either starts
    with `TDF` (the exam is still to be fixed) or has the shape
    `D MON YYYY เวลา H:MM-H:MM น.`, from which the scraper builds the date
    `YYYY-M-D` through its fixed table of Thai month abbreviations. The year is
    passed through unchanged (it stays a Buddhist-era year) and neither the month
    number nor the day is padded. */
module Exam {
  import opened Text

  /** The Thai month abbreviations and the month numbers they stand for. */
  const MonthToNum: map<string, string> := map[
    "ม.ค." := "1",
    "ก.พ." := "2",
    "มี.ค." := "3",
    "เม.ย." := "4",
    "พ.ค." := "5",
    "มิ.ย." := "6",
    "ก.ค." := "7",
    "ส.ค." := "8",
    "ก.ย." := "9",
    "ต.ค." := "10",
    "พ.ย." := "11",
    "ธ.ค." := "12"
  ]

  // ---------------------------------------------------------------------------
  // The exam line `^(\d{1,2}) (.+\..+\.) (\d{4}) เวลา (\d{1,2}:\d{2})\-(\d{1,2}:\d{2}) น\.$`

  const TimeWord: string := " เวลา "
  const LineEnd: string := " น."

  /** `\d{1,2}:\d{2}` */
  predicate IsClock(t: string) {
    (|t| == 4 || |t| == 5) && AllDigits(t[..|t| - 3]) && t[|t| - 3] == ':' && AllDigits(t[|t| - 2..])
  }

  /** `.+\..+\.`: two dot-terminated parts, each at least two characters long. */
  predicate IsMonthShape(a: string) {
    |a| >= 4 && '\n' !in a && a[|a| - 1] == '.' && '.' in a[1..|a| - 2]
  }

  /** The five groups of the exam-line expression. */
  datatype ExamMatch = ExamMatch(day: string, month: string, year: string, start: string, end: string)

  predicate WellShaped(m: ExamMatch) {
    1 <= |m.day| <= 2 && AllDigits(m.day) && IsMonthShape(m.month)
    && |m.year| == 4 && AllDigits(m.year) && IsClock(m.start) && IsClock(m.end)
  }

  /** The exam line whose groups are those of `m`. */
  function ExamLineText(m: ExamMatch): string {
    m.day + " " + m.month + " " + m.year + TimeWord + m.start + "-" + m.end + LineEnd
  }

  /** `t` without the ending `w`. */
  function DropSuffix(t: string, w: string): (r: Option<string>)
    ensures r.Some? ==> t == r.value + w
  {
    if |t| >= |w| && t[|t| - |w|..] == w then
      assert t == t[..|t| - |w|] + t[|t| - |w|..];
      Some(t[..|t| - |w|])
    else None
  }

  lemma DropSuffixOf(p: string, w: string)
    ensures DropSuffix(p + w, w) == Some(p)
  {
    assert (p + w)[|p|..] == w && (p + w)[..|p|] == p;
  }

  /** The clock time ending `t`: two hour digits when there are two. */
  function PeelClock(t: string): (r: Option<(string, string)>)
    ensures r.Some? ==> t == r.value.0 + r.value.1 && IsClock(r.value.1)
  {
    if |t| >= 5 && IsClock(t[|t| - 5..]) then
      assert t == t[..|t| - 5] + t[|t| - 5..];
      Some((t[..|t| - 5], t[|t| - 5..]))
    else if |t| >= 4 && IsClock(t[|t| - 4..]) then
      assert t == t[..|t| - 4] + t[|t| - 4..];
      Some((t[..|t| - 4], t[|t| - 4..]))
    else None
  }

  lemma PeelClockOf(p: string, c: string)
    requires IsClock(c) && (p == [] || !IsDigit(p[|p| - 1]))
    ensures PeelClock(p + c) == Some((p, c))
  {
    var t := p + c;
    assert t[|p|..] == c && t[..|p|] == p;
    if |c| == 4 && |t| >= 5 {
      assert t[|t| - 5..][0] == p[|p| - 1];
    }
  }

  /** The four-digit year ending `t`, after a space. */
  function PeelYear(t: string): (r: Option<(string, string)>)
    ensures r.Some? ==> t == r.value.0 + " " + r.value.1 && |r.value.1| == 4 && AllDigits(r.value.1)
  {
    if |t| >= 5 && t[|t| - 5] == ' ' && AllDigits(t[|t| - 4..]) then
      assert t == t[..|t| - 5] + [t[|t| - 5]] + t[|t| - 4..];
      Some((t[..|t| - 5], t[|t| - 4..]))
    else None
  }

  lemma PeelYearOf(p: string, y: string)
    requires |y| == 4 && AllDigits(y)
    ensures PeelYear(p + " " + y) == Some((p, y))
  {
    var t := p + " " + y;
    assert t[|t| - 4..] == y && t[..|t| - 5] == p;
  }

  /** The one- or two-digit day opening `t` and the text after the space that follows it. */
  function SplitDay(t: string): (r: Option<(string, string)>)
    ensures r.Some? ==> t == r.value.0 + " " + r.value.1 && 1 <= |r.value.0| <= 2 && AllDigits(r.value.0)
  {
    if |t| >= 2 && IsDigit(t[0]) && t[1] == ' ' then
      assert t == t[..1] + " " + t[2..];
      Some((t[..1], t[2..]))
    else if |t| >= 3 && IsDigit(t[0]) && IsDigit(t[1]) && t[2] == ' ' then
      assert t == t[..2] + " " + t[3..];
      Some((t[..2], t[3..]))
    else None
  }

  lemma SplitDayOf(d: string, rest: string)
    requires 1 <= |d| <= 2 && AllDigits(d)
    ensures SplitDay(d + " " + rest) == Some((d, rest))
  {
    var t := d + " " + rest;
    assert t[..|d|] == d && t[|d| + 1..] == rest;
  }

  /** The groups of a newline-free line, read from its end backwards. */
  function MatchGroups(line: string): (r: Option<ExamMatch>)
    ensures r.Some? ==> WellShaped(r.value) && line == ExamLineText(r.value)
  {
    var t :- DropSuffix(line, LineEnd);
    var endSplit :- PeelClock(t);
    var t2 :- DropSuffix(endSplit.0, "-");
    var startSplit :- PeelClock(t2);
    var t4 :- DropSuffix(startSplit.0, TimeWord);
    var yearSplit :- PeelYear(t4);
    var daySplit :- SplitDay(yearSplit.0);
    if IsMonthShape(daySplit.1) && '\n' !in line then
      Some(ExamMatch(daySplit.0, daySplit.1, yearSplit.1, startSplit.1, endSplit.1))
    else None
  }

  /** The groups of an exam line, if it has the exam-line shape; `$` also matches
      before one final newline. */
  function MatchExamLine(s: string): (r: Option<ExamMatch>)
    ensures r.Some? ==> WellShaped(r.value)
    ensures r.Some? ==> s == ExamLineText(r.value) || s == ExamLineText(r.value) + "\n"
  {
    var line := if s != [] && s[|s| - 1] == '\n' then s[..|s| - 1] else s;
    assert s == line || s == line + "\n";
    MatchGroups(line)
  }

  lemma NoNewlineInExamLine(m: ExamMatch)
    requires WellShaped(m)
    ensures '\n' !in ExamLineText(m)
  {
    assert '\n' !in m.day && '\n' !in m.year && '\n' !in m.start && '\n' !in m.end;
  }

  lemma MatchGroupsComplete(m: ExamMatch)
    requires WellShaped(m)
    ensures MatchGroups(ExamLineText(m)) == Some(m)
  {
    var head := m.day + " " + m.month;
    var t4 := head + " " + m.year;
    var t3 := t4 + TimeWord;
    var t2 := t3 + m.start;
    var t1 := t2 + "-";
    var t := t1 + m.end;
    DropSuffixOf(t, LineEnd);
    PeelClockOf(t1, m.end);
    DropSuffixOf(t2, "-");
    assert t3[|t3| - 1] == ' ';
    PeelClockOf(t3, m.start);
    DropSuffixOf(t4, TimeWord);
    PeelYearOf(head, m.year);
    SplitDayOf(m.day, m.month);
    NoNewlineInExamLine(m);
  }

  /** The recogniser finds the groups of every line of the exam-line shape. */
  lemma MatchExamLineComplete(m: ExamMatch)
    requires WellShaped(m)
    ensures MatchExamLine(ExamLineText(m)) == Some(m)
    ensures MatchExamLine(ExamLineText(m) + "\n") == Some(m)
  {
    MatchGroupsComplete(m);
    NoNewlineInExamLine(m);
    var s := ExamLineText(m);
    assert s[|s| - 1] == '.';
    assert (s + "\n")[..|s|] == s;
  }

  // ---------------------------------------------------------------------------
  // The converter

  /** The date and the two clock times of one exam, all absent when it is to be fixed. */
  datatype ExamTimes = ExamTimes(date: Option<string>, start: Option<string>, end: Option<string>)

  predicate StartsWithTdf(line: string) {
    |line| >= 3 && line[..3] == "TDF"
  }

  /** The scraper's conversion of one exam line (the mid-term and the final alike). */
  function ConvertExam(line: string): (r: Result<ExamTimes>)
    ensures StartsWithTdf(line) ==> r == Ok(ExamTimes(None, None, None))
    ensures r.Ok? ==> (r.value.date.Some? <==> r.value.start.Some?) && (r.value.start.Some? <==> r.value.end.Some?)
    ensures r.Ok? && r.value.date.Some? ==> !StartsWithTdf(line) && MatchExamLine(line).Some?
    ensures r.Err? <==> !StartsWithTdf(line) && (MatchExamLine(line).None? || MatchExamLine(line).value.month !in MonthToNum)
  {
    if StartsWithTdf(line) then Ok(ExamTimes(None, None, None))
    else
      match MatchExamLine(line)
      case None => Err(UnexpectedLineShape(line))
      case Some(m) =>
        if m.month in MonthToNum then
          Ok(ExamTimes(Some(m.year + "-" + MonthToNum[m.month] + "-" + m.day), Some(m.start), Some(m.end)))
        else Err(UnknownMonthAbbreviation(m.month))
  }

  lemma NotDeferred(m: ExamMatch)
    requires WellShaped(m)
    ensures !StartsWithTdf(ExamLineText(m))
  {
    var s := ExamLineText(m);
    assert s[0] == m.day[0] && IsDigit(m.day[0]);
    if |s| >= 3 { assert s[..3][0] == s[0]; }
  }

  /** A line of the exam-line shape with a known month gives the date year-month-day,
      the year exactly as written, and the two clock times. */
  lemma ConvertExamDate(m: ExamMatch)
    requires WellShaped(m) && m.month in MonthToNum
    ensures ConvertExam(ExamLineText(m))
         == Ok(ExamTimes(Some(m.year + "-" + MonthToNum[m.month] + "-" + m.day), Some(m.start), Some(m.end)))
  {
    MatchExamLineComplete(m);
    NotDeferred(m);
  }

  /** A line of the exam-line shape whose abbreviation is not in the table is an error
      (the scraper's KeyError). */
  lemma ConvertExamUnknownMonth(m: ExamMatch)
    requires WellShaped(m) && m.month !in MonthToNum
    ensures ConvertExam(ExamLineText(m)) == Err(UnknownMonthAbbreviation(m.month))
  {
    MatchExamLineComplete(m);
    NotDeferred(m);
  }

  /** Every abbreviation in the table has the exam-line month shape, so every one of them can be reached ... */
  lemma MonthTableShapes()
    ensures forall a :: a in MonthToNum ==> IsMonthShape(a)
  {
    forall a | a in MonthToNum ensures IsMonthShape(a) {
      assert |a| >= 4 && a[|a| - 3] == '.';
      assert a[1..|a| - 2][|a| - 4] == '.';
    }
  }

  /** The table numbers the months 1 to 12 ... */
  lemma MonthTableNumbers()
    ensures MonthToNum.Values == {"1", "2", "3", "4", "5", "6", "7", "8", "9", "10", "11", "12"}
  {
    var numbers := {"1", "2", "3", "4", "5", "6", "7", "8", "9", "10", "11", "12"};
    forall v | v in MonthToNum.Values ensures v in numbers {
      var a :| a in MonthToNum && MonthToNum[a] == v;
    }
    assert MonthToNum["ม.ค."] == "1" && MonthToNum["ก.พ."] == "2" && MonthToNum["มี.ค."] == "3";
    assert MonthToNum["เม.ย."] == "4" && MonthToNum["พ.ค."] == "5" && MonthToNum["มิ.ย."] == "6";
    assert MonthToNum["ก.ค."] == "7" && MonthToNum["ส.ค."] == "8" && MonthToNum["ก.ย."] == "9";
    assert MonthToNum["ต.ค."] == "10" && MonthToNum["พ.ย."] == "11" && MonthToNum["ธ.ค."] == "12";
  }

  /** ... and uses no number twice. */
  lemma MonthTableInjective()
    ensures forall a, b :: a in MonthToNum && b in MonthToNum && MonthToNum[a] == MonthToNum[b] ==> a == b
  {
  }
}
