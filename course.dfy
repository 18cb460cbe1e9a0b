/** One course page turned into one course record (normal mode), and one
    group-course page turned into its list of sub-courses (group mode). */
module Course {
  import opened Text
  import opened Normalise
  import opened Exam
  import opened Sections

  /** The texts the scraper reads off one course page: the id line, the two
      names, the three credit lines, the mid-term and final exam lines and the
      section table as rows of cell texts. */
  datatype CoursePage = CoursePage(
    idLine: string, thName: string, enName: string,
    creditLine: string, detailLine: string, prerequisiteText: string,
    midTermLine: string, finalLine: string,
    table: seq<Row>)

  /** One course record, in the key order the scraper writes. The credit is kept
      in half-credits (`3.0` is 6, `1.5` is 3). */
  datatype CourseRecord = CourseRecord(
    courseId: string, shortName: string, thName: string, enName: string,
    halfCredits: Option<nat>, creditType: string, detailedCreditType: Option<string>,
    prerequisite: Option<string>,
    midTerm: ExamTimes, final: ExamTimes,
    sections: seq<Section>)

  /** The three fields of an exam are either all present or all absent. */
  predicate AllOrNone(e: ExamTimes) {
    (e.date.Some? <==> e.start.Some?) && (e.start.Some? <==> e.end.Some?)
  }

  /** The record of one page, or the error of the first step that fails, in the
      order the scraper takes them: id line, credit header, detailed credit,
      mid-term, final, section table. */
  function Assemble(page: CoursePage): (r: Result<CourseRecord>)
    ensures ParseIdLine(page.idLine).Err? ==> r == Err(UnexpectedLineShape(page.idLine))
    ensures ParseIdLine(page.idLine).Ok? && ParseCreditHeader(page.creditLine).Err?
            ==> r == Err(UnexpectedLineShape(page.creditLine))
    ensures ParseIdLine(page.idLine).Ok? && ParseCreditHeader(page.creditLine).Ok?
            && DetailedCredit(page.detailLine).Err?
            ==> r == Err(UnexpectedLineShape(page.detailLine))
    ensures ParseIdLine(page.idLine).Ok? && ParseCreditHeader(page.creditLine).Ok?
            && DetailedCredit(page.detailLine).Ok? && ConvertExam(page.midTermLine).Err?
            ==> r == Err(ConvertExam(page.midTermLine).error)
    ensures ParseIdLine(page.idLine).Ok? && ParseCreditHeader(page.creditLine).Ok?
            && DetailedCredit(page.detailLine).Ok? && ConvertExam(page.midTermLine).Ok?
            && ConvertExam(page.finalLine).Err?
            ==> r == Err(ConvertExam(page.finalLine).error)
    ensures ParseIdLine(page.idLine).Ok? && ParseCreditHeader(page.creditLine).Ok?
            && DetailedCredit(page.detailLine).Ok? && ConvertExam(page.midTermLine).Ok?
            && ConvertExam(page.finalLine).Ok? && Reconstruct(page.table).Err?
            ==> r == Err(Reconstruct(page.table).error)
    ensures r.Ok? ==> |r.value.courseId| == 7 && AllDigits(r.value.courseId)
    ensures r.Ok? ==> AllOrNone(r.value.midTerm) && AllOrNone(r.value.final)
    ensures r.Ok? ==> r.value.thName == page.thName && r.value.enName == page.enName
    ensures r.Ok? ==> (r.value.prerequisite.None? <==> page.prerequisiteText == "-")
  {
    var id :- ParseIdLine(page.idLine);
    var credit :- ParseCreditHeader(page.creditLine);
    var detail :- DetailedCredit(page.detailLine);
    var midTerm :- ConvertExam(page.midTermLine);
    var final :- ConvertExam(page.finalLine);
    var sections :- Reconstruct(page.table);
    Ok(CourseRecord(id.courseId, id.shortName, page.thName, page.enName,
                    credit.halfCredits, credit.creditType, detail,
                    Prerequisite(page.prerequisiteText),
                    midTerm, final, sections))
  }

  /** A page gives a record exactly when every line has its expected shape, both
      exam months are known (or the exam is still to be fixed) and the table is
      well formed. */
  lemma AssembleSucceedsIff(page: CoursePage)
    ensures Assemble(page).Ok?
        <==> ParseIdLine(page.idLine).Ok? && MatchCredit(page.creditLine).Some?
             && DetailedCredit(page.detailLine).Ok?
             && ConvertExam(page.midTermLine).Ok? && ConvertExam(page.finalLine).Ok?
             && WellFormedTable(page.table)
  {
    ReconstructSucceedsIff(page.table);
  }

  /** A page rendered from known values is read back to those values: the id and
      short name, the credit, the type stripped, no detailed credit, the two exam
      dates with their clock times, and the sections the table folds into. */
  lemma AssembleRendered(id: string, name: string, th: string, en: string,
                         credit: Option<nat>, t: string, prerequisite: string,
                         mid: ExamMatch, final: ExamMatch, table: seq<Row>)
    requires |id| == 7 && AllDigits(id) && name != [] && '\n' !in name
    requires t != [] && '\n' !in t
    requires WellShaped(mid) && mid.month in MonthToNum
    requires WellShaped(final) && final.month in MonthToNum
    requires WellFormedTable(table)
    ensures Reconstruct(table).Ok?
    ensures Assemble(CoursePage(id + "  " + name, th, en, AmountText(credit) + CreditMarker + t, "",
                                prerequisite, ExamLineText(mid), ExamLineText(final), table))
         == Ok(CourseRecord(id, name, th, en, credit, CreditType(Strip(t)), None,
                            Prerequisite(prerequisite),
                            ExamTimes(Some(mid.year + "-" + MonthToNum[mid.month] + "-" + mid.day),
                                      Some(mid.start), Some(mid.end)),
                            ExamTimes(Some(final.year + "-" + MonthToNum[final.month] + "-" + final.day),
                                      Some(final.start), Some(final.end)),
                            Reconstruct(table).value))
  {
    IdLineRoundTrip(id, name);
    CreditHeaderRoundTrip(credit, t);
    ConvertExamDate(mid);
    ConvertExamDate(final);
    ReconstructSucceedsIff(table);
  }

  /** The scraper's handling of one course page, step by step, with the section
      table folded by the loop of `BuildSections`. */
  method ScrapeCourse(page: CoursePage) returns (r: Result<CourseRecord>)
    ensures r == Assemble(page)
  {
    var id := ParseIdLine(page.idLine);
    if id.Err? { return Err(id.error); }
    var credit := ParseCreditHeader(page.creditLine);
    if credit.Err? { return Err(credit.error); }
    var detail := DetailedCredit(page.detailLine);
    if detail.Err? { return Err(detail.error); }
    var prerequisite := Prerequisite(page.prerequisiteText);
    var midTerm := ConvertExam(page.midTermLine);
    if midTerm.Err? { return Err(midTerm.error); }
    var final := ConvertExam(page.finalLine);
    if final.Err? { return Err(final.error); }
    var sections := BuildSections(page.table);
    if sections.Err? { return Err(sections.error); }
    r := Ok(CourseRecord(id.value.courseId, id.value.shortName, page.thName, page.enName,
                         credit.value.halfCredits, credit.value.creditType, detail.value,
                         prerequisite, midTerm.value, final.value, sections.value));
  }

  // ---------------------------------------------------------------------------
  // Group mode

  /** One sub-course of a group course: the course id and the section number,
      both as the cell texts. */
  datatype SubCourse = SubCourse(courseId: string, sectNum: string)

  datatype GroupCourse = GroupCourse(groupCourseId: string, subCourses: seq<SubCourse>)

  /** The scraper's loop over the rows of a group-course page: each row gives the
      texts of its first and third cells; a row with fewer than three cells
      stops the page with the first such row's width. */
  method ScrapeGroupCourse(groupCourseId: string, rows: seq<Row>) returns (r: Result<GroupCourse>)
    ensures r.Ok? <==> forall i :: 0 <= i < |rows| ==> |rows[i]| >= 3
    ensures r.Ok? ==> r.value.groupCourseId == groupCourseId && |r.value.subCourses| == |rows|
    ensures r.Ok? ==> forall i :: 0 <= i < |rows| ==> r.value.subCourses[i] == SubCourse(rows[i][0], rows[i][2])
    ensures r.Err? ==> exists k :: 0 <= k < |rows| && |rows[k]| < 3 && r.error == MissingColumn(|rows[k]|)
                                   && forall i :: 0 <= i < k ==> |rows[i]| >= 3
  {
    var subCourses: seq<SubCourse> := [];
    var j := 0;
    while j < |rows|
      invariant 0 <= j <= |rows| && |subCourses| == j
      invariant forall i :: 0 <= i < j ==> |rows[i]| >= 3
      invariant forall i :: 0 <= i < j ==> subCourses[i] == SubCourse(rows[i][0], rows[i][2])
    {
      var columns := rows[j];
      if |columns| < 3 {
        return Err(MissingColumn(|columns|));
      }
      subCourses := subCourses + [SubCourse(columns[0], columns[2])];
      j := j + 1;
    }
    return Ok(GroupCourse(groupCourseId, subCourses));
  }
}
