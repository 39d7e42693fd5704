/** Checks applied to submitted course data before it is saved: the required
    fields of `validateCourseData`, its grade rule, and the elective-field rule
    of course promotions. */
module CourseValidation {
  import opened Records
  import opened Numerals
  import opened CsvUtils

  const RequiredFields: seq<string> :=
    ["course_name", "course_attribute", "instructor", "content", "attendance", "assessment", "grade"]

  const MissingFieldPrefix: string := "Missing required field: "
  const GradeError: string := "Grade must be between 0 and 100 or 'Unknown'"

  /** The position of the first of `fields` that `course` lacks, or `|fields|`
      when it has them all. */
  function FirstMissing(course: Record, fields: seq<string>): (k: nat)
    ensures k <= |fields|
    ensures forall j | 0 <= j < k :: fields[j] in course
    ensures k < |fields| ==> fields[k] !in course
  {
    if fields == [] then 0
    else if fields[0] !in course then 0
    else 1 + FirstMissing(course, fields[1..])
  }

  /** The grade rule: a string grade other than "Unknown" must be a decimal
      integer (as `strconv.Atoi` reads it) between 0 and 100; a grade of any
      other type is not checked. */
  function GradeAccepted(grade: Value): (ok: bool)
    ensures grade.Str? && grade.s != "Unknown" ==> (ok <==> GradeNumeral(grade.s))
  {
    !grade.Str? || grade.s == "Unknown" || (Atoi(grade.s).Some? && 0 <= Atoi(grade.s).value <= 100)
  }

  /** The accepted grade strings, described without the int64 range: digits
      after an optional sign, worth at most 100, and worth 0 when negated. */
  predicate GradeNumeral(s: string) {
    var body := if |s| > 0 && (s[0] == '+' || s[0] == '-') then s[1..] else s;
    && body != [] && AllDigits(body) && DigitsValue(body) <= 100
    && (s[0] == '-' ==> DigitsValue(body) == 0)
  }

  method ValidateCourseData(course: Record) returns (valid: bool, message: string)
    ensures var k := FirstMissing(course, RequiredFields);
      k < |RequiredFields| ==> !valid && message == MissingFieldPrefix + RequiredFields[k]
    ensures FirstMissing(course, RequiredFields) == |RequiredFields| ==>
      && "grade" in course
      && (valid <==> GradeAccepted(course["grade"]))
      && message == if valid then "" else GradeError
    ensures valid <==>
      (forall f | f in RequiredFields :: f in course) && "grade" in course && GradeAccepted(course["grade"])
  {
    var k := 0;
    while k < |RequiredFields|
      invariant k <= |RequiredFields|
      invariant forall j | 0 <= j < k :: RequiredFields[j] in course
    {
      var field := RequiredFields[k];
      if field !in course {
        return false, MissingFieldPrefix + field;
      }
      k := k + 1;
    }
    assert RequiredFields[6] == "grade";
    var grade := course["grade"];
    if grade.Str? && grade.s != "Unknown" {
      var gradeVal := Atoi(grade.s);
      if gradeVal.None? || gradeVal.value < 0 || gradeVal.value > 100 {
        return false, GradeError;
      }
    }
    return true, "";
  }

  /** A grade written as a decimal integer is accepted exactly when it lies
      in [0, 100]. */
  lemma DecimalGradeAccepted(n: int)
    ensures GradeAccepted(Str(IntToString(n))) <==> 0 <= n <= 100
  {
    AtoiOfIntToString(n);
    var s := IntToString(n);
    assert s[0] == '-' || IsDigit(s[0]);
    assert s != "Unknown";
  }

  /** `strconv.Atoi` syntax at the edges: a sign and leading zeros are allowed,
      nothing else is; grades of other types pass unchecked. */
  lemma GradeRuleExamples()
    ensures Atoi("+07") == Some(7) && Atoi("-0") == Some(0) && Atoi("100") == Some(100)
    ensures Atoi("") == None && Atoi("-") == None && Atoi(" 5") == None
    ensures Atoi("1_0") == None && Atoi("9.5") == None
    ensures GradeAccepted(Str("+07")) && GradeAccepted(Str("Unknown")) && GradeAccepted(Num(500))
    ensures !GradeAccepted(Str("101")) && !GradeAccepted(Str("-1")) && !GradeAccepted(Str("unknown"))
  {
    assert "+07"[1..] == "07" && "07"[..1] == "0" && "0"[..0] == "";
    assert DigitsValue("07") == 7;
    assert "-0"[1..] == "0";
    assert "100"[..2] == "10" && "10"[..1] == "1";
    assert "101"[..2] == "10";
    assert "-1"[1..] == "1";
    assert !IsDigit(" 5"[0]) && !IsDigit("1_0"[1]) && !IsDigit("9.5"[1]) && !IsDigit("unknown"[0]);
  }

  const GeneralElective: string := "通识选修课（公选课）"
  const ElectiveFieldRequired: string := "通识选修课必须指定选修领域"

  /** The bound request body of a course promotion. The credit is a whole
      number here (floating point is not modelled). */
  datatype CoursePromotion = CoursePromotion(
    courseName: string, courseAttribute: string, electiveField: string,
    instructor: string, credit: int, content: string, attendance: string,
    assessment: string, highlights: string, suitableStudents: string,
    resources: seq<string>)

  const PromotionsPath: string := "./coursePromotions.csv"

  const PromotionHeaders: seq<string> :=
    ["course_name", "course_attribute", "elective_field", "instructor",
     "credit", "content", "attendance", "assessment", "highlights",
     "suitable_students", "resources", "submit_time"]

  /** `strings.Join(parts, sep)`. */
  function Join(parts: seq<string>, sep: string): string {
    if parts == [] then ""
    else if |parts| == 1 then parts[0]
    else Join(parts[..|parts| - 1], sep) + sep + parts[|parts| - 1]
  }

  /** The elective-field rule: a general elective must name its elective field. */
  predicate ElectiveFieldMissing(input: CoursePromotion) {
    input.courseAttribute == GeneralElective && input.electiveField == ""
  }

  /** The record saved for a promotion submitted at `submitTime`. */
  function PromotionData(input: CoursePromotion, submitTime: string): Record {
    map["course_name" := Str(input.courseName),
        "course_attribute" := Str(input.courseAttribute),
        "elective_field" := Str(input.electiveField),
        "instructor" := Str(input.instructor),
        "credit" := Num(input.credit),
        "content" := Str(input.content),
        "attendance" := Str(input.attendance),
        "assessment" := Str(input.assessment),
        "highlights" := Str(input.highlights),
        "suitable_students" := Str(input.suitableStudents),
        "resources" := Str(Join(input.resources, "|")),
        "submit_time" := Str(submitTime)]
  }

  /** `submitCoursePromotion` after binding: a general elective without an
      elective field is rejected and nothing is written; any other promotion
      is appended to the promotions file and returned. */
  method SubmitCoursePromotion(fs: FileSystem, input: CoursePromotion, submitTime: string)
    returns (r: Result<Record, string>)
    modifies fs
    ensures ElectiveFieldMissing(input) ==>
      r == Err(ElectiveFieldRequired) && fs.files == old(fs.files)
    ensures !ElectiveFieldMissing(input) ==> r == Ok(PromotionData(input, submitTime))
    ensures !ElectiveFieldMissing(input) && PromotionsPath !in old(fs.files) ==>
      fs.files == old(fs.files)[PromotionsPath := CsvDocument([PromotionData(input, submitTime)], PromotionHeaders)]
    ensures !ElectiveFieldMissing(input) && PromotionsPath in old(fs.files) ==>
      fs.files == old(fs.files)[PromotionsPath :=
        old(fs.files)[PromotionsPath] + [Projection(PromotionData(input, submitTime), PromotionHeaders)]]
  {
    if input.courseAttribute == GeneralElective && input.electiveField == "" {
      return Err(ElectiveFieldRequired);
    }
    var promotionData := PromotionData(input, submitTime);
    fs.AppendToCsv(PromotionsPath, promotionData, PromotionHeaders);
    return Ok(promotionData);
  }

  /** What the rule protects: the row saved for an accepted general elective
      carries its elective field, and reading the row back gives that field
      unchanged rather than the placeholder. */
  lemma SavedElectiveNamesField(input: CoursePromotion, submitTime: string)
    requires !ElectiveFieldMissing(input) && input.courseAttribute == GeneralElective
    ensures var row := Projection(PromotionData(input, submitTime), PromotionHeaders);
      && row[2] == input.electiveField != ""
      && "elective_field" in RowToRecord(PromotionHeaders, row)
      && RowToRecord(PromotionHeaders, row)["elective_field"] == Str(input.electiveField)
  {
    var row := Projection(PromotionData(input, submitTime), PromotionHeaders);
    assert PromotionHeaders[2] == "elective_field";
    assert LastColumn(PromotionHeaders, 2, |row|);
    RowPrefixLastColumn(PromotionHeaders, row, |row|, 2);
  }
}
