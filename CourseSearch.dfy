/** The linear course search (`searchCourses`): keep, in store order, every
    record whose name and instructor fields contain the two filters. */
module CourseSearch {
  import opened Records

  const NameField: string := "课程名称"
  const InstructorField: string := "授课老师"

  /** One half of the filter: an empty filter passes every record, otherwise
      the field (read as a string, "" if absent or not a string) must contain it. */
  predicate FieldMatches(r: Record, field: string, filter: string) {
    filter == "" || Contains(StringField(r, field), filter)
  }

  predicate Matches(r: Record, courseName: string, instructor: string) {
    FieldMatches(r, NameField, courseName) && FieldMatches(r, InstructorField, instructor)
  }

  /** The matching records of `courses`, in store order. */
  function Matching(courses: seq<Record>, courseName: string, instructor: string): seq<Record> {
    if courses == [] then []
    else
      var last := courses[|courses| - 1];
      Matching(courses[..|courses| - 1], courseName, instructor)
      + (if Matches(last, courseName, instructor) then [last] else [])
  }

  /** The positions of the matching records of `courses`, ascending. */
  function MatchIndices(courses: seq<Record>, courseName: string, instructor: string): seq<nat> {
    if courses == [] then []
    else
      var n := |courses| - 1;
      MatchIndices(courses[..n], courseName, instructor)
      + (if Matches(courses[n], courseName, instructor) then [n] else [])
  }

  method SearchCourses(courses: seq<Record>, courseName: string, instructor: string)
    returns (results: seq<Record>)
    ensures results == Matching(courses, courseName, instructor)
    ensures forall r :: r in results <==> r in courses && Matches(r, courseName, instructor)
    ensures |results| <= |courses|
  {
    results := [];
    var k := 0;
    while k < |courses|
      invariant k <= |courses|
      invariant results == Matching(courses[..k], courseName, instructor)
    {
      var course := courses[k];
      var nameMatch := true;
      var instructorMatch := true;
      if courseName != "" {
        var courseNameValue := StringField(course, NameField);
        nameMatch := Contains(courseNameValue, courseName);
      }
      if instructor != "" {
        var courseInstructor := StringField(course, InstructorField);
        instructorMatch := Contains(courseInstructor, instructor);
      }
      if nameMatch && instructorMatch {
        results := results + [course];
      }
      assert courses[..k + 1][..k] == courses[..k];
      k := k + 1;
    }
    assert courses[..k] == courses;
    MatchingMembers(courses, courseName, instructor);
    MatchingSelects(courses, courseName, instructor);
  }

  /** With both filters empty the whole store comes back, in order. */
  lemma {:induction false} MatchingAll(courses: seq<Record>)
    ensures Matching(courses, "", "") == courses
  {
    if courses != [] {
      MatchingAll(courses[..|courses| - 1]);
    }
  }

  /** Soundness and completeness: a record is in the result exactly when it is
      in the store and passes both filters. */
  lemma {:induction false} MatchingMembers(courses: seq<Record>, courseName: string, instructor: string)
    ensures forall r :: r in Matching(courses, courseName, instructor) <==>
      r in courses && Matches(r, courseName, instructor)
  {
    if courses != [] {
      var n := |courses| - 1;
      MatchingMembers(courses[..n], courseName, instructor);
      assert courses == courses[..n] + [courses[n]];
    }
  }

  /** Order: the result is the store read at the ascending positions of exactly
      the matching records; hence it is never longer than the store. */
  lemma {:induction false} MatchingSelects(courses: seq<Record>, courseName: string, instructor: string)
    ensures var rs, ix := Matching(courses, courseName, instructor), MatchIndices(courses, courseName, instructor);
      && |rs| == |ix| <= |courses|
      && (forall k | 0 <= k < |ix| :: ix[k] < |courses| && rs[k] == courses[ix[k]])
      && (forall k, l | 0 <= k < l < |ix| :: ix[k] < ix[l])
      && (forall i: nat :: i in ix <==> i < |courses| && Matches(courses[i], courseName, instructor))
  {
    MatchIndicesAscending(courses, courseName, instructor);
    MatchingAtIndices(courses, courseName, instructor);
  }

  lemma {:induction false} MatchIndicesAscending(courses: seq<Record>, courseName: string, instructor: string)
    ensures var ix := MatchIndices(courses, courseName, instructor);
      && |ix| <= |courses|
      && (forall k | 0 <= k < |ix| :: ix[k] < |courses|)
      && (forall k, l | 0 <= k < l < |ix| :: ix[k] < ix[l])
      && (forall i: nat :: i in ix <==> i < |courses| && Matches(courses[i], courseName, instructor))
  {
    if courses != [] {
      var n := |courses| - 1;
      var pre := courses[..n];
      MatchIndicesAscending(pre, courseName, instructor);
      assert forall i | 0 <= i < n :: pre[i] == courses[i];
    }
  }

  lemma {:induction false} MatchingAtIndices(courses: seq<Record>, courseName: string, instructor: string)
    ensures var rs, ix := Matching(courses, courseName, instructor), MatchIndices(courses, courseName, instructor);
      |rs| == |ix| && forall k | 0 <= k < |ix| :: ix[k] < |courses| && rs[k] == courses[ix[k]]
  {
    if courses != [] {
      var n := |courses| - 1;
      var pre := courses[..n];
      MatchingAtIndices(pre, courseName, instructor);
      MatchIndicesAscending(pre, courseName, instructor);
      assert forall i | 0 <= i < n :: pre[i] == courses[i];
    }
  }

  /** A record without a usable name (or instructor) field never matches a
      non-empty filter on it, and always passes an empty one. */
  lemma MissingFieldMatchesOnlyEmpty(r: Record, field: string, filter: string)
    requires field !in r || !r[field].Str?
    ensures FieldMatches(r, field, filter) <==> filter == ""
  {
    ContainsEmpty("", filter);
  }

  /** A two-record store: Algorithms taught by Lee, Data Structures by Chen. */
  lemma ExampleSearch()
    ensures var a := map[NameField := Str("Algorithms"), InstructorField := Str("Lee")];
      var d := map[NameField := Str("Data Structures"), InstructorField := Str("Chen")];
      && Matching([a, d], "Algo", "") == [a]
      && Matching([a, d], "", "Ch") == [d]
      && Matching([a, d], "zzz", "") == []
  {
    var a := map[NameField := Str("Algorithms"), InstructorField := Str("Lee")];
    var d := map[NameField := Str("Data Structures"), InstructorField := Str("Chen")];
    assert [a, d][..1] == [a] && [a][..0] == [];
    assert NameField[0] != InstructorField[0];
    assert StringField(a, NameField) == "Algorithms" && StringField(a, InstructorField) == "Lee";
    assert StringField(d, NameField) == "Data Structures" && StringField(d, InstructorField) == "Chen";
    assert OccursAt("Algorithms", "Algo", 0);
    assert OccursAt("Chen", "Ch", 0);
    NoOccurrence("Data Structures", "Algo", 'A');
    NoOccurrence("Lee", "Ch", 'C');
    NoOccurrence("Algorithms", "zzz", 'z');
    NoOccurrence("Data Structures", "zzz", 'z');
    assert Matches(a, "Algo", "") && !Matches(d, "Algo", "");
    assert !Matches(a, "", "Ch") && Matches(d, "", "Ch");
    assert !Matches(a, "zzz", "") && !Matches(d, "zzz", "");
    assert Matching([a], "Algo", "") == Matching([], "Algo", "") + [a];
    assert Matching([a], "", "Ch") == Matching([], "", "Ch") + [];
    assert Matching([a], "zzz", "") == Matching([], "zzz", "") + [];
    assert Matching([a, d], "Algo", "") == Matching([a], "Algo", "") + [];
    assert Matching([a, d], "", "Ch") == Matching([a], "", "Ch") + [d];
    assert Matching([a, d], "zzz", "") == Matching([a], "zzz", "") + [];
  }

  lemma NoOccurrence(s: string, sub: string, c: char)
    requires |sub| > 0 && sub[0] == c
    requires forall i | 0 <= i < |s| :: s[i] != c
    ensures !Contains(s, sub)
  {
  }
}
