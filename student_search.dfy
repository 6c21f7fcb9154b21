/** The admin's student search: a student stays in the list when the lower-cased search
    term occurs in the lower-cased full name, email, enrolment number or standard, each
    of which may be missing. */
module StudentSearch {
  import opened Common

  /** The searchable fields of a student; a missing user account leaves both the name
      and the email missing. */
  datatype StudentRecord = StudentRecord(fullName: Option<string>, email: Option<string>, enrollNo: Option<string>, standard: Option<string>)

  /** field?.toLowerCase().includes(term.toLowerCase()): a missing field never matches. */
  predicate FieldMatches(field: Option<string>, term: string) {
    field.Some? && Contains(ToLower(field.value), ToLower(term))
  }

  predicate Matches(s: StudentRecord, term: string) {
    FieldMatches(s.fullName, term) || FieldMatches(s.email, term)
    || FieldMatches(s.enrollNo, term) || FieldMatches(s.standard, term)
  }

  /** filteredStudents. */
  function Filtered(students: seq<StudentRecord>, term: string): (r: seq<StudentRecord>)
    ensures |r| <= |students|
    ensures forall x :: x in r <==> x in students && Matches(x, term)
    decreases |students|
  {
    if students == [] then []
    else
      var rest := Filtered(students[..|students| - 1], term);
      var last := students[|students| - 1];
      if Matches(last, term) then rest + [last] else rest
  }

  /** The filter keeps the original order: it works piece by piece over a
      concatenation. */
  lemma {:induction false} FilteredDistributes(a: seq<StudentRecord>, b: seq<StudentRecord>, term: string)
    ensures Filtered(a + b, term) == Filtered(a, term) + Filtered(b, term)
    decreases |b|
  {
    if b == [] {
      assert a + b == a;
    } else {
      assert (a + b)[..|a + b| - 1] == a + b[..|b| - 1];
      FilteredDistributes(a, b[..|b| - 1], term);
    }
  }

  /** An empty term keeps exactly the students with at least one searchable field. */
  lemma EmptyTermKeepsStudentsWithAField(s: StudentRecord)
    ensures Matches(s, "") <==> s.fullName.Some? || s.email.Some? || s.enrollNo.Some? || s.standard.Some?
  {
    if s.fullName.Some? { ContainsEmpty(ToLower(s.fullName.value)); }
    if s.email.Some? { ContainsEmpty(ToLower(s.email.value)); }
    if s.enrollNo.Some? { ContainsEmpty(ToLower(s.enrollNo.value)); }
    if s.standard.Some? { ContainsEmpty(ToLower(s.standard.value)); }
  }

  /** The search ignores the letter case of the term. */
  lemma SearchCaseInsensitive(students: seq<StudentRecord>, term: string)
    ensures Filtered(students, ToLower(term)) == Filtered(students, term)
  {
    ToLowerIdempotent(term);
  }

  /** Typing more narrows: if the new term contains the old one, every student still
      shown was shown before. */
  lemma RefiningNarrows(students: seq<StudentRecord>, term: string, longer: string)
    requires Contains(ToLower(longer), ToLower(term))
    ensures forall x :: x in Filtered(students, longer) ==> x in Filtered(students, term)
  {
    forall x | x in Filtered(students, longer)
      ensures Matches(x, term)
    {
      FieldRefines(x.fullName, term, longer);
      FieldRefines(x.email, term, longer);
      FieldRefines(x.enrollNo, term, longer);
      FieldRefines(x.standard, term, longer);
    }
  }

  lemma FieldRefines(field: Option<string>, term: string, longer: string)
    requires Contains(ToLower(longer), ToLower(term))
    ensures FieldMatches(field, longer) ==> FieldMatches(field, term)
  {
    if FieldMatches(field, longer) {
      ContainsTransitive(ToLower(field.value), ToLower(longer), ToLower(term));
    }
  }
}
