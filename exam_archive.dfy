/**
 * The exam archive screen (components/ExamArchive.tsx): the exam list
 * narrowed by university and by a search on the subject.
 */
module ExamArchive {
  import opened Js
  import opened Types
  import Constants

  /** The university selector: every university, or one of the two. */
  datatype UniversityFilter = Todas | UffOnly | EstacioOnly

  /** The selector's value as the string the component compares with. */
  function FilterValue(f: UniversityFilter): string {
    match f
    case Todas => "TODAS"
    case UffOnly => Constants.Uff
    case EstacioOnly => Constants.Estacio
  }

  /** The `filteredExams` predicate: the university matches the selector and the lowercased subject contains the lowercased term. */
  predicate Shown(exam: Exam, f: UniversityFilter, term: string, lower: string -> string) {
    (f == Todas || exam.university == FilterValue(f)) && Includes(lower(exam.subject), lower(term))
  }

  /** The predicate as the function value handed to `filter`. */
  function ShownBy(f: UniversityFilter, term: string, lower: string -> string): Exam -> bool {
    (e: Exam) => Shown(e, f, term, lower)
  }

  /** `filteredExams`: the shown exams of the catalogue. */
  function FilterExams(exams: seq<Exam>, f: UniversityFilter, term: string, lower: string -> string): (r: seq<Exam>)
    ensures |r| <= |exams|
    ensures forall i :: 0 <= i < |r| ==> r[i] in exams && Includes(lower(r[i].subject), lower(term))
    ensures f != Todas ==> forall i :: 0 <= i < |r| ==> r[i].university == FilterValue(f)
  {
    Filter(exams, ShownBy(f, term, lower))
  }

  /** An exam is listed exactly when it is in the catalogue and passes both conditions. */
  lemma ShownIff(exams: seq<Exam>, f: UniversityFilter, term: string, lower: string -> string, e: Exam)
    ensures e in FilterExams(exams, f, term, lower) <==> e in exams && Shown(e, f, term, lower)
  {
    var r := FilterExams(exams, f, term, lower);
    if e in r {
      var i :| 0 <= i < |r| && r[i] == e;
    }
    if e in exams && Shown(e, f, term, lower) {
      var i :| 0 <= i < |exams| && exams[i] == e;
    }
  }

  /** The listed exams keep the catalogue order. */
  lemma FilterExamsKeepsOrder(exams: seq<Exam>, f: UniversityFilter, term: string, lower: string -> string)
    ensures IsSubsequence(FilterExams(exams, f, term, lower), exams)
  {
    FilterIsSubsequence(exams, ShownBy(f, term, lower));
  }

  /** Every university and an empty search list the whole catalogue. */
  lemma EverythingShownByDefault(exams: seq<Exam>, lower: string -> string)
    requires lower("") == ""
    ensures FilterExams(exams, Todas, "", lower) == exams
  {
    forall i | 0 <= i < |exams| ensures Shown(exams[i], Todas, "", lower) {
      assert [] <= lower(exams[i].subject);
    }
    FilterKeepsAll(exams, ShownBy(Todas, "", lower));
  }

  /** The UFF exams of the first n subjects of the generated catalogue, in subject order. */
  function UffExams(subjects: seq<string>, n: nat): (r: seq<Exam>)
    requires n <= |subjects|
    ensures |r| == n
  {
    if n == 0 then [] else UffExams(subjects, n - 1) + [Constants.UffExam(subjects[n - 1], n - 1)]
  }

  /** On the generated catalogue, selecting UFF with an empty search lists each subject's UFF exam, in subject order. */
  lemma {:induction false} UffSelectionOfCatalogue(subjects: seq<string>, n: nat, lower: string -> string)
    requires n <= |subjects| && lower("") == ""
    ensures FilterExams(Constants.ExamCatalogue(subjects, n), UffOnly, "", lower) == UffExams(subjects, n)
  {
    if n > 0 {
      var keep := ShownBy(UffOnly, "", lower);
      UffSelectionOfCatalogue(subjects, n - 1, lower);
      var pair := [Constants.UffExam(subjects[n - 1], n - 1), Constants.EstacioExam(subjects[n - 1], n - 1)];
      var prev := Constants.ExamCatalogue(subjects, n - 1);
      assert Constants.ExamCatalogue(subjects, n) == prev + pair;
      FilterAppend(prev, pair, keep);
      UffHalfOfPair(subjects[n - 1], n - 1, lower);
    }
  }

  /** Of the two exams generated for one subject, the UFF selection keeps the first. */
  lemma UffHalfOfPair(subject: string, index: nat, lower: string -> string)
    requires lower("") == ""
    ensures var uff := Constants.UffExam(subject, index);
      Filter([uff, Constants.EstacioExam(subject, index)], ShownBy(UffOnly, "", lower)) == [uff]
  {
    var uff, est := Constants.UffExam(subject, index), Constants.EstacioExam(subject, index);
    var keep := ShownBy(UffOnly, "", lower);
    assert [] <= lower(uff.subject);
    assert keep(uff);
    assert est.university[0] != Constants.Uff[0];
    assert !keep(est);
    assert [uff, est][1..] == [est];
    assert [est][1..] == [];
  }
}
