/**
 * The question bank screen (components/QuestionBank.tsx): the searchable,
 * sorted list of subjects and the colour category of each subject card.
 */
module QuestionBank {
  import opened Js

  /** A subject is listed when its lowercased name contains the lowercased search term. */
  predicate Matches(subject: string, term: string, lower: string -> string) {
    Includes(lower(subject), lower(term))
  }

  /** `filteredSubjects`: the matching subjects, sorted in the default string order. */
  function FilterSubjects(subjects: seq<string>, term: string, lower: string -> string): (r: seq<string>)
    ensures Sorted(r)
    ensures multiset(r) == multiset(Filter(subjects, s => Matches(s, term, lower)))
    ensures |r| <= |subjects|
  {
    var kept := Filter(subjects, s => Matches(s, term, lower));
    var r := Sort(kept);
    assert |multiset(r)| == |multiset(kept)|;
    r
  }

  /** A subject is listed if and only if it is in the catalogue and matches the term. */
  lemma ListedIffMatches(subjects: seq<string>, term: string, lower: string -> string, x: string)
    ensures x in FilterSubjects(subjects, term, lower) <==> x in subjects && Matches(x, term, lower)
  {
    var kept := Filter(subjects, s => Matches(s, term, lower));
    var r := FilterSubjects(subjects, term, lower);
    assert x in r <==> x in multiset(r);
    assert x in kept <==> x in multiset(kept);
    if x in kept {
      var i :| 0 <= i < |kept| && kept[i] == x;
    }
    if x in subjects && Matches(x, term, lower) {
      var i :| 0 <= i < |subjects| && subjects[i] == x;
    }
  }

  /** The list is exactly what any correct sort of the matching subjects gives. */
  lemma ListIsTheSortedMatches(subjects: seq<string>, term: string, lower: string -> string, other: seq<string>)
    requires Sorted(other) && multiset(other) == multiset(Filter(subjects, s => Matches(s, term, lower)))
    ensures FilterSubjects(subjects, term, lower) == other
  {
    SortedPermutationUnique(FilterSubjects(subjects, term, lower), other);
  }

  /** An empty search lists the whole catalogue, sorted; the count shown is the catalogue's size. */
  lemma EmptySearchListsAll(subjects: seq<string>, lower: string -> string)
    requires lower("") == ""
    ensures FilterSubjects(subjects, "", lower) == Sort(subjects)
    ensures |FilterSubjects(subjects, "", lower)| == |subjects|
  {
    forall i | 0 <= i < |subjects| ensures Matches(subjects[i], "", lower) {
      assert [] <= lower(subjects[i]);
    }
    FilterKeepsAll(subjects, s => Matches(s, "", lower));
    assert |multiset(Sort(subjects))| == |multiset(subjects)|;
  }

  /** The colour category of a subject card. */
  datatype Style = Maths | Physics | Electrical | Computing | Neutral

  predicate MathsWord(l: string) {
    Includes(l, "cálculo") || Includes(l, "matemática") || Includes(l, "álgebra") || Includes(l, "estatística")
  }

  predicate PhysicsWord(l: string) {
    Includes(l, "física") || Includes(l, "mecânica") || Includes(l, "termodinâmica")
  }

  predicate ElectricalWord(l: string) {
    Includes(l, "elétric") || Includes(l, "eletrônic") || Includes(l, "circuito") || Includes(l, "potência")
  }

  predicate ComputingWord(l: string) {
    Includes(l, "comput") || Includes(l, "dados") || Includes(l, "programação") || Includes(l, "digitais")
  }

  /** `getSubjectStyle`: the first category, in a fixed order, with a keyword in the lowercased name. */
  function SubjectStyle(name: string, lower: string -> string): (r: Style)
    ensures r == Maths <==> MathsWord(lower(name))
    ensures r == Physics <==> !MathsWord(lower(name)) && PhysicsWord(lower(name))
    ensures r == Electrical <==> !MathsWord(lower(name)) && !PhysicsWord(lower(name)) && ElectricalWord(lower(name))
    ensures r == Computing <==>
      !MathsWord(lower(name)) && !PhysicsWord(lower(name)) && !ElectricalWord(lower(name)) && ComputingWord(lower(name))
  {
    var l := lower(name);
    if MathsWord(l) then Maths
    else if PhysicsWord(l) then Physics
    else if ElectricalWord(l) then Electrical
    else if ComputingWord(l) then Computing
    else Neutral
  }

  /**
   * "Circuitos Digitais" holds both an electrical and a computing keyword and
   * gets the electrical colour, because that category is tested first.
   */
  lemma CircuitosDigitaisIsElectrical(lower: string -> string)
    requires lower("Circuitos Digitais") == "circuitos digitais"
    ensures SubjectStyle("Circuitos Digitais", lower) == Electrical
    ensures ComputingWord(lower("Circuitos Digitais"))
  {
    var head, tail := "circuitos ", "digitais";
    var l := head + tail;
    assert l == "circuitos digitais";
    assert forall i :: 0 <= i < |l| ==> l[i] in CircuitosLetters;
    NoMathsWord(l);
    NoPhysicsWord(l);
    IncludesAt(l, "circuito", 0);
    IncludesAt(l, tail, |head|);
  }

  /** The letters of "circuitos digitais". */
  const CircuitosLetters: set<char> := {'c', 'i', 'r', 'u', 't', 'o', 's', ' ', 'd', 'g', 'a'}

  lemma NoMathsWord(l: string)
    requires forall i :: 0 <= i < |l| ==> l[i] in CircuitosLetters
    ensures !MathsWord(l)
  {
    NoKeywordWithout(l, CircuitosLetters, "cálculo", 1);
    NoKeywordWithout(l, CircuitosLetters, "matemática", 0);
    NoKeywordWithout(l, CircuitosLetters, "álgebra", 0);
    NoKeywordWithout(l, CircuitosLetters, "estatística", 5);
  }

  lemma NoPhysicsWord(l: string)
    requires forall i :: 0 <= i < |l| ==> l[i] in CircuitosLetters
    ensures !PhysicsWord(l)
  {
    NoKeywordWithout(l, CircuitosLetters, "física", 1);
    NoKeywordWithout(l, CircuitosLetters, "mecânica", 0);
    NoKeywordWithout(l, CircuitosLetters, "termodinâmica", 3);
  }

  /** A keyword with a letter the name lacks is not in the name. */
  lemma NoKeywordWithout(l: string, letters: set<char>, word: string, k: nat)
    requires forall i :: 0 <= i < |l| ==> l[i] in letters
    requires k < |word| && word[k] !in letters
    ensures !Includes(l, word)
  {
    MissingCharExcludes(l, word, word[k]);
  }
}
