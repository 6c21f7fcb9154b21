/** The offline AI tutor: the subjects a message mentions (a keyword table scanned in
    order) and the topic of the canned answer (a chain of substring tests, first match
    wins). Both look only at the lower-cased message. */
module Tutor {
  import opened Common

  datatype Subject = Subject(name: string, keywords: seq<string>)

  /** The keyword table, in its declaration order. */
  function SubjectTable(): seq<Subject> {
    [ Subject("Mathematics", ["math", "algebra", "geometry", "calculus", "equation", "formula", "solve"]),
      Subject("Physics", ["physics", "force", "energy", "motion", "newton", "gravity", "wave"]),
      Subject("Chemistry", ["chemistry", "element", "compound", "reaction", "molecule", "atom"]),
      Subject("Biology", ["biology", "cell", "organism", "evolution", "genetics", "photosynthesis"]),
      Subject("English", ["english", "grammar", "essay", "writing", "literature", "poem"]),
      Subject("History", ["history", "historical", "ancient", "medieval", "war", "civilization"]),
      Subject("Geography", ["geography", "continent", "country", "climate", "mountain", "river"]) ]
  }

  /** keywords.some(keyword => lower.includes(keyword)). */
  predicate Mentions(lower: string, keywords: seq<string>) {
    exists k :: k in keywords && Contains(lower, k)
  }

  /** The subjects of the rows whose keywords the message mentions, in table order. */
  function SubjectsOf(lower: string, table: seq<Subject>): seq<string>
    decreases |table|
  {
    if table == [] then []
    else
      var r := SubjectsOf(lower, table[..|table| - 1]);
      if Mentions(lower, table[|table| - 1].keywords) then r + [table[|table| - 1].name] else r
  }

  /** extractSubjects: one pass over the table, pushing each subject whose keywords the
      lower-cased message mentions. */
  method ExtractSubjects(message: string) returns (subjects: seq<string>)
    ensures subjects == SubjectsOf(ToLower(message), SubjectTable())
  {
    var table := SubjectTable();
    var lower := ToLower(message);
    subjects := [];
    var i := 0;
    while i < |table|
      invariant 0 <= i <= |table|
      invariant subjects == SubjectsOf(lower, table[..i])
    {
      assert table[..i + 1][..i] == table[..i];
      if Mentions(lower, table[i].keywords) {
        subjects := subjects + [table[i].name];
      }
      i := i + 1;
    }
    assert table[..|table|] == table;
  }

  /** The rows picked, as increasing table indices: exactly the rows whose keywords are
      mentioned. */
  function Picked(lower: string, table: seq<Subject>): (idx: seq<nat>)
    ensures forall k :: 0 <= k < |idx| ==> idx[k] < |table|
    ensures forall a, b :: 0 <= a < b < |idx| ==> idx[a] < idx[b]
    ensures forall i :: 0 <= i < |table| ==> (i in idx <==> Mentions(lower, table[i].keywords))
    decreases |table|
  {
    if table == [] then []
    else
      var p := Picked(lower, table[..|table| - 1]);
      assert forall i :: 0 <= i < |table| - 1 ==> table[..|table| - 1][i] == table[i];
      if Mentions(lower, table[|table| - 1].keywords) then p + [|table| - 1] else p
  }

  /** The k-th subject found is the name of the k-th picked row: subjects come out in
      table order, one per mentioned row. */
  lemma {:induction false} SubjectsInTableOrder(lower: string, table: seq<Subject>)
    ensures var r := SubjectsOf(lower, table);
      var idx := Picked(lower, table);
      |r| == |idx| && forall k :: 0 <= k < |r| ==> r[k] == table[idx[k]].name
    decreases |table|
  {
    if table != [] {
      var init := table[..|table| - 1];
      SubjectsInTableOrder(lower, init);
      assert forall i :: 0 <= i < |init| ==> init[i] == table[i];
    }
  }

  predicate DistinctNames(table: seq<Subject>) {
    forall i, j :: 0 <= i < j < |table| ==> table[i].name != table[j].name
  }

  /** With distinct subject names: a subject is listed iff one of its keywords occurs in
      the lower-cased message, and no subject is listed twice. */
  lemma SubjectsIff(lower: string, table: seq<Subject>)
    requires DistinctNames(table)
    ensures var r := SubjectsOf(lower, table);
      && (forall i :: 0 <= i < |table| ==> (table[i].name in r <==> Mentions(lower, table[i].keywords)))
      && (forall a, b :: 0 <= a < b < |r| ==> r[a] != r[b])
  {
    var r := SubjectsOf(lower, table);
    var idx := Picked(lower, table);
    SubjectsInTableOrder(lower, table);
    forall i | 0 <= i < |table|
      ensures table[i].name in r <==> Mentions(lower, table[i].keywords)
    {
      if table[i].name in r {
        var k :| 0 <= k < |r| && r[k] == table[i].name;
        assert table[idx[k]].name == table[i].name;
        assert idx[k] == i;
      }
      if Mentions(lower, table[i].keywords) {
        var k :| 0 <= k < |idx| && idx[k] == i;
        assert r[k] == table[i].name;
      }
    }
  }

  lemma SubjectTableNamesDistinct()
    ensures DistinctNames(SubjectTable())
  {
  }

  /** A message with none of the keywords, the empty message among them, has no
      subjects. */
  lemma {:induction false} NoKeywordNoSubjects(lower: string, table: seq<Subject>)
    requires forall i :: 0 <= i < |table| ==> !Mentions(lower, table[i].keywords)
    ensures SubjectsOf(lower, table) == []
    decreases |table|
  {
    if table != [] {
      NoKeywordNoSubjects(lower, table[..|table| - 1]);
    }
  }

  lemma EmptyMessageHasNoSubjects()
    ensures SubjectsOf(ToLower(""), SubjectTable()) == []
  {
    var table := SubjectTable();
    assert ToLower("") == "";
    KeywordsNonEmpty();
    forall i, k | 0 <= i < |table| && k in table[i].keywords
      ensures !Contains("", k)
    {
      if Contains("", k) {
        ContainsLength("", k);
      }
    }
    NoKeywordNoSubjects("", table);
  }

  /** No keyword of the table is empty. */
  lemma KeywordsNonEmpty()
    ensures forall i, k :: 0 <= i < |SubjectTable()| && k in SubjectTable()[i].keywords ==> k != []
  {
  }

  // ---------------------------------------------------------------- topic

  datatype Topic = QuadraticEquations | Photosynthesis | NewtonsLaws | AlgebraHelp | Welcome

  /** The topic of generateEducationalResponse's answer. */
  function TopicOf(message: string): Topic {
    var l := ToLower(message);
    if Contains(l, "quadratic equation") then QuadraticEquations
    else if Contains(l, "photosynthesis") then Photosynthesis
    else if Contains(l, "newton") && Contains(l, "law") then NewtonsLaws
    else if Contains(l, "algebra") || Contains(l, "equation") || Contains(l, "solve") then AlgebraHelp
    else Welcome
  }

  /** The answer does not depend on letter case. */
  lemma TopicCaseInsensitive(message: string)
    ensures TopicOf(ToLower(message)) == TopicOf(message)
    ensures SubjectsOf(ToLower(ToLower(message)), SubjectTable()) == SubjectsOf(ToLower(message), SubjectTable())
  {
    ToLowerIdempotent(message);
  }

  /** Every message about a quadratic equation also mentions "equation", so it would match
      the algebra rule: the order of the rules is what gives it its own answer. */
  lemma QuadraticBeforeAlgebra(message: string)
    requires Contains(ToLower(message), "quadratic equation")
    ensures Contains(ToLower(message), "equation")
    ensures TopicOf(message) == QuadraticEquations
  {
    var q := "quadratic equation";
    assert q[10..] == "equation";
    assert Contains(q[10..], "equation");
    ContainsSuffix(q, 10, "equation");
    ContainsTransitive(ToLower(message), q, "equation");
  }

  /** The Newton answer needs both words; "newton" without "law" falls through to the
      algebra rule or to the welcome text. */
  lemma NewtonNeedsLaw(message: string)
    ensures TopicOf(message) == NewtonsLaws ==> Contains(ToLower(message), "newton") && Contains(ToLower(message), "law")
    ensures !Contains(ToLower(message), "law") ==> TopicOf(message) != NewtonsLaws
  {
  }

  /** The topic and the subjects agree: the quadratic and algebra answers go with
      Mathematics, photosynthesis with Biology, Newton's laws with Physics. */
  lemma TopicAgreesWithSubjects(message: string)
    ensures var subjects := SubjectsOf(ToLower(message), SubjectTable());
      && (TopicOf(message) == QuadraticEquations || TopicOf(message) == AlgebraHelp ==> "Mathematics" in subjects)
      && (TopicOf(message) == Photosynthesis ==> "Biology" in subjects)
      && (TopicOf(message) == NewtonsLaws ==> "Physics" in subjects)
  {
    var l := ToLower(message);
    var table := SubjectTable();
    SubjectTableNamesDistinct();
    SubjectsIff(l, table);
    if TopicOf(message) == QuadraticEquations {
      QuadraticBeforeAlgebra(message);
      MathematicsKeywords();
    } else if TopicOf(message) == AlgebraHelp {
      MathematicsKeywords();
    } else if TopicOf(message) == Photosynthesis {
      assert table[3].name == "Biology" && "photosynthesis" in table[3].keywords;
    } else if TopicOf(message) == NewtonsLaws {
      assert table[1].name == "Physics" && "newton" in table[1].keywords;
    }
  }

  /** The first row of the table is Mathematics, with the keywords the algebra answer tests. */
  lemma MathematicsKeywords()
    ensures SubjectTable()[0].name == "Mathematics"
    ensures "algebra" in SubjectTable()[0].keywords && "equation" in SubjectTable()[0].keywords
    ensures "solve" in SubjectTable()[0].keywords
  {
  }
}
