/** Quiz scoring: `calculateScore` adds up the marks of the questions whose answer at the
    same position selects the correct option. Answers are matched to questions by their
    position in the list; the answer's own `questionIndex` is not consulted. */
module Quiz {
  import opened Common

  /** A question's scoring fields: the correct option and the marks it is worth. */
  datatype Question = Question(correctAnswer: int, marks: int)

  /** A submitted answer; `selectedOption` is None when it is missing or not a number. */
  datatype Answer = Answer(questionIndex: Option<int>, selectedOption: Option<int>)

  /** The schema constraint on a question: the correct option is one of four. */
  predicate ValidQuestion(q: Question) {
    0 <= q.correctAnswer <= 3
  }

  /** On a quiz whose questions meet the schema, an answer selecting an option outside
      0..3 (or none at all) never earns marks. */
  lemma OutOfRangeEarnsNothing(questions: seq<Question>, a: Answer, i: nat)
    requires forall k :: 0 <= k < |questions| ==> ValidQuestion(questions[k])
    requires a.selectedOption.None? || a.selectedOption.value < 0 || a.selectedOption.value > 3
    ensures !Correct(questions, a, i) && Earned(questions, a, i) == 0
  {
  }

  /** A question as stored, with marks defaulting to 1. */
  function NewQuestion(correctAnswer: int, marks: Option<int>): (q: Question)
    ensures q.correctAnswer == correctAnswer
    ensures marks.None? ==> q.marks == 1
    ensures marks.Some? ==> q.marks == marks.value
  {
    Question(correctAnswer, if marks.Some? then marks.value else 1)
  }

  /** The answer at position i is right: there is a question at i and the selected
      option equals its correct option. */
  predicate Correct(questions: seq<Question>, a: Answer, i: nat) {
    i < |questions| && a.selectedOption == Some(questions[i].correctAnswer)
  }

  function Earned(questions: seq<Question>, a: Answer, i: nat): int {
    if Correct(questions, a, i) then questions[i].marks else 0
  }

  /** The score: the marks of every position whose answer is right. */
  function Score(questions: seq<Question>, answers: seq<Answer>): int
    decreases |answers|
  {
    if answers == [] then 0
    else Score(questions, answers[..|answers| - 1]) + Earned(questions, answers[|answers| - 1], |answers| - 1)
  }

  /** The marks of the first n questions (all of them when n is past the end). */
  function MarksUpTo(questions: seq<Question>, n: nat): int
    decreases n
  {
    if n == 0 then 0 else MarksUpTo(questions, n - 1) + (if n - 1 < |questions| then questions[n - 1].marks else 0)
  }

  function TotalMarks(questions: seq<Question>): int {
    MarksUpTo(questions, |questions|)
  }

  predicate NonNegativeMarks(questions: seq<Question>) {
    forall i :: 0 <= i < |questions| ==> questions[i].marks >= 0
  }

  /** The forEach loop of calculateScore. */
  method CalculateScore(questions: seq<Question>, answers: seq<Answer>) returns (score: int)
    ensures score == Score(questions, answers)
  {
    score := 0;
    var index := 0;
    while index < |answers|
      invariant 0 <= index <= |answers|
      invariant score == Score(questions, answers[..index])
    {
      var answer := answers[index];
      assert answers[..index + 1][..index] == answers[..index];
      if index < |questions| && answer.selectedOption == Some(questions[index].correctAnswer) {
        score := score + questions[index].marks;
      }
      index := index + 1;
    }
    assert answers[..index] == answers;
  }

  /** No answers, no score. */
  lemma ScoreOfNoAnswers(questions: seq<Question>)
    ensures Score(questions, []) == 0
  {
  }

  /** Answers past the last question count for nothing. */
  lemma {:induction false} ExtraAnswersIgnored(questions: seq<Question>, answers: seq<Answer>)
    requires |answers| > |questions|
    ensures Score(questions, answers) == Score(questions, answers[..|questions|])
    decreases |answers|
  {
    var init := answers[..|answers| - 1];
    assert !Correct(questions, answers[|answers| - 1], |answers| - 1);
    if |init| > |questions| {
      ExtraAnswersIgnored(questions, init);
      assert init[..|questions|] == answers[..|questions|];
    } else {
      assert init == answers[..|questions|];
    }
  }

  lemma {:induction false} ScoreWithinPrefixMarks(questions: seq<Question>, answers: seq<Answer>)
    requires NonNegativeMarks(questions)
    ensures 0 <= Score(questions, answers) <= MarksUpTo(questions, |answers|)
    decreases |answers|
  {
    if answers != [] {
      ScoreWithinPrefixMarks(questions, answers[..|answers| - 1]);
    }
  }

  lemma {:induction false} MarksUpToMonotone(questions: seq<Question>, n: nat)
    requires NonNegativeMarks(questions)
    ensures 0 <= MarksUpTo(questions, n) <= TotalMarks(questions)
    decreases if n <= |questions| then |questions| - n else n - |questions|
  {
    MarksUpToNonNegative(questions, n);
    if n < |questions| {
      MarksUpToMonotone(questions, n + 1);
    } else if n > |questions| {
      MarksUpToMonotone(questions, n - 1);
    }
  }

  lemma {:induction false} MarksUpToNonNegative(questions: seq<Question>, n: nat)
    requires NonNegativeMarks(questions)
    ensures MarksUpTo(questions, n) >= 0
  {
    if n > 0 {
      MarksUpToNonNegative(questions, n - 1);
    }
  }

  /** With non-negative marks the score lies between 0 and the sum of all marks. */
  lemma ScoreBounds(questions: seq<Question>, answers: seq<Answer>)
    requires NonNegativeMarks(questions)
    ensures 0 <= Score(questions, answers) <= TotalMarks(questions)
  {
    ScoreWithinPrefixMarks(questions, answers);
    MarksUpToMonotone(questions, |answers|);
  }

  /** Correcting one wrong answer adds exactly that question's marks; with non-negative
      marks the score never goes down. */
  lemma {:induction false} CorrectingAnswerAddsItsMarks(questions: seq<Question>, answers: seq<Answer>, k: nat)
    requires k < |answers| && k < |questions|
    requires !Correct(questions, answers[k], k)
    ensures var fixed := answers[k := answers[k].(selectedOption := Some(questions[k].correctAnswer))];
      Score(questions, fixed) == Score(questions, answers) + questions[k].marks
    decreases |answers|
  {
    var fixed := answers[k := answers[k].(selectedOption := Some(questions[k].correctAnswer))];
    var n := |answers|;
    if k == n - 1 {
      assert fixed[..n - 1] == answers[..n - 1];
    } else {
      CorrectingAnswerAddsItsMarks(questions, answers[..n - 1], k);
      assert fixed[..n - 1] == answers[..n - 1][k := answers[k].(selectedOption := Some(questions[k].correctAnswer))];
    }
  }
}
