/**
 * The quiz screen (components/QuestionMode.tsx): a batch of generated
 * questions answered one at a time, with a running score.
 */
module QuestionMode {
  import opened Js
  import opened Types

  /** Which of the four screens the component renders, tested in the order the component tests them. */
  datatype QuizScreen = LoadingScreen | ErrorScreen | FinishedScreen | QuestionScreen

  /** How many questions a fetch asks for: 12 for an exam, 10 for the question bank. */
  function RequestedCount(isExamMode: bool): (r: nat)
    ensures r == 12 || r == 10
    ensures r > 10 <==> isExamMode
  {
    if isExamMode then 12 else 10
  }

  /** `Math.round((score / total) * 100)`: the final mark as a whole percentage. */
  function FinalPercentage(score: nat, total: nat): (r: int)
    requires total > 0
    ensures 2 * total * r <= 200 * score + total < 2 * total * (r + 1)
  {
    RoundDiv(100 * score, total)
  }

  /** With no more right answers than questions, the final mark is a percentage. */
  lemma PercentageInRange(score: nat, total: nat)
    requires 0 < total && score <= total
    ensures 0 <= FinalPercentage(score, total) <= 100
    ensures score == total ==> FinalPercentage(score, total) == 100
    ensures score == 0 ==> FinalPercentage(score, total) == 0
  {
    MulMonotone(100, score, total);
    RoundDivBounds(100 * score, total, 0, 100);
    if score == total {
      RoundDivExact(100, total);
    }
  }

  class QuizSession {
    const topicName: string
    const isExamMode: bool
    var questions: seq<Question>
    var loading: bool
    var currentIndex: nat
    var selectedOption: Option<int>
    var isAnswered: bool
    var aiExplanation: Option<string>
    var loadingAi: bool
    var quizFinished: bool
    var score: nat

    /**
     * While a fetch is outstanding the batch is empty and reset; otherwise
     * the index points into a non-empty batch, an answer implies a
     * selection, and at most one point was scored per question reached.
     */
    ghost predicate Valid()
      reads this
    {
      && (loading ==> questions == [] && currentIndex == 0 && score == 0 && !isAnswered && !quizFinished)
      && (questions == [] ==> currentIndex == 0 && score == 0 && !isAnswered)
      && (questions != [] ==> currentIndex < |questions|)
      && (isAnswered ==> selectedOption.Some?)
      && score <= currentIndex + (if isAnswered then 1 else 0)
    }

    /** The component mounts in the loading state with an empty batch. */
    constructor (topicName: string, isExamMode: bool)
      ensures Valid() && Screen() == LoadingScreen
      ensures this.topicName == topicName && this.isExamMode == isExamMode
      ensures questions == [] && loading && currentIndex == 0 && score == 0
      ensures selectedOption == None && !isAnswered && aiExplanation == None
      ensures !loadingAi && !quizFinished
    {
      this.topicName := topicName;
      this.isExamMode := isExamMode;
      questions := [];
      loading := true;
      currentIndex := 0;
      selectedOption := None;
      isAnswered := false;
      aiExplanation := None;
      loadingAi := false;
      quizFinished := false;
      score := 0;
    }

    /** The screen shown: loading first, then the error screen when there is no current question, then the result. */
    function Screen(): (r: QuizScreen)
      reads this
      ensures r == QuestionScreen ==> currentIndex < |questions| && !loading && !quizFinished
      ensures r == FinishedScreen ==> currentIndex < |questions| && !loading
      ensures r == ErrorScreen <==> !loading && currentIndex >= |questions|
    {
      if loading then LoadingScreen
      else if currentIndex >= |questions| then ErrorScreen
      else if quizFinished then FinishedScreen
      else QuestionScreen
    }

    /** `isCorrect`: the selection is the current question's answer; false when there is no current question. */
    function IsCorrect(): (r: bool)
      reads this
      ensures r ==> currentIndex < |questions|
      ensures r <==> currentIndex < |questions| && selectedOption == Some(questions[currentIndex].correctAnswerIndex)
    {
      if currentIndex < |questions| then selectedOption == Some(questions[currentIndex].correctAnswerIndex) else false
    }

    /** The result screen's mark. */
    function Percentage(): (r: int)
      reads this
      requires Valid() && Screen() == FinishedScreen
      ensures 0 <= r <= 100
    {
      PercentageInRange(score, |questions|);
      FinalPercentage(score, |questions|)
    }

    /**
     * The first half of `fetchNewQuestions`: clear everything, show the
     * loading screen and return how many questions to request.
     */
    method StartFetch() returns (count: nat)
      modifies this
      ensures Valid() && Screen() == LoadingScreen
      ensures count == RequestedCount(isExamMode)
      ensures questions == [] && loading && currentIndex == 0 && score == 0
      ensures selectedOption == None && !isAnswered && aiExplanation == None && !quizFinished
      ensures loadingAi == old(loadingAi)
    {
      loading := true;
      questions := [];
      currentIndex := 0;
      score := 0;
      quizFinished := false;
      isAnswered := false;
      selectedOption := None;
      aiExplanation := None;
      count := if isExamMode then 12 else 10;
    }

    /**
     * The second half of `fetchNewQuestions`: a non-empty reply becomes the
     * batch, an empty one leaves the batch empty, and loading ends either way.
     */
    method FinishFetch(generated: seq<Question>)
      requires Valid() && loading
      modifies this
      ensures Valid() && !loading
      ensures questions == generated
      ensures Screen() == (if generated == [] then ErrorScreen else QuestionScreen)
      ensures currentIndex == 0 && score == 0 && !isAnswered && !quizFinished
      ensures selectedOption == old(selectedOption) && aiExplanation == old(aiExplanation)
      ensures loadingAi == old(loadingAi)
    {
      if |generated| > 0 {
        questions := generated;
      }
      loading := false;
    }

    /** `handleSelect`: the selection moves only while the question is unanswered. */
    method Select(index: int)
      requires Valid()
      modifies this
      ensures Valid()
      ensures selectedOption == (if old(isAnswered) then old(selectedOption) else Some(index))
      ensures questions == old(questions) && currentIndex == old(currentIndex) && score == old(score)
      ensures isAnswered == old(isAnswered) && quizFinished == old(quizFinished) && loading == old(loading)
      ensures aiExplanation == old(aiExplanation) && loadingAi == old(loadingAi)
    {
      if !isAnswered {
        selectedOption := Some(index);
      }
    }

    /**
     * `handleSubmit`, offered only on an unanswered question: without a
     * selection nothing happens; otherwise the question is answered, the score
     * grows by one exactly for the right option, and the verdict handed to
     * `onUpdateStats` is returned.
     */
    method Submit() returns (reported: Option<bool>)
      requires Valid() && Screen() == QuestionScreen && !isAnswered
      modifies this
      ensures Valid() && score <= |questions|
      ensures reported.None? <==> old(selectedOption).None?
      ensures reported.None? ==> !isAnswered && score == old(score)
      ensures reported.Some? ==> isAnswered && reported.value == old(IsCorrect())
      ensures reported.Some? ==> score == old(score) + (if reported.value then 1 else 0)
      ensures questions == old(questions) && currentIndex == old(currentIndex)
      ensures selectedOption == old(selectedOption) && quizFinished == old(quizFinished) && loading == old(loading)
      ensures aiExplanation == old(aiExplanation) && loadingAi == old(loadingAi)
    {
      if selectedOption.None? {
        return None;
      }
      isAnswered := true;
      var correct := selectedOption.value == questions[currentIndex].correctAnswerIndex;
      if correct {
        score := score + 1;
      }
      reported := Some(correct);
    }

    /**
     * `handleNext`: move to the following question with a clean slate, or,
     * on the last question, finish the quiz where it stands.
     */
    method Next()
      requires Valid() && !loading
      modifies this
      ensures Valid() && score <= |questions|
      ensures old(currentIndex) + 1 < |questions| ==>
        currentIndex == old(currentIndex) + 1 && selectedOption == None && !isAnswered
        && aiExplanation == None && quizFinished == old(quizFinished)
      ensures old(currentIndex) + 1 >= |questions| ==>
        quizFinished && currentIndex == old(currentIndex) && selectedOption == old(selectedOption)
        && isAnswered == old(isAnswered) && aiExplanation == old(aiExplanation)
      ensures questions == old(questions) && score == old(score) && loading == old(loading)
      ensures loadingAi == old(loadingAi)
    {
      if currentIndex + 1 < |questions| {
        currentIndex := currentIndex + 1;
        selectedOption := None;
        isAnswered := false;
        aiExplanation := None;
      } else {
        quizFinished := true;
      }
    }

    /**
     * The first half of `handleAskAI`: mark the request outstanding and return
     * what is sent to the tutor — the statement, the options and the option at
     * the answer index (absent when that index is out of range).
     */
    method AskAi() returns (text: string, options: seq<string>, answer: Option<string>)
      requires Valid() && currentIndex < |questions|
      modifies this
      ensures Valid() && loadingAi
      ensures questions == old(questions) && currentIndex == old(currentIndex) && score == old(score)
      ensures text == questions[currentIndex].text && options == questions[currentIndex].options
      ensures var q := questions[currentIndex];
        answer == if 0 <= q.correctAnswerIndex < |q.options| then Some(q.options[q.correctAnswerIndex]) else None
      ensures selectedOption == old(selectedOption) && isAnswered == old(isAnswered)
      ensures quizFinished == old(quizFinished) && loading == old(loading) && aiExplanation == old(aiExplanation)
    {
      loadingAi := true;
      var q := questions[currentIndex];
      text := q.text;
      options := q.options;
      answer := if 0 <= q.correctAnswerIndex < |q.options| then Some(q.options[q.correctAnswerIndex]) else None;
    }

    /** The second half of `handleAskAI`: store the tutor's explanation and end the request. */
    method ExplanationArrived(explanation: string)
      requires Valid()
      modifies this
      ensures Valid() && !loadingAi && aiExplanation == Some(explanation)
      ensures questions == old(questions) && currentIndex == old(currentIndex) && score == old(score)
      ensures selectedOption == old(selectedOption) && isAnswered == old(isAnswered)
      ensures quizFinished == old(quizFinished) && loading == old(loading)
    {
      aiExplanation := Some(explanation);
      loadingAi := false;
    }
  }

  /**
   * A whole round on a batch of questions: answering each with the given
   * options and moving on ends on the result screen with one point per right
   * answer and a mark in 0..100.
   */
  method PlayRound(session: QuizSession, generated: seq<Question>, picks: seq<int>) returns (mark: int)
    requires session.Valid() && session.loading
    requires |generated| > 0 && |picks| == |generated|
    modifies session
    ensures session.Valid() && session.Screen() == FinishedScreen
    ensures session.score == CountRight(generated, picks, |generated|)
    ensures mark == FinalPercentage(session.score, |generated|)
    ensures 0 <= mark <= 100
  {
    session.FinishFetch(generated);
    var i := 0;
    while i < |generated|
      invariant 0 <= i <= |generated|
      invariant session.Valid() && session.questions == generated && !session.loading
      invariant i < |generated| ==> session.currentIndex == i && !session.isAnswered && !session.quizFinished
      invariant i == |generated| ==> session.quizFinished && session.currentIndex == i - 1
      invariant session.score == CountRight(generated, picks, i)
    {
      session.Select(picks[i]);
      var reported := session.Submit();
      session.Next();
      i := i + 1;
    }
    mark := session.Percentage();
  }

  /** How many of the first n picks are right answers. */
  function CountRight(qs: seq<Question>, picks: seq<int>, n: nat): (r: nat)
    requires n <= |qs| && n <= |picks|
    ensures r <= n
  {
    if n == 0 then 0
    else CountRight(qs, picks, n - 1) + (if picks[n - 1] == qs[n - 1].correctAnswerIndex then 1 else 0)
  }
}
