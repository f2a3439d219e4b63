/** The records and the navigation enumeration shared by the components. */
module Types {

  /** The seven screens the application can show. */
  datatype ViewState =
    | DashboardView
    | QuestionBankView
    | LearningView
    | ExamsView
    | AiTutorView
    | StatsView
    | QuizActiveView

  const AllViews: seq<ViewState> :=
    [DashboardView, QuestionBankView, LearningView, ExamsView, AiTutorView, StatsView, QuizActiveView]

  lemma ViewStateHasSevenVariants()
    ensures |AllViews| == 7
    ensures forall i, j :: 0 <= i < j < |AllViews| ==> AllViews[i] != AllViews[j]
    ensures forall v: ViewState :: v in AllViews
  {
    forall v: ViewState ensures v in AllViews {
      var i := match v
        case DashboardView => 0
        case QuestionBankView => 1
        case LearningView => 2
        case ExamsView => 3
        case AiTutorView => 4
        case StatsView => 5
        case QuizActiveView => 6;
      assert AllViews[i] == v;
    }
  }

  /** A multiple-choice question; `correctAnswerIndex` is meant to point into `options`. */
  datatype Question = Question(
    id: string,
    topic: string,
    difficulty: string,
    text: string,
    options: seq<string>,
    correctAnswerIndex: int,
    explanation: string)

  predicate WellFormedQuestion(q: Question) {
    0 <= q.correctAnswerIndex < |q.options|
  }

  /** Declared for a quiz in progress; `answers` maps a question id to the chosen option index. */
  datatype QuizState = QuizState(
    questions: seq<Question>,
    currentIndex: int,
    score: int,
    answers: map<string, int>,
    isFinished: bool)

  /** A chat author is either the user or the model. */
  datatype Role = User | Model

  datatype ChatMessage = ChatMessage(id: string, role: Role, text: string)

  datatype TopicScore = TopicScore(topic: string, score: int)

  /** Aggregate progress; `questionsSolved` is a count. */
  datatype UserStats = UserStats(
    questionsSolved: nat,
    accuracy: int,
    streakDays: int,
    topicPerformance: seq<TopicScore>)

  predicate IsPercent(x: int) {
    0 <= x <= 100
  }

  /** Accuracy and every per-topic score are percentages. */
  predicate ValidStats(s: UserStats) {
    IsPercent(s.accuracy) && forall i :: 0 <= i < |s.topicPerformance| ==> IsPercent(s.topicPerformance[i].score)
  }

  datatype Exam = Exam(
    id: string,
    university: string,
    subject: string,
    year: int,
    period: string,
    url: string)

  datatype LearningModule = LearningModule(
    id: string,
    title: string,
    description: string,
    progress: int,
    totalLessons: int,
    completedLessons: int)

  predicate ValidModule(m: LearningModule) {
    IsPercent(m.progress)
  }
}
