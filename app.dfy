/**
 * The application shell (App.tsx): the running statistics updated after
 * each answer, and the navigation state that decides which screen is shown.
 */
module App {
  import opened Js
  import opened Types
  import ExamArchive
  import QuestionBank

  /**
   * `handleUpdateStats`: one more question solved; the number of right answers
   * so far is recovered by rounding accuracy × solved / 100, the new answer is
   * added, and the accuracy becomes the rounded percentage of the new count.
   */
  function UpdateStats(prev: UserStats, isCorrect: bool): (r: UserStats)
    ensures r.questionsSolved == prev.questionsSolved + 1
    ensures r.streakDays == prev.streakDays && r.topicPerformance == prev.topicPerformance
    ensures r.accuracy == RoundDiv(100 * (CorrectSoFar(prev) + (if isCorrect then 1 else 0)), r.questionsSolved)
  {
    var newSolved := prev.questionsSolved + 1;
    var newCorrect := CorrectSoFar(prev) + (if isCorrect then 1 else 0);
    prev.(questionsSolved := newSolved, accuracy := RoundDiv(100 * newCorrect, newSolved))
  }

  /** `Math.round((accuracy / 100) * questionsSolved)`: the right answers implied by the stored accuracy. */
  function CorrectSoFar(s: UserStats): (r: int)
    ensures IsPercent(s.accuracy) ==> 0 <= r <= s.questionsSolved
  {
    var r := RoundDiv(s.accuracy * s.questionsSolved, 100);
    if IsPercent(s.accuracy) then
      MulMonotone(s.questionsSolved, s.accuracy, 100);
      RoundDivBounds(s.accuracy * s.questionsSolved, 100, 0, s.questionsSolved);
      r
    else r
  }

  /** An answer keeps accuracy and every topic score within 0..100. */
  lemma UpdateKeepsStatsValid(prev: UserStats, isCorrect: bool)
    requires ValidStats(prev)
    ensures ValidStats(UpdateStats(prev, isCorrect))
  {
    var n := prev.questionsSolved + 1;
    var c := CorrectSoFar(prev) + (if isCorrect then 1 else 0);
    assert 0 <= c <= n;
    MulMonotone(100, c, n);
    RoundDivBounds(100 * c, n, 0, 100);
  }

  /** From a clean slate, the first answer sets the accuracy to 100 or 0. */
  lemma FirstAnswer(prev: UserStats, isCorrect: bool)
    requires prev.questionsSolved == 0
    ensures UpdateStats(prev, isCorrect).accuracy == (if isCorrect then 100 else 0)
    ensures UpdateStats(prev, isCorrect).questionsSolved == 1
  {
    assert CorrectSoFar(prev) == 0;
  }

  /** From a clean slate, one right answer then one wrong answer gives 50. */
  lemma RightThenWrong(prev: UserStats)
    requires prev.questionsSolved == 0
    ensures UpdateStats(UpdateStats(prev, true), false).accuracy == 50
    ensures UpdateStats(UpdateStats(prev, true), false).questionsSolved == 2
  {
    FirstAnswer(prev, true);
    var mid := UpdateStats(prev, true);
    RoundDivExact(1, 100);
    assert CorrectSoFar(mid) == 1;
    RoundDivExact(50, 2);
  }

  /** A run of answers: the statistics after answering each verdict in turn. */
  function UpdateAll(s: UserStats, verdicts: seq<bool>): (r: UserStats)
    ensures r.questionsSolved == s.questionsSolved + |verdicts|
    ensures r.streakDays == s.streakDays && r.topicPerformance == s.topicPerformance
    decreases |verdicts|
  {
    if verdicts == [] then s else UpdateAll(UpdateStats(s, verdicts[0]), verdicts[1..])
  }

  /** However many answers follow, the statistics stay valid. */
  lemma {:induction false} UpdateAllKeepsStatsValid(s: UserStats, verdicts: seq<bool>)
    requires ValidStats(s)
    ensures ValidStats(UpdateAll(s, verdicts))
    decreases |verdicts|
  {
    if verdicts != [] {
      UpdateKeepsStatsValid(s, verdicts[0]);
      UpdateAllKeepsStatsValid(UpdateStats(s, verdicts[0]), verdicts[1..]);
    }
  }

  /** All-right answers from a clean slate keep the accuracy at 100. */
  lemma {:induction false} AllRightStaysPerfect(s: UserStats, verdicts: seq<bool>)
    requires s.accuracy == 100 || s.questionsSolved == 0
    requires forall i :: 0 <= i < |verdicts| ==> verdicts[i]
    ensures |verdicts| > 0 ==> UpdateAll(s, verdicts).accuracy == 100
    decreases |verdicts|
  {
    if verdicts != [] {
      var next := UpdateStats(s, true);
      var n := s.questionsSolved;
      if s.questionsSolved == 0 {
        FirstAnswer(s, true);
      } else {
        RoundDivExact(n, 100);
        assert CorrectSoFar(s) == n by {
          assert s.accuracy * n == n * 100;
        }
        RoundDivExact(100, n + 1);
      }
      AllRightStaysPerfect(next, verdicts[1..]);
    }
  }

  /** What the main area renders for each view; Stats and any unknown view show the dashboard. */
  datatype Page =
    | DashboardPage
    | QuestionBankPage
    | LearningPage
    | ExamArchivePage
    | ChatPage
    | QuizPage(topic: string, examMode: bool)

  /** `selectedTopic || "Geral"`: an absent or empty topic is titled "Geral". */
  function QuizTitle(selectedTopic: Option<string>): (r: string)
    ensures r != ""
    ensures selectedTopic.Some? && selectedTopic.value != "" ==> r == selectedTopic.value
    ensures selectedTopic.None? ==> r == "Geral"
  {
    if selectedTopic.Some? && selectedTopic.value != "" then selectedTopic.value else "Geral"
  }

  /** `${subject} (${university})`: the quiz topic of an exam. */
  function ExamTopic(subject: string, university: string): (r: string)
    ensures |r| == |subject| + |university| + 3 && r[|r| - 1] == ')'
    ensures r[..|subject|] == subject && r[|subject|..|subject| + 2] == " ("
    ensures r[|subject| + 2..|r| - 1] == university
  {
    subject + " (" + university + ")"
  }

  class AppShell {
    var currentView: ViewState
    var selectedTopic: Option<string>
    var isExamMode: bool
    var isSidebarOpen: bool
    var stats: UserStats

    /** Outside an active quiz there is no topic and no exam mode. */
    ghost predicate Valid()
      reads this
    {
      currentView != QuizActiveView ==> selectedTopic.None? && !isExamMode
    }

    /** The shell opens on the dashboard with a closed sidebar and the stored statistics. */
    constructor (initialStats: UserStats)
      ensures Valid() && Page() == DashboardPage
      ensures currentView == DashboardView && selectedTopic == None && !isExamMode && !isSidebarOpen
      ensures stats == initialStats
    {
      currentView := DashboardView;
      selectedTopic := None;
      isExamMode := false;
      isSidebarOpen := false;
      stats := initialStats;
    }

    /** `renderContent`: the page for the current view; an active quiz shows its title and mode. */
    function Page(): (r: Page)
      reads this
      ensures r.QuizPage? <==> currentView == QuizActiveView
      ensures r.QuizPage? ==> r.topic == QuizTitle(selectedTopic) && r.examMode == isExamMode
      ensures r == DashboardPage <==> currentView == DashboardView || currentView == StatsView
    {
      match currentView
      case DashboardView => DashboardPage
      case QuestionBankView => QuestionBankPage
      case LearningView => LearningPage
      case ExamsView => ExamArchivePage
      case AiTutorView => ChatPage
      case QuizActiveView => QuizPage(QuizTitle(selectedTopic), isExamMode)
      case StatsView => DashboardPage
    }

    /** `handleNavigate`: go to a view; leaving for anything but a quiz drops the topic and exam mode; the sidebar closes. */
    method Navigate(view: ViewState)
      requires Valid()
      modifies this
      ensures Valid()
      ensures currentView == view && !isSidebarOpen
      ensures view != QuizActiveView ==> selectedTopic == None && !isExamMode
      ensures view == QuizActiveView ==> selectedTopic == old(selectedTopic) && isExamMode == old(isExamMode)
      ensures stats == old(stats)
    {
      currentView := view;
      if view != QuizActiveView {
        selectedTopic := None;
        isExamMode := false;
      }
      isSidebarOpen := false;
    }

    /** `handleStartQuiz`: a practice quiz on the given topic. */
    method StartQuiz(topic: string)
      modifies this
      ensures Valid()
      ensures currentView == QuizActiveView && selectedTopic == Some(topic) && !isExamMode
      ensures topic != "" ==> Page() == QuizPage(topic, false)
      ensures isSidebarOpen == old(isSidebarOpen) && stats == old(stats)
    {
      selectedTopic := Some(topic);
      isExamMode := false;
      currentView := QuizActiveView;
    }

    /** `handleStartExam`: an exam-mode quiz titled "subject (university)". */
    method StartExam(subject: string, university: string)
      modifies this
      ensures Valid()
      ensures currentView == QuizActiveView && selectedTopic == Some(ExamTopic(subject, university)) && isExamMode
      ensures Page() == QuizPage(ExamTopic(subject, university), true)
      ensures isSidebarOpen == old(isSidebarOpen) && stats == old(stats)
    {
      selectedTopic := Some(subject + " (" + university + ")");
      isExamMode := true;
      currentView := QuizActiveView;
    }

    /** `handleExitQuiz`: back to the question bank with no topic and no exam mode. */
    method ExitQuiz()
      modifies this
      ensures Valid() && Page() == QuestionBankPage
      ensures currentView == QuestionBankView && selectedTopic == None && !isExamMode
      ensures isSidebarOpen == old(isSidebarOpen) && stats == old(stats)
    {
      currentView := QuestionBankView;
      selectedTopic := None;
      isExamMode := false;
    }

    /** The menu button of the mobile header opens the sidebar. */
    method OpenSidebar()
      modifies this
      ensures isSidebarOpen
      ensures currentView == old(currentView) && selectedTopic == old(selectedTopic)
      ensures isExamMode == old(isExamMode) && stats == old(stats)
    {
      isSidebarOpen := true;
    }

    /** The sidebar's own close control. */
    method CloseSidebar()
      modifies this
      ensures !isSidebarOpen
      ensures currentView == old(currentView) && selectedTopic == old(selectedTopic)
      ensures isExamMode == old(isExamMode) && stats == old(stats)
    {
      isSidebarOpen := false;
    }

    /** The quiz's `onUpdateStats` callback. */
    method RecordAnswer(isCorrect: bool)
      modifies this
      ensures stats == UpdateStats(old(stats), isCorrect)
      ensures old(ValidStats(stats)) ==> ValidStats(stats)
      ensures currentView == old(currentView) && selectedTopic == old(selectedTopic)
      ensures isExamMode == old(isExamMode) && isSidebarOpen == old(isSidebarOpen)
    {
      if ValidStats(stats) {
        UpdateKeepsStatsValid(stats, isCorrect);
      }
      stats := UpdateStats(stats, isCorrect);
    }
  }

  /**
   * Clicking the card of the i-th listed exam on the exam archive: the card
   * hands the exam's own subject and university to `handleStartExam`, so the
   * quiz opens in exam mode on that exam's topic.
   */
  method StartShownExam(shell: AppShell, exams: seq<Exam>, f: ExamArchive.UniversityFilter, term: string,
                        lower: string -> string, i: nat)
    requires i < |ExamArchive.FilterExams(exams, f, term, lower)|
    modifies shell
    ensures var e := ExamArchive.FilterExams(exams, f, term, lower)[i];
      && e in exams && ExamArchive.Shown(e, f, term, lower)
      && shell.Valid() && shell.Page() == QuizPage(ExamTopic(e.subject, e.university), true)
    ensures shell.stats == old(shell.stats)
  {
    var e := ExamArchive.FilterExams(exams, f, term, lower)[i];
    ExamArchive.ShownIff(exams, f, term, lower, e);
    shell.StartExam(e.subject, e.university);
  }

  /**
   * Clicking the card of the i-th listed subject on the question bank: the
   * subject string reaches `handleStartQuiz` unchanged, so the quiz opens
   * outside exam mode on that subject (titled "Geral" only if it is empty).
   */
  method StartListedSubject(shell: AppShell, subjects: seq<string>, term: string, lower: string -> string, i: nat)
    requires i < |QuestionBank.FilterSubjects(subjects, term, lower)|
    modifies shell
    ensures var s := QuestionBank.FilterSubjects(subjects, term, lower)[i];
      && s in subjects && QuestionBank.Matches(s, term, lower)
      && shell.Valid() && shell.Page() == QuizPage(QuizTitle(Some(s)), false)
      && (s != "" ==> shell.Page() == QuizPage(s, false))
    ensures shell.stats == old(shell.stats)
  {
    var s := QuestionBank.FilterSubjects(subjects, term, lower)[i];
    QuestionBank.ListedIffMatches(subjects, term, lower, s);
    shell.StartQuiz(s);
  }
}
