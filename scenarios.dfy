/**
 * Runs of the session handlers on a one-question quiz, as a page visitor would
 * drive them: what a visitor can observe follows from the handlers' contracts.
 */
module Scenarios {
  import opened Wrappers
  import opened QuizData
  import opened Router
  import opened Session

  const Quiz1 := QuizMeta(1, "q1.json", "French Expressions Quiz 1", "francais", "")
  const Gaffe := Question("faire gaffe", ["careful", "run", "eat", "sleep"], 0, None)

  /**
   * Open `#quiz/1`, pick the right option, click another one (ignored), go on:
   * the results are on screen instead of the question and the list, they show 1/1,
   * and the fragment is `quiz/1/results`.
   */
  method AnswerOnceScenario(initial: Screen) returns (screen: Screen, fragment: string, logged: Option<FailedQuestion>)
    ensures screen.ResultsVisible() && !screen.QuestionVisible() && !screen.ListVisible()
    ensures screen.finalScore == Some(ScoreText(1, 1))
    ensures fragment == ResultsFragment(1)
    ensures logged == None
  {
    var catalog := [Quiz1];
    var files := map["q1.json" := [Gaffe]];
    OtherQuizIsLoaded(1, 0, None, 0, catalog);
    AdoptedIndexOfWrittenFragments(1, 0, 1);
    var s := new QuizSession(CardFragment(1), initial);
    var action := s.HandleRouting(catalog, files);
    assert action == LoadEntry(Quiz1);
    var first := s.SelectOption(0, true);
    assert s.score == 1;
    logged := s.SelectOption(2, true);
    assert s.score == 1;
    s.NextQuestion();
    screen, fragment := s.screen, s.fragment;
  }

  /**
   * After the results of a one-question quiz, the browser's back button returns to
   * `quiz/1/0`; routing shows the question again unanswered, and answering it again
   * scores it again: the results then show 2/1.
   */
  method RevisitScenario(quiz: QuizMeta, initial: Screen) returns (screen: Screen)
    ensures screen.ResultsVisible() && screen.finalScore == Some(ScoreText(2, 1))
  {
    AdoptedIndexOfEmptyFragment(1);
    var s := new QuizSession("", initial);
    s.LoadQuiz(quiz, [Gaffe]);
    assert s.index == 0 && !s.answered && s.score == 0;
    var _ := s.SelectOption(0, false);
    assert s.score == 1 && s.index == 0;
    s.NextQuestion();
    assert s.screen.finalScore == Some(ScoreText(1, 1));
    s.SetFragment(QuestionFragment(quiz.id, 0));
    QuestionFragmentRoundTrip(quiz.id, 0, 1, [quiz]);
    var action := s.HandleRouting([quiz], map[]);
    assert action == GotoQuestion(0);
    assert s.index == 0 && !s.answered && s.score == 1 && s.questions == [Gaffe];
    var _ := s.SelectOption(0, false);
    assert s.score == 2 && s.index == 0 && s.questions == [Gaffe];
    s.NextQuestion();
    screen := s.screen;
  }

  /**
   * Results of a one-question quiz are on screen; then a quiz whose file yields no
   * questions is loaded. The error goes into the hidden question container, and the
   * results of the previous quiz, 1/1, stay on screen.
   */
  method StaleResultsScenario(other: QuizMeta, initial: Screen) returns (screen: Screen)
    ensures screen.ResultsVisible() && !screen.QuestionVisible()
    ensures screen.errorWritten && screen.finalScore == Some(ScoreText(1, 1))
  {
    AdoptedIndexOfEmptyFragment(1);
    var s := new QuizSession("", initial);
    s.LoadQuiz(Quiz1, [Gaffe]);
    assert s.index == 0 && !s.answered && s.score == 0;
    var _ := s.SelectOption(0, false);
    assert s.score == 1 && s.index == 0;
    s.NextQuestion();
    assert s.screen.ResultsVisible() && !s.screen.QuestionVisible();
    assert s.screen.finalScore == Some(ScoreText(1, 1));
    s.LoadQuiz(other, []);
    screen := s.screen;
  }

  /**
   * The failed-questions quiz hides the quiz list through its inline style; going back
   * to the list, and the routing of the cleared fragment that follows, only remove the
   * list's `hidden` class: the list stays off screen while the details are hidden.
   */
  method CustomQuizHidesListScenario(q: QuizMeta, qs: seq<Question>, initial: Screen) returns (screen: Screen)
    ensures !screen.ListVisible() && screen.detailsHidden
  {
    var s := new QuizSession("", initial);
    var _ := s.LoadCustomQuiz(q, qs);
    s.GoBackToQuizList();
    var action := s.HandleRouting([], map[]);
    screen := s.screen;
  }
}
