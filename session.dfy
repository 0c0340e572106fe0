/**
 * The quiz session: the page-wide variables `currentQuizData`,
 * `currentQuizQuestions`, `currentQuestionIndex`, `score` and `hasAnswered`,
 * the URL fragment, and the visibility of the parts of the page the handlers
 * toggle, together with the handlers that update them: loading a quiz, showing
 * a question, answering, moving on, ending early, showing the results,
 * retaking, going back to the list, and routing on a fragment change.
 */
module Session {
  import opened Wrappers
  import opened QuizData
  import opened Router

  /** The `score/total` text of the results. */
  datatype ScoreText = ScoreText(correct: nat, total: nat)

  /**
   * What the handlers set on the page: the `hidden` class of the quiz list, the quiz
   * details, the question container and the results; the quiz list's inline
   * `display: none`; the `score/total` text showResults last wrote; and whether the
   * load error has replaced the question container's content.
   */
  datatype Screen = Screen(
    listHidden: bool,
    listDisplayNone: bool,
    detailsHidden: bool,
    containerHidden: bool,
    resultsHidden: bool,
    finalScore: Option<ScoreText>,
    errorWritten: bool)
  {
    /** The quiz list is on screen: neither its class nor its inline style hides it. */
    predicate ListVisible()
    {
      !listHidden && !listDisplayNone
    }

    predicate QuestionVisible()
    {
      !detailsHidden && !containerHidden
    }

    predicate ResultsVisible()
    {
      !detailsHidden && !resultsHidden
    }

    /** Exactly one of the question container and the results is unhidden. */
    predicate OnePanel()
    {
      containerHidden != resultsHidden
    }
  }

  class QuizSession {
    var quiz: Option<QuizMeta>     // currentQuizData
    var questions: seq<Question>   // currentQuizQuestions
    var index: nat                 // currentQuestionIndex
    var score: nat
    var answered: bool             // hasAnswered
    var fragment: string           // window.location.hash, without the '#'
    var screen: Screen

    /** The loaded quiz's id, as handleRouting compares it. */
    function CurrentId(): Option<int>
      reads this
    {
      if quiz.Some? then Some(quiz.value.id) else None
    }

    /** The question index stays within the question list (it equals its length once past the last question). */
    ghost predicate IndexInRange()
      reads this
    {
      index <= |questions|
    }

    /**
     * The score counts at most the questions before the current one, plus the
     * current one once it has been answered.
     */
    ghost predicate ScoreBounded()
      reads this
    {
      score <= index + (if answered && index < |questions| then 1 else 0)
    }

    /**
     * The state when the page has loaded: no quiz, empty question list, index and score 0.
     * What is hidden at first is set by the page's markup, given here as `initialScreen`.
     */
    constructor (initialFragment: string, initialScreen: Screen)
      ensures quiz == None && questions == [] && index == 0 && score == 0 && !answered
      ensures fragment == initialFragment && screen == initialScreen
      ensures IndexInRange() && ScoreBounded()
    {
      quiz := None;
      questions := [];
      index := 0;
      score := 0;
      answered := false;
      fragment := initialFragment;
      screen := initialScreen;
    }

    /**
     * showQuestion: clears the answered flag, hides the results, unhides the question
     * container and, when a quiz is loaded, writes `quiz/<id>/<index>` into the fragment.
     * With no question at the index, reading it throws after the container is unhidden
     * and before the fragment is written (`rendered` is false).
     */
    method ShowQuestion() returns (rendered: bool)
      modifies this
      ensures rendered == (index < |questions|)
      ensures !answered
      ensures screen == old(screen).(resultsHidden := true, containerHidden := false)
      ensures fragment == if rendered && quiz.Some? then QuestionFragment(quiz.value.id, index) else old(fragment)
      ensures quiz == old(quiz) && questions == old(questions) && index == old(index) && score == old(score)
    {
      answered := false;
      screen := screen.(resultsHidden := true, containerHidden := false);
      rendered := index < |questions|;
      if rendered && quiz.Some? {
        fragment := QuestionFragment(quiz.value.id, index);
      }
    }

    /**
     * selectOption: ignored once the current question is answered. Otherwise marks it
     * answered and adds one to the score exactly when the chosen option is the right one.
     * A wrong answer is handed to the failure logger, when one is defined, with the text
     * of the chosen option; highlighting the right option throws first when the file's
     * answer index is not an option, and then nothing is logged.
     */
    method SelectOption(selected: nat, loggerDefined: bool) returns (logged: Option<FailedQuestion>)
      requires !answered ==> index < |questions| && selected < |questions[index].options|
      modifies this
      ensures old(answered) ==> unchanged(this) && logged == None
      ensures !old(answered) ==> answered
      ensures !old(answered) ==>
                score == old(score) + if selected == old(questions[index].answerIndex) then 1 else 0
      ensures !old(answered) ==>
                var q := old(questions[index]);
                logged == if selected != q.answerIndex && 0 <= q.answerIndex < |q.options| && loggerDefined
                          then Some(FailedQuestion(q, q.options[selected]))
                          else None
      ensures quiz == old(quiz) && questions == old(questions) && index == old(index)
      ensures fragment == old(fragment) && screen == old(screen)
      ensures old(ScoreBounded()) ==> ScoreBounded()
    {
      if answered {
        return None;
      }
      answered := true;
      var q := questions[index];
      if selected == q.answerIndex {
        score := score + 1;
        logged := None;
      } else if 0 <= q.answerIndex < |q.options| && loggerDefined {
        logged := Some(FailedQuestion(q, q.options[selected]));
      } else {
        logged := None;
      }
    }

    /**
     * showResults: hides the question container, unhides the results, writes
     * `score/total` into them and, when a quiz is loaded, writes `quiz/<id>/results`
     * into the fragment.
     */
    method ShowResults()
      modifies this
      ensures screen == old(screen).(containerHidden := true, resultsHidden := false,
                                     finalScore := Some(ScoreText(score, |questions|)))
      ensures fragment == if quiz.Some? then ResultsFragment(quiz.value.id) else old(fragment)
      ensures quiz == old(quiz) && questions == old(questions) && index == old(index)
      ensures score == old(score) && answered == old(answered)
    {
      screen := screen.(containerHidden := true, resultsHidden := false, finalScore := Some(ScoreText(score, |questions|)));
      if quiz.Some? {
        fragment := ResultsFragment(quiz.value.id);
      }
    }

    /**
     * nextQuestion: moves the index on by one; shows that question when there is one,
     * and the results otherwise.
     */
    method NextQuestion()
      modifies this
      ensures index == old(index) + 1
      ensures index < |questions| ==>
                !answered && screen == old(screen).(resultsHidden := true, containerHidden := false)
                && fragment == (if quiz.Some? then QuestionFragment(quiz.value.id, index) else old(fragment))
      ensures index >= |questions| ==>
                answered == old(answered)
                && screen == old(screen).(containerHidden := true, resultsHidden := false,
                                          finalScore := Some(ScoreText(score, |questions|)))
                && fragment == (if quiz.Some? then ResultsFragment(quiz.value.id) else old(fragment))
      ensures quiz == old(quiz) && questions == old(questions) && score == old(score)
      ensures old(index) < |questions| ==> IndexInRange()
      ensures old(ScoreBounded()) ==> ScoreBounded()
    {
      index := index + 1;
      if index < |questions| {
        var _ := ShowQuestion();
      } else {
        ShowResults();
      }
    }

    /** endQuiz: shows the results with the score so far when the user confirms. */
    method EndQuiz(confirmed: bool)
      modifies this
      ensures confirmed ==>
                screen == old(screen).(containerHidden := true, resultsHidden := false,
                                       finalScore := Some(ScoreText(score, |questions|)))
                && fragment == (if quiz.Some? then ResultsFragment(quiz.value.id) else old(fragment))
      ensures !confirmed ==> unchanged(this)
      ensures quiz == old(quiz) && questions == old(questions) && index == old(index)
      ensures score == old(score) && answered == old(answered)
    {
      if confirmed {
        ShowResults();
      }
    }

    /** retakeQuiz: back to question 0 with score 0, showing that question. */
    method RetakeQuiz() returns (rendered: bool)
      modifies this
      ensures index == 0 && score == 0 && !answered
      ensures screen == old(screen).(containerHidden := false, resultsHidden := true)
      ensures rendered == (|questions| > 0)
      ensures fragment == if rendered && quiz.Some? then QuestionFragment(quiz.value.id, 0) else old(fragment)
      ensures quiz == old(quiz) && questions == old(questions)
      ensures IndexInRange() && ScoreBounded()
    {
      index := 0;
      score := 0;
      screen := screen.(containerHidden := false, resultsHidden := true);
      rendered := ShowQuestion();
    }

    /**
     * loadQuiz, once `fetched` (the quiz file's questions) has arrived: the quiz becomes
     * the current one with index and score 0, the details are unhidden and the list is
     * hidden. With questions, the index is taken from the fragment's third segment when
     * that is an in-range integer, and that question is shown. Without, the error
     * replaces the question container's content and nothing else changes: the container
     * and the results keep the visibility they had, and the answered flag is left as it was.
     */
    method LoadQuiz(q: QuizMeta, fetched: seq<Question>)
      modifies this
      ensures quiz == Some(q) && questions == fetched && score == 0
      ensures |fetched| > 0 ==>
                index == AdoptedIndex(LocationHash(old(fragment)), |fetched|)
                && !answered && fragment == QuestionFragment(q.id, index)
                && screen == old(screen).(detailsHidden := false, listHidden := true,
                                          resultsHidden := true, containerHidden := false)
      ensures |fetched| == 0 ==>
                index == 0 && answered == old(answered) && fragment == old(fragment)
                && screen == old(screen).(detailsHidden := false, listHidden := true, errorWritten := true)
      ensures IndexInRange() && ScoreBounded()
    {
      quiz := Some(q);
      index := 0;
      score := 0;
      screen := screen.(detailsHidden := false, listHidden := true);
      questions := fetched;
      if |fetched| > 0 {
        index := AdoptedIndex(LocationHash(fragment), |fetched|);
        var _ := ShowQuestion();
      } else {
        screen := screen.(errorWritten := true);
      }
    }

    /**
     * loadCustomQuiz: adopts a quiz together with its questions (the failed-questions
     * quiz) at index 0 with score 0, hides the quiz list through its inline style,
     * unhides the details and the question container, hides the results and shows
     * question 0. With no questions, showing it throws (`rendered` is false) and the
     * fragment is not written.
     */
    method LoadCustomQuiz(q: QuizMeta, qs: seq<Question>) returns (rendered: bool)
      modifies this
      ensures quiz == Some(q) && questions == qs && index == 0 && score == 0 && !answered
      ensures screen == old(screen).(listDisplayNone := true, detailsHidden := false,
                                     containerHidden := false, resultsHidden := true)
      ensures rendered == (|qs| > 0)
      ensures fragment == if rendered then QuestionFragment(q.id, 0) else old(fragment)
      ensures IndexInRange() && ScoreBounded()
    {
      quiz := Some(q);
      questions := qs;
      index := 0;
      score := 0;
      screen := screen.(listDisplayNone := true, detailsHidden := false, containerHidden := false, resultsHidden := true);
      rendered := ShowQuestion();
    }

    /**
     * goBackToQuizList: removes the list's `hidden` class, hides the details and clears
     * the fragment; the session itself is kept. The list's inline style is not touched.
     */
    method GoBackToQuizList()
      modifies this
      ensures screen == old(screen).(listHidden := false, detailsHidden := true) && fragment == ""
      ensures quiz == old(quiz) && questions == old(questions) && index == old(index)
      ensures score == old(score) && answered == old(answered)
    {
      screen := screen.(listHidden := false, detailsHidden := true);
      fragment := "";
    }

    /** A click on a quiz card: forgets the loaded quiz, so that routing reloads it, and writes `quiz/<id>`. */
    method OpenQuizCard(q: QuizMeta)
      modifies this
      ensures quiz == None && fragment == CardFragment(q.id)
      ensures questions == old(questions) && index == old(index) && score == old(score)
      ensures answered == old(answered) && screen == old(screen)
    {
      quiz := None;
      fragment := CardFragment(q.id);
    }

    /**
     * The fragment changes by a means outside the handlers (the address bar, the
     * browser's back and forward buttons, the title link's `goToHomepage`).
     */
    method SetFragment(f: string)
      modifies this
      ensures fragment == f
      ensures quiz == old(quiz) && questions == old(questions) && index == old(index)
      ensures score == old(score) && answered == old(answered) && screen == old(screen)
    {
      fragment := f;
    }

    /**
     * handleRouting, run when the fragment changes, with the quiz manifest and the quiz
     * files that can be fetched: carries out the decision Route takes for the fragment.
     * Whatever it does, it never unhides both the question container and the results.
     */
    method HandleRouting(catalog: seq<QuizMeta>, files: map<string, seq<Question>>) returns (action: RouteAction)
      modifies this
      ensures action == Route(old(fragment), old(CurrentId()), old(|questions|), catalog)
      ensures action.ShowList? ==>
                screen == old(screen).(listHidden := false, detailsHidden := true)
                && quiz == old(quiz) && questions == old(questions) && index == old(index)
                && score == old(score) && answered == old(answered) && fragment == old(fragment)
      ensures action.GoResults? ==>
                old(quiz).Some?
                && screen == old(screen).(containerHidden := true, resultsHidden := false,
                                          finalScore := Some(ScoreText(score, |questions|)))
                && fragment == ResultsFragment(old(quiz).value.id) && quiz == old(quiz)
                && questions == old(questions) && index == old(index) && score == old(score)
                && answered == old(answered)
      ensures action.GotoQuestion? ==>
                old(quiz).Some? && index == action.index && !answered
                && screen == old(screen).(resultsHidden := true, containerHidden := false)
                && fragment == QuestionFragment(old(quiz).value.id, index) && quiz == old(quiz)
                && questions == old(questions) && score == old(score)
      ensures action.LoadEntry? ==>
                quiz == Some(action.quiz) && questions == Fetch(files, action.quiz.filename) && score == 0
      ensures action.LoadEntry? && |questions| > 0 ==>
                index == AdoptedIndex(LocationHash(old(fragment)), |questions|) && !answered
                && fragment == QuestionFragment(action.quiz.id, index)
                && screen == old(screen).(detailsHidden := false, listHidden := true,
                                          resultsHidden := true, containerHidden := false)
      ensures action.LoadEntry? && |questions| == 0 ==>
                index == 0 && answered == old(answered) && fragment == old(fragment)
                && screen == old(screen).(detailsHidden := false, listHidden := true, errorWritten := true)
      ensures action.RedirectHome? ==>
                fragment == "" && quiz == old(quiz) && questions == old(questions) && index == old(index)
                && score == old(score) && answered == old(answered) && screen == old(screen)
      ensures action.Ignore? ==> unchanged(this)
      ensures old(IndexInRange()) ==> IndexInRange()
      ensures old(ScoreBounded()) && !(action.GotoQuestion? && action.index <= old(index)) ==> ScoreBounded()
      ensures old(screen.OnePanel()) ==> screen.OnePanel()
    {
      action := Route(fragment, CurrentId(), |questions|, catalog);
      match action
      case ShowList =>
        screen := screen.(listHidden := false, detailsHidden := true);
      case GoResults =>
        ShowResults();
      case GotoQuestion(n) =>
        index := n;
        var _ := ShowQuestion();
      case LoadEntry(q) =>
        LoadQuiz(q, Fetch(files, q.filename));
      case RedirectHome =>
        fragment := "";
      case Ignore =>
    }
  }
}
