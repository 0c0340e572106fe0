/**
 * The hash router: the URL fragments the application writes, and the decision
 * `handleRouting` (with `loadQuizById`) takes for a fragment, given which quiz
 * is loaded, how many questions it has and the quiz manifest. Fragments are
 * written here without the leading `#`.
 */
module Router {
  import opened Wrappers
  import opened JsText
  import opened QuizData

  /** The fragment a quiz card writes when clicked: `quiz/<id>`. */
  function CardFragment(id: int): (f: string)
    ensures Split(f, '/') == ["quiz", NumberToString(id)]
  {
    NoDigitIsSeparator(id, '/');
    SplitJoin(["quiz", NumberToString(id)], '/');
    Join(["quiz", NumberToString(id)], '/')
  }

  /** The fragment `showQuestion` writes: `quiz/<id>/<index>`. */
  function QuestionFragment(id: int, index: int): (f: string)
    ensures Split(f, '/') == ["quiz", NumberToString(id), NumberToString(index)]
  {
    NoDigitIsSeparator(id, '/');
    NoDigitIsSeparator(index, '/');
    SplitJoin(["quiz", NumberToString(id), NumberToString(index)], '/');
    Join(["quiz", NumberToString(id), NumberToString(index)], '/')
  }

  /** The fragment `showResults` writes: `quiz/<id>/results`. */
  function ResultsFragment(id: int): (f: string)
    ensures Split(f, '/') == ["quiz", NumberToString(id), "results"]
  {
    NoDigitIsSeparator(id, '/');
    SplitJoin(["quiz", NumberToString(id), "results"], '/');
    Join(["quiz", NumberToString(id), "results"], '/')
  }

  /** What `handleRouting` does with a fragment. */
  datatype RouteAction =
    | ShowList                    // empty fragment: show the quiz list
    | GoResults                   // `quiz/<current>/results`
    | GotoQuestion(index: nat)    // `quiz/<current>/<n>` with n in range
    | LoadEntry(quiz: QuizMeta)   // `quiz/<other>...` naming a known quiz
    | RedirectHome                // `quiz/<other>...` naming no known quiz: the fragment is cleared
    | Ignore                      // anything else

  /**
   * `quizzesMetadata.find(q => q.id === id)`: the first manifest entry with that id.
   * A NaN id (None) matches nothing.
   */
  function FindQuiz(catalog: seq<QuizMeta>, id: Option<int>): (r: Option<QuizMeta>)
    ensures r.None? <==> forall k :: 0 <= k < |catalog| ==> id != Some(catalog[k].id)
    ensures r.Some? ==> id == Some(r.value.id)
    ensures r.Some? ==> exists k :: (0 <= k < |catalog| && catalog[k] == r.value
      && forall j :: 0 <= j < k ==> catalog[j].id != r.value.id)
  {
    if catalog == [] then None
    else if id == Some(catalog[0].id) then Some(catalog[0])
    else
      var r := FindQuiz(catalog[1..], id);
      assert r.Some? ==> exists k :: (0 <= k < |catalog| && catalog[k] == r.value
        && forall j :: 0 <= j < k ==> catalog[j].id != r.value.id)
      by {
        if r.Some? {
          var k :| 0 <= k < |catalog[1..]| && catalog[1..][k] == r.value
            && forall j :: 0 <= j < k ==> catalog[1..][j].id != r.value.id;
          assert catalog[k + 1] == r.value;
        }
      }
      r
  }

  /**
   * handleRouting: an empty fragment shows the list; `quiz/<id>` for a quiz other
   * than the loaded one (or with none loaded) loads it through loadQuizById, which
   * clears the fragment when no quiz has that id; for the loaded quiz, a third
   * segment `results` shows the results and an integer in [0, total) moves to that
   * question. Everything else changes nothing.
   */
  function Route(fragment: string, current: Option<int>, total: nat, catalog: seq<QuizMeta>): (a: RouteAction)
    ensures a.ShowList? <==> fragment == ""
    ensures a.GotoQuestion? ==> current.Some? && a.index < total
    ensures a.GoResults? ==> current.Some?
    ensures a.LoadEntry? ==> a.quiz in catalog && current != Some(a.quiz.id)
  {
    if fragment == "" then ShowList
    else
      var parts := Split(fragment, '/');
      if parts[0] == "quiz" && |parts| > 1 then
        var id := ParseInt(parts[1]);
        if current.Some? && id == Some(current.value) then
          if |parts| > 2 then
            if parts[2] == "results" then GoResults
            else
              match ParseInt(parts[2])
              case Some(n) => if 0 <= n < total then GotoQuestion(n) else Ignore
              case None => Ignore
          else Ignore
        else
          match FindQuiz(catalog, id)
          case Some(q) => LoadEntry(q)
          case None => RedirectHome
      else Ignore
  }

  /**
   * `window.location.hash` for a fragment: `#` followed by the fragment, or the
   * empty string when there is no fragment.
   */
  function LocationHash(fragment: string): string
  {
    if fragment == "" then "" else "#" + fragment
  }

  /**
   * The question index loadQuiz starts a freshly loaded quiz at: the third segment of
   * `location.hash`, when it is non-empty and parses to an integer in [0, total); 0
   * otherwise.
   */
  function AdoptedIndex(hash: string, total: nat): (i: nat)
    ensures i == 0 || i < total
  {
    var parts := Split(hash, '/');
    if |parts| > 2 && parts[2] != "" then
      match ParseInt(parts[2])
      case Some(n) => if 0 <= n < total then n else 0
      case None => 0
    else 0
  }

  // ---------------------------------------------------------------------------
  // Round trips between the fragments written and the routing decision
  // ---------------------------------------------------------------------------

  /**
   * The fragment showQuestion writes for the loaded quiz routes back to the same
   * question, without reloading the quiz.
   */
  lemma QuestionFragmentRoundTrip(id: int, index: nat, total: nat, catalog: seq<QuizMeta>)
    requires index < total
    ensures Route(QuestionFragment(id, index), Some(id), total, catalog) == GotoQuestion(index)
  {
    ParseIntOfNumberToString(id);
    ParseIntOfNumberToString(index);
    assert NumberToString(index) != "results" by {
      assert IsDecimalDigit(NumberToString(index)[0]);
    }
  }

  /** A question fragment for the loaded quiz whose index is out of range changes nothing. */
  lemma QuestionFragmentOutOfRange(id: int, index: int, total: nat, catalog: seq<QuizMeta>)
    requires index < 0 || index >= total
    ensures Route(QuestionFragment(id, index), Some(id), total, catalog) == Ignore
  {
    ParseIntOfNumberToString(id);
    ParseIntOfNumberToString(index);
    assert NumberToString(index) != "results" by {
      assert NumberToString(index)[0] == '-' || IsDecimalDigit(NumberToString(index)[0]);
    }
  }

  /** The fragment showResults writes for the loaded quiz routes back to the results. */
  lemma ResultsFragmentRoundTrip(id: int, total: nat, catalog: seq<QuizMeta>)
    ensures Route(ResultsFragment(id), Some(id), total, catalog) == GoResults
  {
    ParseIntOfNumberToString(id);
  }

  /**
   * Any fragment naming a quiz other than the loaded one (or when none is loaded)
   * loads the first manifest entry with that id, or clears the fragment when there is none.
   */
  lemma OtherQuizIsLoaded(id: int, index: int, current: Option<int>, total: nat, catalog: seq<QuizMeta>)
    requires current != Some(id)
    ensures Route(CardFragment(id), current, total, catalog) == LoadOrRedirect(catalog, id)
    ensures Route(QuestionFragment(id, index), current, total, catalog) == LoadOrRedirect(catalog, id)
    ensures Route(ResultsFragment(id), current, total, catalog) == LoadOrRedirect(catalog, id)
  {
    ParseIntOfNumberToString(id);
    RouteNamingOtherQuiz(CardFragment(id), id, current, total, catalog);
    RouteNamingOtherQuiz(QuestionFragment(id, index), id, current, total, catalog);
    RouteNamingOtherQuiz(ResultsFragment(id), id, current, total, catalog);
  }

  lemma RouteNamingOtherQuiz(fragment: string, id: int, current: Option<int>, total: nat, catalog: seq<QuizMeta>)
    requires current != Some(id)
    requires |Split(fragment, '/')| > 1 && Split(fragment, '/')[0] == "quiz"
    requires ParseInt(Split(fragment, '/')[1]) == Some(id)
    ensures Route(fragment, current, total, catalog) == LoadOrRedirect(catalog, id)
  {
    assert fragment != "";
  }

  /** loadQuizById's outcome for an id: load the quiz that has it, or clear the fragment. */
  function LoadOrRedirect(catalog: seq<QuizMeta>, id: int): RouteAction
  {
    match FindQuiz(catalog, Some(id))
    case Some(q) => LoadEntry(q)
    case None => RedirectHome
  }

  /** A card fragment for the loaded quiz has no third segment and changes nothing. */
  lemma CardFragmentOfLoadedQuiz(id: int, total: nat, catalog: seq<QuizMeta>)
    ensures Route(CardFragment(id), Some(id), total, catalog) == Ignore
  {
    ParseIntOfNumberToString(id);
  }

  /**
   * A non-empty fragment whose first segment is not `quiz`, or which has no second
   * segment, changes nothing.
   */
  lemma OtherFragmentIgnored(fragment: string, current: Option<int>, total: nat, catalog: seq<QuizMeta>)
    requires fragment != ""
    requires Split(fragment, '/')[0] != "quiz" || |Split(fragment, '/')| == 1
    ensures Route(fragment, current, total, catalog) == Ignore
  {
  }

  /**
   * For the loaded quiz, a third segment that is neither `results` nor an integer
   * (parseInt gives NaN) changes nothing.
   */
  lemma UnreadableIndexIgnored(fragment: string, id: int, total: nat, catalog: seq<QuizMeta>)
    requires |Split(fragment, '/')| > 2 && Split(fragment, '/')[0] == "quiz"
    requires ParseInt(Split(fragment, '/')[1]) == Some(id)
    requires Split(fragment, '/')[2] != "results" && ParseInt(Split(fragment, '/')[2]) == None
    ensures Route(fragment, Some(id), total, catalog) == Ignore
  {
    assert fragment != "";
  }

  /** A manifest entry's own id finds that entry when the ids are unique. */
  lemma FindQuizOwnId(catalog: seq<QuizMeta>, k: nat)
    requires k < |catalog|
    requires forall i, j :: 0 <= i < j < |catalog| ==> catalog[i].id != catalog[j].id
    ensures FindQuiz(catalog, Some(catalog[k].id)) == Some(catalog[k])
  {
  }

  /** A quiz loaded while the fragment is empty starts at question 0. */
  lemma AdoptedIndexOfEmptyFragment(total: nat)
    ensures AdoptedIndex(LocationHash(""), total) == 0
  {
    assert Split("", '/') == [""];
  }

  /**
   * Reloading a quiz at one of its question fragments resumes at that question when
   * it is in range; a results fragment or a card fragment starts again at question 0.
   */
  lemma AdoptedIndexOfWrittenFragments(id: int, index: int, total: nat)
    ensures AdoptedIndex(LocationHash(QuestionFragment(id, index)), total)
      == if 0 <= index < total then index else 0
    ensures AdoptedIndex(LocationHash(ResultsFragment(id)), total) == 0
    ensures AdoptedIndex(LocationHash(CardFragment(id)), total) == 0
  {
    NoDigitIsSeparator(id, '/');
    NoDigitIsSeparator(index, '/');
    ParseIntOfNumberToString(index);
    ParseIntOfWord();
    var q := QuestionFragment(id, index);
    SplitPrefix("#", q, '/');
    assert NumberToString(index) != "" by {
      assert |NatToDecimal(if index < 0 then -index else index)| >= 1;
    }
    SplitPrefix("#", ResultsFragment(id), '/');
    SplitPrefix("#", CardFragment(id), '/');
  }
}
