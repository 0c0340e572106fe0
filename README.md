# French expressions quiz: a Dafny model of its core

The quiz application is a static web page: a manifest of quizzes (`data/quiz_metadata.json`)
is shown as cards grouped by category, a card opens its quiz, and the quiz runs as a
sequence of multiple-choice questions, with the score kept in page-wide variables and the
position mirrored in the URL fragment (`#quiz/<id>`, `#quiz/<id>/<n>`, `#quiz/<id>/results`)
so that the browser's history buttons and reloads route back into the quiz. Two filters,
by category and by the theme of a quiz's first question, hide sections and cards of the
list. A small Python script, `data/add_property_to_json.py`, gives every question of a quiz
file a default theme.

This project models:

- the quiz session of `scripts.js` (`loadQuiz`, `loadCustomQuiz`, `showQuestion`,
  `selectOption`, `nextQuestion`, `endQuiz`, `showResults`, `retakeQuiz`,
  `goBackToQuizList`, a card click) as the class `Session.QuizSession`, whose fields are
  the page-wide variables, the fragment, and what the handlers set on the page: the
  `hidden` class of the quiz list, the quiz details, the question container and the
  results, the list's inline `display: none`, the score text of the results, and
  whether the load error has replaced the question container's content;
- the router (`handleRouting` with `loadQuizById`) as the function `Router.Route`, which
  decides what a fragment does, and the method `Session.QuizSession.HandleRouting`,
  which carries that decision out; the fragments the session writes, and the JavaScript
  `parseInt`, `split('/')` and `join('/')` the router relies on (module `JsText`);
- the list filters (`filterQuizzesByCategory`, `filterQuizzesByTheme`, the "All
  Categories" and "Clear Filters" buttons, the count in `updateFilterIndicator`) as the
  class `Filters.FilterPanel` over the visibility of each section and card;
- the category helpers (`getUniqueCategories`, `groupQuizzesByCategory`, the icon and
  display-name look-ups) in module `Categories`;
- the Python script's default-theme loop, output file name and reported count in module
  `AddThemeScript`.

Each state-changing handler states its whole new state; the properties the application
relies on are proved as lemmas about the specification functions (`Route`, `AdoptedIndex`,
`FirstAppearances`, `OfCategory`, `WithDefaultTheme`, `OutputName`, ...) and as invariants
the handlers keep. The modules `Scenarios` and `Filters` also hold short runs of the
handlers whose outcome is fixed by the contracts.

## Behaviour of the code that the model keeps

- The score is not bounded by the number of questions. Going back in the browser's
  history to `#quiz/<id>/<n>` of the loaded quiz shows question `n` again with the
  answered flag cleared, and answering it again scores it again
  (`Scenarios.RevisitScenario` ends with the results `2/1`). `ScoreBounded` is kept by
  every handler except routing to the current or an earlier question.
- A question fragment for the loaded quiz whose index is out of range (or not a number) is
  ignored; only `loadQuiz`, for a quiz it loads, falls back to question 0.
- A quiz file that cannot be fetched, or has no questions, makes `loadQuiz` write an error
  into the question container and leaves the answered flag as it was. The container's
  visibility is not touched: when the results of an earlier quiz were on screen, the
  container stays hidden and the old `score/total` stays visible
  (`Scenarios.StaleResultsScenario`). `loadCustomQuiz` and `retakeQuiz` on a quiz without
  questions fail while showing question 0, after unhiding the container and before the
  fragment is written.
- `loadCustomQuiz` hides the quiz list through its inline style, while going back to the
  list and routing the empty fragment only remove the list's `hidden` class: after the
  failed-questions quiz the list no longer comes back
  (`Scenarios.CustomQuizHidesListScenario`).
- Nothing discards the response of an earlier, slower quiz fetch; none is modelled.
- The "All Categories" button re-applies the old theme filter before resetting it to
  'all', so cards of other themes stay hidden while the indicator counts no active filter
  (`Filters.AllCategoriesKeepsThemeFilterScenario`).
- Under theme 'all', the theme filter shows the cards that pass the category filter and
  leaves every other card as it was.
- The script's closing message counts the questions whose theme is
  `francais_familier`, not the questions it updated.

## Model

| member | source | states |
|---|---|---|
| JsText.ParseInt | scripts.js:1126 | `parseInt`: NaN when nothing but white space is left, and negative only after a `-` sign |
| JsText.ParseIntSkipsWhiteSpace | scripts.js:1126 | white space in front of the number does not change what `parseInt` reads |
| JsText.ParseIntOfDecimalPrefix | scripts.js:1131 | digits followed by a non-digit (not forming `0x`) read as the value of the digits |
| JsText.TrimStart | scripts.js:300 | the whitespace `parseInt` skips: the result is a suffix of the input, starts with no whitespace, and only whitespace was dropped |
| JsText.LeadingDigits | scripts.js:300 | the digits `parseInt` reads: a prefix of the input made only of digits of the radix, followed by no further digit |
| JsText.ParseIntOfNumberToString | scripts.js:1126 | `parseInt` of the decimal text of any integer gives that integer back |
| JsText.ParseIntStopsAtNonDigit | scripts.js:1131 | `parseInt("2x")` is 2: reading stops at the first non-digit |
| JsText.ParseIntOfWord | scripts.js:555 | `parseInt("results")` is NaN |
| JsText.ParseIntNegative | scripts.js:1131-1132 | `parseInt("-1")` is -1, which the router then rejects as out of range |
| JsText.ParseIntHexPrefix | scripts.js:1126 | `parseInt("0x1A")` is 26: a `0x` prefix switches to base 16 |
| JsText.Split | scripts.js:1120 | `split('/')` yields at least one piece and no piece holds the separator |
| JsText.SplitJoin | scripts.js:1120 | splitting what `join('/')` built from separator-free pieces gives the pieces back |
| JsText.JoinSplit | scripts.js:1120 | joining the pieces of a split gives the string back |
| JsText.SplitAppend | data/add_property_to_json.py:6 | a separator followed by a separator-free piece adds that piece as the last one |
| JsText.SplitPrefix | scripts.js:551 | a separator-free prefix glues onto the first piece of what follows it |
| JsText.IndexOf | scripts.js:236 | the first position of a character: it is there and nowhere before |
| JsText.ReplaceFirstAt | scripts.js:236 | JavaScript `replace('_', ' ')` changes the first `_` only and keeps the length |
| JsText.ReplaceAllSkips | data/add_property_to_json.py:6 | Python `replace` copies a prefix in which the pattern cannot start |
| JsText.ReplaceAllAfterStem | data/add_property_to_json.py:6 | Python `replace` turns the pattern found after a stem without its first character into the replacement, and scans on after it |
| JsText.ReplaceAllAvoids | data/add_property_to_json.py:6 | Python `replace` introduces no character found in neither the input nor the replacement |
| JsText.ToUpperAscii | scripts.js:236 | `toUpperCase` on one character: ASCII lower-case letters go up, everything else is kept |
| Router.CardFragment | scripts.js:483 | `quiz/<id>` splits on `/` into `quiz` and the id's text |
| Router.QuestionFragment | scripts.js:625 | `quiz/<id>/<index>` splits on `/` into `quiz`, the id's text and the index's text |
| Router.ResultsFragment | scripts.js:1063 | `quiz/<id>/results` splits on `/` into `quiz`, the id's text and `results` |
| Router.FindQuiz | scripts.js:500 | `quizzesMetadata.find(q => q.id === id)`: none exactly when no entry has the id, otherwise the first entry that has it |
| Router.FindQuizOwnId | scripts.js:500 | with unique manifest ids, an entry's own id finds that entry |
| Router.Route | scripts.js:1106-1144 | empty fragment exactly when the list is shown; a question is gone to only for the loaded quiz and within range; results only for the loaded quiz; a quiz is loaded only from the manifest and only when it is not the loaded one |
| Router.OtherFragmentIgnored | scripts.js:1122 | a non-empty fragment whose first piece is not `quiz`, or which has no second piece, changes nothing |
| Router.UnreadableIndexIgnored | scripts.js:1130-1132 | for the loaded quiz, a third piece that is neither `results` nor an integer changes nothing |
| Router.AdoptedIndexOfEmptyFragment | scripts.js:551-557 | a quiz loaded with an empty fragment starts at question 0 |
| Router.AdoptedIndex | scripts.js:551-557 | the index loadQuiz starts at is 0 or within the question list |
| Router.QuestionFragmentRoundTrip | scripts.js:1126-1134 | the fragment showQuestion writes routes back to that question of the loaded quiz |
| Router.QuestionFragmentOutOfRange | scripts.js:1131-1132 | a question fragment of the loaded quiz with an index out of range is ignored |
| Router.ResultsFragmentRoundTrip | scripts.js:1128-1129 | the fragment showResults writes routes back to the results |
| Router.OtherQuizIsLoaded | scripts.js:1122-1142 | card, question and results fragments naming another quiz all load the manifest entry with that id, or clear the fragment when there is none |
| Router.CardFragmentOfLoadedQuiz | scripts.js:1126-1127 | a card fragment naming the loaded quiz changes nothing |
| Router.AdoptedIndexOfWrittenFragments | scripts.js:551-557 | reloading at a question fragment resumes at that question when it is in range; results and card fragments start at question 0 |
| Session.QuizSession.constructor | scripts.js:56-61 | the page starts with no quiz, no questions, index and score 0, not answered; what is hidden at first is given |
| Session.QuizSession.ShowQuestion | scripts.js:582-637 | clears the answered flag, hides the results and unhides the question container, writes `quiz/<id>/<index>` only when there is a question at the index and a quiz is loaded |
| Session.QuizSession.SelectOption | scripts.js:927-983 | ignored once answered; otherwise answered, score up by one exactly on the right option, a wrong answer logged with its option text when the answer index is valid and the logger exists; keeps ScoreBounded |
| Session.QuizSession.NextQuestion | scripts.js:986-1008 | index up by one, then the next question or the results; keeps IndexInRange from inside the list and keeps ScoreBounded |
| Session.QuizSession.EndQuiz | scripts.js:1011-1018 | shows the results with the current score when confirmed, changes nothing otherwise |
| Session.QuizSession.ShowResults | scripts.js:1021-1071 | hides the question container, unhides the results with `score/total`, writes `quiz/<id>/results` for a loaded quiz; nothing else changes |
| Session.QuizSession.RetakeQuiz | scripts.js:1074-1085 | index and score back to 0, results hidden and question container unhidden, question 0 shown when there is one |
| Session.QuizSession.LoadQuiz | scripts.js:512-579 | the quiz and its questions become current with score 0, details unhidden and list hidden; the start index comes from the fragment; an empty file writes the error into the container, leaves the container's and the results' visibility and the answered flag as they were |
| Session.QuizSession.LoadCustomQuiz | scripts.js:1304-1341 | a quiz with its own questions becomes current at question 0 with score 0; the list gets `display: none`, the details and container are unhidden, the results hidden; the fragment is written only when it has questions |
| Session.QuizSession.GoBackToQuizList | scripts.js:1088-1098 | removes the list's `hidden` class (not its inline style), hides the details and clears the fragment; the session is kept |
| Session.QuizSession.OpenQuizCard | scripts.js:479-484 | a card click forgets the loaded quiz and writes `quiz/<id>` |
| Session.QuizSession.SetFragment | scripts.js:1101-1103 | the fragment becomes the one given (address bar, history buttons, `goToHomepage`); nothing else changes |
| Session.QuizSession.HandleRouting | scripts.js:1106-1144 | carries out `Route` for the fragment: the state after each decision; IndexInRange kept; ScoreBounded kept except when routing back to the current or an earlier question; never unhides both the container and the results |
| Scenarios.AnswerOnceScenario | scripts.js:927-983 | opening `quiz/1`, answering right, clicking again and moving on shows `1/1` at `quiz/1/results`, with the question and the list off screen, and logs nothing |
| Scenarios.RevisitScenario | scripts.js:1131-1134 | after `1/1`, going back to question 0 and answering again shows `2/1` |
| Scenarios.StaleResultsScenario | scripts.js:575-578 | after the results `1/1`, loading a quiz with no questions writes the error into the hidden container and leaves `1/1` on screen |
| Scenarios.CustomQuizHidesListScenario | scripts.js:1328 | after the failed-questions quiz, going back to the list and routing the empty fragment leave the list off screen and the details hidden |
| Filters.ActiveFilterCount | scripts.js:1205-1208 | the indicator counts 0, 1 or 2 active filters; 0 exactly when both are 'all', 2 exactly when neither is |
| Filters.CardShownAfterThemeFilter | scripts.js:300-323 | a card whose id finds no quiz keeps its visibility; theme 'all' never hides a card; a card is newly shown only when its quiz passes the category filter |
| Filters.ThemeFilterForgetsVisibility | scripts.js:311-322 | under a theme other than 'all', a card's earlier visibility plays no part |
| Filters.FilterPanel.constructor | scripts.js:64-65 | the list starts with both filters 'all' and every section and card shown |
| Filters.CardOfManifestEntry | scripts.js:299-323 | a card built from a manifest entry is judged by that entry's category and first-question theme |
| Filters.FilterPanel.FilterByTheme | scripts.js:292-341 | records the theme; each card's new visibility is the theme-filter rule applied to it; sections unchanged |
| Filters.FilterPanel.FilterByCategory | scripts.js:248-289 | records the category; a section is shown exactly when the filter is 'all' or its category; an active theme filter is re-applied, otherwise cards are unchanged |
| Filters.FilterPanel.SelectAllCategories | scripts.js:1151-1160 | both filters 'all' and every section shown, but the cards are those the old theme filter shows |
| Filters.FilterPanel.ClearFilters | scripts.js:1166-1197 | both filters 'all', every section and every card shown |
| Filters.AllCategoriesKeepsThemeFilterScenario | scripts.js:1151-1160 | after a theme filter and "All Categories", the count is 0 yet a card of another theme is hidden; "Clear Filters" shows it |
| Categories.UniqueCategories | scripts.js:213-219 | returns the categories in order of first appearance, each once |
| Categories.FirstAppearancesElements | scripts.js:213-219 | a category is listed exactly when some quiz has it |
| Categories.FirstAppearancesDistinct | scripts.js:213-219 | no category is listed twice |
| Categories.FirstAppearancesOrder | scripts.js:213-219 | the listing follows first appearance in the manifest |
| Categories.GroupByCategory | scripts.js:344-356 | the groups are keyed by exactly the categories present, and each group is that category's quizzes in input order |
| Categories.OfCategoryOfAbsent | scripts.js:344-356 | a category no quiz has groups nothing |
| Categories.GroupKeysAreTheCategories | scripts.js:344-363 | the groups' keys are the same set as the distinct categories |
| Categories.OfCategoryMultiplicity | scripts.js:344-356 | each quiz lands in its own category's group as often as it occurs, and in no other group |
| Categories.OfCategoryAppend | scripts.js:344-356 | grouping keeps input order: grouping a concatenation concatenates the groups |
| Categories.Icon | scripts.js:235 | the bookmark icon is given exactly to categories the icon table does not know |
| Categories.DisplayName | scripts.js:236 | the button and section name is empty only for the empty category, and keeps the length of an unknown category |
| Categories.CardLabelAgainstDisplayName | scripts.js:474 | a card's tag shows the same name as the buttons for known categories, and the raw category otherwise, which differs from the button's name when it starts with a lower-case letter |
| Categories.KnownCategories | scripts.js:71-88 | both tables know the same six categories, and the `fa-bookmark` icon marks exactly the unknown ones |
| Categories.FallbackNameShape | scripts.js:236 | the fallback name keeps the length, upper-cases the first character, and turns only the first `_` after it into a space |
| AddThemeScript.WithDefaultTheme | data/add_property_to_json.py:12-14 | the loop keeps the number of questions |
| AddThemeScript.WithDefaultThemeAt | data/add_property_to_json.py:12-14 | the loop keeps the length and order and treats each question on its own |
| AddThemeScript.AddDefaultTheme | data/add_property_to_json.py:12-14 | the in-place loop leaves exactly the default-themed questions |
| AddThemeScript.EveryItemHasTheme | data/add_property_to_json.py:12-14 | after the loop every question has a theme |
| AddThemeScript.ThemesKeptOrDefaulted | data/add_property_to_json.py:13-14 | a question keeps its theme or gets "Nice"; its other keys and values are kept and only `theme` may be added |
| AddThemeScript.WithDefaultThemeIdempotent | data/add_property_to_json.py:12-14 | running the loop on its own output changes nothing |
| AddThemeScript.OutputName | data/add_property_to_json.py:6 | the output name has no `/`: the file is written in the working directory |
| AddThemeScript.OutputNameOfLastSegment | data/add_property_to_json.py:6 | only the part after the last `/` of the input path is used |
| AddThemeScript.OutputNameReplacesEachOccurrence | data/add_property_to_json.py:6 | each `.json` is replaced, not only a trailing one |
| AddThemeScript.OutputNameOfScriptInput | data/add_property_to_json.py:4-6 | `quiz_nice_15.json` is written back as `quiz_nice_15_updated.json` |
| AddThemeScript.ReportedCount | data/add_property_to_json.py:20 | the printed count is at most the number of questions |
| AddThemeScript.ReportedCountIgnoresUpdates | data/add_property_to_json.py:20 | the printed count is the number of questions that already had the theme `francais_familier` |
| AddThemeScript.ReportedCountIsNotUpdatedCount | data/add_property_to_json.py:20 | one question without a theme is updated, yet the message reports 0 |

## Left out

- The DOM, styling, animations, sounds, answer-detail panels and accessibility set-up:
  the model keeps only the visibility the handlers set on the quiz list, the quiz
  details, the question container and the results, the score text of the results,
  which sections and cards are visible, and the URL fragment.
- `index.html` is not part of this model: what is hidden when the page loads is a
  parameter of `Session.QuizSession.constructor`.
- Session.QuizSession.ShowQuestion: once the load error has replaced the question
  container's content (`errorWritten`), whether the expression and options elements are
  still inside the container depends on the markup of `index.html`; the model records only
  that the error was written.
- Writing `window.location.hash` fires `hashchange`, which runs `handleRouting`
  (scripts.js:1222) when the fragment actually changes: after `RedirectHome` (504), a card
  click (483), `goBackToQuizList` (1097), `showQuestion` (625) and `showResults` (1063).
  The handlers do not call `HandleRouting` themselves; a caller runs it after them, as the
  scenarios do.
- Firebase (`firebase-config-loader.js`, `initializeFirebase`, `handleFirebaseInitFailure`)
  and the failure logger: the logger is a parameter saying whether it is defined, and the
  model returns what would be logged.
- `fetch`: a quiz file's contents are given as a map from file name to questions, and a
  file that cannot be fetched or parsed yields no questions, as `fetchQuizData` returns
  `[]`. Fetching the manifest (`fetchQuizMetadata`) and rendering the list
  (`displayCategoriesAndQuizzes`, `createQuizCard`) are left out; the list a filter works
  on is given as its sections and card ids.
- Asynchrony: the awaits in `loadQuiz`, `filterQuizzesByTheme` and
  `displayCategoriesAndQuizzes` are taken to finish before the next event, and the
  section hiding delayed by `setTimeout` is taken to have happened. Interleavings of
  concurrent fetches are not modelled.
- `confirm()` in `endQuiz` is a parameter.
- The next-question and end-quiz buttons' visibility is not modelled; `NextQuestion` can be
  called from any state, as a stale button allows.
- `parseInt` is modelled on integers: numbers beyond 2^53, exponent notation and the
  `Number` formatting of non-integers are left out; ids are taken to be integers.
- Percent-encoding of the fragment by the browser is not modelled; fragments are taken
  as written.
- Unicode case mapping: `toUpperCase` is modelled for ASCII letters only.
- Look-ups of inherited object keys (a category named `constructor` finds a function in
  `categoryNames`) and the key order of `Object.keys` over the groups are left out; the
  groups are a map.
- The theme of a question is compared as an optional string; a non-string theme in a
  quiz file, and an `answer_index` that is not a number, are not modelled.
- `loadCustomQuiz`'s quiz is given with its questions; building the failed-questions quiz
  is not part of this model.
- `getLighterColor` and the theme colours are not part of this model.
- The script's file reading and writing, `json.load`/`json.dump` formatting, the key order
  of the written objects, the unused `asyncore` import, and inputs that are not an array
  of objects are left out; JSON numbers are integers.
