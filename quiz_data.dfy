/**
 * The records the quiz application reads from its static JSON files: one
 * entry of the quiz manifest per quiz, and the questions of one quiz file.
 */
module QuizData {
  import opened Wrappers

  /** An entry of `data/quiz_metadata.json` (its `theme_color` is not modelled). */
  datatype QuizMeta = QuizMeta(id: int, filename: string, title: string, category: string, description: string)

  /**
   * One multiple-choice question. `answerIndex` is whatever the file holds: nothing
   * guarantees that it indexes `options`. `theme` is absent when the file has none.
   */
  datatype Question = Question(expression: string, options: seq<string>, answerIndex: int, theme: Option<string>)

  /** What the failure logger receives: the question together with the text of the chosen option. */
  datatype FailedQuestion = FailedQuestion(question: Question, selectedOption: string)

  /**
   * The questions `fetchQuizData(filename)` resolves to, given the files that can be
   * fetched: a file that cannot be fetched or parsed yields no questions.
   */
  function Fetch(files: map<string, seq<Question>>, filename: string): seq<Question>
  {
    if filename in files then files[filename] else []
  }
}
