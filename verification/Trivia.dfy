/**
 * The records the quiz client works with: a question as the question-bank
 * service delivers it (after entity decoding), and the record kept for a
 * question the player got wrong.
 */
module Trivia {

  /** One entry of the service's `results` array (index.js:104, 112-116). */
  datatype Question = Question(question: string, correctAnswer: string, incorrectAnswers: seq<string>)

  /** The record pushed onto `incorrectAnswers` for a wrong answer (index.js:216-220). */
  datatype MissedAnswer = MissedAnswer(question: string, yourAnswer: string, correctAnswer: string)

  /** The answer buttons offered for a question, before shuffling:
      every incorrect answer, then the correct one (index.js:176). */
  function AnswerOptions(q: Question): (options: seq<string>)
    ensures |options| == |q.incorrectAnswers| + 1
    ensures options[|options| - 1] == q.correctAnswer
    ensures multiset(options) == multiset(q.incorrectAnswers) + multiset{q.correctAnswer}
  {
    q.incorrectAnswers + [q.correctAnswer]
  }
}
