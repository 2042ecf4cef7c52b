# Trivia quiz client — a Dafny model

The system is a single-page trivia quiz that runs in the browser. The player fills in a
configuration form: how many questions, and optionally a category, a difficulty
and a question type. The page turns that form into a request to the Open Trivia
question-bank service and judges the service's reply by its `response_code`. It
then shows the questions one at a time, each with its answers in shuffled
order. It scores each answer, keeps a review list of the questions the player
got wrong, and finally shows "score out of total" with that review list.

This project models the logic of `index.js`, in five modules plus a small `Wrappers`
module (`Option`, `Result`):

- Trivia: holds the records: a question as the service delivers it, the record kept
  for a wrong answer, and the answer buttons of a question before shuffling.
- Shuffle: holds `shuffleArray`, an in-place Fisher–Yates shuffle on an `array`.
  The method is proved equal to a specification function of the array's old
  contents. The draws of `Math.random` become an oracle `pick` with
  `pick(i) <= i`. The lemmas prove three things about that function:
  - it yields a permutation of the input;
  - for every permutation there are draws that produce it;
  - over distinct elements, the outcome determines the draws.
- Request: holds `buildApiUrl`, modelled as the ordered list of query parameters.
  It includes JavaScript's `parseInt` without a radix: leading white space, a
  sign, an optional `0x` prefix and the longest run of digits, with NaN as
  `None`. It also covers `|| 10`, the clamp to [1, 50], and optional parameters
  that appear only when a non-empty value was chosen.
- Response: holds how the reply body is classified.
- Session: holds the page-level state (`questions`, `currentQuestionIndex`,
  `score`, `incorrectAnswers`) as the class `QuizSession`, whose methods are the
  page's handlers. Two ghost fields record two things the page does not store:
  - the answers given since the last start;
  - which screen is showing.

  The class invariant says that `score` and `incorrectAnswers` are exactly what
  those answers earn.

## Model

| member | source | states |
|---|---|---|
| Trivia.AnswerOptions | index.js:176 | the options are the incorrect answers followed by the correct one: one more than the incorrect answers, the correct one last, and as a multiset exactly the incorrect answers plus the correct one |
| Shuffle.Swap | index.js:259 | the destructuring swap exchanges the two cells and leaves every other cell and the length unchanged |
| Shuffle.SwapPermutes | index.js:259 | a swap keeps the multiset of elements |
| Shuffle.FisherYates | index.js:257-260 | the loop from index i downwards keeps the length and never touches the cells above i |
| Shuffle.Shuffled | index.js:256-261 | a list of length 0 or 1 is returned unchanged (the loop body never runs) |
| Shuffle.ShuffleArray | index.js:256-261 | the in-place loop leaves the array equal to the specification function applied to its old contents, and holding the same multiset of elements |
| Shuffle.FisherYatesPermutes | index.js:257-260 | the steps from index i downwards produce a permutation |
| Shuffle.ShuffledIsPermutation | index.js:256-261 | the shuffle is a permutation of its input for every sequence of draws with j in [0, i] |
| Shuffle.FisherYatesLocal | index.js:257-258 | the result depends only on the draws made for indices 1..i |
| Shuffle.SameWhenTopFixed | index.js:257 | where the loop stops at i = 0: once every cell above 0 matches the target and cell 0 holds the same element, the sequence is the target |
| Shuffle.SourceOfTop | index.js:258-259 | any element of a permutation can be brought into the top cell by a draw j in [0, i] |
| Shuffle.SwapFixesTop | index.js:259 | after that draw's swap, the remaining prefix is a permutation of the target's prefix |
| Shuffle.FisherYatesReaches | index.js:257-260 | for every permutation of the cells 0..i there are valid draws whose loop yields it |
| Shuffle.ShuffledReachesEveryPermutation | index.js:256-261 | every permutation of the input is the outcome of some sequence of draws with j in [0, i] |
| Shuffle.SwapDistinct | index.js:259 | a swap keeps the elements pairwise distinct |
| Shuffle.FisherYatesDeterminesPicks | index.js:257-260 | over distinct elements, equal outcomes from index i down force equal draws at every index 1..i |
| Shuffle.ShuffledDeterminesPicks | index.js:256-261 | over distinct answers, the shuffled order determines every draw, so draws and orders correspond one to one |
| Request.DigitValue | index.js:52 | a digit's value is below the radix |
| Request.DigitRun | index.js:52 | parseInt's digit run never extends past the text |
| Request.DigitChar | index.js:53 | the character written for a decimal digit reads back as that digit |
| Request.DecimalString | index.js:53 | the decimal rendering of a number is non-empty and made of digits only |
| Request.DecimalStringValue | index.js:52-53 | reading the decimal rendering of n back gives n |
| Request.DigitRunAll | index.js:52 | a text of digits only is consumed entirely |
| Request.DigitRunStops | index.js:52 | the digit run stops at the first non-digit after the digits |
| Request.ParseUnsignedDecimal | index.js:52 | an unsigned decimal number followed by a non-digit parses back to itself; `0x` counts as a hex prefix |
| Request.ParseInt | index.js:52 | JavaScript `parseInt` without a radix, with NaN as None; no contract of its own, its partners ParseIntOfIntString and ParseIntIgnoresTail prove it inverts integer rendering whatever non-digit text follows, and ParseIntNoNumber and AmountOfUnreadableText cover NaN |
| Request.ParseIntOfSigned | index.js:52 | a leading minus negates the unsigned parse, and NaN stays NaN |
| Request.ParseIntOfUnsigned | index.js:52 | text starting with a digit parses as its unsigned number |
| Request.TrimStartNoop | index.js:52 | text that does not start with white space is not trimmed |
| Request.ParseIntIgnoresTail | index.js:52 | parseInt reads any integer rendering back to the integer whatever non-digit text follows it |
| Request.ParseIntOfIntString | index.js:52-53 | parseInt inverts the decimal rendering of every integer |
| Request.ParseIntNoNumber | index.js:52 | text that does not start with white space, a sign or a digit parses as NaN |
| Request.Clamp | index.js:53 | `Math.max(1, Math.min(n, 50))` lies in [1, 50], keeps n inside that range, and is 1 below it and 50 above it |
| Request.RequestedAmount | index.js:52-53 | the amount sent is always within [1, 50] |
| Request.AmountOfTypedNumber | index.js:52-53 | a typed 0 becomes 10 (0 is falsy), negatives become 1, values above 50 become 50, all others are kept |
| Request.AmountOfMissingField | index.js:52 | an absent amount field (parseInt of null is NaN) requests 10 questions |
| Request.AmountOfEmptyField | index.js:52 | an empty amount field requests 10 questions |
| Request.AmountOfUnreadableText | index.js:52 | any text parseInt reads as NaN requests 10 questions |
| Request.Selected | index.js:57-58 | a field is used exactly when it is present and non-empty, and then with its value |
| Request.OptionalParam | index.js:56-60 | one optional field's contribution; no contract of its own, LookupOptional proves it holds only that key and only when Selected holds, with the chosen value |
| Request.BuildParams | index.js:46-64 | `buildApiUrl` as its ordered parameter list; no contract of its own, its partners BuildParamsAmount, BuildParamsOptional and BuildParamsOrder prove amount first and clamped, each optional key present exactly when chosen, and the fixed key order |
| Request.BuildParamsAmount | index.js:52-53 | the first parameter is `amount`, and its value reads back as the clamped amount in [1, 50] |
| Request.LookupAppend | index.js:56-61 | in appended parameter lists, the first list's entry for a key wins |
| Request.LookupOptional | index.js:56-60 | the list for one optional field holds only that field's key, and only when it was chosen |
| Request.BuildParamsOptional | index.js:56-61 | category, difficulty and type are present exactly when chosen with a non-empty value, and carry that value |
| Request.BuildParamsOrder | index.js:52-61 | keys appear at most once each, in the order amount, category, difficulty, type |
| Response.ErrorMessage | index.js:98-108 | the text thrown for each failure reason, as the page writes them; no contract of its own |
| Response.ReturnedQuestions | index.js:104 | `questions = data.results`, an absent list kept as []; no contract of its own, Classify and ReceiveQuestions state that a code-0 reply stores it before the emptiness check |
| Response.Classify | index.js:96-109 | success exactly for code 0 with a non-empty list, and then with exactly that list; code 1, code 2, any other non-zero code, and code 0 with a missing or empty list each give their own failure, each if and only if its condition holds |
| Session.ScorePlusMissed | index.js:206-221 | every answer is counted once, as a point or as a review record |
| Session.MissedAreWrong | index.js:206-220 | no review record holds the correct answer as the player's answer |
| Session.NumberedBounded | index.js:146-150 | answers given one per question in order, the k-th to question k, are at most as many as the questions |
| Session.ScoreMissedAppend | index.js:206-221 | a correct answer adds one point and no record; a wrong one adds no point and its record at the end |
| Session.AppendNumbered | index.js:191-199 | answering the question after the last one answered keeps the k-th answer on question k |
| Session.AnswerKeepsConsistent | index.js:206-221 | answering the current, unanswered question keeps score and review list equal to what the answers earn, and leaves exactly one answer per question up to the current one |
| Session.AdvanceKeepsConsistent | index.js:146-150 | moving past the question just answered keeps the invariant, and the new current question is unanswered |
| Session.ShuffledOptions | index.js:176-177 | the answer buttons are the shuffle of the options: the incorrect answers and the correct one, each exactly once |
| Session.QuizSession.constructor | index.js:23-26 | initial values: no questions, index 0, score 0, empty review list |
| Session.QuizSession.Start | index.js:72-75 | score, index and review list are reset; the question list is untouched until the reply arrives |
| Session.QuizSession.ReceiveQuestions | index.js:96-109 | the outcome is the classification of the reply; with code 0 the list is stored even when empty; with any other code the old list stays; the quiz begins only on success |
| Session.QuizSession.DisplayCurrentQuestion | index.js:164-177 | past the last question the results are shown; otherwise the current question's text with its shuffled answers. The page never moves the index past the last question, so its end check (index.js:165-168) is only a guard there; the model keeps it |
| Session.QuizSession.HandleAnswerSelection | index.js:191-228 | a correct answer adds one point; a wrong one appends its verbatim record; the next button is offered exactly when a later question exists; when it is not (the last question), every question has been answered and score plus review records equals the number of questions; the invariant is kept |
| Session.QuizSession.NextQuestion | index.js:146-150 | offered only after the current question was answered and while a later question exists (index.js:174, 223-224); the index moves to the next question, which is unanswered, and nothing else changes |
| Session.QuizSession.ShowResults | index.js:231-253 | score plus review records equals the answers given; the score never exceeds the number of questions; no record holds the correct answer; once all questions are answered (as after the last answer, when the page shows the results, index.js:226), score plus review records equals the number of questions and the "all correct" message appears exactly when the score is full |
| Session.QuizSession.Restart | index.js:132-143 | question list and review list are emptied; score and index are left as they were |

## Left out

- The DOM is not modelled: screens, buttons, button colouring, feedback text, `innerHTML` and the review-list markup. The screen appears only as the ghost phase, and the button texts as the shuffled answer list.
- `fetch`, `response.ok` and the JSON decoding are not modelled. A reply is its decoded body. Network and HTTP failures have no model; the `catch` handler only displays them.
- `decodeEntities` (index.js:112-116, 264-268) is not modelled: questions are taken as already decoded.
- `Math.random` is an oracle `pick` with `pick(i) <= i`. Uniformity of the shuffle is not modelled; the model proves that every order is reachable and, over distinct elements, that the draws and the orders correspond one to one; over answer lists with a repeated text, different draws can give the same order.
- `setTimeout(showResults, 1200)`, the `console` calls and the try-again button (which only switches screens) are not modelled.
- The percent-encoding of the query string (`URLSearchParams.toString`) and the base URL are not modelled. A request is its ordered parameter list.
- Request.ParseInt: does not model JavaScript's floating-point number range. Integers above 2^53 are exact here but would lose precision in the browser.
- Response.ApiResponse: holds `response_code` as an integer. A non-numeric code would also count as "other non-zero" in the source.
- Response.ReturnedQuestions: stores a missing `results` field as an empty list. In the source, `questions` would hold `undefined`, and both fail the same emptiness check.
- Response.ErrorMessage: holds the four error texts. No lemma states that the texts are pairwise different.
- Session.QuizSession.HandleAnswerSelection: requires that the current question has not been answered yet. The page enforces this by disabling the buttons, which is not part of the state.
- Session.QuizSession.Restart: keeps only the trivial invariant of the start screen. A score and index left behind are reset by the next start.
