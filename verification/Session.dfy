/**
 * The quiz session: the page-level variables `questions`,
 * `currentQuestionIndex`, `score` and `incorrectAnswers` (index.js:23-26)
 * and the handlers that change them -- start (index.js:70-75), the reply
 * handler (index.js:94-109), answer selection (index.js:191-228), next
 * (index.js:146-150), display (index.js:164-177), results (index.js:231-253)
 * and restart (index.js:132-143).
 *
 * Two ghost fields record what the page itself does not keep: the log of
 * answers given so far, and which handlers the visible screen makes
 * reachable.  The object invariant ties `score` and `incorrectAnswers` to
 * functions of that log.
 */
module Session {
  import opened Wrappers
  import opened Trivia
  import opened Response
  import Shuffle

  // ---------------------------------------------------------------------
  // Scoring as a function of the answers given
  // ---------------------------------------------------------------------

  /** One answer the player gave: the question's index and the chosen text. */
  datatype Answer = Answer(index: nat, chosen: string)

  /** Every logged answer refers to one of the questions. */
  ghost predicate LogFits(qs: seq<Question>, log: seq<Answer>) {
    forall k :: 0 <= k < |log| ==> log[k].index < |qs|
  }

  /** The questions were answered in order, one answer each, none skipped:
      the k-th answer is to question k. */
  ghost predicate Numbered(log: seq<Answer>) {
    forall k :: 0 <= k < |log| ==> log[k].index == k
  }

  /** The exact string comparison of index.js:206. */
  predicate IsCorrect(qs: seq<Question>, a: Answer)
    requires a.index < |qs|
  {
    a.chosen == qs[a.index].correctAnswer
  }

  /** The record a wrong answer leaves, fields copied verbatim (index.js:216-220). */
  function MissRecord(qs: seq<Question>, a: Answer): MissedAnswer
    requires a.index < |qs|
  {
    MissedAnswer(qs[a.index].question, a.chosen, qs[a.index].correctAnswer)
  }

  /** The score the answers in the log earn: one point per correct answer. */
  function Score(qs: seq<Question>, log: seq<Answer>): nat
    requires LogFits(qs, log)
  {
    if log == [] then 0
    else Score(qs, log[..|log| - 1]) + if IsCorrect(qs, log[|log| - 1]) then 1 else 0
  }

  /** The review list the answers in the log build: one record per wrong answer, in order. */
  function Missed(qs: seq<Question>, log: seq<Answer>): seq<MissedAnswer>
    requires LogFits(qs, log)
  {
    if log == [] then []
    else Missed(qs, log[..|log| - 1]) + if IsCorrect(qs, log[|log| - 1]) then [] else [MissRecord(qs, log[|log| - 1])]
  }

  /** Every answer is counted exactly once: as a point or as a missed record. */
  lemma {:induction false} ScorePlusMissed(qs: seq<Question>, log: seq<Answer>)
    requires LogFits(qs, log)
    ensures Score(qs, log) + |Missed(qs, log)| == |log|
  {
    if log != [] {
      ScorePlusMissed(qs, log[..|log| - 1]);
    }
  }

  /** A missed record never holds the correct answer as the player's answer. */
  lemma {:induction false} MissedAreWrong(qs: seq<Question>, log: seq<Answer>)
    requires LogFits(qs, log)
    ensures forall k :: 0 <= k < |Missed(qs, log)| ==>
              Missed(qs, log)[k].yourAnswer != Missed(qs, log)[k].correctAnswer
  {
    if log != [] {
      MissedAreWrong(qs, log[..|log| - 1]);
    }
  }

  /** Answers given in order, one per question, number at most the questions. */
  lemma NumberedBounded(qs: seq<Question>, log: seq<Answer>)
    requires LogFits(qs, log) && Numbered(log)
    ensures |log| <= |qs|
  {
    if log != [] {
      assert log[|log| - 1].index == |log| - 1;
    }
  }

  /** One more answer adds its point or its record at the end. */
  lemma ScoreMissedAppend(qs: seq<Question>, log: seq<Answer>, a: Answer)
    requires LogFits(qs, log) && a.index < |qs|
    ensures LogFits(qs, log + [a])
    ensures IsCorrect(qs, a) ==> Score(qs, log + [a]) == Score(qs, log) + 1 && Missed(qs, log + [a]) == Missed(qs, log)
    ensures !IsCorrect(qs, a) ==> Score(qs, log + [a]) == Score(qs, log) && Missed(qs, log + [a]) == Missed(qs, log) + [MissRecord(qs, a)]
  {
    assert (log + [a])[..|log|] == log;
  }

  /** Answering the question after the last one answered keeps the log numbered. */
  lemma AppendNumbered(log: seq<Answer>, a: Answer)
    requires Numbered(log) && a.index == |log|
    ensures Numbered(log + [a])
  {
    assert forall k :: 0 <= k < |log| ==> (log + [a])[k] == log[k];
  }

  /**
   * The state of a quiz in progress: at least one question, an index at most
   * one past the last, one answer for every question before the current one
   * and possibly one for the current one, and score and review list exactly
   * what those answers earn.
   */
  ghost predicate Consistent(qs: seq<Question>, index: nat, log: seq<Answer>, score: nat, missed: seq<MissedAnswer>) {
    && 0 < |qs|
    && index <= |qs|
    && LogFits(qs, log)
    && Numbered(log)
    && index <= |log| <= index + 1
    && score == Score(qs, log)
    && missed == Missed(qs, log)
  }

  /** Answering the current question once keeps the state consistent. */
  lemma AnswerKeepsConsistent(qs: seq<Question>, index: nat, log: seq<Answer>, score: nat,
                              missed: seq<MissedAnswer>, chosen: string)
    requires Consistent(qs, index, log, score, missed)
    requires index < |qs| && (log != [] ==> log[|log| - 1].index != index)
    ensures |log + [Answer(index, chosen)]| == index + 1
    ensures chosen == qs[index].correctAnswer ==>
              Consistent(qs, index, log + [Answer(index, chosen)], score + 1, missed)
    ensures chosen != qs[index].correctAnswer ==>
              Consistent(qs, index, log + [Answer(index, chosen)], score,
                         missed + [MissedAnswer(qs[index].question, chosen, qs[index].correctAnswer)])
  {
    var a := Answer(index, chosen);
    ScoreMissedAppend(qs, log, a);
    AppendNumbered(log, a);
  }

  /** Moving past the question just answered keeps the state consistent, and
      the new current question is not answered yet. */
  lemma AdvanceKeepsConsistent(qs: seq<Question>, index: nat, log: seq<Answer>, score: nat, missed: seq<MissedAnswer>)
    requires Consistent(qs, index, log, score, missed) && index < |qs|
    requires log != [] && log[|log| - 1].index == index
    ensures Consistent(qs, index + 1, log, score, missed)
    ensures |log| == index + 1
    ensures log[|log| - 1].index != index + 1
  {
  }

  // ---------------------------------------------------------------------
  // What the page shows
  // ---------------------------------------------------------------------

  /** The figures the results screen shows: "score out of total" and the
      review list (index.js:234-250). */
  datatype Summary = Summary(score: nat, total: nat, missed: seq<MissedAnswer>)

  /** The screen `displayCurrentQuestion` produces: a question with its
      shuffled answer buttons, or the results. */
  datatype View = QuestionView(text: string, answers: seq<string>) | ResultsView(summary: Summary)

  /**
   * The answer buttons for a question (index.js:176-177): the incorrect
   * answers followed by the correct one, copied into a fresh array and
   * shuffled in place.
   */
  method ShuffledOptions(q: Question, pick: nat -> nat) returns (answers: seq<string>)
    requires Shuffle.ValidPicks(pick)
    ensures answers == Shuffle.Shuffled(AnswerOptions(q), pick)
    ensures |answers| == |q.incorrectAnswers| + 1
    ensures multiset(answers) == multiset(q.incorrectAnswers) + multiset{q.correctAnswer}
    ensures q.correctAnswer in answers
    ensures forall w :: w in q.incorrectAnswers ==> w in answers
  {
    var options := AnswerOptions(q);
    var a := new string[|options|](k => if 0 <= k < |options| then options[k] else "");
    assert a[..] == options;
    Shuffle.ShuffleArray(a, pick);
    answers := a[..];
    assert multiset(answers) == multiset(options);
    assert q.correctAnswer in multiset(answers);
    forall w | w in q.incorrectAnswers ensures w in answers {
      assert w in multiset(options);
    }
  }

  /** Which handlers the visible screen makes reachable: the start screen
      (or an error screen), the loading screen while the reply is awaited,
      and the quiz or results screen. */
  datatype Phase = Idle | Loading | Playing

  // ---------------------------------------------------------------------
  // The session state and its handlers
  // ---------------------------------------------------------------------

  class QuizSession {
    var questions: seq<Question>
    var currentQuestionIndex: nat
    var score: nat
    var incorrectAnswers: seq<MissedAnswer>

    /** The answers given since the last start, in the order given. */
    ghost var log: seq<Answer>
    /** The screen the page is on, as far as the handlers care. */
    ghost var phase: Phase

    /** The object invariant. */
    ghost predicate Valid()
      reads this
    {
      && (phase == Loading ==>
            currentQuestionIndex == 0 && log == [] && score == 0 && incorrectAnswers == [])
      && (phase == Playing ==>
            Consistent(questions, currentQuestionIndex, log, score, incorrectAnswers))
    }

    /** The current question has already been answered. */
    ghost predicate AnsweredCurrent()
      reads this
    {
      log != [] && log[|log| - 1].index == currentQuestionIndex
    }

    /** The page's initial values (index.js:23-26), on the start screen. */
    constructor ()
      ensures Valid() && phase == Idle
      ensures questions == [] && currentQuestionIndex == 0 && score == 0 && incorrectAnswers == []
    {
      questions := [];
      currentQuestionIndex := 0;
      score := 0;
      incorrectAnswers := [];
      log := [];
      phase := Idle;
    }

    /** The start button (index.js:70-75): reset score, index and review
        list, then wait for the reply; `questions` is not touched yet. */
    method Start()
      modifies this
      ensures Valid() && phase == Loading
      ensures score == 0 && currentQuestionIndex == 0 && incorrectAnswers == []
      ensures questions == old(questions)
    {
      score := 0;
      currentQuestionIndex := 0;
      incorrectAnswers := [];
      log := [];
      phase := Loading;
    }

    /**
     * The reply handler (index.js:96-109).  A non-zero response_code fails
     * without touching `questions`; with code 0 the result list is stored in
     * `questions` before it is checked for emptiness, so an empty reply
     * still replaces the old list.  Only a non-empty list starts the quiz.
     */
    method ReceiveQuestions(data: ApiResponse) returns (outcome: Result<seq<Question>, FetchError>)
      requires Valid() && phase == Loading
      modifies this
      ensures outcome == Classify(data)
      ensures questions == if data.responseCode == 0 then ReturnedQuestions(data) else old(questions)
      ensures score == old(score) && currentQuestionIndex == old(currentQuestionIndex)
      ensures incorrectAnswers == old(incorrectAnswers)
      ensures phase == if outcome.Success? then Playing else Idle
      ensures Valid()
    {
      if data.responseCode != 0 {
        var reason := RetrievalFailed;
        if data.responseCode == 1 { reason := NotEnoughQuestions; }
        if data.responseCode == 2 { reason := InvalidParameter; }
        phase := Idle;
        return Failure(reason);
      }
      questions := ReturnedQuestions(data);
      if |questions| == 0 {
        phase := Idle;
        return Failure(NoQuestionsReturned);
      }
      phase := Playing;
      outcome := Success(questions);
    }

    /**
     * `displayCurrentQuestion` (index.js:164-177): past the last question it
     * shows the results; otherwise the current question with its answers
     * shuffled.
     */
    method DisplayCurrentQuestion(pick: nat -> nat) returns (view: View)
      requires Valid() && phase == Playing
      requires Shuffle.ValidPicks(pick)
      ensures currentQuestionIndex >= |questions| ==> view == ResultsView(ShowResults())
      ensures currentQuestionIndex < |questions| ==>
                && view.QuestionView?
                && view.text == questions[currentQuestionIndex].question
                && view.answers == Shuffle.Shuffled(AnswerOptions(questions[currentQuestionIndex]), pick)
                && multiset(view.answers) == multiset(AnswerOptions(questions[currentQuestionIndex]))
    {
      if currentQuestionIndex >= |questions| {
        return ResultsView(ShowResults());
      }
      var q := questions[currentQuestionIndex];
      var answers := ShuffledOptions(q, pick);
      view := QuestionView(q.question, answers);
    }

    /**
     * `handleAnswerSelection` (index.js:191-228).  A correct answer adds one
     * point; any other answer adds one record to the review list.  Nothing in
     * the state stops a second answer to the same question -- the page
     * disables the buttons (index.js:199) -- so one answer per question is
     * the caller's obligation here.  The result says whether the next button
     * is offered (otherwise the results follow).
     */
    method HandleAnswerSelection(selectedAnswer: string) returns (offerNext: bool)
      requires Valid() && phase == Playing
      requires currentQuestionIndex < |questions|
      requires !AnsweredCurrent()
      modifies this
      ensures Valid() && phase == Playing && AnsweredCurrent()
      ensures questions == old(questions) && currentQuestionIndex == old(currentQuestionIndex)
      ensures log == old(log) + [Answer(currentQuestionIndex, selectedAnswer)]
      ensures var q := questions[currentQuestionIndex];
        if selectedAnswer == q.correctAnswer then
          score == old(score) + 1 && incorrectAnswers == old(incorrectAnswers)
        else
          score == old(score) &&
          incorrectAnswers == old(incorrectAnswers) + [MissedAnswer(q.question, selectedAnswer, q.correctAnswer)]
      ensures score + |incorrectAnswers| == old(score) + |old(incorrectAnswers)| + 1
      ensures offerNext <==> currentQuestionIndex < |questions| - 1
      ensures !offerNext ==> |log| == |questions| && score + |incorrectAnswers| == |questions|
    {
      var currentQuestion := questions[currentQuestionIndex];
      var correctAnswer := currentQuestion.correctAnswer;
      AnswerKeepsConsistent(questions, currentQuestionIndex, log, score, incorrectAnswers, selectedAnswer);
      if selectedAnswer == correctAnswer {
        score := score + 1;
      } else {
        incorrectAnswers := incorrectAnswers + [MissedAnswer(currentQuestion.question, selectedAnswer, correctAnswer)];
      }
      log := log + [Answer(currentQuestionIndex, selectedAnswer)];
      ScorePlusMissed(questions, log);
      offerNext := currentQuestionIndex < |questions| - 1;
    }

    /** The next button (index.js:146-150): move to the next question.  The
        page hides the button whenever a question is shown (index.js:174) and
        shows it only after that question was answered and a later one
        exists (index.js:223-224); after the last answer the results follow
        instead (index.js:226). */
    method NextQuestion()
      requires Valid() && phase == Playing
      requires currentQuestionIndex < |questions| - 1 && AnsweredCurrent()
      modifies this
      ensures Valid() && phase == Playing
      ensures currentQuestionIndex == old(currentQuestionIndex) + 1 < |questions|
      ensures questions == old(questions) && score == old(score) && incorrectAnswers == old(incorrectAnswers)
      ensures log == old(log) && |log| == currentQuestionIndex && !AnsweredCurrent()
    {
      AdvanceKeepsConsistent(questions, currentQuestionIndex, log, score, incorrectAnswers);
      currentQuestionIndex := currentQuestionIndex + 1;
    }

    /**
     * The figures `showResults` puts on screen (index.js:231-253).  Each
     * answer given is either a point or a review record; the score never
     * exceeds the number of questions; once every question has been answered
     * (as after the last answer, index.js:226, or with the index past the
     * last question, a state only the end check of index.js:165-168 guards
     * against) every question is a point or a review record, and the review list is
     * empty (the "all correct" message) exactly when the score is full.
     */
    function ShowResults(): (r: Summary)
      reads this
      requires Valid() && phase == Playing
      ensures r.total == |questions|
      ensures r.score + |r.missed| == |log|
      ensures r.score <= r.total && |r.missed| <= r.total
      ensures forall k :: 0 <= k < |r.missed| ==> r.missed[k].yourAnswer != r.missed[k].correctAnswer
      ensures |log| == r.total ==> (r.missed == [] <==> r.score == r.total)
      ensures currentQuestionIndex == r.total ==>
                r.score + |r.missed| == r.total && (r.missed == [] <==> r.score == r.total)
    {
      ScorePlusMissed(questions, log);
      MissedAreWrong(questions, log);
      NumberedBounded(questions, log);
      Summary(score, |questions|, incorrectAnswers)
    }

    /** The restart button (index.js:132-143): clear the question list and the
        review list and return to the start screen.  Score and index are left
        as they were; the next start resets them. */
    method Restart()
      modifies this
      ensures Valid() && phase == Idle
      ensures questions == [] && incorrectAnswers == []
      ensures score == old(score) && currentQuestionIndex == old(currentQuestionIndex)
    {
      questions := [];
      incorrectAnswers := [];
      phase := Idle;
    }
  }
}
