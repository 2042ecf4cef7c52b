/**
 * How the client judges the question-bank service's reply (the second
 * `.then` of the fetch chain, index.js:94-109).  Only the decoded JSON body
 * matters here: its `response_code` and its `results` list.
 */
module Response {
  import opened Wrappers
  import opened Trivia

  /** The JSON body of a reply; `results` is None when the field is absent. */
  datatype ApiResponse = ApiResponse(responseCode: int, results: Option<seq<Question>>)

  /** The reasons the handler throws, one per message it can throw. */
  datatype FetchError =
    | NotEnoughQuestions    // response_code 1
    | InvalidParameter      // response_code 2
    | RetrievalFailed       // any other non-zero response_code
    | NoQuestionsReturned   // response_code 0 with a missing or empty list

  /** The text of the Error the handler throws for each reason. */
  function ErrorMessage(e: FetchError): string {
    match e
    case NotEnoughQuestions => "Not enough questions found for your criteria. Please try different options."
    case InvalidParameter => "Invalid parameter in request."
    case RetrievalFailed => "Could not retrieve questions."
    case NoQuestionsReturned => "No questions returned for the selected criteria, even though the API call succeeded."
  }

  /** The list `questions` holds after a reply with response_code 0 (it is
      assigned before the emptiness check); an absent list is kept as []. */
  function ReturnedQuestions(data: ApiResponse): seq<Question> {
    data.results.GetOr([])
  }

  /**
   * The handler's verdict: a non-zero response_code is a service failure
   * (with its own reason for codes 1 and 2); code 0 with no questions is a
   * failure of its own; only code 0 with at least one question proceeds,
   * and then with exactly the questions the service sent.
   */
  function Classify(data: ApiResponse): (r: Result<seq<Question>, FetchError>)
    ensures r.Success? <==> data.responseCode == 0 && |ReturnedQuestions(data)| > 0
    ensures r.Success? ==> r.value == ReturnedQuestions(data) && |r.value| > 0
    ensures r == Failure(NotEnoughQuestions) <==> data.responseCode == 1
    ensures r == Failure(InvalidParameter) <==> data.responseCode == 2
    ensures r == Failure(RetrievalFailed) <==> data.responseCode !in {0, 1, 2}
    ensures r == Failure(NoQuestionsReturned) <==>
              data.responseCode == 0 && (data.results.None? || data.results.value == [])
  {
    if data.responseCode != 0 then
      if data.responseCode == 1 then Failure(NotEnoughQuestions)
      else if data.responseCode == 2 then Failure(InvalidParameter)
      else Failure(RetrievalFailed)
    else
      var questions := ReturnedQuestions(data);
      if |questions| == 0 then Failure(NoQuestionsReturned)
      else Success(questions)
  }
}
