/**
 * The explorer client: transaction records as the explorer returns them, and the
 * rule that turns one explorer reply into a page of records or a failure.
 */
module Explorer {
  import opened Wrappers

  /**
   * One transaction record. Only its `hash` field matters to change detection; it is
   * absent when the JSON object has no such key or a null there. The other string
   * fields (sender, receiver, value, time stamp, token symbol, ...) are carried along
   * unread until a notification is formatted.
   */
  datatype Tx = Tx(hash: Option<string>, fields: map<string, string>)

  /** The decoded JSON body of an explorer reply; each field may be missing. */
  datatype Response = Response(status: Option<string>, message: Option<string>, result: Option<seq<Tx>>)

  /** What one explorer request yields: a transport or HTTP-status failure, or a decoded body. */
  datatype Reply = HttpFailure | Body(response: Response)

  datatype FetchError = TransportError | ApiError(status: Option<string>, message: Option<string>)

  const NoTransactionsFound := "No transactions found"

  /**
   * The status rule for a decoded reply: an error exactly when the status is "0" and
   * the message is anything other than "No transactions found" (a missing message
   * included); otherwise the page is the `result` field, or empty when it is missing.
   */
  function Classify(r: Response): (res: Result<seq<Tx>, FetchError>)
    ensures res.Failure? <==> (r.status == Some("0") && r.message != Some(NoTransactionsFound))
    ensures res.Failure? ==> res.error == ApiError(r.status, r.message)
    ensures res.Success? && r.result.Some? ==> res.value == r.result.value
    ensures res.Success? && r.result.None? ==> res.value == []
  {
    if r.status == Some("0") && r.message != Some(NoTransactionsFound) then
      Failure(ApiError(r.status, r.message))
    else
      Success(r.result.GetOr([]))
  }

  /** One request: a transport failure raises, a decoded body goes through `Classify`. */
  function Fetch(reply: Reply): (res: Result<seq<Tx>, FetchError>)
    ensures reply.HttpFailure? ==> res == Failure(TransportError)
    ensures reply.Body? ==> res == Classify(reply.response)
  {
    match reply
    case HttpFailure => Failure(TransportError)
    case Body(r) => Classify(r)
  }

  /** "No transactions found" is an empty page, not an error, whatever the status. */
  lemma NoTransactionsIsEmptyPage(status: Option<string>)
    ensures Classify(Response(status, Some(NoTransactionsFound), None)) == Success([])
  {
  }
}
