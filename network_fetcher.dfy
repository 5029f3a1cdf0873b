/** The decision the network fetcher makes when its data task finishes
    (Sources/DrosteSwift/Fetchers/NetworkFetcher.swift): from the transport
    error, the response and the received data, which events its `get`
    stream emits. */
module Network {
  import opened Results

  /** A transport error: the request was cancelled, or it failed otherwise
      (identified by its code). */
  datatype TransportError = Cancelled | Failure(code: int)

  /** The response object: an HTTP response with its status code and its
      expected content length (-1 when unknown), or some other kind. */
  datatype Response = NonHttp | Http(status: int, expectedLength: int)

  /** What the `get` stream emits. */
  datatype FetchOutcome =
    | Delivered(data: seq<bv8>)   // one value, then completion
    | CompletedEmpty              // completion without a value
    | Errored(error: CacheError)  // an error event
    | NoEvent                     // nothing at all

  /** `validate`: with a known expected length, the received data must be at
      least that long. */
  predicate Validate(expectedLength: int, data: seq<bv8>) {
    if expectedLength > -1 then |data| >= expectedLength else true
  }

  lemma ValidateMeaning(expectedLength: int, data: seq<bv8>)
    ensures Validate(expectedLength, data) <==> expectedLength < 0 || |data| >= expectedLength
  {
  }

  predicate IsSuccessStatus(status: int) {
    200 <= status < 300
  }

  /** The completion handler's branch chain. */
  function Classify(error: Option<TransportError>, response: Option<Response>, data: Option<seq<bv8>>): (o: FetchOutcome)
    ensures o.Delivered? <==>
              && error.None? && response.Some? && response.value.Http?
              && IsSuccessStatus(response.value.status)
              && data.Some? && Validate(response.value.expectedLength, data.value)
    ensures o.Delivered? ==> o.data == data.value
    ensures o.CompletedEmpty? <==> error == Some(Cancelled)
    ensures o.NoEvent? <==> error.None? && !(response.Some? && response.value.Http?)
  {
    match error
    case Some(Cancelled) => CompletedEmpty
    case Some(Failure(code)) => Errored(TransportFailed(code))
    case None =>
      match response
      case Some(Http(status, expectedLength)) =>
        if !IsSuccessStatus(status) then Errored(StatusCodeNotOk(status, data))
        else if data.Some? && !Validate(expectedLength, data.value) then Errored(InvalidNetworkResponse(status))
        else if data.Some? then Delivered(data.value)
        else Errored(NoDataRetrieved(status))
      case _ => NoEvent
  }

  /** Each error the fetcher raises, and exactly when it raises it: a
      transport error other than cancellation is passed on; a status outside
      200..<300 is reported with the data before the length is looked at; a
      short body is an invalid response; a missing body on success is no
      data. */
  lemma ClassifyErrors(error: Option<TransportError>, response: Option<Response>, data: Option<seq<bv8>>)
    ensures forall code :: error == Some(Failure(code)) ==> Classify(error, response, data) == Errored(TransportFailed(code))
    ensures error.None? && response.Some? && response.value.Http? ==>
              var r := response.value;
              && (!IsSuccessStatus(r.status) ==> Classify(error, response, data) == Errored(StatusCodeNotOk(r.status, data)))
              && (IsSuccessStatus(r.status) && data.Some? && !Validate(r.expectedLength, data.value) ==>
                    Classify(error, response, data) == Errored(InvalidNetworkResponse(r.status)))
              && (IsSuccessStatus(r.status) && data.None? ==>
                    Classify(error, response, data) == Errored(NoDataRetrieved(r.status)))
  {
  }

  /** Every completion leads to exactly one of: a value, an empty
      completion, an error, or, for a non-HTTP response without an error,
      no event at all, so that the stream never terminates. */
  lemma SilentOnlyWithoutHttpResponse(data: Option<seq<bv8>>)
    ensures Classify(None, Some(NonHttp), data) == NoEvent
    ensures Classify(None, None, data) == NoEvent
  {
  }
}
