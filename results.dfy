/** Outcome types shared by every cache in the library: an optional value,
    the errors the library and its backends raise, and a result that carries
    either a value or one of those errors. */
module Results {

  datatype Option<+T> = None | Some(value: T)

  /** Every error that can travel through a pipeline. Swift's `Error` is an
      open protocol; the library raises the first six, `ForcedCastFailed`
      stands for a failing `as!` cast (a run-time trap in Swift), and `Custom`
      for any error thrown by a user-supplied closure or a backend. */
  datatype CacheError =
    | ValueNotFound                                          // CacheFetchError.valueNotFound
    | DiskSaveFailed                                         // DrosteDiskError.diskSaveFailed
    | StatusCodeNotOk(status: int, data: Option<seq<bv8>>)   // NetworkFetcherError.statusCodeNotOk
    | InvalidNetworkResponse(status: int)                    // NetworkFetcherError.invalidNetworkResponse
    | NoDataRetrieved(status: int)                           // NetworkFetcherError.noDataRetrieved
    | TransportFailed(code: int)                             // a URLError other than cancellation
    | ForcedCastFailed
    | Custom(code: int)

  /** The terminal outcome of one asynchronous operation: one element, or an error. */
  datatype Result<+T> = Ok(value: T) | Fail(error: CacheError)

  /** Chains two fallible steps: the second runs only on the first one's value. */
  function Then<A, B>(r: Result<A>, f: A -> Result<B>): (s: Result<B>)
    ensures r.Fail? ==> s == Fail(r.error)
    ensures r.Ok? ==> s == f(r.value)
  {
    match r
    case Ok(a) => f(a)
    case Fail(e) => Fail(e)
  }
}
