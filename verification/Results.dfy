/** Measurement results. */
module Results {
  import opened Wrappers

  type Duration = t: real | 0.0 < t witness 1.0

  datatype Transfer = Transfer(amount: int, duration: Duration)

  datatype ErrorType = ErrorMisc | ErrorCirc | ErrorStream | ErrorAuth | ErrorSecondRelay | ErrorDestination

  datatype Result =
    | ResultSuccess(fingerprint: string, time: real, downloads: seq<Transfer>,
                    averageBw: Option<int>, burstBw: Option<int>, observedBw: Option<int>)
    | ResultError(fingerprint: string, time: real, errorType: ErrorType)

  function IsSuccess(): Result -> bool { (r: Result) => r.ResultSuccess? }
}
