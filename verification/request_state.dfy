/** The state of the one request a recipe may have in flight: still
    loading, answered, or failed. Times are integers in milliseconds; the
    current time is a parameter. */
module RequestStates {
  import Http

  datatype RequestState =
    | Loading(startTime: int)
    | Response(record: Http.Record)
    | Error(error: string, startTime: int, endTime: int)
  {
    predicate IsLoading() {
      Loading?
    }

    /** When the request was launched, whatever became of it. */
    function StartTime(): (t: int)
      ensures Loading? || Error? ==> t == startTime
      ensures Response? ==> t == record.startTime
    {
      match this
      case Loading(start) => start
      case Response(record) => record.startTime
      case Error(_, start, _) => start
    }

    /** How long the request took, or has been taking so far. */
    function Duration(now: int): (d: int)
      ensures Loading? ==> d == now - StartTime()
      ensures Response? ==> d == record.endTime - StartTime()
      ensures Error? ==> d == endTime - StartTime()
    {
      match this
      case Loading(start) => now - start
      case Response(record) => record.Duration()
      case Error(_, start, end) => end - start
    }
  }

  /** A finished request's duration no longer depends on the clock. */
  lemma FinishedDurationFixed(s: RequestState, now1: int, now2: int)
    requires !s.IsLoading()
    ensures s.Duration(now1) == s.Duration(now2)
  {
  }

  /** A request is loading exactly when its duration still moves with the
      clock. */
  lemma LoadingIffClockRuns(s: RequestState, now: int)
    ensures s.IsLoading() <==> s.Duration(now + 1) != s.Duration(now)
  {
  }

  /** A loading request's duration grows with the clock, by exactly the time
      that passed. */
  lemma LoadingDurationGrows(s: RequestState, now1: int, now2: int)
    requires s.IsLoading() && now1 <= now2
    ensures s.Duration(now1) <= s.Duration(now2)
    ensures s.Duration(now2) - s.Duration(now1) == now2 - now1
  {
  }
}
