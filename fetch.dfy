/**
 * The retry policy of `stahni_data` and `zpracuj_vyjimku`. The network is
 * replaced by `get`: `get(k)` is what the k-th GET (counted from 0) gives.
 * The two-second pause between attempts is not modelled.
 */
module Fetching {
  import opened Errors

  /** Why one `requests.get(...)` plus `raise_for_status()` failed. */
  datatype RequestFailure = Timeout | OtherError(detail: string)

  /** What one attempt gives: the page, or the `RequestException` raised. */
  datatype Outcome<D> = Fetched(doc: D) | Failed(failure: RequestFailure)

  /** How `stahni_data` ends: with a response, by raising, or by falling out of the loop (`None`). */
  datatype FetchResult<D> = Response(doc: D) | Raised(error: Error) | NoResponse

  /** The result of a fetch together with the number of GETs it made. */
  datatype Run<D> = Run(result: FetchResult<D>, attempts: nat)

  /** What `zpracuj_vyjimku` does with a request error: raise, or return so the loop retries. */
  datatype Decision = Raise(error: Error) | Retry

  /** The default `max_pokusu` of `stahni_data` and of its callers. */
  const DefaultAttempts: int := 3

  /**
   * `zpracuj_vyjimku(e, pokus, max_pokusu, ...)`: a timeout becomes a
   * `ValidationError`; another request error is re-raised unchanged on the
   * last attempt and otherwise retried.
   */
  function HandleRequestError(e: RequestFailure, attempt: int, maxAttempts: int): (r: Decision) {
    match e
    case Timeout => Raise(ValidationError(TimedOut))
    case OtherError(detail) =>
      if attempt == maxAttempts - 1 then Raise(RequestError(detail)) else Retry
  }

  /** The loop of `stahni_data` from attempt `k` on: the reference definition of the policy. */
  function RetryFrom<D>(get: nat -> Outcome<D>, maxAttempts: int, k: nat): (r: Run<D>)
    decreases if k < maxAttempts then maxAttempts - k else 0
  {
    if maxAttempts <= k then Run(NoResponse, k)
    else match get(k)
      case Fetched(doc) => Run(Response(doc), k + 1)
      case Failed(e) =>
        match HandleRequestError(e, k, maxAttempts)
        case Raise(err) => Run(Raised(err), k + 1)
        case Retry => RetryFrom(get, maxAttempts, k + 1)
  }

  /** `stahni_data(url, max_pokusu)` with the server's behaviour given as `get`. */
  function Fetch<D>(get: nat -> Outcome<D>, maxAttempts: int): (r: Run<D>) {
    RetryFrom(get, maxAttempts, 0)
  }

  /** How the attempt that ended the loop decides the result. */
  ghost predicate LastAttemptDecides<D>(o: Outcome<D>, run: Run<D>, maxAttempts: int) {
    match o
    case Fetched(doc) => run.result == Response(doc)
    case Failed(Timeout) => run.result == Raised(ValidationError(TimedOut))
    case Failed(OtherError(detail)) =>
      run.attempts == maxAttempts && run.result == Raised(RequestError(detail))
  }

  /**
   * From attempt `k`, the loop makes GETs `k`, `k+1`, ... up to its last one;
   * every attempt but the last failed with a non-timeout error, and the last
   * decides the result. It never goes past `maxAttempts`.
   */
  lemma {:induction false} RetryFromFacts<D>(get: nat -> Outcome<D>, maxAttempts: int, k: nat)
    ensures var run := RetryFrom(get, maxAttempts, k);
      && (maxAttempts <= k ==> run == Run(NoResponse, k))
      && (k < maxAttempts ==>
            && k < run.attempts <= maxAttempts
            && (forall j | k <= j < run.attempts - 1 :: get(j).Failed? && get(j).failure.OtherError?)
            && LastAttemptDecides(get(run.attempts - 1), run, maxAttempts))
    decreases if k < maxAttempts then maxAttempts - k else 0
  {
    if k < maxAttempts && get(k).Failed? && get(k).failure.OtherError? && k != maxAttempts - 1 {
      RetryFromFacts(get, maxAttempts, k + 1);
    }
  }

  /** With `max_pokusu <= 0` no GET is made and `None` is returned. */
  lemma NoAttempts<D>(get: nat -> Outcome<D>, maxAttempts: int)
    requires maxAttempts <= 0
    ensures Fetch(get, maxAttempts) == Run(NoResponse, 0)
  {
  }

  /** The first successful attempt returns its page at once. */
  lemma FirstSuccessReturns<D>(get: nat -> Outcome<D>, maxAttempts: int, j: nat)
    requires j < maxAttempts && get(j).Fetched?
    requires forall i | 0 <= i < j :: get(i).Failed? && get(i).failure.OtherError?
    ensures Fetch(get, maxAttempts) == Run(Response(get(j).doc), j + 1)
  {
    RetryFromFacts(get, maxAttempts, 0);
  }

  /** A timeout on any attempt ends the fetch with a `ValidationError`, with no further attempt. */
  lemma TimeoutIsFatal<D>(get: nat -> Outcome<D>, maxAttempts: int, j: nat)
    requires j < maxAttempts && get(j) == Failed(Timeout)
    requires forall i | 0 <= i < j :: get(i).Failed? && get(i).failure.OtherError?
    ensures Fetch(get, maxAttempts) == Run(Raised(ValidationError(TimedOut)), j + 1)
  {
    RetryFromFacts(get, maxAttempts, 0);
  }

  /** When every attempt fails otherwise, all `max_pokusu` are made and the last error is re-raised. */
  lemma LastErrorReraised<D>(get: nat -> Outcome<D>, maxAttempts: int)
    requires 0 < maxAttempts
    requires forall i | 0 <= i < maxAttempts :: get(i).Failed? && get(i).failure.OtherError?
    ensures Fetch(get, maxAttempts)
         == Run(Raised(RequestError(get(maxAttempts - 1).failure.detail)), maxAttempts)
  {
    RetryFromFacts(get, maxAttempts, 0);
  }

  /** The loop of `stahni_data`, attempt by attempt; `attempts` counts the GETs made. */
  method Download<D>(get: nat -> Outcome<D>, maxAttempts: int) returns (r: FetchResult<D>, ghost attempts: nat)
    ensures Run(r, attempts) == Fetch(get, maxAttempts)
    ensures attempts <= maxAttempts || attempts == 0
  {
    RetryFromFacts(get, maxAttempts, 0);
    var attempt := 0;
    while attempt < maxAttempts
      invariant 0 <= attempt && (attempt <= maxAttempts || attempt == 0)
      invariant Fetch(get, maxAttempts) == RetryFrom(get, maxAttempts, attempt)
      decreases maxAttempts - attempt
    {
      match get(attempt)
      case Fetched(doc) =>
        return Response(doc), attempt + 1;
      case Failed(e) =>
        var decision := HandleRequestError(e, attempt, maxAttempts);
        if decision.Raise? {
          return Raised(decision.error), attempt + 1;
        }
      attempt := attempt + 1;
    }
    return NoResponse, attempt;
  }
}
