/** Small value types shared by the whole model. */
module Common {

  /** A value that may be missing (a JSON key that is absent, an unset
      environment variable, Python's `None`). */
  datatype Option<+T> = None | Some(value: T) {
    function GetOr(default: T): T {
      match this
      case Some(v) => v
      case None => default
    }
  }

  /** The outcome of one upstream HTTP request, as seen by the caller of
      `requests.get(...)`, `raise_for_status()` and `resp.json()`: either the
      decoded body, or any exception raised on the way (connection error,
      timeout, non-2xx status, undecodable body). */
  datatype Upstream<+T> = Ok(body: T) | Failed

  /** How a call to one of the fetchers ends: it returns a value, or it raises
      the daily-limit error, or it raises because the upstream request failed. */
  datatype Fetched<+T> = Returned(value: T) | RateLimited | RequestFailed
}
