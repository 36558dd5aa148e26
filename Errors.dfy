/** The scraper's failures, as values instead of exceptions. */
module Errors {

  /** Why a `ScrapingError` was raised. */
  datatype Reason =
    | ItemMissing(before: string, after: string)  // too few `before` delimiters
    | BadStatus(status: int)                      // an HTTP status other than 200 OK
    | ConnectionFailed                            // `requests.ConnectionError`

  datatype Failure =
    | ScrapingError(reason: Reason)
    | AuthError      // the page says "Not Authorized": usually no such entry
    | ReadTimeout    // `requests.exceptions.ReadTimeout`, which `scrape_page` lets through

  datatype Result<+T> = Ok(value: T) | Err(error: Failure) {
    predicate IsFailure() { Err? }

    function PropagateFailure<U>(): Result<U>
      requires Err?
    {
      Err(error)
    }

    function Extract(): T
      requires Ok?
    {
      value
    }
  }
}
