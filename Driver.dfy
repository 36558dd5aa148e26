/** Fetching a directory page (`scrape_page`), assembling one program's
    record (`get_residency_info`) and the scan over every directory id
    (`scrape`). The network is not modelled: what a request for an id brings
    back is a parameter. */
module Driver {
  import opened Text
  import opened Errors
  import opened Fields

  /** What `requests.get` does for one page. */
  datatype FetchOutcome =
    | Response(status: int, body: string)
    | Refused     // raises `requests.ConnectionError`
    | TimedOut    // raises `requests.exceptions.ReadTimeout`

  /** `httplib.OK`. */
  const HttpOk: int := 200

  /** The text by which the site reports a missing entry with a 200 status. */
  const NotAuthorized: string := "Not Authorized"

  /** One past the last directory id the scan visits. */
  const LastId: nat := 287

  /** `scrape_page`: the body of a 200 response that does not say "Not
      Authorized". A refused connection and any other status are scraping
      errors; the status is checked before the body, so an error page that
      says "Not Authorized" is still a scraping error. A read timeout is not
      caught and reaches the caller as it is. */
  function ScrapePage(outcome: FetchOutcome): (r: Result<string>)
    ensures r.Ok? <==> outcome.Response? && outcome.status == HttpOk && !Contains(outcome.body, NotAuthorized)
    ensures r.Ok? ==> r.value == outcome.body
    ensures outcome.Refused? ==> r == Err(ScrapingError(ConnectionFailed))
    ensures outcome.TimedOut? ==> r == Err(ReadTimeout)
    ensures outcome.Response? && outcome.status != HttpOk ==> r == Err(ScrapingError(BadStatus(outcome.status)))
    ensures outcome.Response? && outcome.status == HttpOk && Contains(outcome.body, NotAuthorized)
      ==> r == Err(AuthError)
  {
    match outcome
    case Refused => Err(ScrapingError(ConnectionFailed))
    case TimedOut => Err(ReadTimeout)
    case Response(status, body) =>
      if status != HttpOk then Err(ScrapingError(BadStatus(status)))
      else if Find(body, NotAuthorized).Some? then Err(AuthError)
      else Ok(body)
  }

  /** `get_residency_info`: the page, then every field parser on it. A
      failed fetch is the result; otherwise the record exists exactly when
      the page has the four sections it needs, and a missing section is a
      `ScrapingError` (a failure for the scan, not a skip). */
  function GetResidencyInfo(outcome: FetchOutcome): (r: Result<Record>)
    ensures ScrapePage(outcome).Err? ==> r == Err(ScrapePage(outcome).error)
    ensures r.Ok? <==> ScrapePage(outcome).Ok? && SectionsPresent(ScrapePage(outcome).value)
    ensures ScrapePage(outcome).Ok? && r.Err? ==> r.error.ScrapingError? && r.error.reason.ItemMissing?
    ensures ScrapePage(outcome).Ok? ==> r == ParsePage(ScrapePage(outcome).value)
    ensures r.Ok? ==> WellFormed(r.value)
  {
    var page :- ScrapePage(outcome);
    ParsePage(page)
  }

  /** A request that got through with a full page yields a record. */
  lemma PageToRecord(body: string)
    requires !Contains(body, NotAuthorized) && SectionsPresent(body)
    ensures GetResidencyInfo(Response(HttpOk, body)).Ok?
    ensures GetResidencyInfo(Response(HttpOk, body)) == ParsePage(body)
  {
  }

  // ---------------------------------------------------------------------
  // The scan, over what assembling each id's record gives

  /** The records of the ids in `lo .. hi - 1` that assemble, by ascending
      id: what `scrape` keeps. */
  function Successes(results: nat -> Result<Record>, lo: nat, hi: nat): seq<Record>
    decreases hi
  {
    if hi <= lo then []
    else
      match results(hi - 1)
      case Ok(info) => Successes(results, lo, hi - 1) + [info]
      case Err(_) => Successes(results, lo, hi - 1)
  }

  /** The ids whose records `Successes` keeps, in the same order. */
  function SuccessIds(results: nat -> Result<Record>, lo: nat, hi: nat): seq<nat>
    decreases hi
  {
    if hi <= lo then []
    else if results(hi - 1).Ok? then SuccessIds(results, lo, hi - 1) + [hi - 1]
    else SuccessIds(results, lo, hi - 1)
  }

  /** The k-th record kept is the record of the k-th id kept. */
  lemma {:induction false} SuccessesMatchIds(results: nat -> Result<Record>, lo: nat, hi: nat)
    ensures |Successes(results, lo, hi)| == |SuccessIds(results, lo, hi)|
    ensures forall k :: 0 <= k < |SuccessIds(results, lo, hi)| ==>
      results(SuccessIds(results, lo, hi)[k]) == Ok(Successes(results, lo, hi)[k])
    decreases hi
  {
    if hi > lo {
      SuccessesMatchIds(results, lo, hi - 1);
    }
  }

  /** An id is kept exactly when it is in range and its record assembles. */
  lemma {:induction false} SuccessIdsMembership(results: nat -> Result<Record>, lo: nat, hi: nat, id: nat)
    ensures id in SuccessIds(results, lo, hi) <==> lo <= id < hi && results(id).Ok?
    decreases hi
  {
    if hi > lo {
      SuccessIdsMembership(results, lo, hi - 1, id);
    }
  }

  /** The ids kept lie in the range and strictly ascend. */
  lemma {:induction false} SuccessIdsAscending(results: nat -> Result<Record>, lo: nat, hi: nat)
    ensures forall k :: 0 <= k < |SuccessIds(results, lo, hi)| ==> lo <= SuccessIds(results, lo, hi)[k] < hi
    ensures forall i, j :: 0 <= i < j < |SuccessIds(results, lo, hi)| ==>
      SuccessIds(results, lo, hi)[i] < SuccessIds(results, lo, hi)[j]
    decreases hi
  {
    if hi > lo {
      SuccessIdsAscending(results, lo, hi - 1);
    }
  }

  /** At most one record per id in the range. */
  lemma {:induction false} SuccessesBound(results: nat -> Result<Record>, lo: nat, hi: nat)
    ensures lo <= hi ==> |Successes(results, lo, hi)| <= hi - lo
    ensures hi <= lo ==> Successes(results, lo, hi) == []
    decreases hi
  {
    if hi > lo {
      SuccessesBound(results, lo, hi - 1);
    }
  }

  /** Records kept are well formed when every record that assembles is. */
  lemma {:induction false} SuccessesWellFormed(results: nat -> Result<Record>, lo: nat, hi: nat)
    requires forall id :: results(id).Ok? ==> WellFormed(results(id).value)
    ensures forall k :: 0 <= k < |Successes(results, lo, hi)| ==> WellFormed(Successes(results, lo, hi)[k])
    decreases hi
  {
    if hi > lo {
      SuccessesWellFormed(results, lo, hi - 1);
    }
  }

  /** `scrape`: every id from 1 up to, not including, `LastId`, fetched
      once; a record that assembles is appended, an `AuthError` or read
      timeout is a skip and a `ScrapingError` a failure, and neither is
      kept. */
  method Scrape(fetch: nat -> FetchOutcome) returns (all: seq<Record>)
    ensures all == Successes((id: nat) => GetResidencyInfo(fetch(id)), 1, LastId)
    ensures |all| <= LastId - 1
    ensures forall k :: 0 <= k < |all| ==> WellFormed(all[k])
  {
    ghost var results := (id: nat) => GetResidencyInfo(fetch(id));
    all := [];
    for id := 1 to LastId
      invariant all == Successes(results, 1, id)
    {
      match GetResidencyInfo(fetch(id))
      case Ok(info) =>
        all := all + [info];
      case Err(AuthError) =>        // skip
      case Err(ReadTimeout) =>      // skip
      case Err(ScrapingError(_)) => // failure
    }
    SuccessesBound(results, 1, LastId);
    forall id: nat | results(id).Ok?
      ensures WellFormed(results(id).value)
    {
      assert results(id) == GetResidencyInfo(fetch(id));
    }
    SuccessesWellFormed(results, 1, LastId);
  }
}
