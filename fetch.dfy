/** `fetch_page`: one request, retried a bounded number of times. */
module Fetching {
  import opened Records

  /** The default `retry_count` of `fetch_page`. */
  const RETRY_COUNT: int := 3

  /** The answer of the first attempt in `from .. count - 1` that succeeds. */
  function FirstSuccess(site: Site, req: Request, from: nat, count: int): Option<Document>
    decreases count - from
  {
    if from >= count then None
    else if site(req, from).Some? then site(req, from)
    else FirstSuccess(site, req, from + 1, count)
  }

  /** `FirstSuccess` fails exactly when every attempt in the window fails;
      otherwise it is the answer of an attempt that succeeded after all
      earlier ones failed. */
  lemma {:induction false} FirstSuccessSpec(site: Site, req: Request, from: nat, count: int)
    ensures var r := FirstSuccess(site, req, from, count);
      && (r.None? <==> forall a: nat :: from <= a < count ==> site(req, a).None?)
      && (r.Some? ==> exists a: nat :: from <= a < count && site(req, a) == r
                        && forall b: nat :: from <= b < a ==> site(req, b).None?)
    decreases count - from
  {
    if from < count && site(req, from).None? {
      FirstSuccessSpec(site, req, from + 1, count);
    }
  }

  /** `fetch_page` of the `requests` and `cloudscraper` programs: up to
      `retryCount` attempts, returning the first page that arrives and `None`
      once the last attempt has failed (a non-positive count makes none). */
  method FetchPage(site: Site, req: Request, retryCount: int) returns (doc: Option<Document>)
    ensures doc == FirstSuccess(site, req, 0, retryCount)
  {
    var attempt: nat := 0;
    while attempt < retryCount
      invariant attempt == 0 || attempt <= retryCount
      invariant FirstSuccess(site, req, attempt, retryCount) == FirstSuccess(site, req, 0, retryCount)
      decreases retryCount - attempt
    {
      var response := site(req, attempt);
      if response.Some? {
        return response;
      }
      attempt := attempt + 1;
    }
    return None;
  }

  /** `fetch_page` of the Selenium program: a single attempt. */
  function FetchOnce(site: Site, req: Request): Option<Document> {
    site(req, 0)
  }

  /** A single attempt is a retry loop with a count of one: the Selenium
      fetch never retries. */
  lemma FetchOnceIsOneAttempt(site: Site, req: Request)
    ensures FetchOnce(site, req) == FirstSuccess(site, req, 0, 1)
  {
  }
}
