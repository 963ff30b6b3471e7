/** What `scrape_tier_guilds` computes, stated as functions of the site: the
    request for each page, the page at which the crawl stops, the guilds it
    collects and the checkpoint it leaves behind. */
module Crawl {
  import opened Records
  import opened Fetching
  import opened Extraction
  import opened Progress

  /** The crawl goes on after a page when its last guild still has progress
      of the kind the program looks for: heroic for the `cloudscraper`
      program, mythic for the other two. */
  predicate Continues(v: Variant, doc: Document) {
    if v == Cloudscraper then HasHeroicProgress(doc.spans) else HasMythicProgress(doc.spans)
  }

  /** The referer of the first request of a crawl that starts at `start`:
      the previous page, or page -1 itself when the crawl starts at -1 or
      below. */
  function FirstReferer(tier: int, start: int): Url {
    RatingUrl(tier, if start > -1 then start - 1 else -1)
  }

  /** The request for `page` of a crawl of `tier` that started at `start`.
      The Selenium program navigates without a referer; the other two POST
      with the previous page's url as referer. */
  function CrawlRequest(v: Variant, tier: int, start: int, page: int): Request {
    if v == Selenium then Request(Browser, RatingUrl(tier, page), None)
    else Request(PostAjax, RatingUrl(tier, page),
                 Some(if page == start then FirstReferer(tier, start) else RatingUrl(tier, page - 1)))
  }

  /** The POSTing programs name the previous request's url as referer after
      the first page; the first request names the page before `start`, or
      page -1 when the crawl starts at -1 or below. The Selenium program
      sends none. */
  lemma RefererChain(v: Variant, tier: int, start: int, page: int)
    ensures v == Selenium ==> CrawlRequest(v, tier, start, page).referer.None?
    ensures v != Selenium && page != start ==>
      CrawlRequest(v, tier, start, page).referer == Some(CrawlRequest(v, tier, start, page - 1).url)
    ensures v != Selenium && page == start ==>
      CrawlRequest(v, tier, start, page).referer == Some(RatingUrl(tier, if start > -1 then start - 1 else -1))
  {
  }

  /** How each program fetches a ranking page. */
  function FetchRating(v: Variant, site: Site, req: Request): Option<Document> {
    if v == Selenium then FetchOnce(site, req) else FirstSuccess(site, req, 0, RETRY_COUNT)
  }

  function PageAt(v: Variant, site: Site, tier: int, start: int, page: int): Option<Document> {
    FetchRating(v, site, CrawlRequest(v, tier, start, page))
  }

  /** The page arrives and the crawl goes on after it. */
  predicate Proceeds(v: Variant, site: Site, tier: int, start: int, page: int) {
    var d := PageAt(v, site, tier, start, page);
    d.Some? && Continues(v, d.value)
  }

  /** The site has no ranking page beyond `bound`: every attempt at one fails.
      This is what makes the source's unbounded loop end. */
  ghost predicate FiniteSite(site: Site, bound: int) {
    forall r: Request, k: nat {:trigger Beyond(r, k, bound)} :: Beyond(r, k, bound) ==> site(r, k).None?
  }

  /** Attempt `k` of `r` asks for a ranking page past `bound`. */
  predicate Beyond(r: Request, k: nat, bound: int) {
    r.url.RatingUrl? && r.url.page > bound
  }

  /** A crawl never proceeds past the last page the site has. */
  lemma NoPageBeyond(v: Variant, site: Site, tier: int, start: int, page: int, bound: int)
    requires FiniteSite(site, bound)
    ensures page > bound ==> PageAt(v, site, tier, start, page).None?
  {
    var req := CrawlRequest(v, tier, start, page);
    if page > bound {
      forall a: nat ensures site(req, a).None? {
        assert Beyond(req, a, bound);
      }
      FirstSuccessSpec(site, req, 0, RETRY_COUNT);
    }
  }

  /** The first page at or after `page` at which the crawl stops. */
  function StopPage(v: Variant, site: Site, tier: int, start: int, page: int, bound: int): int
    requires FiniteSite(site, bound)
    decreases bound + 1 - page
  {
    NoPageBeyond(v, site, tier, start, page, bound);
    if Proceeds(v, site, tier, start, page) then StopPage(v, site, tier, start, page + 1, bound)
    else page
  }

  /** Every page before the stopping page arrived and continued; the
      stopping page failed to arrive or did not continue. */
  lemma {:induction false} StopPageSpec(v: Variant, site: Site, tier: int, start: int, page: int, bound: int)
    requires FiniteSite(site, bound)
    ensures var stop := StopPage(v, site, tier, start, page, bound);
      && page <= stop
      && (forall p :: page <= p < stop ==> Proceeds(v, site, tier, start, p))
      && !Proceeds(v, site, tier, start, stop)
    decreases bound + 1 - page
  {
    NoPageBeyond(v, site, tier, start, page, bound);
    if Proceeds(v, site, tier, start, page) {
      StopPageSpec(v, site, tier, start, page + 1, bound);
    }
  }

  /** The guilds of a fetched page; a failed fetch contributes nothing. */
  function PageGuilds(d: Option<Document>): seq<Guild> {
    match d
    case None => []
    case Some(doc) => ExtractSpec(doc.rows)
  }

  /** The guilds of pages `lo .. hi - 1` in page order, given the guilds of
      each page. */
  function Concat(guildsOf: int -> seq<Guild>, lo: int, hi: int): seq<Guild>
    decreases hi - lo
  {
    if hi <= lo then [] else Concat(guildsOf, lo, hi - 1) + guildsOf(hi - 1)
  }

  /** The guilds of consecutive page ranges concatenate. */
  lemma {:induction false} ConcatSplit(guildsOf: int -> seq<Guild>, a: int, b: int, c: int)
    requires a <= b <= c
    ensures Concat(guildsOf, a, c) == Concat(guildsOf, a, b) + Concat(guildsOf, b, c)
    decreases c - b
  {
    if b < c {
      ConcatSplit(guildsOf, a, b, c - 1);
    }
  }

  /** Pages with the same guilds give the same concatenation. */
  lemma {:induction false} ConcatSame(f: int -> seq<Guild>, g: int -> seq<Guild>, lo: int, hi: int)
    requires forall p :: lo <= p < hi ==> f(p) == g(p)
    ensures Concat(f, lo, hi) == Concat(g, lo, hi)
    decreases hi - lo
  {
    if lo < hi {
      ConcatSame(f, g, lo, hi - 1);
    }
  }

  /** The guilds of pages `lo .. hi - 1` of a crawl that started at `start`,
      in page order. */
  function Harvest(v: Variant, site: Site, tier: int, start: int, lo: int, hi: int): seq<Guild> {
    Concat(p => PageGuilds(PageAt(v, site, tier, start, p)), lo, hi)
  }

  datatype StopReason = FetchFailed | NoMoreProgress

  /** The result of one call of `scrape_tier_guilds`, and the checkpoint it
      last wrote (`None` when it wrote none). */
  datatype CrawlOutcome = CrawlOutcome(guilds: seq<Guild>, stopPage: int, reason: StopReason,
                                       checkpoint: Option<Checkpoint>)

  /** The crawl of `tier` from `start`: the guilds of every page up to and
      including the stopping page, and a checkpoint after every page that
      continued, the last of which names the page before the stopping page. */
  function CrawlFrom(v: Variant, site: Site, tier: int, start: int, bound: int): CrawlOutcome
    requires FiniteSite(site, bound)
  {
    var stop := StopPage(v, site, tier, start, start, bound);
    CrawlOutcome(
      Harvest(v, site, tier, start, start, stop + 1),
      stop,
      if PageAt(v, site, tier, start, stop).None? then FetchFailed else NoMoreProgress,
      if stop == start then None
      else Some(Checkpoint(Some(stop - 1), |Harvest(v, site, tier, start, start, stop)|)))
  }

  /** A page before or at the stopping page that continues lies before it. */
  lemma CrawlGoesOn(v: Variant, site: Site, tier: int, start: int, page: int, bound: int)
    requires FiniteSite(site, bound)
    requires start <= page <= StopPage(v, site, tier, start, start, bound)
    requires Proceeds(v, site, tier, start, page)
    ensures page < StopPage(v, site, tier, start, start, bound)
  {
    StopPageSpec(v, site, tier, start, start, bound);
  }

  /** A page up to the stopping page that does not continue is the stopping
      page: the crawl's guilds end with its guilds, and its checkpoint names
      the page before it. */
  lemma CrawlEndsAt(v: Variant, site: Site, tier: int, start: int, page: int, bound: int)
    requires FiniteSite(site, bound)
    requires start <= page <= StopPage(v, site, tier, start, start, bound)
    requires !Proceeds(v, site, tier, start, page)
    ensures var c := CrawlFrom(v, site, tier, start, bound);
      && c.stopPage == page
      && c.guilds == Harvest(v, site, tier, start, start, page) + PageGuilds(PageAt(v, site, tier, start, page))
      && c.checkpoint == if page == start then None
                         else Some(Checkpoint(Some(page - 1), |Harvest(v, site, tier, start, start, page)|))
  {
    StopPageSpec(v, site, tier, start, start, bound);
  }

  lemma HarvestSplit(v: Variant, site: Site, tier: int, start: int, a: int, b: int, c: int)
    requires a <= b <= c
    ensures Harvest(v, site, tier, start, a, c)
         == Harvest(v, site, tier, start, a, b) + Harvest(v, site, tier, start, b, c)
  {
    ConcatSplit(p => PageGuilds(PageAt(v, site, tier, start, p)), a, b, c);
  }

  /** The stopping page contributes its guilds when it arrived (its last
      guild had no progress) and nothing when its fetch failed; every
      earlier page arrived and continued. */
  lemma CrawlStopsAtFirstNonContinuingPage(v: Variant, site: Site, tier: int, start: int, bound: int)
    requires FiniteSite(site, bound)
    ensures var c := CrawlFrom(v, site, tier, start, bound);
      && start <= c.stopPage
      && (forall p :: start <= p < c.stopPage ==> Proceeds(v, site, tier, start, p))
      && (c.reason == FetchFailed <==> PageAt(v, site, tier, start, c.stopPage).None?)
      && (c.reason == NoMoreProgress ==> !Continues(v, PageAt(v, site, tier, start, c.stopPage).value))
      && c.guilds == Harvest(v, site, tier, start, start, c.stopPage)
                     + PageGuilds(PageAt(v, site, tier, start, c.stopPage))
  {
    StopPageSpec(v, site, tier, start, start, bound);
  }

  /** The checkpoint's count is the number of guilds on the pages up to and
      including the one it names, which is all of them but the stopping
      page's. */
  lemma CheckpointCountsPagesBeforeStop(v: Variant, site: Site, tier: int, start: int, bound: int)
    requires FiniteSite(site, bound)
    ensures var c := CrawlFrom(v, site, tier, start, bound);
      c.checkpoint.Some? <==> start < c.stopPage
    ensures var c := CrawlFrom(v, site, tier, start, bound);
      c.checkpoint.Some? ==>
        && c.checkpoint.value.lastPage == Some(c.stopPage - 1)
        && Proceeds(v, site, tier, start, c.stopPage - 1)
        && c.checkpoint.value.guildsCount
           == |c.guilds| - |PageGuilds(PageAt(v, site, tier, start, c.stopPage))|
  {
    StopPageSpec(v, site, tier, start, start, bound);
  }

  /** From page `start + 1` on, the requests of a crawl do not depend on where
      it started, provided the restart point's first referer is the page
      before it. */
  lemma SameRequestsAfter(v: Variant, tier: int, s1: int, s2: int, p: int)
    requires s1 < s2 <= p
    requires v == Selenium || s2 > -1
    ensures CrawlRequest(v, tier, s1, p) == CrawlRequest(v, tier, s2, p)
  {
  }

  lemma HarvestSameAfter(v: Variant, site: Site, tier: int, s1: int, s2: int, lo: int, hi: int)
    requires s1 < s2 <= lo
    requires v == Selenium || s2 > -1
    ensures Harvest(v, site, tier, s1, lo, hi) == Harvest(v, site, tier, s2, lo, hi)
  {
    var f := p => PageGuilds(PageAt(v, site, tier, s1, p));
    var g := p => PageGuilds(PageAt(v, site, tier, s2, p));
    forall p | lo <= p < hi
      ensures f(p) == g(p)
    {
      SameRequestsAfter(v, tier, s1, s2, p);
    }
    ConcatSame(f, g, lo, hi);
  }

  lemma {:induction false} StopPageSameAfter(v: Variant, site: Site, tier: int, s1: int, s2: int, page: int, bound: int)
    requires FiniteSite(site, bound)
    requires s1 < s2 <= page
    requires v == Selenium || s2 > -1
    ensures StopPage(v, site, tier, s1, page, bound) == StopPage(v, site, tier, s2, page, bound)
    decreases bound + 1 - page
  {
    SameRequestsAfter(v, tier, s1, s2, page);
    NoPageBeyond(v, site, tier, s1, page, bound);
    if Proceeds(v, site, tier, s1, page) {
      StopPageSameAfter(v, site, tier, s1, s2, page + 1, bound);
    }
  }

  /** Once every page in `page .. q - 1` has continued, the crawl stops where
      it would have stopped starting from `q`. */
  lemma {:induction false} StopPageSkip(v: Variant, site: Site, tier: int, start: int, page: int, q: int, bound: int)
    requires FiniteSite(site, bound)
    requires page <= q
    requires forall p :: page <= p < q ==> Proceeds(v, site, tier, start, p)
    ensures StopPage(v, site, tier, start, page, bound) == StopPage(v, site, tier, start, q, bound)
    decreases q - page
  {
    if page < q {
      StopPageSkip(v, site, tier, start, page + 1, q, bound);
    }
  }

  lemma ResumeStopsAtSamePage(v: Variant, site: Site, tier: int, start: int, k: int, bound: int)
    requires FiniteSite(site, bound)
    requires start <= k < StopPage(v, site, tier, start, start, bound)
    requires v == Selenium || k >= -1
    ensures StopPage(v, site, tier, k + 1, k + 1, bound) == StopPage(v, site, tier, start, start, bound)
  {
    StopPageSpec(v, site, tier, start, start, bound);
    StopPageSkip(v, site, tier, start, start, k + 1, bound);
    StopPageSameAfter(v, site, tier, start, k + 1, k + 1, bound);
  }

  lemma ResumeHarvestsSuffix(v: Variant, site: Site, tier: int, start: int, k: int, stop: int)
    requires start <= k < stop
    requires v == Selenium || k >= -1
    ensures Harvest(v, site, tier, start, start, stop + 1)
         == Harvest(v, site, tier, start, start, k + 1) + Harvest(v, site, tier, k + 1, k + 1, stop + 1)
    ensures PageAt(v, site, tier, k + 1, stop) == PageAt(v, site, tier, start, stop)
  {
    HarvestSplit(v, site, tier, start, start, k + 1, stop + 1);
    HarvestSameAfter(v, site, tier, start, k + 1, k + 1, stop + 1);
    SameRequestsAfter(v, tier, start, k + 1, stop);
  }

  /** Resuming after a checkpoint of page `k` (start page `k + 1`) requests the
      same pages, stops at the same page for the same reason, and returns
      exactly the guilds the uninterrupted crawl found after page `k`; the
      guilds of pages `start .. k` are not returned again. A requested page
      must be at least -1 for the POSTing programs, whose first referer
      differs below -1. */
  lemma ResumeAfterCheckpoint(v: Variant, site: Site, tier: int, start: int, k: int, bound: int)
    requires FiniteSite(site, bound)
    requires start <= k < CrawlFrom(v, site, tier, start, bound).stopPage
    requires v == Selenium || k >= -1
    ensures var whole, resumed := CrawlFrom(v, site, tier, start, bound), CrawlFrom(v, site, tier, k + 1, bound);
      && resumed.stopPage == whole.stopPage
      && resumed.reason == whole.reason
      && whole.guilds == Harvest(v, site, tier, start, start, k + 1) + resumed.guilds
  {
    ResumeStopsAtSamePage(v, site, tier, start, k, bound);
    ResumeHarvestsSuffix(v, site, tier, start, k, StopPage(v, site, tier, start, start, bound));
  }
}
