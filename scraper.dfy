/** The three scraper programs as one class over their state files:
    `scrape_tier_guilds`, `filter_finnish_guilds` and `main`. */
module Scraper {
  import opened Records
  import opened Fetching
  import opened Extraction
  import opened Progress
  import opened Crawl
  import opened Language
  import opened Merge
  import opened Pipeline

  /** The fetch at the head of each step of `scrape_tier_guilds`: the Selenium
      program navigates to the page once; the other two POST it with the
      previous page as referer, or the first referer on the first step,
      retrying. */
  method FetchRatingPage(v: Variant, site: Site, tier: int, start: int, page: int, prevUrl: Option<Url>)
    returns (soup: Option<Document>)
    requires prevUrl == if page == start then None else Some(RatingUrl(tier, page - 1))
    ensures soup == PageAt(v, site, tier, start, page)
  {
    var url := RatingUrl(tier, page);
    if v == Selenium {
      soup := FetchOnce(site, Request(Browser, url, None));
    } else {
      var referer := if prevUrl.Some? then prevUrl.value else FirstReferer(tier, page);
      soup := FetchPage(site, Request(PostAjax, url, Some(referer)), RETRY_COUNT);
    }
  }

  /** `for guild in guilds: unique_guilds[key] = guild`. */
  method AddGuilds(unique: GuildIndex, guilds: seq<Guild>) returns (merged: GuildIndex)
    ensures merged == PutAll(unique, guilds)
  {
    merged := unique;
    for i := 0 to |guilds|
      invariant merged == PutAll(unique, guilds[..i])
    {
      assert guilds[..i + 1][..i] == guilds[..i];
      merged := Put(merged, guilds[i]);
    }
    assert guilds[..|guilds|] == guilds;
  }

  /** The JSON state files, with tiers as integer keys: the tier-progress
      file, the guilds-with-mythic file and the final Finnish guilds file.
      Assigning a field is writing its file. */
  class StateFiles {
    var tierProgress: map<int, Checkpoint>
    var guildsWithMythic: map<int, TierRecord>
    var finnishGuilds: seq<FilteredGuild>

    /** The files as found on disk; a missing file reads as empty. */
    constructor Load(progress: map<int, Checkpoint>, records: map<int, TierRecord>, finnish: seq<FilteredGuild>)
      ensures tierProgress == progress && guildsWithMythic == records && finnishGuilds == finnish
    {
      tierProgress := progress;
      guildsWithMythic := records;
      finnishGuilds := finnish;
    }

    /** One pass of the loop of `scrape_tier_guilds` up to its decision:
        fetch the page; when it arrives, add its guilds; go on when its last
        guild still has progress. Whether the crawl stops here determines
        the whole crawl's outcome. */
    static method CrawlPage(v: Variant, site: Site, tier: int, start: int, page: int, prevUrl: Option<Url>,
                            ghost bound: int, guildsSoFar: seq<Guild>)
      returns (guilds: seq<Guild>, goOn: bool)
      requires FiniteSite(site, bound)
      requires start <= page <= StopPage(v, site, tier, start, start, bound)
      requires prevUrl == if page == start then None else Some(RatingUrl(tier, page - 1))
      requires guildsSoFar == Harvest(v, site, tier, start, start, page)
      ensures guilds == Harvest(v, site, tier, start, start, page + 1)
      ensures goOn ==> page < StopPage(v, site, tier, start, start, bound)
      ensures !goOn ==> var c := CrawlFrom(v, site, tier, start, bound);
        && c.guilds == guilds
        && c.checkpoint == if page == start then None else Some(Checkpoint(Some(page - 1), |guildsSoFar|))
    {
      guilds := guildsSoFar;
      var soup := FetchRatingPage(v, site, tier, start, page, prevUrl);
      if soup.None? {
        CrawlEndsAt(v, site, tier, start, page, bound);
        return guilds, false;
      }
      var found := ExtractGuildsFromPage(soup.value);
      guilds := guilds + found;
      goOn := Continues(v, soup.value);
      if goOn {
        CrawlGoesOn(v, site, tier, start, page, bound);
      } else {
        CrawlEndsAt(v, site, tier, start, page, bound);
      }
    }

    /** `scrape_tier_guilds`: crawl `tier` from `start` until a page fails to
        arrive or its last guild has no progress, checkpointing after every
        page that continues. Returns the guilds of every page that arrived;
        the tier-progress file ends with the last checkpoint written, if
        any. */
    method ScrapeTierGuilds(v: Variant, site: Site, tier: int, start: int, ghost bound: int)
      returns (guilds: seq<Guild>)
      requires FiniteSite(site, bound)
      modifies this`tierProgress
      ensures guilds == CrawlFrom(v, site, tier, start, bound).guilds
      ensures tierProgress == match CrawlFrom(v, site, tier, start, bound).checkpoint
                              case None => old(tierProgress)
                              case Some(c) => old(tierProgress)[tier := c]
    {
      ghost var stop := StopPage(v, site, tier, start, start, bound);
      StopPageSpec(v, site, tier, start, start, bound);
      ghost var initial := tierProgress;
      guilds := [];
      var page := start;
      var prevUrl: Option<Url> := None;
      while true
        invariant start <= page <= stop
        invariant guilds == Harvest(v, site, tier, start, start, page)
        invariant prevUrl == if page == start then None else Some(RatingUrl(tier, page - 1))
        invariant page == start ==> tierProgress == initial
        invariant page != start ==> tierProgress == initial[tier := Checkpoint(Some(page - 1), |guilds|)]
        decreases stop - page
      {
        var goOn;
        guilds, goOn := CrawlPage(v, site, tier, start, page, prevUrl, bound, guilds);
        if !goOn {
          break;
        }
        prevUrl := Some(RatingUrl(tier, page));
        tierProgress := tierProgress[tier := Checkpoint(Some(page), |guilds|)];
        page := page + 1;
      }
    }

    /** `filter_finnish_guilds`: look up each guild's language in order and
        keep the Finnish ones without their url. The final guilds file is
        rewritten after each Finnish guild, so it ends with the result unless
        no guild was Finnish, in which case it is left as it was. */
    method FilterFinnishGuilds(v: Variant, site: Site, guilds: seq<Guild>) returns (finnish: seq<FilteredGuild>)
      modifies this`finnishGuilds
      ensures finnish == FinnishOnly(v, site, guilds)
      ensures finnishGuilds == if finnish == [] then old(finnishGuilds) else finnish
    {
      finnish := [];
      for i := 0 to |guilds|
        invariant finnish == FinnishOnly(v, site, guilds[..i])
        invariant finnishGuilds == if finnish == [] then old(finnishGuilds) else finnish
      {
        assert guilds[..i + 1][..i] == guilds[..i];
        var language := GetGuildLanguage(v, site, guilds[i].url);
        if IsFinnish(language) {
          finnish := finnish + [Drop(guilds[i])];
          finnishGuilds := finnish;
        }
      }
      assert guilds[..|guilds|] == guilds;
    }

    /** One pass of the tier loop of `main`: a completed tier's stored guilds
        are read back; any other tier is crawled from the page after its
        checkpoint and stored as completed, whatever made its crawl stop. */
    method ProcessTier(v: Variant, site: Site, ghost run: Run, tier: int, progress: map<int, Checkpoint>)
      returns (guilds: seq<Guild>)
      requires ValidRun(run) && run.v == v && run.site == site && run.progress == progress
      requires tier <= END_TIER
      requires guildsWithMythic == RecordsAfter(run, tier + 1)
      requires tierProgress == ProgressAfter(run, tier + 1)
      modifies this`tierProgress, this`guildsWithMythic
      ensures guilds == TierGuilds(run, tier)
      ensures guildsWithMythic == RecordsAfter(run, tier)
      ensures tierProgress == ProgressAfter(run, tier)
    {
      TierStep(run, tier);
      if tier in guildsWithMythic && guildsWithMythic[tier].completed {
        guilds := guildsWithMythic[tier].guilds;
      } else {
        guilds := ScrapeTierGuilds(v, site, tier, StartPage(progress, tier), run.bound);
        guildsWithMythic := guildsWithMythic[tier := TierRecord(true, guilds)];
      }
    }

    /** One pass of the tier loop together with the merge of the tier's
        guilds into `unique_guilds`. */
    method MergeTier(v: Variant, site: Site, ghost run: Run, tier: int,
                     progress: map<int, Checkpoint>, unique: GuildIndex)
      returns (merged: GuildIndex)
      requires ValidRun(run) && run.v == v && run.site == site && run.progress == progress
      requires tier <= END_TIER
      requires Processed(run, tier + 1, guildsWithMythic, tierProgress, unique)
      modifies this`tierProgress, this`guildsWithMythic
      ensures Processed(run, tier, guildsWithMythic, tierProgress, merged)
    {
      var guilds := ProcessTier(v, site, run, tier, progress);
      TierGuildsStep(run, tier);
      PutAllAppend(Empty, AllTierGuilds(run, tier + 1), guilds);
      merged := AddGuilds(unique, guilds);
    }

    /** Step 1 of `main`: process tiers 35 down to 22 and merge all their
        guilds by name and realm into `unique_guilds`. */
    method CollectGuilds(v: Variant, site: Site, ghost bound: int) returns (unique: GuildIndex)
      requires FiniteSite(site, bound)
      modifies this`tierProgress, this`guildsWithMythic
      ensures var run := Run(v, site, bound, old(guildsWithMythic), old(tierProgress));
        && guildsWithMythic == RecordsAfter(run, START_TIER)
        && tierProgress == ProgressAfter(run, START_TIER)
        && unique == PutAll(Empty, AllTierGuilds(run, START_TIER))
    {
      ghost var run := Run(v, site, bound, guildsWithMythic, tierProgress);
      assert ValidRun(run);
      var progress := tierProgress;
      unique := Empty;
      var tier := END_TIER;
      while tier >= START_TIER
        invariant START_TIER - 1 <= tier <= END_TIER
        invariant Processed(run, tier + 1, guildsWithMythic, tierProgress, unique)
        decreases tier
      {
        unique := MergeTier(v, site, run, tier, progress, unique);
        tier := tier - 1;
      }
    }

    /** `list(unique_guilds.values())` once every tier is merged. */
    static method UniqueGuilds(ghost run: Run, unique: GuildIndex) returns (all: seq<Guild>)
      requires ValidRun(run)
      requires unique == PutAll(Empty, AllTierGuilds(run, START_TIER))
      ensures all == MergedGuilds(run)
    {
      PutAllKeys(Empty, AllTierGuilds(run, START_TIER));
      all := Values(unique);
    }

    /** `main`: step 1 and `list(unique_guilds.values())`, then step 2, the Finnish filter, whose result is
        saved at the end whether or not it is empty. */
    method RunMain(v: Variant, site: Site, ghost bound: int)
      requires FiniteSite(site, bound)
      modifies this
      ensures var run := Run(v, site, bound, old(guildsWithMythic), old(tierProgress));
        && guildsWithMythic == RecordsAfter(run, START_TIER)
        && tierProgress == ProgressAfter(run, START_TIER)
        && finnishGuilds == FinnishOnly(v, site, MergedGuilds(run))
    {
      var unique := CollectGuilds(v, site, bound);
      var allUnique := UniqueGuilds(Run(v, site, bound, old(guildsWithMythic), old(tierProgress)), unique);
      var finnish := FilterFinnishGuilds(v, site, allUnique);
      finnishGuilds := finnish;
    }
  }
}
