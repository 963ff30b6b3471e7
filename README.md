# wowprogress scraper, modelled in Dafny

This models the WoW Progress scraper. The scraper collects the EU guilds that
have mythic (or heroic) progress in the raid tiers 35 down to 22 of the
wowprogress ranking. It then keeps the guilds whose own page names Finnish as
their primary language.

The repository holds three versions of the scraper, one per transport:

- `main.py` uses `requests` with cookies.
- `main_selenium.py` uses a Selenium browser.
- `main_cloudscraper.py` uses `cloudscraper`.

A fourth program, `combine_guilds.py`, merges two result files.

The three scraper versions share one model. `Records.Variant` selects where
they differ:

- which progress marker continues a crawl;
- whether a ranking page is requested with a referer;
- how often a fetch is retried;
- how a guild's own page is fetched.

Modules:

- `Records`: the values the scraper handles. A fetched page is reduced to its
  table rows, its `span.ratingProgress` elements and the text of its
  `div.language`. The web site is a function `Site` that gives the answer to
  the `k`-th attempt of a request.
- `Fetching`: `fetch_page`, a retry loop (`FetchPage`) proved against
  `FirstSuccess`.
- `Text`: the parts of Python's `str.strip`, `str.split(sep, 1)`, `in`,
  `upper` and `lower` that the scraper uses, and code-point string order.
- `Extraction`: `extract_guilds_from_page`. A loop over the rows is proved
  against `ExtractSpec`.
- `Progress`: `has_mythic_progress` and `has_heroic_progress`.
- `Crawl`: what `scrape_tier_guilds` computes as a function of the site:
  - the request for each page;
  - `StopPage`, where the crawl stops;
  - `Harvest`, the guilds it collects;
  - the checkpoint it leaves.

  `FiniteSite(site, bound)` says the site has no ranking page past `bound`.
  That is what makes the source's `while True` loop end.
- `Language`: `get_guild_language` and the Finnish filter as functions.
- `Distinct` and `Merge`: the `unique_guilds` dict of `main`, as keys in
  insertion order plus entries.
- `Pipeline`: what one run of `main` computes tier by tier:
  - the guilds of each tier;
  - the tier records and checkpoints left in the state files;
  - the merged list.
- `Scraper`: the programs themselves. Class `StateFiles` has one field per
  JSON state file. Its methods `ScrapeTierGuilds`, `FilterFinnishGuilds` and
  `RunMain` update those fields as the source updates the files, and each is
  proved against the functions above.
- `NameSort` and `Combine`: `combine_guild_files`. A loop fills the
  first-wins dict, and the stable sort by lower-cased name is an insertion
  sort.

In a few places a reader would plausibly expect the scraper to behave
differently from what its code does; the model follows the code:

- **A failed tier is stored as completed.** One would expect a tier whose
  crawl stops on a failed fetch to stay uncompleted and resume later.
  The code stores every crawled tier as `completed: True`, whatever stopped
  its crawl (`main.py:351-356`). `Pipeline.RecordsAfterAt` states this.
- **A resumed crawl loses the earlier pages.** One would expect resuming at
  `last_page + 1` (`main.py:343-349`) to reproduce the record set of an
  uninterrupted crawl. In the code, the resumed crawl returns only the guilds of the pages
  from the resume page on, and those are what gets stored.
  `Crawl.ResumeAfterCheckpoint` proves the uninterrupted crawl's guilds are
  the earlier pages' guilds followed by the resumed crawl's guilds. The
  stored record therefore lacks the earlier pages.
- **The final file is written when empty.** The filter rewrites the final
  file only after each Finnish guild. `main` then writes the result once
  more, even when it is empty (`main.py:371-374`).
- **`main` reads the tier-progress file once.** It reads the file at
  start-up to compute each tier's start page. `scrape_tier_guilds` reloads
  it before every checkpoint. In the model both read the same field, which
  only the crawl writes.

## Model

| member | source | states |
|---|---|---|
| Fetching.FirstSuccessSpec | wowprogress-scrapper/main.py:127-158 | the fetch gives nothing exactly when every one of the `retry_count` attempts fails; otherwise it gives the answer of an attempt that succeeded after all earlier ones failed |
| Fetching.FetchPage | wowprogress-scrapper/main_cloudscraper.py:47-69 | the retry loop returns the first successful attempt's page among `retry_count` attempts, and `None` after the last failure |
| Fetching.FetchOnceIsOneAttempt | wowprogress-scrapper/main_selenium.py:74-96 | the Selenium fetch is a retry loop with one attempt: it never retries |
| Progress.NoSpansNoProgress | wowprogress-scrapper/main.py:162-165 | a page without progress spans stops the crawl under both predicates, `HasMythicProgress` (`has_mythic_progress`) and `HasHeroicProgress` (`has_heroic_progress`) |
| Progress.OnlyLastSpanCounts | wowprogress-scrapper/main.py:167-173 | only the last progress span decides whether the crawl goes on, under `HasMythicProgress` and `HasHeroicProgress` alike |
| Progress.LastGuildWithoutMythicStops | wowprogress-scrapper/main.py:160-173 | a page whose last guild has no `(M)` in its `<b>` stops a mythic crawl, whatever the earlier guilds' progress |
| Progress.HeroicLastGuildStops | wowprogress-scrapper/main.py:160-173 | example: a page whose first guild has mythic progress and whose last guild has only heroic progress stops a mythic crawl |
| Progress.HeroicAndMythicDiffer | wowprogress-scrapper/main_cloudscraper.py:71-89 | the heroic predicate reads the whole span text for `(H)`, and the mythic one reads the `<b>` text for `(M)`; each accepts a page the other rejects |
| Extraction.ExtractGuildsFromPage | wowprogress-scrapper/main.py:175-224 | the row loop returns exactly `ExtractSpec` of the rows: each row's guild, if any, in row order |
| Extraction.KeptRowShape | wowprogress-scrapper/main.py:183-219 | a row that `RowGuild` (one row of `extract_guilds_from_page`) keeps has a guild anchor with a `<nobr>`, a realm anchor, and a stripped realm text `region-realm` split at its first `-`; the name, region and realm are the stripped parts, the region is `EU` in some letter case, and a missing `href` gives the url `""` |
| Extraction.RowSkippedIff | wowprogress-scrapper/main.py:180-224 | `RowGuild` skips a row exactly when it raises, lacks an anchor, lacks the `<nobr>`, has no `-` in its realm text, or its region is not `EU` in any letter case |
| Extraction.ExtractAppend | wowprogress-scrapper/main.py:181-222 | rows are handled independently: the guilds of two row lists are the guilds of each, in order |
| Extraction.SkippedRowIsTransparent | wowprogress-scrapper/main.py:221-223 | a row that raises or is skipped changes nothing, and later rows are still processed |
| Extraction.ExtractNoLonger | wowprogress-scrapper/main.py:175-224 | a page yields at most one guild per row |
| Extraction.ExtractMembers | wowprogress-scrapper/main.py:181-219 | a guild is in the output exactly when some row yields it |
| Extraction.RealmAfterFirstHyphen | wowprogress-scrapper/main.py:201-219 | the realm text is split at its first `-` only: for an EU region every further `-` stays in the realm (as in `EU-Azjol-Nerub`) |
| Extraction.OtherRegionDropped | wowprogress-scrapper/main.py:209-210 | a row whose region is not `EU` in any letter case is dropped, whatever its name, realm and link |
| Extraction.UsGuildDropped | wowprogress-scrapper/main.py:209-210 | example: the realm text `US-Illidan` yields no guild |
| Text.StripSpec | wowprogress-scrapper/main.py:189-207 | the stripped text is the text with exactly its leading and trailing whitespace removed |
| Text.SplitFirstSpec | wowprogress-scrapper/main.py:202-204 | splitting at the first separator finds it exactly when the text holds it; the part before then holds no separator, and the two parts and the separator make up the text |
| Text.UpperEqualsIff | wowprogress-scrapper/main.py:210 | for a word of ASCII letters such as `EU`, `upper()` equals the word exactly when the text spells it in some mixture of letter cases |
| Text.LowerEqualsIff | wowprogress-scrapper/main.py:300 | for a word of ASCII letters such as `finnish`, `lower()` equals the word exactly when the text spells it in some mixture of letter cases |
| Crawl.RefererChain | wowprogress-scrapper/main.py:235-238 | after the first page each request's referer is the previous request's url; the first names the page before the start page, or page -1; Selenium sends none |
| Crawl.StopPageSpec | wowprogress-scrapper/main.py:234-265 | every page before the stopping page arrived and continued; the stopping page failed to arrive or did not continue |
| Crawl.CrawlEndsAt | wowprogress-scrapper/main.py:239-255 | a page that fails or does not continue ends the crawl: the result is the earlier pages' guilds followed by that page's guilds (none when it failed), and the checkpoint names the page before it |
| Crawl.CrawlStopsAtFirstNonContinuingPage | wowprogress-scrapper/main.py:232-267 | in `CrawlFrom` (one call of `scrape_tier_guilds`), pages are visited from the start page with no gaps up to the first failed or non-continuing page; the stopping page's guilds are included; the stop reason is the failed fetch exactly when that page did not arrive |
| Crawl.CheckpointCountsPagesBeforeStop | wowprogress-scrapper/main.py:257-263 | a checkpoint is left exactly when some page continued; it names the last continuing page and the number of guilds collected up to it, so the stopping page is never checkpointed |
| Crawl.SameRequestsAfter | wowprogress-scrapper/main.py:235-238 | past the first page the request does not depend on where the crawl started |
| Crawl.ResumeStopsAtSamePage | wowprogress-scrapper/main.py:343-349 | a crawl resumed after a checkpointed page stops at the same page as the uninterrupted crawl |
| Crawl.ResumeAfterCheckpoint | wowprogress-scrapper/main.py:343-349 | a crawl resumed at `last_page + 1` stops at the same page for the same reason as the uninterrupted crawl, and returns only the guilds of the pages from the resume page on |
| Language.GetGuildLanguage | wowprogress-scrapper/main.py:269-286 | the language is `None` when the page cannot be fetched or the div is missing; otherwise it is the parse of the div's text. The guild page is POSTed with retries here, fetched once by the Selenium program (`main_selenium.py:189-204`) and with one GET by the `cloudscraper` program (`main_cloudscraper.py:173-193`) |
| Language.ParseLanguageSpec | wowprogress-scrapper/main.py:278-286 | a language is found exactly when the div exists and its text holds `:`; it is then the stripped text after the first `:` |
| Language.ParseLanguageAfterFirstColon | wowprogress-scrapper/main.py:281-284 | everything after the first `:`, further colons included, is the language, stripped |
| Language.ParseLanguageUsualFormat | wowprogress-scrapper/main.py:281-284 | `Primary Language: Finnish` gives `Finnish` |
| Language.ParseLanguageNoColon | wowprogress-scrapper/main.py:281-286 | any text without `:` names no language |
| Language.IsFinnishIff | wowprogress-scrapper/main.py:300 | a guild is kept exactly when its language is `finnish` in some letter case |
| Language.FinnishOnlyMembers | wowprogress-scrapper/main.py:288-312 | an output record is a guild of the input whose language is Finnish, without its url, and every such guild appears |
| Language.FinnishOnlyAppend | wowprogress-scrapper/main.py:296-310 | the guilds are judged one by one: filtering a concatenation filters each part |
| Language.FinnishOnlyPrefix | wowprogress-scrapper/main.py:302-308 | what the filter saved after any number of guilds is a prefix of its final result |
| Language.FinnishOnlyNoLonger | wowprogress-scrapper/main.py:288-312 | the filter never outputs more records than it is given |
| Merge.PutAllAppend | wowprogress-scrapper/main.py:332-361 | merging the tiers one after the other is merging their concatenation |
| Merge.PutAllKeys | wowprogress-scrapper/main.py:329-361 | the dict's keys are the first occurrences of the guilds' keys (name and realm joined by a bar), in order |
| Merge.PutAllLastWins | wowprogress-scrapper/main.py:358-361 | the guild stored under a key is the last guild written with that key |
| Merge.PutAllOtherKeys | wowprogress-scrapper/main.py:358-361 | a key no new guild has keeps its entry, or its absence |
| Merge.PutAllEntryOrigin | wowprogress-scrapper/main.py:358-361 | a stored guild was stored before or is one of the new guilds |
| Merge.ValuesHaveDistinctKeys | wowprogress-scrapper/main.py:366 | the list of the dict's values has no two guilds with the same name and realm |
| Merge.ValuesAreEntries | wowprogress-scrapper/main.py:366 | the values are exactly the stored guilds |
| Merge.MergedValues | wowprogress-scrapper/main.py:329-366 | the values of the filled dict have distinct keys, each comes from the input, and the last guild with each key is among them |
| Pipeline.MergedGuildsSpec | wowprogress-scrapper/main.py:329-366 | the merged list has no two guilds with the same name and realm; each of its guilds comes from some tier; of the guilds sharing a key, the one processed last (the lowest tier) is kept |
| Pipeline.TierStep | wowprogress-scrapper/main.py:336-356 | a tier stored as completed is read back unchanged; any other tier is crawled from its start page, stored as completed, and leaves its crawl's checkpoint |
| Pipeline.RecordsAfterAt | wowprogress-scrapper/main.py:351-356 | after the tier loop every tier from 35 down to 22 is stored as completed with exactly the guilds it contributed, even when its crawl stopped on a failed fetch; other tiers' records are unchanged |
| Pipeline.ProgressAfterAt | wowprogress-scrapper/main.py:343-356 | after the tier loop a crawled tier's checkpoint is the last its crawl wrote, if any; other checkpoints are unchanged |
| Pipeline.RerunUsesStoredGuilds | wowprogress-scrapper/main.py:336-342 | a run after a finished run finds every tier completed, crawls nothing, and merges the same guilds |
| Scraper.FetchRatingPage | wowprogress-scrapper/main.py:233-238 | a ranking page is fetched with the request `CrawlRequest` defines, through the program's own fetch: POSTed with a referer and retries here and in `main_cloudscraper.py:143-145`, visited once with no referer in `main_selenium.py:162-163` |
| Scraper.AddGuilds | wowprogress-scrapper/main.py:358-361 | the loop stores the tier's guilds one after the other |
| Scraper.StateFiles.Load | wowprogress-scrapper/main.py:325-326 | the state files as read at start-up |
| Scraper.StateFiles.CrawlPage | wowprogress-scrapper/main.py:233-255 | one pass of the page loop adds the page's guilds; if it stops, its result is the whole crawl's result and checkpoint |
| Scraper.StateFiles.ScrapeTierGuilds | wowprogress-scrapper/main.py:226-267 | the page loop returns the crawl's guilds; the tier-progress file ends with the crawl's last checkpoint for this tier, other tiers untouched. The same loop is in `main_selenium.py:154-187` (single attempts, no referer) and `main_cloudscraper.py:134-171` (continues on heroic progress) |
| Scraper.StateFiles.FilterFinnishGuilds | wowprogress-scrapper/main.py:288-312 | returns the Finnish guilds in input order without url; the final file holds the result, or is unchanged when no guild was Finnish. The same filter is in `main_selenium.py:206-229` and `main_cloudscraper.py:195-218` |
| Scraper.StateFiles.ProcessTier | wowprogress-scrapper/main.py:336-356 | one tier: a completed tier's stored guilds, or a crawl from the checkpoint's next page stored as completed |
| Scraper.StateFiles.MergeTier | wowprogress-scrapper/main.py:332-363 | one pass of the tier loop, including the merge of the tier's guilds |
| Scraper.StateFiles.CollectGuilds | wowprogress-scrapper/main.py:325-363 | after tiers 35 down to 22, the state files are `RecordsAfter` and `ProgressAfter`, and the dict holds all tiers' guilds merged |
| Scraper.StateFiles.UniqueGuilds | wowprogress-scrapper/main.py:366 | the dict's values are the merged list `MergedGuilds` |
| Scraper.StateFiles.RunMain | wowprogress-scrapper/main.py:314-378 | the run leaves the tier records and checkpoints that `Pipeline` describes, and the final file holds the Finnish guilds of the merged list, even when there are none. The same run is in `main_selenium.py:231-301` and `main_cloudscraper.py:220-278` |
| Combine.CombineGuildFiles | wowprogress-scrapper/combine_guilds.py:3-41 | the output is the first-wins dedup of both files, sorted by name; the duplicate count is never negative, and it is 0 exactly when no two input records share a key |
| Combine.FirstWins | wowprogress-scrapper/combine_guilds.py:20-26 | a record is kept exactly when it is the first with its `name-realm` key among `guilds + guilds_mythic` |
| Combine.FirstByKeyKeys | wowprogress-scrapper/combine_guilds.py:17-29 | every key of the input is kept, and no other |
| Combine.FirstByKeyDistinct | wowprogress-scrapper/combine_guilds.py:17-29 | the kept records have pairwise distinct keys |
| Combine.DroppedIff | wowprogress-scrapper/combine_guilds.py:41 | at most as many records are kept as read, and all are kept exactly when the input keys are distinct |
| Combine.KeyCollision | wowprogress-scrapper/combine_guilds.py:22 | `a-b` on realm `c` and `a` on realm `b-c` share the key `a-b-c`, so the second is dropped although the two guilds differ |
| Combine.CombinedSpec | wowprogress-scrapper/combine_guilds.py:17-32 | the combined list is ordered by lower-cased name; its keys are distinct; its records are exactly the first records of each key; its keys are exactly the input's keys; records with the same lower-cased name keep the order in which they were first seen |
| Combine.SortDistinct | wowprogress-scrapper/combine_guilds.py:32 | sorting keeps the keys distinct |
| NameSort.SortPermutes | wowprogress-scrapper/combine_guilds.py:32 | the sort is a permutation |
| NameSort.SortSorted | wowprogress-scrapper/combine_guilds.py:32 | the sort orders the records by lower-cased name, compared by code point |
| NameSort.SortStable | wowprogress-scrapper/combine_guilds.py:32 | the sort is stable: records with the same lower-cased name keep their order |

## Left out

- HTTP, browser and `cloudscraper` transport is not modelled: sessions, headers, cookie loading (`load_cookies_from_file`, `initialize_session`), Selenium driver setup and quit, and `WebDriverWait`. The site is a function from a request and an attempt number to a page or a failure.
- Sleeps and backoff are not modelled: the politeness delay, the longer wait after a 403, and the growing wait between attempts. Only the number of attempts matters to the result.
- HTML parsing is not modelled. BeautifulSoup's `find` and `find_all` matching is abstracted into the `Row`, `Span` and `Document` records. An exception while inspecting a row is the flag `Row.raises`.
- JSON persistence is not modelled (`ensure_state_dir`, `load_state`, `save_state`). Each file is a field of `StateFiles`, and assigning the field is saving the file. Tier keys `str(tier)` are integers, since `str` is injective on them. A file that does not parse is out of scope.
- Printing and progress output are not modelled, nor are the printed counts of `combine_guilds.py`. Its duplicate count is returned instead.
- The Selenium `wait_for_element` argument is not modelled. Waiting for an element is part of the single attempt the site answers.
- Case folding and whitespace are modelled only in part. `Lower` folds ASCII and the Latin-1 capitals, `Upper` only ASCII, and `IsSpace` is Python's ASCII whitespace. Python's full Unicode case mappings and its non-ASCII whitespace are not modelled.
- `Scraper.StateFiles.ScrapeTierGuilds`: the source loops `while True`. The model assumes the site has no ranking page past some `bound` (`FiniteSite`), so every crawl ends. A site that serves continuing pages forever is not modelled.
- `NameSort.SortByName`: `combined_guilds.sort` sorts the list in place with Python's library sort. It is modelled as a stable insertion sort on sequences, so the in-place update is not modelled.
- Each JSON file write is atomic in the model. A crash partway through a write is not modelled.
