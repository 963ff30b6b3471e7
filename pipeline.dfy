/** What one run of `main` computes, tier by tier: the guilds each tier
    contributes, the tier records and checkpoints it leaves in the state
    files, and the merged guild list it filters. */
module Pipeline {
  import opened Records
  import opened Crawl
  import opened Merge
  import opened Language

  /** The tiers are processed from `END_TIER` down to `START_TIER`. */
  const START_TIER: int := 22
  const END_TIER: int := 35

  /** One run of a program: which program, the site it talks to (with the
      last ranking page the site has) and the two state files as read at
      start-up. */
  datatype Run = Run(v: Variant, site: Site, bound: int,
                     records: map<int, TierRecord>, progress: map<int, Checkpoint>)

  ghost predicate ValidRun(run: Run) {
    FiniteSite(run.site, run.bound)
  }

  /** The page a tier's crawl starts at: one past the checkpointed page, -1
      without a checkpoint, 0 for a checkpoint that lacks `last_page`. */
  function StartPage(progress: map<int, Checkpoint>, tier: int): int {
    if tier in progress then progress[tier].lastPage.GetOr(-1) + 1 else -1
  }

  predicate IsCompleted(records: map<int, TierRecord>, tier: int) {
    tier in records && records[tier].completed
  }

  /** The crawl of a tier that is not yet completed. */
  function TierCrawl(run: Run, tier: int): CrawlOutcome
    requires ValidRun(run)
  {
    CrawlFrom(run.v, run.site, tier, StartPage(run.progress, tier), run.bound)
  }

  /** The guilds a tier contributes: the stored ones for a completed tier,
      otherwise the ones its crawl returns. */
  function TierGuilds(run: Run, tier: int): seq<Guild>
    requires ValidRun(run)
  {
    if IsCompleted(run.records, tier) then run.records[tier].guilds else TierCrawl(run, tier).guilds
  }

  /** The guilds of tiers `END_TIER` down to `lo`, in that order. */
  function AllTierGuilds(run: Run, lo: int): seq<Guild>
    requires ValidRun(run)
    decreases END_TIER + 1 - lo
  {
    if lo > END_TIER then [] else AllTierGuilds(run, lo + 1) + TierGuilds(run, lo)
  }

  /** The record a tier's processing stores, if any: none for a completed
      tier, otherwise the tier marked completed with the guilds its crawl
      returned. */
  function TierRecordStored(run: Run, tier: int): Option<TierRecord>
    requires ValidRun(run)
  {
    if IsCompleted(run.records, tier) then None else Some(TierRecord(true, TierCrawl(run, tier).guilds))
  }

  /** The tier records once tiers `END_TIER` down to `lo` are processed. */
  function RecordsAfter(run: Run, lo: int): map<int, TierRecord>
    requires ValidRun(run)
  {
    Overlay(run.records, t => TierRecordStored(run, t), lo)
  }

  /** The checkpoint a tier's processing leaves, if any: none for a completed
      tier, otherwise the last one its crawl wrote. */
  function TierCheckpoint(run: Run, tier: int): Option<Checkpoint>
    requires ValidRun(run)
  {
    if IsCompleted(run.records, tier) then None else TierCrawl(run, tier).checkpoint
  }

  /** `base` with the entries `written` gives for tiers `END_TIER` down to
      `lo` written over it, the lowest tier last: the state file once those
      tiers are processed. */
  function Overlay<V>(base: map<int, V>, written: int -> Option<V>, lo: int): map<int, V>
    decreases END_TIER + 1 - lo
  {
    if lo > END_TIER then base
    else
      var m := Overlay(base, written, lo + 1);
      match written(lo)
      case None => m
      case Some(x) => m[lo := x]
  }

  /** The checkpoints once tiers `END_TIER` down to `lo` are processed. */
  function ProgressAfter(run: Run, lo: int): map<int, Checkpoint>
    requires ValidRun(run)
  {
    Overlay(run.progress, t => TierCheckpoint(run, t), lo)
  }

  /** The state of `main` once tiers `END_TIER` down to `lo` are processed:
      the two state files and the dict of merged guilds. */
  ghost predicate Processed(run: Run, lo: int, records: map<int, TierRecord>,
                            progress: map<int, Checkpoint>, unique: GuildIndex)
    requires ValidRun(run)
  {
    && records == RecordsAfter(run, lo)
    && progress == ProgressAfter(run, lo)
    && unique == PutAll(Empty, AllTierGuilds(run, lo))
  }

  /** `list(unique_guilds.values())` once every tier is processed: the
      guilds of all tiers, `END_TIER` first, merged by name and realm. */
  function MergedGuilds(run: Run): seq<Guild>
    requires ValidRun(run)
  {
    var all := AllTierGuilds(run, START_TIER);
    PutAllKeys(Empty, all);
    Values(PutAll(Empty, all))
  }

  /** The merged list holds no two guilds with the same name and realm; each
      of its guilds is a guild of some tier; and of the guilds sharing a name
      and realm, the one processed last (the lowest tier) is the one kept. */
  lemma MergedGuildsSpec(run: Run, j: int)
    requires ValidRun(run)
    ensures var all, m := AllTierGuilds(run, START_TIER), MergedGuilds(run);
      && (forall a, b :: 0 <= a < b < |m| ==> MergeKey(m[a]) != MergeKey(m[b]))
      && (forall g :: g in m ==> g in all)
      && (0 <= j < |all| && (forall l :: j < l < |all| ==> MergeKey(all[l]) != MergeKey(all[j])) ==> all[j] in m)
  {
    var all := AllTierGuilds(run, START_TIER);
    MergedValues(all, j);
    assert MergedGuilds(run) == Values(PutAll(Empty, all));
  }

  /** Processing one more tier: a completed tier is read from the records as
      they were, which no later step has touched; any other tier is crawled,
      stored and checkpointed. */
  lemma TierStep(run: Run, tier: int)
    requires ValidRun(run)
    requires tier <= END_TIER
    ensures var r := RecordsAfter(run, tier + 1);
      && (tier in r && r[tier].completed <==> IsCompleted(run.records, tier))
      && (IsCompleted(run.records, tier) ==> r[tier] == run.records[tier])
    ensures RecordsAfter(run, tier) == if IsCompleted(run.records, tier) then RecordsAfter(run, tier + 1)
              else RecordsAfter(run, tier + 1)[tier := TierRecord(true, TierCrawl(run, tier).guilds)]
    ensures ProgressAfter(run, tier) == match TierCheckpoint(run, tier)
              case None => ProgressAfter(run, tier + 1)
              case Some(c) => ProgressAfter(run, tier + 1)[tier := c]
  {
    RecordsAfterAt(run, tier + 1, tier);
  }

  lemma TierGuildsStep(run: Run, tier: int)
    requires ValidRun(run)
    requires tier <= END_TIER
    ensures AllTierGuilds(run, tier) == AllTierGuilds(run, tier + 1) + TierGuilds(run, tier)
  {
  }

  /** After tiers `END_TIER` down to `lo` are processed, each of them is
      stored as completed with exactly the guilds it contributed, and the
      records of all other tiers are as they were read. A tier whose crawl
      failed on its first page is stored as completed too. */
  lemma RecordsAfterAt(run: Run, lo: int, t: int)
    requires ValidRun(run)
    ensures lo <= t <= END_TIER ==> t in RecordsAfter(run, lo) && RecordsAfter(run, lo)[t] == TierRecord(true, TierGuilds(run, t))
    ensures !(lo <= t <= END_TIER) ==>
      && (t in RecordsAfter(run, lo) <==> t in run.records)
      && (t in run.records ==> RecordsAfter(run, lo)[t] == run.records[t])
  {
    OverlayAt(run.records, t => TierRecordStored(run, t), lo, t);
  }

  /** A tier in `lo..END_TIER` for which something is written holds it;
      every other entry of `base` is as it was. */
  lemma {:induction false} OverlayAt<V>(base: map<int, V>, written: int -> Option<V>, lo: int, t: int)
    ensures var m, w := Overlay(base, written, lo), written(t);
      if lo <= t <= END_TIER && w.Some? then t in m && m[t] == w.value
      else (t in m <==> t in base) && (t in base ==> m[t] == base[t])
    decreases END_TIER + 1 - lo
  {
    if lo <= END_TIER {
      OverlayAt(base, written, lo + 1, t);
    }
  }

  /** After tiers `END_TIER` down to `lo` are processed, a crawled tier's
      checkpoint is the last one its crawl wrote, if it wrote any; other
      checkpoints are as they were read. */
  lemma ProgressAfterAt(run: Run, lo: int, t: int)
    requires ValidRun(run)
    ensures var p, c := ProgressAfter(run, lo), TierCheckpoint(run, t);
      if lo <= t <= END_TIER && c.Some? then t in p && p[t] == c.value
      else (t in p <==> t in run.progress) && (t in run.progress ==> p[t] == run.progress[t])
  {
    OverlayAt(run.progress, t => TierCheckpoint(run, t), lo, t);
  }

  /** The run that follows a finished run reads every tier as completed,
      fetches no ranking page, and merges exactly the same guilds. */
  lemma {:induction false} RerunUsesStoredGuilds(run: Run, progress: map<int, Checkpoint>, lo: int)
    requires ValidRun(run)
    requires START_TIER <= lo
    ensures var next := Run(run.v, run.site, run.bound, RecordsAfter(run, START_TIER), progress);
      && (forall t :: lo <= t <= END_TIER ==> IsCompleted(next.records, t))
      && AllTierGuilds(next, lo) == AllTierGuilds(run, lo)
    decreases END_TIER + 1 - lo
  {
    var next := Run(run.v, run.site, run.bound, RecordsAfter(run, START_TIER), progress);
    forall t | lo <= t <= END_TIER
      ensures IsCompleted(next.records, t) && TierGuilds(next, t) == TierGuilds(run, t)
    {
      RecordsAfterAt(run, START_TIER, t);
    }
    if lo <= END_TIER {
      RerunUsesStoredGuilds(run, progress, lo + 1);
    }
  }
}
