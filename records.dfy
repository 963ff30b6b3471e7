/** The values the scraper passes around: parsed pages reduced to what the
    scraper looks at, guild records, checkpoints and requests. */
module Records {

  datatype Option<+T> = None | Some(value: T) {
    function GetOr(default: T): T {
      match this
      case Some(v) => v
      case None => default
    }
  }

  /** The anchor whose class contains `guild`: the text of its `<nobr>`
      child, if it has one, and its `href` attribute, if it has one. */
  datatype GuildLink = GuildLink(nobr: Option<string>, href: Option<string>)

  /** One `<tr>` of a ranking page. `realmText` is the text of the anchor
      whose class is `realm`; `raises` marks a row whose inspection raises an
      exception, which the extractor catches. */
  datatype Row = Row(guildLink: Option<GuildLink>, realmText: Option<string>, raises: bool)

  /** One `span.ratingProgress`: the text of its first `<b>`, if any, and its
      whole text. */
  datatype Span = Span(bText: Option<string>, fullText: string)

  /** A fetched and parsed page: its table rows, its progress spans in
      document order, and the text of its `div.language`, if any. */
  datatype Document = Document(rows: seq<Row>, spans: seq<Span>, languageDiv: Option<string>)

  /** A guild found on a ranking page (`{name, realm, region, url}`). */
  datatype Guild = Guild(name: string, realm: string, region: string, url: string)

  /** A guild in the final output (`{name, realm, region}`). */
  datatype FilteredGuild = FilteredGuild(name: string, realm: string, region: string)

  /** One entry of the tier-progress file: `{last_page, guilds_count}`.
      `lastPage` is `None` for an entry that lacks `last_page`. */
  datatype Checkpoint = Checkpoint(lastPage: Option<int>, guildsCount: int)

  /** One entry of the guilds-with-mythic file: `{completed, guilds}`. */
  datatype TierRecord = TierRecord(completed: bool, guilds: seq<Guild>)

  /** How a page is requested: an AJAX form POST, a plain GET, or a browser
      navigation. */
  datatype Verb = PostAjax | Get | Browser

  /** `BASE_URL/pve/rating/next/{page}/rating.tier{tier}` and
      `BASE_URL{path}` for a guild's own page. */
  datatype Url = RatingUrl(tier: int, page: int) | GuildUrl(path: string)

  datatype Request = Request(verb: Verb, url: Url, referer: Option<Url>)

  /** The web site as the scraper sees it: the answer to the `k`-th attempt
      (counting from 0) of a request, `None` when that attempt raises. */
  type Site = (Request, nat) -> Option<Document>

  /** The three programs: plain `requests` with cookies, a Selenium browser,
      and `cloudscraper`. */
  datatype Variant = Requests | Selenium | Cloudscraper
}
