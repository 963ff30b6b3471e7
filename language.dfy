/** `get_guild_language` and the language test of `filter_finnish_guilds`. */
module Language {
  import opened Text
  import opened Records
  import opened Fetching

  /** The language named by a `div.language` text such as
      `Primary Language: Finnish`: the stripped text after the first `:`.
      No div, or a text without `:`, names no language. */
  function ParseLanguage(languageDiv: Option<string>): Option<string> {
    match languageDiv
    case None => None
    case Some(text) =>
      match SplitFirst(text, ':')
      case NotFound => None
      case Found(_, after) => Some(Strip(after))
  }

  /** The request for a guild's own page: a POST through the retrying fetch
      for the `requests` program, a browser navigation for Selenium, a plain
      GET for `cloudscraper`; never with a referer. */
  function DetailRequest(v: Variant, path: string): Request {
    var verb := match v
      case Requests => PostAjax
      case Selenium => Browser
      case Cloudscraper => Get;
    Request(verb, GuildUrl(path), None)
  }

  /** Only the `requests` program retries a guild page; the other two make
      one attempt. */
  function FetchDetail(v: Variant, site: Site, req: Request): Option<Document> {
    if v == Requests then FirstSuccess(site, req, 0, RETRY_COUNT) else FetchOnce(site, req)
  }

  /** The language of the guild whose page is at `path`, `None` when the page
      cannot be fetched or names no language. */
  function GuildLanguage(v: Variant, site: Site, path: string): Option<string> {
    match FetchDetail(v, site, DetailRequest(v, path))
    case None => None
    case Some(doc) => ParseLanguage(doc.languageDiv)
  }

  method GetGuildLanguage(v: Variant, site: Site, path: string) returns (language: Option<string>)
    ensures language == GuildLanguage(v, site, path)
  {
    var req := DetailRequest(v, path);
    var doc: Option<Document>;
    if v == Requests {
      doc := FetchPage(site, req, RETRY_COUNT);
    } else {
      doc := FetchOnce(site, req);
    }
    if doc.None? {
      return None;
    }
    var div := doc.value.languageDiv;
    if div.Some? {
      var split := SplitFirst(div.value, ':');
      if split.Found? {
        return Some(Strip(split.after));
      }
    }
    return None;
  }

  /** A language is found exactly when the div exists and holds a `:`; it is
      then the stripped text after the first `:`. */
  lemma ParseLanguageSpec(languageDiv: Option<string>)
    ensures ParseLanguage(languageDiv).Some? <==> languageDiv.Some? && ':' in languageDiv.value
    ensures ParseLanguage(languageDiv).Some? ==>
      exists before, after ::
        && languageDiv.value == before + ":" + after && ':' !in before
        && ParseLanguage(languageDiv).value == Strip(after)
  {
    if languageDiv.Some? {
      var text := languageDiv.value;
      SplitFirstSpec(text, ':');
      var split := SplitFirst(text, ':');
      if split.Found? {
        assert text == split.before + ":" + split.after;
      }
    }
  }

  /** The usual format: the space after the colon is stripped. */
  lemma ParseLanguageUsualFormat()
    ensures ParseLanguage(Some("Primary Language: Finnish")) == Some("Finnish")
  {
    var text, before, after := "Primary Language: Finnish", "Primary Language", " Finnish";
    assert Strip(after) == "Finnish" by {
      assert TrimLeft(after) == TrimLeft("Finnish") == "Finnish";
      assert TrimRight("Finnish") == "Finnish";
    }
    assert SplitFirst(text, ':') == Found(before, after) by {
      assert ':' !in before;
      assert text == before + [':'] + after;
      SplitFirstUnique(text, ':', before, after);
    }
  }

  /** The language is the stripped text after the FIRST colon: whatever
      follows it, further colons included, belongs to the language. */
  lemma ParseLanguageAfterFirstColon(before: string, after: string)
    requires ':' !in before
    ensures ParseLanguage(Some(before + ":" + after)) == Some(Strip(after))
  {
    SplitFirstUnique(before + ":" + after, ':', before, after);
  }

  /** A text without a colon names no language. */
  lemma ParseLanguageNoColon(text: string)
    requires ':' !in text
    ensures ParseLanguage(Some(text)) == None
  {
    SplitFirstSpec(text, ':');
  }

  /** The filter's test: a non-empty language equal to `finnish` once
      lower-cased. */
  predicate IsFinnish(language: Option<string>) {
    language.Some? && language.value != [] && Lower(language.value) == "finnish"
  }

  /** The test accepts exactly the spellings of `finnish` in any mixture of
      letter cases. */
  lemma IsFinnishIff(language: Option<string>)
    ensures IsFinnish(language) <==> language.Some? && SameIgnoringCase(language.value, "FINNISH", "finnish")
  {
    assert CasePair("FINNISH", "finnish");
    if language.Some? {
      LowerEqualsIff(language.value, "FINNISH", "finnish");
    }
  }

  /** The fields of a guild that the final output keeps. */
  function Drop(g: Guild): FilteredGuild {
    FilteredGuild(g.name, g.realm, g.region)
  }

  /** The Finnish guilds among `guilds`, in input order, without their url. */
  function FinnishOnly(v: Variant, site: Site, guilds: seq<Guild>): seq<FilteredGuild> {
    if guilds == [] then []
    else
      var last := guilds[|guilds| - 1];
      FinnishOnly(v, site, guilds[..|guilds| - 1])
      + (if IsFinnish(GuildLanguage(v, site, last.url)) then [Drop(last)] else [])
  }

  /** Filtering a concatenation filters each part: the guilds are checked
      one by one and independently. */
  lemma {:induction false} FinnishOnlyAppend(v: Variant, site: Site, a: seq<Guild>, b: seq<Guild>)
    ensures FinnishOnly(v, site, a + b) == FinnishOnly(v, site, a) + FinnishOnly(v, site, b)
    decreases |b|
  {
    if b == [] {
      assert a + b == a;
    } else {
      assert (a + b)[..|a + b| - 1] == a + b[..|b| - 1];
      FinnishOnlyAppend(v, site, a, b[..|b| - 1]);
    }
  }

  /** What the filter has produced after the first `i` guilds is a prefix of
      its final result, which is what the incremental saves leave on disk. */
  lemma FinnishOnlyPrefix(v: Variant, site: Site, guilds: seq<Guild>, i: int)
    requires 0 <= i <= |guilds|
    ensures FinnishOnly(v, site, guilds[..i]) <= FinnishOnly(v, site, guilds)
  {
    FinnishOnlyAppend(v, site, guilds[..i], guilds[i..]);
    assert guilds[..i] + guilds[i..] == guilds;
  }

  /** An output record comes from a guild of the input whose page names
      Finnish, and every such guild appears. */
  lemma {:induction false} FinnishOnlyMembers(v: Variant, site: Site, guilds: seq<Guild>, f: FilteredGuild)
    ensures f in FinnishOnly(v, site, guilds) <==>
      exists i :: 0 <= i < |guilds| && IsFinnish(GuildLanguage(v, site, guilds[i].url)) && Drop(guilds[i]) == f
  {
    if guilds != [] {
      var init, last := guilds[..|guilds| - 1], guilds[|guilds| - 1];
      FinnishOnlyMembers(v, site, init, f);
      assert forall i :: 0 <= i < |init| ==> guilds[i] == init[i];
    }
  }

  /** The filter never produces more records than it was given. */
  lemma {:induction false} FinnishOnlyNoLonger(v: Variant, site: Site, guilds: seq<Guild>)
    ensures |FinnishOnly(v, site, guilds)| <= |guilds|
  {
    if guilds != [] {
      FinnishOnlyNoLonger(v, site, guilds[..|guilds| - 1]);
    }
  }
}
