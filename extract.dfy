/** `extract_guilds_from_page`: the EU guilds listed on one ranking page. */
module Extraction {
  import opened Text
  import opened Records

  /** The guild a row contributes, if any. A row is skipped when inspecting it
      raises, when it has no guild anchor, no `<nobr>` inside that anchor or no
      realm anchor, when the stripped realm text has no `-`, or when the
      region before the first `-` is not `EU` in any letter case. The region
      and realm are the stripped texts before and after that first `-`; a
      missing `href` gives the url `""`. */
  function RowGuild(row: Row): Option<Guild> {
    if row.raises then None
    else match row.guildLink
      case None => None
      case Some(link) =>
        match link.nobr
        case None => None
        case Some(nobrText) =>
          match row.realmText
          case None => None
          case Some(realmText) =>
            match SplitFirst(Strip(realmText), '-')
            case NotFound => None
            case Found(before, after) =>
              var region := Strip(before);
              if Upper(region) == "EU" then
                Some(Guild(Strip(nobrText), Strip(after), region, link.href.GetOr("")))
              else None
  }

  function RowGuilds(row: Row): seq<Guild> {
    match RowGuild(row)
    case None => []
    case Some(g) => [g]
  }

  /** The guilds of the rows, in row order. */
  function ExtractSpec(rows: seq<Row>): seq<Guild> {
    if rows == [] then []
    else ExtractSpec(rows[..|rows| - 1]) + RowGuilds(rows[|rows| - 1])
  }

  method ExtractGuildsFromPage(doc: Document) returns (guilds: seq<Guild>)
    ensures guilds == ExtractSpec(doc.rows)
  {
    guilds := [];
    for i := 0 to |doc.rows|
      invariant guilds == ExtractSpec(doc.rows[..i])
    {
      var row := doc.rows[i];
      assert doc.rows[..i + 1][..i] == doc.rows[..i];
      var kept := RowGuild(row);
      if kept.Some? {
        guilds := guilds + [kept.value];
      }
    }
    assert doc.rows[..|doc.rows|] == doc.rows;
  }

  /** A kept row: its name is the stripped `<nobr>` text; the stripped realm
      text is `region-part + "-" + realm-part` where the region part holds no
      `-`; region and realm are those parts stripped; the region is `EU` up
      to letter case. */
  lemma KeptRowShape(row: Row)
    requires RowGuild(row).Some?
    ensures var g := RowGuild(row).value;
      && !row.raises && row.guildLink.Some? && row.guildLink.value.nobr.Some? && row.realmText.Some?
      && g.name == Strip(row.guildLink.value.nobr.value)
      && g.url == row.guildLink.value.href.GetOr("")
      && (exists before, after ::
            && Strip(row.realmText.value) == before + "-" + after && '-' !in before
            && g.region == Strip(before) && g.realm == Strip(after))
      && SameIgnoringCase(g.region, "EU", "eu")
  {
    var g := RowGuild(row).value;
    var sp := SplitFirst(Strip(row.realmText.value), '-');
    SplitFirstSpec(Strip(row.realmText.value), '-');
    assert sp.Found?;
    assert Strip(row.realmText.value) == sp.before + "-" + sp.after;
    UpperEqualsIff(g.region, "EU", "eu");
  }

  /** A row is skipped exactly when one of the source's conditions fails
      (`SplitFirst` finds nothing exactly when there is no `-`, by `SplitFirstSpec`). */
  lemma RowSkippedIff(row: Row)
    ensures RowGuild(row).None? <==>
      || row.raises || row.guildLink.None? || row.guildLink.value.nobr.None? || row.realmText.None?
      || SplitFirst(Strip(row.realmText.value), '-').NotFound?
      || !SameIgnoringCase(Strip(SplitFirst(Strip(row.realmText.value), '-').before), "EU", "eu")
  {
    if !row.raises && row.guildLink.Some? && row.guildLink.value.nobr.Some? && row.realmText.Some? {
      if SplitFirst(Strip(row.realmText.value), '-').Found? {
        UpperEqualsIff(Strip(SplitFirst(Strip(row.realmText.value), '-').before), "EU", "eu");
      }
    }
  }

  /** The output of a concatenation of rows is the concatenation of the
      outputs: rows contribute in document order and independently. */
  lemma {:induction false} ExtractAppend(a: seq<Row>, b: seq<Row>)
    ensures ExtractSpec(a + b) == ExtractSpec(a) + ExtractSpec(b)
    decreases |b|
  {
    if b == [] {
      assert a + b == a;
    } else {
      assert (a + b)[..|a + b| - 1] == a + b[..|b| - 1];
      ExtractAppend(a, b[..|b| - 1]);
    }
  }

  /** A row that is skipped (for instance one that raises) changes nothing
      for the rows around it. */
  lemma SkippedRowIsTransparent(before: seq<Row>, bad: Row, after: seq<Row>)
    requires RowGuild(bad).None?
    ensures ExtractSpec(before + [bad] + after) == ExtractSpec(before + after)
  {
    ExtractAppend(before + [bad], after);
    assert (before + [bad])[..|before|] == before;
    assert ExtractSpec(before + [bad]) == ExtractSpec(before);
    ExtractAppend(before, after);
  }

  /** At most one guild per row. */
  lemma {:induction false} ExtractNoLonger(rows: seq<Row>)
    ensures |ExtractSpec(rows)| <= |rows|
  {
    if rows != [] {
      ExtractNoLonger(rows[..|rows| - 1]);
    }
  }

  /** Every guild of the output comes from a row that yields it. */
  lemma {:induction false} ExtractedFromRow(rows: seq<Row>, g: Guild) returns (i: int)
    requires g in ExtractSpec(rows)
    ensures 0 <= i < |rows| && RowGuild(rows[i]) == Some(g)
  {
    var init, last := rows[..|rows| - 1], rows[|rows| - 1];
    if g in ExtractSpec(init) {
      i := ExtractedFromRow(init, g);
      assert rows[i] == init[i];
    } else {
      i := |rows| - 1;
    }
  }

  /** Every guild a row yields is in the output. */
  lemma {:induction false} RowExtracted(rows: seq<Row>, i: int, g: Guild)
    requires 0 <= i < |rows| && RowGuild(rows[i]) == Some(g)
    ensures g in ExtractSpec(rows)
  {
    var init := rows[..|rows| - 1];
    if i < |init| {
      assert init[i] == rows[i];
      RowExtracted(init, i, g);
    }
  }

  /** A guild is in the output exactly when some row yields it. */
  lemma ExtractMembers(rows: seq<Row>, g: Guild)
    ensures g in ExtractSpec(rows) <==> exists i :: 0 <= i < |rows| && RowGuild(rows[i]) == Some(g)
  {
    if g in ExtractSpec(rows) {
      var i := ExtractedFromRow(rows, g);
    }
    if exists i :: 0 <= i < |rows| && RowGuild(rows[i]) == Some(g) {
      var i :| 0 <= i < |rows| && RowGuild(rows[i]) == Some(g);
      RowExtracted(rows, i, g);
    }
  }

  /** The realm is everything after the FIRST `-`, so a realm name that
      itself contains `-` (such as `Azjol-Nerub`) survives intact, and the
      region is kept in the letter case it was written in. */
  lemma RealmAfterFirstHyphen(name: string, region: string, realm: string, href: Option<string>)
    requires NoEdgeSpace(name) && NoEdgeSpace(realm)
    requires SameIgnoringCase(region, "EU", "eu")
    ensures RowGuild(Row(Some(GuildLink(Some(name), href)), Some(region + "-" + realm), false))
         == Some(Guild(name, realm, region, href.GetOr("")))
  {
    var t := region + "-" + realm;
    assert t[0] == region[0];
    assert t[|t| - 1] == if realm == [] then '-' else realm[|realm| - 1];
    StripUnchanged(t);
    StripUnchanged(name);
    StripUnchanged(realm);
    assert region[0] != ' ' && region[1] != ' ';
    StripUnchanged(region);
    SplitFirstUnique(t, '-', region, realm);
    UpperEqualsIff(region, "EU", "eu");
  }

  /** A row whose region is not `EU` in any letter case is dropped, whatever
      its name, realm and link. */
  lemma OtherRegionDropped(name: string, region: string, realm: string, href: Option<string>)
    requires NoEdgeSpace(region) && '-' !in region
    requires !SameIgnoringCase(region, "EU", "eu")
    ensures RowGuild(Row(Some(GuildLink(Some(name), href)), Some(region + "-" + realm), false)).None?
  {
    var t := region + "-" + realm;
    assert t[0] == if region == [] then '-' else region[0];
    assert TrimLeft(t) == t;
    var r := TrimRight(t);
    TrimRightSpec(t);
    if |r| <= |region| {
      AllSpaceAt(t[|r|..], |region| - |r|);
      assert false;
    }
    assert r == region + "-" + r[|region| + 1..];
    SplitFirstUnique(r, '-', region, r[|region| + 1..]);
    StripUnchanged(region);
    UpperEqualsIff(region, "EU", "eu");
  }

  /** For instance, a US guild. */
  lemma UsGuildDropped()
    ensures RowGuild(Row(Some(GuildLink(Some("Echo"), None)), Some("US-Illidan"), false)).None?
  {
    var region := "US";
    assert region[0] == 'U' && !SameIgnoringCase(region, "EU", "eu");
    assert "US-Illidan" == region + "-" + "Illidan";
    OtherRegionDropped("Echo", region, "Illidan", None);
  }
}
