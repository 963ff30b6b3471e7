/** `has_mythic_progress` and `has_heroic_progress`: whether the crawl of a
    tier goes on to the next page, judged by the last guild on this one. */
module Progress {
  import opened Text
  import opened Records

  /** `has_mythic_progress`: there is at least one progress span, the last
      one has a `<b>`, and that `<b>`'s text contains `(M)`. */
  predicate HasMythicProgress(spans: seq<Span>) {
    |spans| > 0 &&
    match spans[|spans| - 1].bText
    case None => false
    case Some(t) => Contains(t, "(M)")
  }

  /** `has_heroic_progress`: there is at least one progress span and the
      whole text of the last one contains `(H)`. */
  predicate HasHeroicProgress(spans: seq<Span>) {
    |spans| > 0 && Contains(spans[|spans| - 1].fullText, "(H)")
  }

  /** A page without progress spans ends the crawl under both predicates. */
  lemma NoSpansNoProgress()
    ensures !HasMythicProgress([]) && !HasHeroicProgress([])
  {
  }

  /** Only the last span is consulted: whatever precedes it is irrelevant. */
  lemma OnlyLastSpanCounts(earlier: seq<Span>, last: Span)
    ensures HasMythicProgress(earlier + [last]) == HasMythicProgress([last])
    ensures HasHeroicProgress(earlier + [last]) == HasHeroicProgress([last])
  {
  }

  /** A three-character marker does not occur in a text that has its middle
      character nowhere between the first and the last position. */
  lemma NoMarker(t: string, marker: string)
    requires |marker| == 3
    requires forall j :: 1 <= j < |t| - 1 ==> t[j] != marker[1]
    ensures !Contains(t, marker)
  {
    forall i | 0 <= i <= |t| - 3
      ensures !OccursAt(t, marker, i)
    {
      assert t[i..i + 3][1] == t[i + 1];
    }
  }

  /** A page whose last guild has no `(M)` in its `<b>` stops a mythic
      crawl, whatever progress the guilds before it have. */
  lemma LastGuildWithoutMythicStops(earlier: seq<Span>, last: Span)
    requires last.bText == None || !Contains(last.bText.value, "(M)")
    ensures !HasMythicProgress(earlier + [last])
  {
    OnlyLastSpanCounts(earlier, last);
  }

  /** For instance, a first guild with mythic progress followed by one with
      only heroic progress: the `<b>` `8/8 (H)` has no `(M)`. */
  lemma HeroicLastGuildStops()
    ensures !HasMythicProgress([Span(Some("9/9 (M)"), "9/9 (M)"), Span(Some("8/8 (H)"), "8/8 (H)")])
  {
    NoMarker("8/8 (H)", "(M)");
    LastGuildWithoutMythicStops([Span(Some("9/9 (M)"), "9/9 (M)")], Span(Some("8/8 (H)"), "8/8 (H)"));
  }

  /** The two predicates are not interchangeable: the heroic one reads the
      whole span text and looks for another marker. */
  lemma HeroicAndMythicDiffer()
    ensures HasHeroicProgress([Span(None, "8/8 (H)")]) && !HasMythicProgress([Span(None, "8/8 (H)")])
    ensures HasMythicProgress([Span(Some("3/8 (M)"), "3/8 (M)")]) && !HasHeroicProgress([Span(Some("3/8 (M)"), "3/8 (M)")])
  {
    var h, m := "8/8 (H)", "3/8 (M)";
    assert OccursAt(h, "(H)", 4);
    assert OccursAt(m, "(M)", 4);
    NoMarker(m, "(H)");
  }
}
