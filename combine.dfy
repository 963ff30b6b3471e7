/** `combine_guild_files`: the records of the two Finnish guild files, the
    plain one first, with one record per `name-realm` key (the first one
    seen), sorted by lower-cased name. */
module Combine {
  import opened Records
  import opened Text
  import opened NameSort

  /** The dedup key: name and realm joined by `-`. */
  function CombineKey(g: FilteredGuild): string {
    g.name + "-" + g.realm
  }

  function Keys(s: seq<FilteredGuild>): seq<string> {
    seq(|s|, i requires 0 <= i < |s| => CombineKey(s[i]))
  }

  /** No two records share a key. */
  predicate DistinctKeys(s: seq<FilteredGuild>) {
    forall i, j :: 0 <= i < j < |s| ==> CombineKey(s[i]) != CombineKey(s[j])
  }

  /** `s[i]` is the first record of `s` with its key. */
  predicate FirstAt(s: seq<FilteredGuild>, i: int)
    requires 0 <= i < |s|
  {
    forall j :: 0 <= j < i ==> CombineKey(s[j]) != CombineKey(s[i])
  }

  /** `list(unique_guilds.values())` after the loop: the records that were
      first with their key, in input order. */
  function FirstByKey(s: seq<FilteredGuild>): seq<FilteredGuild> {
    if s == [] then []
    else
      var init, last := s[..|s| - 1], s[|s| - 1];
      if CombineKey(last) in Keys(init) then FirstByKey(init) else FirstByKey(init) + [last]
  }

  /** The combined file and the number of duplicates reported. The dict
      `unique_guilds` is its key set `seen` and its values `unique` in
      insertion order; no stored value is ever replaced, since a key already
      present is skipped. */
  method CombineGuildFiles(guilds: seq<FilteredGuild>, mythic: seq<FilteredGuild>)
    returns (combined: seq<FilteredGuild>, duplicates: int)
    ensures combined == SortByName(FirstByKey(guilds + mythic))
    ensures duplicates == |guilds| + |mythic| - |combined|
    ensures duplicates >= 0
    ensures duplicates == 0 <==> DistinctKeys(guilds + mythic)
  {
    var all := guilds + mythic;
    var seen: set<string> := {};
    var unique: seq<FilteredGuild> := [];
    for i := 0 to |all|
      invariant unique == FirstByKey(all[..i])
      invariant forall k :: k in seen <==> k in Keys(all[..i])
    {
      var key := CombineKey(all[i]);
      assert all[..i + 1][..i] == all[..i];
      assert Keys(all[..i + 1]) == Keys(all[..i]) + [key];
      if key !in seen {
        seen := seen + {key};
        unique := unique + [all[i]];
      }
    }
    assert all[..|all|] == all;
    combined := SortByName(unique);
    SortPermutes(unique);
    assert |combined| == |multiset(combined)|;
    duplicates := |guilds| + |mythic| - |combined|;
    DroppedIff(all);
  }

  /** A record is kept exactly when it is the first one with its key: on a
      collision the earlier record wins. */
  lemma {:induction false} FirstWins(s: seq<FilteredGuild>, x: FilteredGuild)
    ensures x in FirstByKey(s) <==> exists i :: 0 <= i < |s| && s[i] == x && FirstAt(s, i)
  {
    if s != [] {
      var init, last := s[..|s| - 1], s[|s| - 1];
      FirstWins(init, x);
      assert forall i :: 0 <= i < |init| ==> FirstAt(init, i) == FirstAt(s, i);
      assert CombineKey(last) in Keys(init) <==> !FirstAt(s, |s| - 1) by {
        if CombineKey(last) in Keys(init) {
          var j :| 0 <= j < |init| && Keys(init)[j] == CombineKey(last);
          assert CombineKey(s[j]) == CombineKey(last);
        } else {
          forall j | 0 <= j < |s| - 1
            ensures CombineKey(s[j]) != CombineKey(last)
          {
            assert Keys(init)[j] == CombineKey(s[j]);
          }
        }
      }
    }
  }

  /** Every key of the input is kept, and no other. */
  lemma {:induction false} FirstByKeyKeys(s: seq<FilteredGuild>, k: string)
    ensures k in Keys(FirstByKey(s)) <==> k in Keys(s)
  {
    if s != [] {
      var init, last := s[..|s| - 1], s[|s| - 1];
      FirstByKeyKeys(init, k);
      FirstByKeyKeys(init, CombineKey(last));
      assert Keys(s) == Keys(init) + [CombineKey(last)];
      if CombineKey(last) !in Keys(init) {
        assert Keys(FirstByKey(s)) == Keys(FirstByKey(init)) + [CombineKey(last)];
      }
    }
  }

  /** The kept records never share a key. */
  lemma {:induction false} FirstByKeyDistinct(s: seq<FilteredGuild>)
    ensures DistinctKeys(FirstByKey(s))
  {
    if s != [] {
      var init, last := s[..|s| - 1], s[|s| - 1];
      FirstByKeyDistinct(init);
      var r := FirstByKey(init);
      if CombineKey(last) !in Keys(init) {
        FirstByKeyKeys(init, CombineKey(last));
        forall i | 0 <= i < |r|
          ensures CombineKey(r[i]) != CombineKey(last)
        {
          assert Keys(r)[i] == CombineKey(r[i]);
        }
      }
    }
  }

  /** The reported count is never negative, and it is zero exactly when no
      two input records share a key. */
  lemma {:induction false} DroppedIff(s: seq<FilteredGuild>)
    ensures |FirstByKey(s)| <= |s|
    ensures |FirstByKey(s)| == |s| <==> DistinctKeys(s)
  {
    if s != [] {
      var init, last := s[..|s| - 1], s[|s| - 1];
      DroppedIff(init);
      if CombineKey(last) in Keys(init) {
        var j :| 0 <= j < |init| && Keys(init)[j] == CombineKey(last);
        assert CombineKey(s[j]) == CombineKey(s[|s| - 1]);
      } else {
        assert DistinctKeys(s) <==> DistinctKeys(init) by {
          forall j | 0 <= j < |init|
            ensures CombineKey(s[j]) != CombineKey(last)
          {
            assert Keys(init)[j] == CombineKey(s[j]);
          }
        }
      }
    }
  }

  /** The key joins name and realm without escaping: a guild named `a-b` on
      realm `c` and one named `a` on realm `b-c` collide, so the second is
      dropped as a duplicate. */
  lemma KeyCollision(a: string, b: string, c: string, region: string)
    ensures var g, h := FilteredGuild(a + "-" + b, c, region), FilteredGuild(a, b + "-" + c, region);
      g != h && FirstByKey([g, h]) == [g]
  {
    var g, h := FilteredGuild(a + "-" + b, c, region), FilteredGuild(a, b + "-" + c, region);
    assert |g.name| != |h.name|;
    assert CombineKey(g) == a + "-" + b + "-" + c == CombineKey(h);
    assert [g, h][..1] == [g] && [g][..0] == [];
    assert FirstByKey([g]) == [g];
    assert Keys([g]) == [CombineKey(h)];
  }

  /** Every record of the combined file is the first one with its key among
      the two files, every key of the two files is in it once, and it is
      ordered by lower-cased name, records with the same lower-cased name in
      the order they were first seen. */
  lemma CombinedSpec(guilds: seq<FilteredGuild>, mythic: seq<FilteredGuild>, x: FilteredGuild, k: string)
    ensures var all, combined := guilds + mythic, SortByName(FirstByKey(guilds + mythic));
      && Sorted(combined)
      && WithKey(combined, k) == WithKey(FirstByKey(all), k)
      && DistinctKeys(combined)
      && (x in combined <==> exists i :: 0 <= i < |all| && all[i] == x && FirstAt(all, i))
      && (CombineKey(x) in Keys(combined) <==> CombineKey(x) in Keys(all))
  {
    var all := guilds + mythic;
    var unique := FirstByKey(all);
    var combined := SortByName(unique);
    SortSorted(unique);
    SortStable(unique, k);
    SortPermutes(unique);
    FirstWins(all, x);
    assert x in combined <==> x in unique by {
      assert x in combined <==> x in multiset(combined);
    }
    FirstByKeyDistinct(all);
    SortDistinct(unique);
    FirstByKeyKeys(all, CombineKey(x));
    KeysOfPermutation(unique, combined, CombineKey(x));
  }

  lemma {:induction false} InsertDistinct(x: FilteredGuild, t: seq<FilteredGuild>)
    requires DistinctKeys(t)
    requires forall i :: 0 <= i < |t| ==> CombineKey(t[i]) != CombineKey(x)
    ensures DistinctKeys(Insert(x, t))
    decreases |t|
  {
    if t != [] && LexLess(SortKey(t[0]), SortKey(x)) {
      var r := Insert(x, t[1..]);
      InsertDistinct(x, t[1..]);
      forall j | 0 <= j < |r|
        ensures CombineKey(t[0]) != CombineKey(r[j])
      {
        InsertMember(x, t[1..], j);
        if r[j] != x {
          var l :| 0 <= l < |t| - 1 && t[1..][l] == r[j];
          assert t[l + 1] == r[j];
        }
      }
      var s := [t[0]] + r;
      forall i, j | 0 <= i < j < |s|
        ensures CombineKey(s[i]) != CombineKey(s[j])
      {
        assert s[j] == r[j - 1];
      }
    }
  }

  /** Sorting keeps the keys distinct. */
  lemma {:induction false} SortDistinct(s: seq<FilteredGuild>)
    requires DistinctKeys(s)
    ensures DistinctKeys(SortByName(s))
  {
    if s != [] {
      var r := SortByName(s[1..]);
      SortDistinct(s[1..]);
      SortPermutes(s[1..]);
      forall j | 0 <= j < |r|
        ensures CombineKey(r[j]) != CombineKey(s[0])
      {
        assert r[j] in multiset(r);
        var l :| 1 <= l < |s| && s[l] == r[j];
      }
      InsertDistinct(s[0], r);
    }
  }

  /** Reordering keeps the set of keys. */
  lemma KeysOfPermutation(a: seq<FilteredGuild>, b: seq<FilteredGuild>, k: string)
    requires multiset(a) == multiset(b)
    ensures k in Keys(a) <==> k in Keys(b)
  {
    if k in Keys(a) {
      var i :| 0 <= i < |a| && Keys(a)[i] == k;
      assert a[i] in multiset(b);
      var j :| 0 <= j < |b| && b[j] == a[i];
      assert Keys(b)[j] == k;
    }
    if k in Keys(b) {
      var j :| 0 <= j < |b| && Keys(b)[j] == k;
      assert b[j] in multiset(a);
      var i :| 0 <= i < |a| && a[i] == b[j];
      assert Keys(a)[i] == k;
    }
  }
}
