/** The `unique_guilds` dict of `main`: guilds keyed by `name|realm`, where a
    later guild with a key already present replaces the stored guild but
    keeps the key's place in the dict's order. */
module Merge {
  import opened Records
  import opened Distinct

  /** A Python dict from keys to guilds: its keys in insertion order and the
      stored guild of each. */
  datatype GuildIndex = GuildIndex(keys: seq<string>, entries: map<string, Guild>)

  const Empty: GuildIndex := GuildIndex([], map[])

  /** The dict key of a guild: its name and realm joined by `|`. */
  function MergeKey(g: Guild): string {
    g.name + "|" + g.realm
  }

  /** The order lists each stored key once; every guild sits under its own
      key. */
  ghost predicate WellFormed(ix: GuildIndex) {
    && NoDuplicates(ix.keys)
    && (forall k :: k in ix.entries <==> k in ix.keys)
    && (forall k :: k in ix.entries ==> MergeKey(ix.entries[k]) == k)
  }

  /** `unique_guilds[MergeKey(g)] = g`. */
  function Put(ix: GuildIndex, g: Guild): GuildIndex {
    var key := MergeKey(g);
    GuildIndex(if key in ix.entries then ix.keys else ix.keys + [key], ix.entries[key := g])
  }

  /** The guilds stored one after the other. */
  function PutAll(ix: GuildIndex, guilds: seq<Guild>): GuildIndex {
    if guilds == [] then ix
    else Put(PutAll(ix, guilds[..|guilds| - 1]), guilds[|guilds| - 1])
  }

  function KeysOf(guilds: seq<Guild>): seq<string> {
    seq(|guilds|, i requires 0 <= i < |guilds| => MergeKey(guilds[i]))
  }

  /** `list(unique_guilds.values())`: the stored guilds in key order. */
  function Values(ix: GuildIndex): seq<Guild>
    requires WellFormed(ix)
  {
    seq(|ix.keys|, i requires 0 <= i < |ix.keys| => ix.entries[ix.keys[i]])
  }

  /** Storing a guild keeps the dict well formed. */
  lemma PutWellFormed(ix: GuildIndex, g: Guild)
    requires WellFormed(ix)
    ensures WellFormed(Put(ix, g))
  {
  }

  /** Storing in two batches is storing their concatenation. */
  lemma {:induction false} PutAllAppend(ix: GuildIndex, a: seq<Guild>, b: seq<Guild>)
    ensures PutAll(ix, a + b) == PutAll(PutAll(ix, a), b)
    decreases |b|
  {
    if b == [] {
      assert a + b == a;
    } else {
      assert (a + b)[..|a + b| - 1] == a + b[..|b| - 1];
      PutAllAppend(ix, a, b[..|b| - 1]);
    }
  }

  /** The dict stays well formed, and its key order is that of the first
      occurrences among the old keys followed by the new guilds' keys. */
  lemma {:induction false} PutAllKeys(ix: GuildIndex, guilds: seq<Guild>)
    requires WellFormed(ix)
    ensures WellFormed(PutAll(ix, guilds))
    ensures PutAll(ix, guilds).keys == Dedup(ix.keys + KeysOf(guilds))
  {
    if guilds == [] {
      assert ix.keys + KeysOf(guilds) == ix.keys;
      DedupOfDistinct(ix.keys);
    } else {
      var init, last := guilds[..|guilds| - 1], guilds[|guilds| - 1];
      PutAllKeys(ix, init);
      var before := PutAll(ix, init);
      PutWellFormed(before, last);
      assert ix.keys + KeysOf(guilds) == (ix.keys + KeysOf(init)) + [MergeKey(last)];
      DedupSnoc(ix.keys + KeysOf(init), MergeKey(last));
      DedupSpec(ix.keys + KeysOf(init));
    }
  }

  /** The guild stored under a key is the last guild with that key. */
  lemma {:induction false} PutAllLastWins(ix: GuildIndex, guilds: seq<Guild>, j: int)
    requires 0 <= j < |guilds|
    requires forall l :: j < l < |guilds| ==> MergeKey(guilds[l]) != MergeKey(guilds[j])
    ensures MergeKey(guilds[j]) in PutAll(ix, guilds).entries
    ensures PutAll(ix, guilds).entries[MergeKey(guilds[j])] == guilds[j]
  {
    var init := guilds[..|guilds| - 1];
    if j < |guilds| - 1 {
      PutAllLastWins(ix, init, j);
    }
  }

  /** A key no new guild has keeps its entry, or its absence. */
  lemma {:induction false} PutAllOtherKeys(ix: GuildIndex, guilds: seq<Guild>, k: string)
    requires k !in KeysOf(guilds)
    ensures k in PutAll(ix, guilds).entries <==> k in ix.entries
    ensures k in ix.entries ==> PutAll(ix, guilds).entries[k] == ix.entries[k]
  {
    if guilds != [] {
      var init := guilds[..|guilds| - 1];
      assert KeysOf(guilds) == KeysOf(init) + [MergeKey(guilds[|guilds| - 1])];
      PutAllOtherKeys(ix, init, k);
    }
  }

  /** The values of a well-formed dict never hold two guilds with the same
      name and realm. */
  lemma ValuesHaveDistinctKeys(ix: GuildIndex)
    requires WellFormed(ix)
    ensures forall i, j :: 0 <= i < j < |Values(ix)| ==> MergeKey(Values(ix)[i]) != MergeKey(Values(ix)[j])
  {
  }

  /** Every stored guild is among the values, and the values are exactly the
      stored guilds. */
  lemma ValuesAreEntries(ix: GuildIndex, g: Guild)
    requires WellFormed(ix)
    ensures g in Values(ix) <==> exists k :: k in ix.entries && ix.entries[k] == g
  {
    if exists k :: k in ix.entries && ix.entries[k] == g {
      var k :| k in ix.entries && ix.entries[k] == g;
      var i :| 0 <= i < |ix.keys| && ix.keys[i] == k;
      assert Values(ix)[i] == g;
    }
  }
  /** A stored guild was stored before or is one of the new guilds. */
  lemma {:induction false} PutAllEntryOrigin(ix: GuildIndex, guilds: seq<Guild>, k: string)
    requires k in PutAll(ix, guilds).entries
    ensures || (k in ix.entries && PutAll(ix, guilds).entries[k] == ix.entries[k])
            || exists i :: 0 <= i < |guilds| && guilds[i] == PutAll(ix, guilds).entries[k]
  {
    if guilds != [] {
      var init, last := guilds[..|guilds| - 1], guilds[|guilds| - 1];
      if k != MergeKey(last) {
        PutAllEntryOrigin(ix, init, k);
        if exists i :: 0 <= i < |init| && init[i] == PutAll(ix, guilds).entries[k] {
          var i :| 0 <= i < |init| && init[i] == PutAll(ix, guilds).entries[k];
          assert guilds[i] == init[i];
        }
      }
    }
  }

  /** The values of a dict filled from `guilds`: no two share a key, each
      comes from `guilds`, and the last guild with each key is among them. */
  lemma MergedValues(guilds: seq<Guild>, j: int)
    ensures WellFormed(PutAll(Empty, guilds))
    ensures var m := Values(PutAll(Empty, guilds));
      && (forall a, b :: 0 <= a < b < |m| ==> MergeKey(m[a]) != MergeKey(m[b]))
      && (forall g :: g in m ==> g in guilds)
      && (0 <= j < |guilds| && (forall l :: j < l < |guilds| ==> MergeKey(guilds[l]) != MergeKey(guilds[j]))
          ==> guilds[j] in m)
  {
    var ix := PutAll(Empty, guilds);
    PutAllKeys(Empty, guilds);
    ValuesHaveDistinctKeys(ix);
    forall g | g in Values(ix)
      ensures g in guilds
    {
      ValuesAreEntries(ix, g);
      var k :| k in ix.entries && ix.entries[k] == g;
      PutAllEntryOrigin(Empty, guilds, k);
    }
    if 0 <= j < |guilds| && (forall l :: j < l < |guilds| ==> MergeKey(guilds[l]) != MergeKey(guilds[j])) {
      PutAllLastWins(Empty, guilds, j);
      ValuesAreEntries(ix, guilds[j]);
    }
  }
}

