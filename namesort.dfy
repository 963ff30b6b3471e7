/** `combined_guilds.sort(key=lambda x: x['name'].lower())`: Python's list
    sort is stable, so it is the insertion sort below on the lower-cased
    name, which places each record before the later records whose name
    compares equal. */
module NameSort {
  import opened Text
  import opened Records

  /** The sort key: the lower-cased name, compared code point by code point. */
  function SortKey(g: FilteredGuild): string {
    Lower(g.name)
  }

  predicate KeyAtMost(a: string, b: string) {
    LexLess(a, b) || a == b
  }

  /** Non-decreasing by sort key. */
  predicate Sorted(s: seq<FilteredGuild>) {
    forall i, j :: 0 <= i < j < |s| ==> KeyAtMost(SortKey(s[i]), SortKey(s[j]))
  }

  /** `x` placed before the first record of `t` whose key is not smaller. */
  function Insert(x: FilteredGuild, t: seq<FilteredGuild>): seq<FilteredGuild> {
    if t == [] then [x]
    else if LexLess(SortKey(t[0]), SortKey(x)) then [t[0]] + Insert(x, t[1..])
    else [x] + t
  }

  function SortByName(s: seq<FilteredGuild>): seq<FilteredGuild> {
    if s == [] then [] else Insert(s[0], SortByName(s[1..]))
  }

  /** The records of `s` whose sort key is `k`, in order. */
  function WithKey(s: seq<FilteredGuild>, k: string): seq<FilteredGuild> {
    if s == [] then [] else (if SortKey(s[0]) == k then [s[0]] else []) + WithKey(s[1..], k)
  }

  lemma KeyAtMostTransitive(a: string, b: string, c: string)
    requires KeyAtMost(a, b) && KeyAtMost(b, c)
    ensures KeyAtMost(a, c)
  {
    if LexLess(a, b) && LexLess(b, c) {
      LexLessTransitive(a, b, c);
    }
  }

  lemma {:induction false} InsertPermutes(x: FilteredGuild, t: seq<FilteredGuild>)
    ensures multiset(Insert(x, t)) == multiset(t) + multiset{x}
    decreases |t|
  {
    if t != [] && LexLess(SortKey(t[0]), SortKey(x)) {
      InsertPermutes(x, t[1..]);
      assert t == [t[0]] + t[1..];
    }
  }

  /** The sort only reorders: every record is kept, as often as it occurs. */
  lemma {:induction false} SortPermutes(s: seq<FilteredGuild>)
    ensures multiset(SortByName(s)) == multiset(s)
  {
    if s != [] {
      SortPermutes(s[1..]);
      InsertPermutes(s[0], SortByName(s[1..]));
      assert s == [s[0]] + s[1..];
    }
  }

  lemma SortedCons(a: FilteredGuild, r: seq<FilteredGuild>)
    requires Sorted(r)
    requires forall j :: 0 <= j < |r| ==> KeyAtMost(SortKey(a), SortKey(r[j]))
    ensures Sorted([a] + r)
  {
    var s := [a] + r;
    forall i, j | 0 <= i < j < |s|
      ensures KeyAtMost(SortKey(s[i]), SortKey(s[j]))
    {
      assert s[j] == r[j - 1];
      if i > 0 {
        assert s[i] == r[i - 1];
      }
    }
  }

  /** A record of `Insert(x, t)` is `x` or a record of `t`. */
  lemma InsertMember(x: FilteredGuild, t: seq<FilteredGuild>, j: int)
    requires 0 <= j < |Insert(x, t)|
    ensures Insert(x, t)[j] == x || exists l :: 0 <= l < |t| && t[l] == Insert(x, t)[j]
  {
    InsertPermutes(x, t);
    var y := Insert(x, t)[j];
    assert y in multiset(Insert(x, t));
    if y != x {
      assert y in multiset(t);
    }
  }

  lemma {:induction false} InsertSorted(x: FilteredGuild, t: seq<FilteredGuild>)
    requires Sorted(t)
    ensures Sorted(Insert(x, t))
    decreases |t|
  {
    if t == [] {
    } else if LexLess(SortKey(t[0]), SortKey(x)) {
      var r := Insert(x, t[1..]);
      InsertSorted(x, t[1..]);
      forall j | 0 <= j < |r|
        ensures KeyAtMost(SortKey(t[0]), SortKey(r[j]))
      {
        InsertMember(x, t[1..], j);
      }
      SortedCons(t[0], r);
    } else {
      LexLessTotal(SortKey(t[0]), SortKey(x));
      forall j | 0 <= j < |t|
        ensures KeyAtMost(SortKey(x), SortKey(t[j]))
      {
        if j > 0 {
          KeyAtMostTransitive(SortKey(x), SortKey(t[0]), SortKey(t[j]));
        }
      }
      SortedCons(x, t);
    }
  }

  /** The result is ordered by lower-cased name. */
  lemma {:induction false} SortSorted(s: seq<FilteredGuild>)
    ensures Sorted(SortByName(s))
  {
    if s != [] {
      SortSorted(s[1..]);
      InsertSorted(s[0], SortByName(s[1..]));
    }
  }

  lemma {:induction false} WithKeyInsert(x: FilteredGuild, t: seq<FilteredGuild>, k: string)
    ensures WithKey(Insert(x, t), k) == (if SortKey(x) == k then [x] else []) + WithKey(t, k)
    decreases |t|
  {
    if t != [] && LexLess(SortKey(t[0]), SortKey(x)) {
      WithKeyInsert(x, t[1..], k);
      LexLessIrreflexive(SortKey(x));
      assert ([t[0]] + Insert(x, t[1..]))[1..] == Insert(x, t[1..]);
    } else if t != [] {
      assert ([x] + t)[1..] == t;
    }
  }

  /** Stability: the records sharing a lower-cased name keep their order. */
  lemma {:induction false} SortStable(s: seq<FilteredGuild>, k: string)
    ensures WithKey(SortByName(s), k) == WithKey(s, k)
  {
    if s != [] {
      SortStable(s[1..], k);
      WithKeyInsert(s[0], SortByName(s[1..]), k);
    }
  }
}
