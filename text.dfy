/** String helpers with the meaning the scraper gives to Python's `str.strip()`,
    `str.split(sep, 1)`, `in`, `upper()`, `lower()` and `<` on strings.
    Whitespace and upper-casing are the ASCII part of Python's definitions;
    lower-casing also covers Latin-1. */
module Text {

  /** Characters Python's `str.strip()` removes, restricted to ASCII
      (tab, newline, vertical tab, form feed, carriage return, the four
      separator controls 0x1C-0x1F, and space). */
  predicate IsSpace(c: char) {
    c == ' ' || 9 <= c as int <= 13 || 28 <= c as int <= 31
  }

  /** Every character of `s` is whitespace. */
  predicate AllSpace(s: string) {
    s == [] || (IsSpace(s[0]) && AllSpace(s[1..]))
  }

  lemma {:induction false} AllSpaceSnoc(a: string, c: char)
    requires AllSpace(a) && IsSpace(c)
    ensures AllSpace(a + [c])
  {
    if a != [] {
      assert (a + [c])[1..] == a[1..] + [c];
      AllSpaceSnoc(a[1..], c);
    }
  }

  /** Each character of an all-whitespace string is whitespace. */
  lemma {:induction false} AllSpaceAt(s: string, i: int)
    requires AllSpace(s) && 0 <= i < |s|
    ensures IsSpace(s[i])
  {
    if i > 0 {
      AllSpaceAt(s[1..], i - 1);
    }
  }

  /** Neither end of `r` is whitespace. */
  predicate NoEdgeSpace(r: string) {
    r == [] || (!IsSpace(r[0]) && !IsSpace(r[|r| - 1]))
  }

  /** `r` is the part of `s` that starts at `i`, and everything around it is whitespace. */
  predicate StrippedAt(s: string, r: string, i: int) {
    0 <= i && i + |r| <= |s| && r == s[i..i + |r|]
    && AllSpace(s[..i]) && AllSpace(s[i + |r|..])
  }

  function TrimLeft(s: string): string {
    if s != [] && IsSpace(s[0]) then TrimLeft(s[1..]) else s
  }

  function TrimRight(s: string): string {
    if s != [] && IsSpace(s[|s| - 1]) then TrimRight(s[..|s| - 1]) else s
  }

  /** Python's `s.strip()`. */
  function Strip(s: string): string {
    TrimRight(TrimLeft(s))
  }

  /** Python's `s.split(sep, 1)` when `sep in s`: the text before the first
      `sep` and the text after it; `NotFound` when `sep` does not occur. */
  function SplitFirst(s: string, sep: char): Split {
    if s == [] then NotFound
    else if s[0] == sep then Found([], s[1..])
    else
      match SplitFirst(s[1..], sep)
      case NotFound => NotFound
      case Found(a, b) => Found([s[0]] + a, b)
  }

  /** Result of splitting a string once. */
  datatype Split = NotFound | Found(before: string, after: string)

  /** `TrimLeft` removes exactly the leading whitespace. */
  lemma {:induction false} TrimLeftSpec(s: string)
    ensures var r := TrimLeft(s);
      |r| <= |s| && r == s[|s| - |r|..] && AllSpace(s[..|s| - |r|]) && (r == [] || !IsSpace(r[0]))
  {
    if s != [] && IsSpace(s[0]) {
      TrimLeftSpec(s[1..]);
      var r := TrimLeft(s[1..]);
      assert s[..|s| - |r|] == [s[0]] + s[1..][..|s| - 1 - |r|];
    }
  }

  /** `TrimRight` removes exactly the trailing whitespace. */
  lemma {:induction false} TrimRightSpec(s: string)
    ensures var r := TrimRight(s);
      |r| <= |s| && r == s[..|r|] && AllSpace(s[|r|..]) && (r == [] || !IsSpace(r[|r| - 1]))
  {
    if s != [] && IsSpace(s[|s| - 1]) {
      TrimRightSpec(s[..|s| - 1]);
      var r := TrimRight(s[..|s| - 1]);
      assert s[|r|..] == s[..|s| - 1][|r|..] + [s[|s| - 1]];
      AllSpaceSnoc(s[..|s| - 1][|r|..], s[|s| - 1]);
    }
  }

  /** `Strip(s)` is an infix of `s` with no whitespace at either end, and
      only whitespace was removed around it. */
  lemma StripSpec(s: string)
    ensures NoEdgeSpace(Strip(s))
    ensures exists i :: StrippedAt(s, Strip(s), i)
  {
    var l := TrimLeft(s);
    var r := TrimRight(l);
    TrimLeftSpec(s);
    TrimRightSpec(l);
    assert s[|s| - |l| + |r|..] == l[|r|..];
    assert StrippedAt(s, r, |s| - |l|);
  }

  /** Stripping twice changes nothing. */
  lemma StripIdempotent(s: string)
    ensures Strip(Strip(s)) == Strip(s)
  {
    var r := Strip(s);
    StripSpec(s);
    assert TrimLeft(r) == r;
    assert TrimRight(r) == r;
  }

  /** A string with no whitespace at either end strips to itself. */
  lemma StripUnchanged(s: string)
    requires NoEdgeSpace(s)
    ensures Strip(s) == s
  {
    assert TrimLeft(s) == s;
  }

  /** One space on each side of such a string is stripped away. */
  lemma StripPadded(s: string)
    requires NoEdgeSpace(s)
    ensures Strip([' '] + s + [' ']) == s
  {
    var padded := [' '] + s + [' '];
    assert padded[1..] == s + [' '];
    if s == [] {
      assert TrimLeft(padded) == TrimLeft([' ']) == [];
    } else {
      assert TrimLeft(padded) == s + [' '];
      assert (s + [' '])[..|s|] == s;
      StripUnchanged(s);
    }
  }

  /** `SplitFirst` finds a separator exactly when there is one, and cuts at
      the first. */
  lemma {:induction false} SplitFirstSpec(s: string, sep: char)
    ensures SplitFirst(s, sep).NotFound? <==> sep !in s
    ensures var r := SplitFirst(s, sep);
      r.Found? ==> s == r.before + [sep] + r.after && sep !in r.before
  {
    if s != [] && s[0] != sep {
      SplitFirstSpec(s[1..], sep);
      assert s == [s[0]] + s[1..];
    }
  }

  /** The first occurrence of a separator is unique: any other way of writing
      `s` as `a + [sep] + b` with no `sep` in `a` gives the same split. */
  lemma {:induction false} SplitFirstUnique(s: string, sep: char, a: string, b: string)
    requires s == a + [sep] + b && sep !in a
    ensures SplitFirst(s, sep) == Found(a, b)
  {
    if a == [] {
      assert s[0] == sep && s[1..] == b;
    } else {
      assert s[1..] == a[1..] + [sep] + b;
      SplitFirstUnique(s[1..], sep, a[1..], b);
    }
  }

  /** `p` occurs in `s` at position `i`. */
  predicate OccursAt(s: string, p: string, i: int) {
    0 <= i <= |s| - |p| && s[i..i + |p|] == p
  }

  /** Python's `p in s` for strings: `p` occurs at some position of `s`. */
  predicate Contains(s: string, p: string) {
    exists i :: 0 <= i <= |s| - |p| && OccursAt(s, p, i)
  }

  function UpperChar(c: char): char {
    if 'a' <= c <= 'z' then (c as int - 32) as char else c
  }

  /** Lower case for ASCII and for the Latin-1 capitals `À`..`Þ` other than
      `×`, which covers the Finnish and Swedish letters `Å`, `Ä` and `Ö`. */
  function LowerChar(c: char): char {
    if 'A' <= c <= 'Z' || (0xC0 <= c as int <= 0xDE && c as int != 0xD7) then (c as int + 32) as char else c
  }

  /** Python's `s.upper()` on ASCII. */
  function Upper(s: string): string {
    seq(|s|, i requires 0 <= i < |s| => UpperChar(s[i]))
  }

  /** Python's `s.lower()` on ASCII and Latin-1. */
  function Lower(s: string): string {
    seq(|s|, i requires 0 <= i < |s| => LowerChar(s[i]))
  }

  /** `s` spells the same letters as `upper` (all upper case) and `lower`
      (the same letters in lower case), each character in either case. */
  predicate SameIgnoringCase(s: string, upper: string, lower: string) {
    |s| == |upper| == |lower| && forall i :: 0 <= i < |s| ==> s[i] == upper[i] || s[i] == lower[i]
  }

  /** `upper` and `lower` are one word of ASCII letters in both cases. */
  predicate CasePair(upper: string, lower: string) {
    |upper| == |lower|
    && forall i :: 0 <= i < |upper| ==> 'A' <= upper[i] <= 'Z' && lower[i] as int == upper[i] as int + 32
  }

  /** `s.upper() == upper` is a case-insensitive comparison with the word. */
  lemma UpperEqualsIff(s: string, upper: string, lower: string)
    requires CasePair(upper, lower)
    ensures Upper(s) == upper <==> SameIgnoringCase(s, upper, lower)
  {
    if SameIgnoringCase(s, upper, lower) {
      assert forall i :: 0 <= i < |s| ==> Upper(s)[i] == upper[i];
    }
  }

  /** `s.lower() == lower` is a case-insensitive comparison with the word. */
  lemma LowerEqualsIff(s: string, upper: string, lower: string)
    requires CasePair(upper, lower)
    ensures Lower(s) == lower <==> SameIgnoringCase(s, upper, lower)
  {
    if SameIgnoringCase(s, upper, lower) {
      assert forall i :: 0 <= i < |s| ==> Lower(s)[i] == lower[i];
    }
  }

  /** Python's `a < b` on strings: lexicographic by code point. */
  predicate LexLess(a: string, b: string)
    decreases |a|
  {
    |b| > 0 && (|a| == 0 || a[0] < b[0] || (a[0] == b[0] && LexLess(a[1..], b[1..])))
  }

  lemma {:induction false} LexLessIrreflexive(a: string)
    ensures !LexLess(a, a)
    decreases |a|
  {
    if |a| > 0 {
      LexLessIrreflexive(a[1..]);
    }
  }

  lemma {:induction false} LexLessTransitive(a: string, b: string, c: string)
    requires LexLess(a, b) && LexLess(b, c)
    ensures LexLess(a, c)
    decreases |a|
  {
    if |a| > 0 && a[0] == b[0] && b[0] == c[0] {
      LexLessTransitive(a[1..], b[1..], c[1..]);
    }
  }

  lemma {:induction false} LexLessTotal(a: string, b: string)
    ensures LexLess(a, b) || a == b || LexLess(b, a)
    decreases |a|
  {
    if |a| > 0 && |b| > 0 && a[0] == b[0] {
      LexLessTotal(a[1..], b[1..]);
      if a[1..] == b[1..] {
        assert a == [a[0]] + a[1..] && b == [b[0]] + b[1..];
      }
    }
  }
}
