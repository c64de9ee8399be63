/** The parts of Python's `str` the scripts rely on: whitespace, `strip`,
    `find`, `split`, `startswith`/`endswith` and ASCII case mapping. */
module Text {
  import opened Wrappers

  /** Python's `str.isspace()`: the characters `\s` matches in a `str`
      pattern and the ones `str.strip()` removes. */
  predicate IsSpace(c: char) {
    || c == ' '
    || ('\t' <= c <= '\r')
    || ('\U{1C}' <= c <= '\U{1F}')
    || c == '\U{85}' || c == '\U{A0}' || c == '\U{1680}'
    || ('\U{2000}' <= c <= '\U{200A}')
    || c == '\U{2028}' || c == '\U{2029}' || c == '\U{202F}' || c == '\U{205F}' || c == '\U{3000}'
  }

  predicate AllSpace(s: string) {
    forall k :: 0 <= k < |s| ==> IsSpace(s[k])
  }

  /** Neither end of `s` is whitespace. */
  predicate NoEdgeSpace(s: string) {
    |s| == 0 || (!IsSpace(s[0]) && !IsSpace(s[|s| - 1]))
  }

  /** `r` sits at offset `i` of `s` and only whitespace surrounds it. */
  predicate StrippedAt(s: string, r: string, i: int) {
    && 0 <= i <= i + |r| <= |s|
    && s[i..i + |r|] == r
    && AllSpace(s[..i])
    && AllSpace(s[i + |r|..])
  }

  /** Length of the whitespace run at the front of `s`. */
  function LeadingSpace(s: string): (n: nat)
    ensures n <= |s|
    ensures AllSpace(s[..n])
    ensures n < |s| ==> !IsSpace(s[n])
  {
    if |s| == 0 || !IsSpace(s[0]) then 0
    else
      var n := 1 + LeadingSpace(s[1..]);
      assert forall k :: 1 <= k < n ==> s[k] == s[1..][k - 1];
      n
  }

  /** Length of the whitespace run at the back of `s`. */
  function TrailingSpace(s: string): (n: nat)
    ensures n <= |s|
    ensures AllSpace(s[|s| - n..])
    ensures n < |s| ==> !IsSpace(s[|s| - n - 1])
  {
    if |s| == 0 || !IsSpace(s[|s| - 1]) then 0
    else
      var init := s[..|s| - 1];
      var n := 1 + TrailingSpace(init);
      assert forall k :: |s| - n <= k < |s| - 1 ==> s[k] == init[k];
      n
  }

  /** Python's `s.strip()`. */
  function Strip(s: string): (r: string)
    ensures NoEdgeSpace(r)
    ensures StrippedAt(s, r, LeadingSpace(s))
  {
    var a := LeadingSpace(s);
    var rest := s[a..];
    var b := TrailingSpace(rest);
    var r := rest[..|rest| - b];
    assert s[a + |r|..] == rest[|rest| - b..];
    assert |r| > 0 ==> r[0] == s[a];
    r
  }

  /** Stripping has one answer: any whitespace-free core that only
      whitespace surrounds is what `strip()` returns. */
  lemma {:induction false} StripUnique(s: string, r: string, i: int)
    requires NoEdgeSpace(r)
    requires StrippedAt(s, r, i)
    ensures Strip(s) == r
  {
    var a := LeadingSpace(s);
    var t := Strip(s);
    if |r| == 0 {
      if |t| > 0 {
        if a < i { SpaceWithin(s, 0, i, a); } else { SpaceWithin(s, i, |s|, a); }
        assert false;
      }
    } else {
      // Both cores start at the first non-space character of `s`...
      if a < i { SpaceWithin(s, 0, i, a); }
      if i < a { SpaceWithin(s, 0, a, i); }
      assert a == i;
      // ...and end at the last one.
      if |t| < |r| { SpaceWithin(s, i + |t|, |s|, i + |r| - 1); }
      if |r| < |t| { SpaceWithin(s, i + |r|, |s|, i + |t| - 1); }
    }
  }

  lemma SpaceWithin(s: string, lo: int, hi: int, k: int)
    requires 0 <= lo <= k < hi <= |s|
    requires AllSpace(s[lo..hi])
    ensures IsSpace(s[k])
  {
    assert s[lo..hi][k - lo] == s[k];
  }

  lemma StripIdempotent(s: string)
    ensures Strip(Strip(s)) == Strip(s)
  {
    var t := Strip(s);
    assert t[..0] == [] && t[|t|..] == [] && t[0..|t|] == t;
    StripUnique(t, t, 0);
  }

  /** `pat` occurs in `s` starting at index `i`. */
  predicate OccursAt(s: string, pat: string, i: int) {
    0 <= i && i + |pat| <= |s| && s[i..i + |pat|] == pat
  }

  /** Python's `s.find(pat, start)`: the leftmost occurrence at or after `start`. */
  function Find(s: string, pat: string, start: nat): (r: Option<nat>)
    ensures r.Some? ==> start <= r.value && OccursAt(s, pat, r.value)
    ensures forall k :: start <= k && (r.None? || k < r.value) ==> !OccursAt(s, pat, k)
    decreases |s| - start
  {
    if start + |pat| > |s| then None
    else if s[start..start + |pat|] == pat then Some(start)
    else Find(s, pat, start + 1)
  }

  predicate StartsWith(s: string, prefix: string) {
    |prefix| <= |s| && s[..|prefix|] == prefix
  }

  predicate EndsWith(s: string, suffix: string) {
    |suffix| <= |s| && s[|s| - |suffix|..] == suffix
  }

  /** Python's `s.split(sep)` for a one-character separator: every
      occurrence cuts, so empty pieces survive. */
  function SplitOn(s: string, sep: char): (parts: seq<string>)
    ensures |parts| == multiset(s)[sep] + 1
    ensures forall k :: 0 <= k < |parts| ==> sep !in parts[k]
  {
    if |s| == 0 then [""]
    else
      var rest := SplitOn(s[1..], sep);
      assert s == [s[0]] + s[1..];
      if s[0] == sep then [""] + rest
      else [[s[0]] + rest[0]] + rest[1..]
  }

  /** Python's `sep.join(parts)`. */
  function JoinWith(parts: seq<string>, sep: char): string
    requires |parts| >= 1
  {
    if |parts| == 1 then parts[0] else parts[0] + [sep] + JoinWith(parts[1..], sep)
  }

  /** Splitting then joining gives back the text. */
  lemma {:induction false} JoinSplit(s: string, sep: char)
    ensures JoinWith(SplitOn(s, sep), sep) == s
  {
    if |s| > 0 {
      var rest := SplitOn(s[1..], sep);
      JoinSplit(s[1..], sep);
      if s[0] == sep {
        JoinEmptyHead(rest, sep);
      } else {
        JoinConsHead(s[0], rest, sep);
      }
      assert [s[0]] + s[1..] == s;
    }
  }

  lemma JoinEmptyHead(parts: seq<string>, sep: char)
    requires |parts| >= 1
    ensures JoinWith([""] + parts, sep) == [sep] + JoinWith(parts, sep)
  {
    assert ([""] + parts)[1..] == parts;
  }

  lemma JoinConsHead(c: char, parts: seq<string>, sep: char)
    requires |parts| >= 1
    ensures JoinWith([[c] + parts[0]] + parts[1..], sep) == [c] + JoinWith(parts, sep)
  {
    var ps := [[c] + parts[0]] + parts[1..];
    if |parts| > 1 {
      assert ps[1..] == parts[1..];
    }
  }

  /** Joining separator-free pieces then splitting gives back the pieces. */
  lemma {:induction false} SplitJoin(parts: seq<string>, sep: char)
    requires |parts| >= 1
    requires forall k :: 0 <= k < |parts| ==> sep !in parts[k]
    ensures SplitOn(JoinWith(parts, sep), sep) == parts
  {
    if |parts| == 1 {
      SplitNoSep(parts[0], sep);
    } else {
      SplitJoin(parts[1..], sep);
      SplitPrefix(parts[0], JoinWith(parts[1..], sep), sep);
    }
  }

  lemma {:induction false} SplitNoSep(s: string, sep: char)
    requires sep !in s
    ensures SplitOn(s, sep) == [s]
  {
    if |s| > 0 {
      assert sep !in s[1..] by { assert forall k :: 0 <= k < |s| - 1 ==> s[1..][k] == s[k + 1]; }
      SplitNoSep(s[1..], sep);
      assert s[0] != sep && [s[0]] + s[1..] == s;
    }
  }

  /** A separator-free head followed by a separator splits off as one piece. */
  lemma {:induction false} SplitPrefix(head: string, tail: string, sep: char)
    requires sep !in head
    ensures SplitOn(head + [sep] + tail, sep) == [head] + SplitOn(tail, sep)
  {
    var s := head + [sep] + tail;
    if |head| == 0 {
      assert s[1..] == tail;
    } else {
      assert s[1..] == head[1..] + [sep] + tail;
      assert sep !in head[1..] by { assert forall k :: 0 <= k < |head| - 1 ==> head[1..][k] == head[k + 1]; }
      SplitPrefix(head[1..], tail, sep);
      assert [head[0]] + head[1..] == head;
    }
  }

  /** Python's `str.lower()` on ASCII letters; every other character is kept. */
  function LowerChar(c: char): char {
    if 'A' <= c <= 'Z' then (c as int + 32) as char else c
  }

  /** Python's `str.upper()` on ASCII letters; every other character is kept. */
  function UpperChar(c: char): char {
    if 'a' <= c <= 'z' then (c as int - 32) as char else c
  }

  function Lower(s: string): (r: string)
    ensures |r| == |s|
    ensures forall k :: 0 <= k < |s| ==> r[k] == LowerChar(s[k])
  {
    seq(|s|, k requires 0 <= k < |s| => LowerChar(s[k]))
  }

  function Upper(s: string): (r: string)
    ensures |r| == |s|
    ensures forall k :: 0 <= k < |s| ==> r[k] == UpperChar(s[k])
  {
    seq(|s|, k requires 0 <= k < |s| => UpperChar(s[k]))
  }

  /** Upper-casing twice is upper-casing once. */
  lemma UpperIdempotent(s: string)
    ensures Upper(Upper(s)) == Upper(s)
  {
    forall k | 0 <= k < |s| ensures Upper(Upper(s))[k] == Upper(s)[k] {
      assert UpperChar(UpperChar(s[k])) == UpperChar(s[k]);
    }
  }
}
