/** The few Python `str` operations the scrapers rely on, on `seq<char>`. */
module Strings {
  import opened Common

  /** Python's `str.isspace()`: the characters `str.strip()` removes. */
  predicate IsSpace(c: char) {
    || c == ' ' || c == '\t' || c == '\n' || c == '\r' || c == '\U{B}' || c == '\U{C}'
    || ('\U{1C}' <= c <= '\U{1F}')
    || c == '\U{85}' || c == '\U{A0}' || c == '\U{1680}'
    || ('\U{2000}' <= c <= '\U{200A}')
    || c == '\U{2028}' || c == '\U{2029}' || c == '\U{202F}' || c == '\U{205F}' || c == '\U{3000}'
  }

  predicate AllSpace(s: string) {
    forall i :: 0 <= i < |s| ==> IsSpace(s[i])
  }

  function StripLeading(s: string): (r: string)
    ensures |r| <= |s| && r == s[|s| - |r|..]
    ensures AllSpace(s[..|s| - |r|])
    ensures r == [] || !IsSpace(r[0])
  {
    if s != [] && IsSpace(s[0]) then StripLeading(s[1..]) else s
  }

  function StripTrailing(s: string): (r: string)
    ensures |r| <= |s| && r == s[..|r|]
    ensures AllSpace(s[|r|..])
    ensures r == [] || !IsSpace(r[|r| - 1])
  {
    if s != [] && IsSpace(s[|s| - 1]) then StripTrailing(s[..|s| - 1]) else s
  }

  /** Slices of a suffix are slices of the whole. */
  lemma SuffixSlices(s: string, i: nat, j: nat)
    requires i + j <= |s|
    ensures s[i..][..j] == s[i..i + j] && s[i..][j..] == s[i + j..]
  {
  }

  /** Stripping trailing whitespace leaves the first character where it was. */
  lemma TrailingKeepsHead(t: string)
    ensures StripTrailing(t) == [] || StripTrailing(t)[0] == t[0]
  {
    var r := StripTrailing(t);
    if r != [] {
      assert r[0] == t[..|r|][0];
    }
  }

  /** `r` sits at `i` in `s`, with only whitespace before and after it. */
  predicate PaddedAt(s: string, r: string, i: nat) {
    && i + |r| <= |s| && s[i..i + |r|] == r && AllSpace(s[..i]) && AllSpace(s[i + |r|..])
  }

  /** Where the kept text sits: after the leading whitespace, before the trailing whitespace. */
  lemma StripPosition(s: string)
    ensures PaddedAt(s, StripTrailing(StripLeading(s)), |s| - |StripLeading(s)|)
  {
    var t := StripLeading(s);
    var r := StripTrailing(t);
    var i := |s| - |t|;
    assert t == s[i..] && AllSpace(s[..i]);
    assert r == t[..|r|] && AllSpace(t[|r|..]);
    SuffixSlices(s, i, |r|);
    assert PaddedAt(s, r, i);
  }

  /** Python's `s.strip()`: `s` is `Strip(s)` with whitespace on both sides. */
  function Strip(s: string): (r: string)
    ensures exists i :: PaddedAt(s, r, i)
    ensures r == [] || (!IsSpace(r[0]) && !IsSpace(r[|r| - 1]))
  {
    StripPosition(s);
    TrailingKeepsHead(StripLeading(s));
    StripTrailing(StripLeading(s))
  }

  /** Stripping is idempotent. */
  lemma StripIdempotent(s: string)
    ensures Strip(Strip(s)) == Strip(s)
  {
    var r := Strip(s);
    if r != [] {
      assert StripLeading(r) == r;
      assert StripTrailing(r) == r;
    }
  }

  /** Stripping yields the empty string exactly when the input is all whitespace. */
  lemma StripEmptyIff(s: string)
    ensures Strip(s) == [] <==> AllSpace(s)
  {
  }

  /** ASCII case folding; the keywords the scrapers test for are ASCII. */
  function LowerChar(c: char): char {
    if 'A' <= c <= 'Z' then (c as int + 32) as char else c
  }

  function Lower(s: string): (r: string)
    ensures |r| == |s|
    ensures forall i :: 0 <= i < |s| ==> r[i] == LowerChar(s[i])
  {
    seq(|s|, i requires 0 <= i < |s| => LowerChar(s[i]))
  }

  predicate OccursAt(s: string, t: string, i: int) {
    0 <= i && i + |t| <= |s| && s[i..i + |t|] == t
  }

  /** Python's `t in s`. */
  predicate Contains(s: string, t: string) {
    exists i :: 0 <= i <= |s| && OccursAt(s, t, i)
  }

  predicate StartsWith(s: string, prefix: string) {
    |prefix| <= |s| && s[..|prefix|] == prefix
  }

  /** The first occurrence of `t` in `s` at or after `from` (Python's `s.find(t, from)`). */
  function IndexFrom(s: string, t: string, from: nat): (r: Option<nat>)
    requires from <= |s|
    decreases |s| - from
    ensures r.Some? ==> from <= r.value <= |s| && OccursAt(s, t, r.value)
    ensures r.Some? ==> forall j :: from <= j < r.value ==> !OccursAt(s, t, j)
    ensures r.None? ==> forall j :: from <= j <= |s| ==> !OccursAt(s, t, j)
  {
    if OccursAt(s, t, from) then Some(from)
    else if from == |s| then None
    else IndexFrom(s, t, from + 1)
  }

  lemma ContainsIffFound(s: string, t: string)
    ensures Contains(s, t) <==> IndexFrom(s, t, 0).Some?
  {
  }

  /** An occurrence inside a prefix is an occurrence in the whole string. */
  lemma OccursInPrefix(s: string, t: string, n: nat, j: int)
    requires n <= |s|
    requires OccursAt(s[..n], t, j)
    ensures OccursAt(s, t, j)
  {
    assert s[..n][j..j + |t|] == s[j..j + |t|];
  }

  /** An occurrence inside a suffix is an occurrence in the whole string, shifted. */
  lemma OccursInSuffix(s: string, t: string, n: nat, j: int)
    requires n <= |s|
    requires OccursAt(s[n..], t, j)
    ensures OccursAt(s, t, n + j)
  {
    assert s[n..][j..j + |t|] == s[n + j..n + j + |t|];
  }

  /** A one-character needle occurs exactly where that character is. */
  lemma ContainsChar(s: string, c: char)
    ensures Contains(s, [c]) <==> c in s
  {
    if c in s {
      var i :| 0 <= i < |s| && s[i] == c;
      assert OccursAt(s, [c], i);
    }
    if Contains(s, [c]) {
      var i :| 0 <= i <= |s| && OccursAt(s, [c], i);
      assert s[i] == c;
    }
  }

  /** Python's `s.split(sep)` for a non-empty separator: left to right, non-overlapping. */
  function Split(s: string, sep: string): (parts: seq<string>)
    requires sep != []
    decreases |s|
    ensures |parts| >= 1
    ensures Join(parts, sep) == s
    ensures forall k :: 0 <= k < |parts| ==> !Contains(parts[k], sep)
  {
    match IndexFrom(s, sep, 0)
    case None => [s]
    case Some(i) =>
      var head := s[..i];
      var rest := Split(s[i + |sep|..], sep);
      assert !Contains(head, sep) by {
        forall j | 0 <= j <= |head| && OccursAt(head, sep, j)
          ensures false
        {
          OccursInPrefix(s, sep, i, j);
        }
      }
      assert s == head + sep + s[i + |sep|..];
      [head] + rest
  }

  /** The inverse of `Split`: Python's `sep.join(parts)`. */
  function Join(parts: seq<string>, sep: string): string
    requires |parts| >= 1
  {
    if |parts| == 1 then parts[0] else parts[0] + sep + Join(parts[1..], sep)
  }

  /** The first segment of a split is the text before the first separator. */
  lemma SplitHead(s: string, sep: string)
    requires sep != []
    ensures IndexFrom(s, sep, 0).None? ==> Split(s, sep) == [s]
    ensures IndexFrom(s, sep, 0).Some? ==>
      var i := IndexFrom(s, sep, 0).value;
      |Split(s, sep)| >= 2 && Split(s, sep)[0] == s[..i]
      && Split(s, sep)[1] == Split(s[i + |sep|..], sep)[0]
  {
  }

  /** Splitting yields more than one segment exactly when the separator occurs. */
  lemma SplitMany(s: string, sep: string)
    requires sep != []
    ensures |Split(s, sep)| > 1 <==> Contains(s, sep)
  {
    ContainsIffFound(s, sep);
  }

  function Last<T>(xs: seq<T>): T
    requires xs != []
  {
    xs[|xs| - 1]
  }

  /** The last segment of a split is everything after some occurrence of the separator, or the whole text. */
  lemma {:induction false} SplitLast(s: string, sep: string)
    requires sep != []
    decreases |s|
    ensures |Split(s, sep)| == 1 ==> Last(Split(s, sep)) == s
    ensures |Split(s, sep)| > 1 ==>
      exists i :: 0 <= i <= |s| - |sep| && OccursAt(s, sep, i) && Last(Split(s, sep)) == s[i + |sep|..]
  {
    match IndexFrom(s, sep, 0)
    case None =>
    case Some(i) =>
      var rest := s[i + |sep|..];
      SplitLast(rest, sep);
      SplitCons(s, sep, i);
      if |Split(rest, sep)| > 1 {
        var j :| 0 <= j <= |rest| - |sep| && OccursAt(rest, sep, j) && Last(Split(rest, sep)) == rest[j + |sep|..];
        LaterOccurrence(s, sep, i + |sep|, j);
      }
  }

  /** Past the first separator, the split goes on with the rest of the text. */
  lemma SplitCons(s: string, sep: string, i: nat)
    requires sep != [] && IndexFrom(s, sep, 0) == Some(i)
    ensures |Split(s, sep)| > 1
    ensures Last(Split(s, sep)) == Last(Split(s[i + |sep|..], sep))
  {
    SplitUnfold(s, sep, i);
    LastOfCons(s[..i], Split(s[i + |sep|..], sep));
  }

  lemma SplitUnfold(s: string, sep: string, i: nat)
    requires sep != [] && IndexFrom(s, sep, 0) == Some(i)
    ensures Split(s, sep) == [s[..i]] + Split(s[i + |sep|..], sep)
  {
  }

  lemma LastOfCons<T>(x: T, xs: seq<T>)
    requires xs != []
    ensures Last([x] + xs) == Last(xs)
  {
  }

  /** An occurrence in a suffix, and what follows it, seen from the whole text. */
  lemma LaterOccurrence(s: string, sep: string, n: nat, j: nat)
    requires n <= |s| && OccursAt(s[n..], sep, j)
    ensures OccursAt(s, sep, n + j) && s[n..][j + |sep|..] == s[n + j + |sep|..]
  {
    OccursInSuffix(s, sep, n, j);
  }

  /** `s.split(sep)[-1]`: what follows the last separator, or all of `s` without one. */
  function LastSegment(s: string, sep: string): (r: string)
    requires sep != []
    ensures !Contains(r, sep)
    ensures !Contains(s, sep) ==> r == s
    ensures Contains(s, sep) ==>
      exists i :: 0 <= i <= |s| - |sep| && OccursAt(s, sep, i) && r == s[i + |sep|..]
  {
    var parts := Split(s, sep);
    SplitLast(s, sep);
    SplitMany(s, sep);
    parts[|parts| - 1]
  }
}
