/**
 * The regular expressions the scrapers search with all have one shape:
 * a choice of literal heads followed by a greedy group `([^stops]+)` that
 * ends the pattern. Python's `re.search` tries start positions left to
 * right and, at each one, the heads in the order backtracking visits them;
 * the group is then the longest run of non-stop characters, which is at
 * least one character long.
 */
module Patterns {
  import opened Common
  import opened Strings

  /** `heads` in the order the regex's backtracking tries them. */
  datatype Pattern = Pattern(heads: seq<string>, stops: seq<char>)

  /** The longest run of non-stop characters starting at `i`. */
  function Run(s: string, i: nat, stops: seq<char>): (r: string)
    requires i <= |s|
    decreases |s| - i
    ensures i + |r| <= |s| && r == s[i..i + |r|]
    ensures forall c :: c in r ==> c !in stops && c in s
    ensures i + |r| == |s| || s[i + |r|] in stops
  {
    if i < |s| && s[i] !in stops then [s[i]] + Run(s, i + 1, stops) else []
  }

  /** A run is determined by where it ends: the first stop character or the end. */
  lemma {:induction false} RunUntil(s: string, i: nat, j: nat, stops: seq<char>)
    requires i <= j <= |s|
    requires forall k :: i <= k < j ==> s[k] !in stops
    requires j == |s| || s[j] in stops
    ensures Run(s, i, stops) == s[i..j]
    decreases j - i
  {
    if i < j {
      RunUntil(s, i + 1, j, stops);
      assert s[i..j] == [s[i]] + s[i + 1..j];
    }
  }

  /** Head `k` leads to a match at `p`: it is a prefix there and a group character follows. */
  predicate HeadMatches(pat: Pattern, s: string, p: nat, k: int)
    requires p <= |s|
  {
    && 0 <= k < |pat.heads|
    && StartsWith(s[p..], pat.heads[k])
    && p + |pat.heads[k]| < |s|
    && s[p + |pat.heads[k]|] !in pat.stops
  }

  /** The first head, from index `k` on, that leads to a match at `p`. */
  function FirstHead(pat: Pattern, s: string, p: nat, k: nat): (r: Option<nat>)
    requires p <= |s| && k <= |pat.heads|
    decreases |pat.heads| - k
    ensures r.Some? ==> k <= r.value < |pat.heads| && HeadMatches(pat, s, p, r.value)
    ensures r.Some? ==> forall i :: k <= i < r.value ==> !HeadMatches(pat, s, p, i)
    ensures r.None? ==> forall i :: k <= i < |pat.heads| ==> !HeadMatches(pat, s, p, i)
  {
    if k == |pat.heads| then None
    else if HeadMatches(pat, s, p, k) then Some(k)
    else FirstHead(pat, s, p, k + 1)
  }

  /** The group captured by a match starting at `p`, if the pattern matches there. */
  function MatchAt(pat: Pattern, s: string, p: nat): (r: Option<string>)
    requires p <= |s|
    ensures r.None? <==> forall i :: 0 <= i < |pat.heads| ==> !HeadMatches(pat, s, p, i)
    ensures r.Some? ==> r.value != [] && forall c :: c in r.value ==> c !in pat.stops && c in s
  {
    match FirstHead(pat, s, p, 0)
    case None => None
    case Some(k) => Some(Run(s, p + |pat.heads[k]|, pat.stops))
  }

  /** The group of a match through head `k` is the run after that head. */
  lemma MatchThrough(pat: Pattern, s: string, p: nat, k: nat)
    requires p <= |s| && FirstHead(pat, s, p, 0) == Some(k)
    ensures k < |pat.heads| && p + |pat.heads[k]| <= |s|
    ensures MatchAt(pat, s, p) == Some(Run(s, p + |pat.heads[k]|, pat.stops))
  {
  }

  /** The pattern's leftmost match starts at `q` (searching from `p`). */
  predicate LeftmostAt(pat: Pattern, s: string, p: nat, q: nat)
    requires p <= q <= |s|
  {
    MatchAt(pat, s, q).Some? && forall i :: p <= i < q ==> MatchAt(pat, s, i).None?
  }

  /** `re.search` from position `p`: the group of the leftmost match. */
  function SearchFrom(pat: Pattern, s: string, p: nat): (r: Option<string>)
    requires p <= |s|
    decreases |s| - p
    ensures r.Some? ==> exists q :: p <= q <= |s| && LeftmostAt(pat, s, p, q) && r == MatchAt(pat, s, q)
    ensures r.None? <==> forall q :: p <= q <= |s| ==> MatchAt(pat, s, q).None?
  {
    var m := MatchAt(pat, s, p);
    if m.Some? then m
    else if p == |s| then None
    else
      var r := SearchFrom(pat, s, p + 1);
      assert r.Some? ==> exists q :: p <= q <= |s| && LeftmostAt(pat, s, p, q) && r == MatchAt(pat, s, q) by {
        if r.Some? {
          var q :| p + 1 <= q <= |s| && LeftmostAt(pat, s, p + 1, q) && r == MatchAt(pat, s, q);
          assert LeftmostAt(pat, s, p, q);
        }
      }
      r
  }

  /** Python's `re.search(pattern, s).group(1)`, or `None` when nothing matches. */
  function Search(pat: Pattern, s: string): Option<string> {
    SearchFrom(pat, s, 0)
  }

  /** When the pattern matches at the very start, that match is the one searched for. */
  lemma SearchAtStart(pat: Pattern, s: string)
    requires MatchAt(pat, s, 0).Some?
    ensures Search(pat, s) == MatchAt(pat, s, 0)
  {
  }

  /** The search's group is the match at whichever position is leftmost. */
  lemma SearchIsLeftmost(pat: Pattern, s: string, q: nat)
    requires q <= |s| && LeftmostAt(pat, s, 0, q)
    ensures Search(pat, s) == MatchAt(pat, s, q)
  {
    var r := Search(pat, s);
    var q2 :| 0 <= q2 <= |s| && LeftmostAt(pat, s, 0, q2) && r == MatchAt(pat, s, q2);
    assert !(q2 < q) && !(q < q2);
  }

  /** A pattern whose every head needs a character that `s` lacks never matches. */
  lemma SearchNeedsChar(pat: Pattern, s: string, c: char)
    requires forall k :: 0 <= k < |pat.heads| ==> c in pat.heads[k]
    requires c !in s
    ensures Search(pat, s).None?
  {
    forall q | 0 <= q <= |s|
      ensures MatchAt(pat, s, q).None?
    {
    }
  }
}
