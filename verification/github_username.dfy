/**
 * `extract_username`: `re.search(r"(?:https?://)?(?:www\.)?github\.com/([^/?#]+)", url)`
 * and its first group.
 */
module GithubUsername {
  import opened Common
  import opened Strings
  import opened Patterns

  const Host: string := "github.com/"

  /** The optional scheme and `www.`, in the order backtracking tries them. */
  const Prefixes: seq<string> := ["https://www.", "https://", "http://www.", "http://", "www.", ""]

  const Stops: seq<char> := ['/', '?', '#']

  /** Each prefix followed by the host. */
  function WithHost(prefixes: seq<string>, host: string): (r: seq<string>)
    ensures |r| == |prefixes| && forall k :: 0 <= k < |prefixes| ==> r[k] == prefixes[k] + host
  {
    seq(|prefixes|, k requires 0 <= k < |prefixes| => prefixes[k] + host)
  }

  const GithubPattern := Pattern(WithHost(Prefixes, Host), Stops)

  /** The same search with the optional parts dropped. */
  const HostPattern := Pattern([Host], Stops)

  /** Optional prefixes that cannot begin the host. */
  predicate PrefixesAvoidHost(prefixes: seq<string>, host: string) {
    host != [] && forall k :: 0 <= k < |prefixes| ==> host[0] !in prefixes[k]
  }

  /** A match at `p` through prefix `k` is a host match where the prefix ends, and no host starts inside the prefix. */
  lemma PrefixedMatchIsHostMatch(prefixes: seq<string>, host: string, stops: seq<char>, s: string, p: nat, k: nat)
    requires PrefixesAvoidHost(prefixes, host)
    requires p <= |s| && k < |prefixes|
    requires HeadMatches(Pattern(WithHost(prefixes, host), stops), s, p, k)
    ensures p + |prefixes[k]| <= |s|
    ensures HeadMatches(Pattern([host], stops), s, p + |prefixes[k]|, 0)
    ensures forall j :: p <= j < p + |prefixes[k]| ==> s[j] != host[0]
  {
    var n := |prefixes[k]|;
    var head := prefixes[k] + host;
    assert s[p..][..|head|] == head;
    assert s[p + n..][..|host|] == head[n..];
    forall j | p <= j < p + n
      ensures s[j] != host[0]
    {
      assert s[j] == head[j - p] == prefixes[k][j - p];
    }
  }

  /** Where the host matches, the prefixed pattern matches with the same group. */
  lemma HostMatchIsPrefixedMatch(prefixes: seq<string>, host: string, stops: seq<char>, s: string, q: nat)
    requires PrefixesAvoidHost(prefixes, host)
    requires |prefixes| > 0 && prefixes[|prefixes| - 1] == []
    requires q <= |s| && MatchAt(Pattern([host], stops), s, q).Some?
    ensures MatchAt(Pattern(WithHost(prefixes, host), stops), s, q) == MatchAt(Pattern([host], stops), s, q)
  {
    var full := Pattern(WithHost(prefixes, host), stops);
    var hp := Pattern([host], stops);
    assert HeadMatches(hp, s, q, 0);
    assert full.heads[|prefixes| - 1] == host;
    assert HeadMatches(full, s, q, |prefixes| - 1);
    var k := FirstHead(full, s, q, 0).value;
    PrefixedMatchIsHostMatch(prefixes, host, stops, s, q, k);
    assert s[q..][..|host|] == host;
    assert prefixes[k] == [];
    assert full.heads[k] == host;
  }

  /** A host match starts with the host's first character. */
  lemma HostMatchStart(host: string, stops: seq<char>, s: string, q: nat)
    requires host != [] && q <= |s| && MatchAt(Pattern([host], stops), s, q).Some?
    ensures q < |s| && s[q] == host[0]
  {
    assert HeadMatches(Pattern([host], stops), s, q, 0);
    assert s[q..][..|host|] == host;
  }

  lemma HostMatchIsPrefixedMatchIf(prefixes: seq<string>, host: string, stops: seq<char>, s: string, q: nat)
    requires PrefixesAvoidHost(prefixes, host)
    requires |prefixes| > 0 && prefixes[|prefixes| - 1] == []
    requires q <= |s|
    ensures MatchAt(Pattern([host], stops), s, q).Some? ==>
      MatchAt(Pattern(WithHost(prefixes, host), stops), s, q) == MatchAt(Pattern([host], stops), s, q)
  {
    if MatchAt(Pattern([host], stops), s, q).Some? {
      HostMatchIsPrefixedMatch(prefixes, host, stops, s, q);
    }
  }

  lemma HostMatchStartIf(host: string, stops: seq<char>, s: string, q: nat)
    requires host != [] && q <= |s|
    ensures MatchAt(Pattern([host], stops), s, q).Some? ==> q < |s| && s[q] == host[0]
  {
    if MatchAt(Pattern([host], stops), s, q).Some? {
      HostMatchStart(host, stops, s, q);
    }
  }

  /** The group of a host match is the run after the host. */
  lemma HostMatchValue(host: string, stops: seq<char>, s: string, q: nat)
    requires q <= |s| && HeadMatches(Pattern([host], stops), s, q, 0)
    ensures MatchAt(Pattern([host], stops), s, q) == Some(Run(s, q + |host|, stops))
  {
    assert FirstHead(Pattern([host], stops), s, q, 0) == Some(0);
  }

  /** A prefixed match gives the same group as the host match where its prefix ends. */
  lemma PrefixedMatchGroup(prefixes: seq<string>, host: string, stops: seq<char>, s: string, p: nat, k: nat)
    requires PrefixesAvoidHost(prefixes, host)
    requires p <= |s| && FirstHead(Pattern(WithHost(prefixes, host), stops), s, p, 0) == Some(k)
    ensures k < |prefixes| && p + |prefixes[k]| <= |s|
    ensures MatchAt(Pattern([host], stops), s, p + |prefixes[k]|) == MatchAt(Pattern(WithHost(prefixes, host), stops), s, p)
  {
    var full := Pattern(WithHost(prefixes, host), stops);
    MatchThrough(full, s, p, k);
    PrefixedMatchIsHostMatch(prefixes, host, stops, s, p, k);
    HeadLength(prefixes, host, k);
    HostMatchValue(host, stops, s, p + |prefixes[k]|);
  }

  lemma HeadLength(prefixes: seq<string>, host: string, k: nat)
    requires k < |prefixes|
    ensures |WithHost(prefixes, host)[k]| == |prefixes[k]| + |host|
  {
  }

  /** Before the leftmost prefixed match there is no prefixed match, and inside its prefix no host can start. */
  lemma NoHostMatchAt(prefixes: seq<string>, host: string, stops: seq<char>, s: string, p: nat, q: nat)
    requires PrefixesAvoidHost(prefixes, host)
    requires |prefixes| > 0 && prefixes[|prefixes| - 1] == []
    requires q <= |s|
    requires q < p ==> MatchAt(Pattern(WithHost(prefixes, host), stops), s, q).None?
    requires p <= q < |s| ==> s[q] != host[0]
    ensures MatchAt(Pattern([host], stops), s, q).None?
  {
    HostMatchIsPrefixedMatchIf(prefixes, host, stops, s, q);
    HostMatchStartIf(host, stops, s, q);
  }

  lemma NoHostMatchBeforeLeftmost(prefixes: seq<string>, host: string, stops: seq<char>, s: string, p: nat, q: nat)
    requires PrefixesAvoidHost(prefixes, host)
    requires |prefixes| > 0 && prefixes[|prefixes| - 1] == []
    requires p <= q <= |s| && LeftmostAt(Pattern(WithHost(prefixes, host), stops), s, 0, p)
    requires forall j :: p <= j < q ==> s[j] != host[0]
    ensures forall j :: 0 <= j < q ==> MatchAt(Pattern([host], stops), s, j).None?
  {
    forall j | 0 <= j < q
      ensures MatchAt(Pattern([host], stops), s, j).None?
    {
      NoHostMatchAt(prefixes, host, stops, s, p, j);
    }
  }

  /** The leftmost prefixed match carries the group of the leftmost host match. */
  lemma LeftmostPrefixedMatch(prefixes: seq<string>, host: string, stops: seq<char>, s: string, p: nat)
    requires PrefixesAvoidHost(prefixes, host)
    requires |prefixes| > 0 && prefixes[|prefixes| - 1] == []
    requires p <= |s| && LeftmostAt(Pattern(WithHost(prefixes, host), stops), s, 0, p)
    ensures Search(Pattern([host], stops), s) == MatchAt(Pattern(WithHost(prefixes, host), stops), s, p)
  {
    var full := Pattern(WithHost(prefixes, host), stops);
    var hp := Pattern([host], stops);
    assert MatchAt(full, s, p).Some?;
    var k :| FirstHead(full, s, p, 0) == Some(k);
    PrefixedMatchGroup(prefixes, host, stops, s, p, k);
    PrefixedMatchIsHostMatch(prefixes, host, stops, s, p, k);
    var q := p + |prefixes[k]|;
    NoHostMatchBeforeLeftmost(prefixes, host, stops, s, p, q);
    assert LeftmostAt(hp, s, 0, q);
    SearchIsLeftmost(hp, s, q);
  }

  /** When the prefixed search finds a leftmost match, the host search finds the same group. */
  lemma PrefixedSearchFound(prefixes: seq<string>, host: string, stops: seq<char>, s: string)
    requires PrefixesAvoidHost(prefixes, host)
    requires |prefixes| > 0 && prefixes[|prefixes| - 1] == []
    requires Search(Pattern(WithHost(prefixes, host), stops), s).Some?
    ensures Search(Pattern(WithHost(prefixes, host), stops), s) == Search(Pattern([host], stops), s)
  {
    var full := Pattern(WithHost(prefixes, host), stops);
    var p :| 0 <= p <= |s| && LeftmostAt(full, s, 0, p) && Search(full, s) == MatchAt(full, s, p);
    LeftmostPrefixedMatch(prefixes, host, stops, s, p);
  }

  /** Optional prefixes that cannot begin the host never change the group: searching for the host alone finds the same. */
  lemma PrefixedSearchIsHostSearch(prefixes: seq<string>, host: string, stops: seq<char>, s: string)
    requires PrefixesAvoidHost(prefixes, host)
    requires |prefixes| > 0 && prefixes[|prefixes| - 1] == []
    ensures Search(Pattern(WithHost(prefixes, host), stops), s) == Search(Pattern([host], stops), s)
  {
    if Search(Pattern(WithHost(prefixes, host), stops), s).Some? {
      PrefixedSearchFound(prefixes, host, stops, s);
    } else {
      forall q | 0 <= q <= |s|
        ensures MatchAt(Pattern([host], stops), s, q).None?
      {
        if MatchAt(Pattern([host], stops), s, q).Some? {
          HostMatchIsPrefixedMatch(prefixes, host, stops, s, q);
        }
      }
    }
  }

  /** A host match is an occurrence of the host followed by the group. */
  lemma HostMatchShape(host: string, stops: seq<char>, s: string, q: nat)
    requires q <= |s| && MatchAt(Pattern([host], stops), s, q).Some?
    ensures q <= |s| - |host| && OccursAt(s, host, q)
    ensures MatchAt(Pattern([host], stops), s, q).value == Run(s, q + |host|, stops)
  {
    assert HeadMatches(Pattern([host], stops), s, q, 0);
    assert s[q..][..|host|] == host;
  }

  /** A successful host search is the run after the leftmost occurrence of the host that a group character follows. */
  lemma HostSearchShape(host: string, stops: seq<char>, s: string)
    ensures Search(Pattern([host], stops), s).Some? ==>
      exists q :: 0 <= q <= |s| - |host| && LeftmostAt(Pattern([host], stops), s, 0, q)
        && OccursAt(s, host, q) && Search(Pattern([host], stops), s).value == Run(s, q + |host|, stops)
  {
    var hp := Pattern([host], stops);
    if Search(hp, s).Some? {
      var q :| 0 <= q <= |s| && LeftmostAt(hp, s, 0, q) && Search(hp, s) == MatchAt(hp, s, q);
      HostMatchShape(host, stops, s, q);
    }
  }

  lemma GithubPrefixesAvoidHost()
    ensures PrefixesAvoidHost(Prefixes, Host)
    ensures |Prefixes| > 0 && Prefixes[|Prefixes| - 1] == []
  {
    assert Host[0] == 'g';
  }

  /**
   * The username: the run of characters other than `/`, `?` and `#` right
   * after the first `github.com/` that is followed by at least one of them.
   */
  function ExtractUsername(url: string): (r: Option<string>)
    ensures r.None? <==> forall q :: 0 <= q <= |url| ==> MatchAt(HostPattern, url, q).None?
    ensures r.Some? ==> exists q :: 0 <= q <= |url| - |Host| && LeftmostAt(HostPattern, url, 0, q)
                          && OccursAt(url, Host, q) && r.value == Run(url, q + |Host|, Stops) && r.value != []
  {
    GithubPrefixesAvoidHost();
    PrefixedSearchIsHostSearch(Prefixes, Host, Stops, url);
    HostSearchShape(Host, Stops, url);
    Search(GithubPattern, url)
  }

  /** The host followed by a segment and a stop (or the end) matches there, with that segment. */
  lemma SegmentAfterHost(host: string, stops: seq<char>, s: string, q: nat, u: string)
    requires OccursAt(s, host, q) && u != [] && OccursAt(s, u, q + |host|)
    requires forall c :: c in u ==> c !in stops
    requires q + |host| + |u| == |s| || s[q + |host| + |u|] in stops
    ensures MatchAt(Pattern([host], stops), s, q) == Some(u)
  {
    var n := q + |host|;
    assert s[n] == s[n..n + |u|][0] == u[0];
    assert u[0] in u;
    HostHeadAt(host, stops, s, q);
    HostMatchValue(host, stops, s, q);
    SegmentRun(s, n, u, stops);
  }

  /** An occurrence of the host followed by a group character is where the host pattern's head matches. */
  lemma HostHeadAt(host: string, stops: seq<char>, s: string, q: nat)
    requires OccursAt(s, host, q) && q + |host| < |s| && s[q + |host|] !in stops
    ensures HeadMatches(Pattern([host], stops), s, q, 0)
  {
    assert s[q..][..|host|] == host;
  }

  /** A segment free of stops, followed by a stop or the end, is the run where it starts. */
  lemma SegmentRun(s: string, n: nat, u: string, stops: seq<char>)
    requires OccursAt(s, u, n)
    requires forall c :: c in u ==> c !in stops
    requires n + |u| == |s| || s[n + |u|] in stops
    ensures Run(s, n, stops) == u
  {
    forall k | n <= k < n + |u|
      ensures s[k] !in stops
    {
      assert s[k] == u[k - n];
    }
    RunUntil(s, n, n + |u|, stops);
  }

  /** No host match starts where the host's first character is absent. */
  lemma NoHostMatchBefore(host: string, stops: seq<char>, s: string, q: nat)
    requires host != [] && q <= |s|
    requires forall j :: 0 <= j < q ==> s[j] != host[0]
    ensures forall j :: 0 <= j < q ==> MatchAt(Pattern([host], stops), s, j).None?
  {
    forall j | 0 <= j < q
      ensures MatchAt(Pattern([host], stops), s, j).None?
    {
      if MatchAt(Pattern([host], stops), s, j).Some? {
        HostMatchStart(host, stops, s, j);
      }
    }
  }

  /** The first occurrence of the host, followed by a segment and a stop or the end, gives that segment. */
  lemma FirstHostSearch(host: string, stops: seq<char>, s: string, q: nat, u: string)
    requires host != [] && OccursAt(s, host, q) && u != [] && OccursAt(s, u, q + |host|)
    requires forall c :: c in u ==> c !in stops
    requires q + |host| + |u| == |s| || s[q + |host| + |u|] in stops
    requires forall j :: 0 <= j < q ==> s[j] != host[0]
    ensures Search(Pattern([host], stops), s) == Some(u)
  {
    SegmentAfterHost(host, stops, s, q, u);
    NoHostMatchBefore(host, stops, s, q);
    SearchIsLeftmost(Pattern([host], stops), s, q);
  }

  /**
   * Before the first `github.com/`, a scheme or other text without a `g`;
   * after it, a segment free of `/`, `?` and `#`, then anything that begins
   * with one of them: the segment is the username.
   */
  lemma UsernameAfterHost(prefix: string, u: string, rest: string)
    requires 'g' !in prefix
    requires u != [] && forall c :: c in u ==> c !in Stops
    requires rest == [] || rest[0] in Stops
    ensures ExtractUsername(prefix + Host + u + rest) == Some(u)
  {
    var s := prefix + Host + u + rest;
    var q := |prefix|;
    assert s[q..q + |Host|] == Host;
    assert s[q + |Host|..q + |Host| + |u|] == u;
    assert q + |Host| + |u| < |s| ==> s[q + |Host| + |u|] == rest[0];
    assert forall j :: 0 <= j < q ==> s[j] == prefix[j];
    assert Host[0] == 'g';
    FirstHostSearch(Host, Stops, s, q, u);
    GithubPrefixesAvoidHost();
    PrefixedSearchIsHostSearch(Prefixes, Host, Stops, s);
  }

  lemma ExampleParts()
    ensures 'g' !in "https://" && forall c :: c in "octocat" ==> c !in Stops
    ensures "?tab=repositories"[0] in Stops
  {
  }

  lemma ExampleUrl()
    ensures "https://github.com/octocat?tab=repositories" == "https://" + Host + "octocat" + "?tab=repositories"
  {
  }

  lemma UsernameExample()
    ensures ExtractUsername("https://github.com/octocat?tab=repositories") == Some("octocat")
  {
    ExampleParts();
    ExampleUrl();
    UsernameAfterHost("https://", "octocat", "?tab=repositories");
  }
}
