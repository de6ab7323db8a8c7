/**
 * `LinkedInScraper.validate_linkedin_url`: drop the query string, try three
 * patterns in order, and rebuild the canonical profile URL from the first
 * group found.
 */
module ProfileUrl {
  import opened Common
  import opened Strings
  import opened Patterns

  const ProfilePrefix: string := "https://www.linkedin.com/in/"

  /** `https?://(?:www\.)?linkedin\.com/in/([^/]+)/?` (the optional trailing slash never changes the group). */
  const StandardPattern := Pattern(
    ["https://www.linkedin.com/in/", "https://linkedin.com/in/",
     "http://www.linkedin.com/in/", "http://linkedin.com/in/"],
    ['/'])

  /** `https?://(?:www\.)?linkedin\.com/profile/view\?id=([^&]+)` */
  const IdPattern := Pattern(
    ["https://www.linkedin.com/profile/view?id=", "https://linkedin.com/profile/view?id=",
     "http://www.linkedin.com/profile/view?id=", "http://linkedin.com/profile/view?id="],
    ['&'])

  /** `([^/]+)`: a bare username, or the first slash-free run of anything else. */
  const BarePattern := Pattern([""], ['/'])

  datatype UrlError = InvalidProfileUrl

  /** A username the canonical URL can carry. */
  predicate ValidUsername(u: string) {
    u != [] && '/' !in u && '?' !in u
  }

  function ProfileUrlOf(u: string): string {
    ProfilePrefix + u + "/"
  }

  /** Python's `url.split("?")[0]`. */
  function BeforeQuery(url: string): (r: string)
    ensures '?' !in r
    ensures StartsWith(url, r)
    ensures r == url <==> '?' !in url
    ensures r != url ==> url[|r|] == '?'
  {
    SplitHead(url, "?");
    ContainsChar(url, '?');
    ContainsChar(Split(url, "?")[0], '?');
    Split(url, "?")[0]
  }

  function ValidateLinkedinUrl(url: string): (r: Result<string, UrlError>)
    ensures r.Ok? ==> exists u :: ValidUsername(u) && r.value == ProfileUrlOf(u)
    ensures r.Err? <==> forall i :: 0 <= i < |BeforeQuery(url)| ==> BeforeQuery(url)[i] == '/'
  {
    var q := BeforeQuery(url);
    var found :=
      match Search(StandardPattern, q)
      case Some(u) => Some(u)
      case None =>
        match Search(IdPattern, q)
        case Some(u) => Some(u)
        case None => Search(BarePattern, q);
    assert found.Some? ==> ValidUsername(found.value) by {
      if found.Some? {
        IdPatternNeverMatches(q);
      }
    }
    assert found.None? <==> forall i :: 0 <= i < |q| ==> q[i] == '/' by {
      BareMatchesIff(q);
      IdPatternNeverMatches(q);
      if Search(StandardPattern, q).Some? {
        var u := Search(StandardPattern, q).value;
        assert u[0] in q;
      }
    }
    match found
    case None => Err(InvalidProfileUrl)
    case Some(u) => Ok(ProfileUrlOf(u))
  }

  /** The `profile/view?id=` pattern needs a `?`, and the query was already cut off. */
  lemma IdPatternNeverMatches(q: string)
    requires '?' !in q
    ensures Search(IdPattern, q).None?
  {
    var heads := IdPattern.heads;
    assert heads[0][37] == '?';
    assert heads[1][33] == '?';
    assert heads[2][36] == '?';
    assert heads[3][32] == '?';
    SearchNeedsChar(IdPattern, q, '?');
  }

  /** The bare pattern matches exactly when some character is not a slash. */
  lemma BareMatchesIff(q: string)
    ensures Search(BarePattern, q).None? <==> forall i :: 0 <= i < |q| ==> q[i] == '/'
  {
    forall i | 0 <= i < |q| && q[i] != '/'
      ensures MatchAt(BarePattern, q, i).Some?
    {
      assert HeadMatches(BarePattern, q, i, 0);
    }
  }

  /** A canonical profile URL normalises to itself. */
  lemma CanonicalIsFixed(u: string)
    requires ValidUsername(u)
    ensures ValidateLinkedinUrl(ProfileUrlOf(u)) == Ok(ProfileUrlOf(u))
  {
    var s := ProfileUrlOf(u);
    assert '?' !in ProfilePrefix;
    assert '?' !in s;
    assert BeforeQuery(s) == s;
    var n := |ProfilePrefix|;
    assert s[..n] == ProfilePrefix;
    assert s[n] == u[0];
    assert HeadMatches(StandardPattern, s, 0, 0);
    assert s[n..n + |u|] == u;
    RunUntil(s, n, n + |u|, ['/']);
    assert MatchAt(StandardPattern, s, 0) == Some(u);
    SearchAtStart(StandardPattern, s);
  }

  /** Normalising twice is the same as normalising once. */
  lemma ValidateIdempotent(url: string)
    ensures ValidateLinkedinUrl(url).Ok? ==>
      ValidateLinkedinUrl(ValidateLinkedinUrl(url).value) == ValidateLinkedinUrl(url)
  {
    if ValidateLinkedinUrl(url).Ok? {
      var u :| ValidUsername(u) && ValidateLinkedinUrl(url).value == ProfileUrlOf(u);
      CanonicalIsFixed(u);
    }
  }

  /** Whatever follows the first `?` is ignored. */
  lemma QueryIgnored(base: string, query: string)
    requires '?' !in base
    ensures ValidateLinkedinUrl(base + "?" + query) == ValidateLinkedinUrl(base)
  {
    var url := base + "?" + query;
    assert url[|base|] == '?';
    assert '?' in url;
    assert StartsWith(url, BeforeQuery(url));
    assert BeforeQuery(url) == base;
  }

  /** The worked example: a tracking query is dropped. */
  lemma TrackingQueryExample()
    ensures ValidateLinkedinUrl("https://www.linkedin.com/in/jane-doe/?trk=abc")
         == Ok("https://www.linkedin.com/in/jane-doe/")
  {
    var base := ProfileUrlOf("jane-doe");
    assert base == "https://www.linkedin.com/in/jane-doe/";
    assert "https://www.linkedin.com/in/jane-doe/?trk=abc" == base + "?" + "trk=abc";
    assert ValidUsername("jane-doe");
    assert '?' !in base;
    QueryIgnored(base, "trk=abc");
    CanonicalIsFixed("jane-doe");
  }

  /** On a URL that begins with head `k` and then a group character, head `k` is the first to match. */
  lemma StandardHeadFirst(k: nat, rest: string)
    requires k < 4 && rest != [] && rest[0] != '/'
    ensures FirstHead(StandardPattern, StandardPattern.heads[k] + rest, 0, 0) == Some(k)
  {
    var heads := StandardPattern.heads;
    var s := heads[k] + rest;
    assert s[0..] == s;
    assert s[..|heads[k]|] == heads[k];
    assert s[|heads[k]|] == rest[0];
    assert HeadMatches(StandardPattern, s, 0, k);
    forall i | 0 <= i < k
      ensures !HeadMatches(StandardPattern, s, 0, i)
    {
      var j := if k == 1 then 8 else if i < 2 then 4 else 7;
      assert s[j] == heads[k][j] && heads[k][j] != heads[i][j];
      assert |heads[i]| > j;
      if |heads[i]| <= |s| {
        assert s[..|heads[i]|][j] == s[j];
      }
    }
  }

  /**
   * Any of the four `http(s)://(www.)linkedin.com/in/` forms, followed by
   * a username and then nothing or a path, normalises to that user's
   * canonical URL.
   */
  lemma StandardUrlUsername(k: nat, u: string, tail: string)
    requires k < 4 && ValidUsername(u) && '?' !in tail && (tail == [] || tail[0] == '/')
    ensures ValidateLinkedinUrl(StandardPattern.heads[k] + u + tail) == Ok(ProfileUrlOf(u))
  {
    var s := StandardPattern.heads[k] + u + tail;
    assert '?' !in StandardPattern.heads[k];
    assert '?' !in s;
    StandardSearch(k, u, tail);
    assert BeforeQuery(s) == s;
  }

  /** The standard pattern's search on such a URL yields the username. */
  lemma StandardSearch(k: nat, u: string, tail: string)
    requires k < 4 && ValidUsername(u) && (tail == [] || tail[0] == '/')
    ensures Search(StandardPattern, StandardPattern.heads[k] + u + tail) == Some(u)
  {
    var head := StandardPattern.heads[k];
    var s := head + u + tail;
    assert s == head + (u + tail);
    StandardHeadFirst(k, u + tail);
    MatchThrough(StandardPattern, s, 0, k);
    UsernameRun(head, u, tail);
    SearchAtStart(StandardPattern, s);
  }

  /** The slash-free run after the head is exactly the username. */
  lemma UsernameRun(head: string, u: string, tail: string)
    requires ValidUsername(u) && (tail == [] || tail[0] == '/')
    ensures Run(head + u + tail, |head|, ['/']) == u
  {
    var s := head + u + tail;
    forall i | |head| <= i < |head| + |u|
      ensures s[i] !in ['/']
    {
      assert s[i] == u[i - |head|];
    }
    assert s[|head|..|head| + |u|] == u;
    RunUntil(s, |head|, |head| + |u|, ['/']);
  }

  /** The same with a query string after it. */
  lemma StandardUrlWithQuery(k: nat, u: string, tail: string, query: string)
    requires k < 4 && ValidUsername(u) && '?' !in tail && (tail == [] || tail[0] == '/')
    ensures ValidateLinkedinUrl(StandardPattern.heads[k] + u + tail + "?" + query) == Ok(ProfileUrlOf(u))
  {
    var base := StandardPattern.heads[k] + u + tail;
    assert '?' !in StandardPattern.heads[k];
    QueryIgnored(base, query);
    StandardUrlUsername(k, u, tail);
  }

  lemma StandardNeedsH(s: string)
    requires 'h' !in s
    ensures Search(StandardPattern, s).None?
  {
    var heads := StandardPattern.heads;
    assert heads[0][0] == 'h' && heads[1][0] == 'h' && heads[2][0] == 'h' && heads[3][0] == 'h';
    SearchNeedsChar(StandardPattern, s, 'h');
  }

  /** A bare username with no `h` (so no `http` head can start) is taken whole by the last pattern. */
  lemma BareUsernameAccepted(u: string)
    requires ValidUsername(u) && 'h' !in u
    ensures ValidateLinkedinUrl(u) == Ok(ProfileUrlOf(u))
  {
    assert BeforeQuery(u) == u;
    StandardNeedsH(u);
    IdPatternNeverMatches(u);
    assert HeadMatches(BarePattern, u, 0, 0);
    RunUntil(u, 0, |u|, ['/']);
    SearchAtStart(BarePattern, u);
    assert Search(BarePattern, u) == Some(u);
  }

  lemma BareUsernameExample()
    ensures ValidateLinkedinUrl("jane-doe") == Ok("https://www.linkedin.com/in/jane-doe/")
  {
    var u := "jane-doe";
    assert ValidUsername(u) && 'h' !in u;
    assert ProfileUrlOf(u) == "https://www.linkedin.com/in/jane-doe/";
    BareUsernameAccepted(u);
  }
}
