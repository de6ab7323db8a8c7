/**
 * The GitHub side: two GraphQL calls (the contribution total and the
 * repository list), the checks each makes on the parsed reply, the mapping
 * from repository nodes to summaries, and the `{id, source, data}` envelope.
 * The HTTP exchange is a parameter: the request is recorded, and the reply
 * (or the transport failure) is given.
 */
module Github {
  import opened Common
  import opened Dates
  import GithubUsername

  const Endpoint: string := "https://api.github.com/graphql"

  /** `$first` in the repository query. */
  const RepositoryPageSize: nat := 100

  datatype Query = ContributionsQuery | RepositoriesQuery(first: nat)

  /** What `requests.post` sends: the endpoint, the `Authorization` header, the query and `$username`. */
  datatype Request = Request(endpoint: string, authorization: string, query: Query, username: Option<string>)

  /** The reply, or any `RequestException` (refused connection, an HTTP error status, a body that is not JSON). */
  datatype Transport<+T> = Delivered(reply: T) | RequestFailed(reason: string)

  /** An entry of the reply's `errors` list; `message` is `None` when the key is absent. */
  datatype GraphqlError = GraphqlError(message: Option<string>)

  /** `errors` is `None` when the key is absent; `user` is `None` when it is null. */
  datatype ContributionsReply = ContributionsReply(errors: Option<seq<GraphqlError>>, user: Option<ContributionsUser>)

  datatype ContributionsUser = ContributionsUser(totalContributions: int)

  /** An object with a `name`: a language, or a topic. */
  datatype Named = Named(name: string)

  datatype TopicNode = TopicNode(topic: Named)

  /**
   * `readme: object(expression: "HEAD:README.md") { ... on Blob { text } }`:
   * null when there is no such file, `{"text": ...}` for a file (the text is
   * null for binary content), `{}` when the path names something else.
   */
  datatype Readme = NoReadme | Blob(text: Option<string>) | OtherObject

  datatype RepoNode = RepoNode(
    name: string, description: Option<string>, url: string,
    stargazerCount: int, forkCount: int, watchers: int,
    languages: seq<Named>, languagesTotal: int,
    createdAt: DateField, updatedAt: DateField, isFork: bool,
    readme: Readme, topics: seq<TopicNode>,
    openIssues: int, closedIssues: int, openPullRequests: int, mergedPullRequests: int)

  /** `user.repositories.nodes`, `None` when null. */
  datatype UserRepositories = UserRepositories(nodes: Option<seq<RepoNode>>)

  datatype RepositoriesReply = RepositoriesReply(errors: Option<seq<GraphqlError>>, user: Option<UserRepositories>)

  /** The `{"error": ...}` dictionaries. */
  datatype GithubError =
    | TokenNotConfigured
    | ApiError(message: string)
    | UserNotFound(username: Option<string>)
    | NoRepositories(username: Option<string>)
    | FetchFailed(reason: string)
    | Unexpected

  /** How an f-string prints the username (`None` when there was none). */
  function UsernameText(u: Option<string>): string {
    match u
    case None => "None"
    case Some(s) => s
  }

  /** The text under `"error"`; the detail of an unexpected exception is not modelled. */
  function ErrorMessage(e: GithubError): string {
    match e
    case TokenNotConfigured => "GITHUB_TOKEN not configured"
    case ApiError(m) => m
    case UserNotFound(u) => "User " + UsernameText(u) + " not found"
    case NoRepositories(u) => "No repositories found for user " + UsernameText(u)
    case FetchFailed(reason) => "Failed to fetch data: " + reason
    case Unexpected => "An error occurred: "
  }

  /** `{"error": data["errors"][0]["message"]}`; an empty list or a missing message raises instead. */
  function ReportedError(errors: seq<GraphqlError>): (r: GithubError)
    ensures r.ApiError? <==> errors != [] && errors[0].message.Some?
    ensures r.ApiError? ==> r.message == errors[0].message.value
    ensures !r.ApiError? ==> r == Unexpected
  {
    if errors != [] && errors[0].message.Some? then ApiError(errors[0].message.value) else Unexpected
  }

  // ---- get_github_contributions -----------------------------------------------

  /** On success the dictionary has the one key `total_contributions`. */
  datatype Contributions = Contributions(totalContributions: int)

  function ContributionsRequest(username: Option<string>, token: string): Request {
    Request(Endpoint, "bearer " + token, ContributionsQuery, username)
  }

  /** The checks on a delivered reply, in the order the code makes them. */
  function ContributionsOf(reply: Transport<ContributionsReply>): (r: Result<Contributions, GithubError>)
    ensures reply.RequestFailed? ==> r == Err(FetchFailed(reply.reason))
    ensures reply.Delivered? && reply.reply.errors.Some? ==> r == Err(ReportedError(reply.reply.errors.value))
    ensures reply.Delivered? && reply.reply.errors.None? && reply.reply.user.None? ==> r == Err(Unexpected)
    ensures r.Ok? <==> reply.Delivered? && reply.reply.errors.None? && reply.reply.user.Some?
    ensures r.Ok? ==> r.value.totalContributions == reply.reply.user.value.totalContributions
    ensures r.Err? ==> r.error != TokenNotConfigured
  {
    match reply
    case RequestFailed(reason) => Err(FetchFailed(reason))
    case Delivered(data) =>
      if data.errors.Some? then Err(ReportedError(data.errors.value))
      else match data.user
        case None => Err(Unexpected)
        case Some(u) => Ok(Contributions(u.totalContributions))
  }

  /**
   * `get_github_contributions`: the result and the requests sent. A falsy
   * token is reported before anything is sent.
   */
  function GetGithubContributions(username: Option<string>, token: Option<string>, reply: Transport<ContributionsReply>)
    : (r: (Result<Contributions, GithubError>, seq<Request>))
    ensures !Truthy(token) <==> r.1 == []
    ensures !Truthy(token) ==> r.0 == Err(TokenNotConfigured)
    ensures Truthy(token) ==> r.1 == [ContributionsRequest(username, token.value)] && r.0 == ContributionsOf(reply)
    ensures r.0 == Err(TokenNotConfigured) <==> !Truthy(token)
  {
    if !Truthy(token) then (Err(TokenNotConfigured), [])
    else (ContributionsOf(reply), [ContributionsRequest(username, token.value)])
  }

  // ---- get_repository_info ----------------------------------------------------

  /** One entry of the returned list. */
  datatype RepoSummary = RepoSummary(
    name: string, description: Option<string>, url: string,
    stars: int, forks: int, watchers: int,
    languages: seq<string>, languagesCount: int,
    createdAt: Option<string>, updatedAt: Option<string>, isFork: bool,
    topics: seq<string>,
    openIssues: int, closedIssues: int, openPullRequests: int, mergedPullRequests: int,
    hasReadme: bool, readmeContent: Option<string>)

  /** `[lang["name"] for lang in ...]`. */
  function LanguageNames(ls: seq<Named>): (r: seq<string>)
    ensures |r| == |ls| && forall i :: 0 <= i < |ls| ==> r[i] == ls[i].name
  {
    seq(|ls|, i requires 0 <= i < |ls| => ls[i].name)
  }

  /** `[topic["topic"]["name"] for topic in ...]`. */
  function TopicNames(ts: seq<TopicNode>): (r: seq<string>)
    ensures |r| == |ts| && forall i :: 0 <= i < |ts| ==> r[i] == ts[i].topic.name
  {
    seq(|ts|, i requires 0 <= i < |ts| => ts[i].topic.name)
  }

  /** `bool(repo["readme"])`: a null readme and an empty object are both falsy. */
  predicate ReadmeTruthy(r: Readme) {
    r.Blob?
  }

  /** `repo["readme"]["text"] if repo["readme"] else None`. */
  function ReadmeContent(r: Readme): (c: Option<string>)
    ensures c.Some? ==> ReadmeTruthy(r)
    ensures r.NoReadme? || r.OtherObject? ==> c.None?
    ensures r.Blob? ==> c == r.text
  {
    if ReadmeTruthy(r) then r.text else None
  }

  /** The summary of one node; a date `strptime` rejects makes the whole call fail. */
  function Summarize(node: RepoNode): (r: Result<RepoSummary, GithubError>)
    ensures r.Ok? <==> FormatDate(node.createdAt).Ok? && FormatDate(node.updatedAt).Ok?
    ensures r.Err? ==> r.error == Unexpected
    ensures r.Ok? ==> var s := r.value;
      && s.name == node.name && s.description == node.description && s.url == node.url
      && s.stars == node.stargazerCount && s.forks == node.forkCount && s.watchers == node.watchers
      && s.languages == LanguageNames(node.languages) && s.languagesCount == node.languagesTotal
      && s.createdAt == FormatDate(node.createdAt).value && s.updatedAt == FormatDate(node.updatedAt).value
      && s.isFork == node.isFork && s.topics == TopicNames(node.topics)
      && s.openIssues == node.openIssues && s.closedIssues == node.closedIssues
      && s.openPullRequests == node.openPullRequests && s.mergedPullRequests == node.mergedPullRequests
      && (s.hasReadme <==> node.readme.Blob?)
      && (s.readmeContent.Some? ==> s.hasReadme)
  {
    match FormatDate(node.createdAt)
    case Err(_) => Err(Unexpected)
    case Ok(created) =>
      match FormatDate(node.updatedAt)
      case Err(_) => Err(Unexpected)
      case Ok(updated) =>
        Ok(RepoSummary(
          node.name, node.description, node.url,
          node.stargazerCount, node.forkCount, node.watchers,
          LanguageNames(node.languages), node.languagesTotal,
          created, updated, node.isFork,
          TopicNames(node.topics),
          node.openIssues, node.closedIssues, node.openPullRequests, node.mergedPullRequests,
          ReadmeTruthy(node.readme), ReadmeContent(node.readme)))
  }

  /** A loop that maps every element and stops at the first failure. */
  function MapAll<A, B, E>(f: A -> Result<B, E>, xs: seq<A>): (r: Result<seq<B>, E>)
    ensures r.Ok? ==> |r.value| == |xs| && forall i :: 0 <= i < |xs| ==> f(xs[i]) == Ok(r.value[i])
    ensures r.Err? <==> exists i :: 0 <= i < |xs| && f(xs[i]).Err?
    ensures r.Err? ==> exists i :: 0 <= i < |xs| && f(xs[i]) == Err(r.error)
  {
    if xs == [] then Ok([])
    else match f(xs[0])
      case Err(e) => Err(e)
      case Ok(y) =>
        match MapAll(f, xs[1..])
        case Err(e) =>
          assert exists i :: 0 <= i < |xs| && f(xs[i]) == Err(e) by {
            var i :| 0 <= i < |xs| - 1 && f(xs[1..][i]) == Err(e);
            assert xs[1..][i] == xs[i + 1];
          }
          Err(e)
        case Ok(ys) =>
          assert forall i :: 1 <= i < |xs| ==> xs[i] == xs[1..][i - 1];
          Ok([y] + ys)
  }

  /** The loop over the nodes: one summary per node, in order, unless some node fails. */
  function Summaries(nodes: seq<RepoNode>): (r: Result<seq<RepoSummary>, GithubError>)
    ensures r.Ok? ==> |r.value| == |nodes| && forall i :: 0 <= i < |nodes| ==> Summarize(nodes[i]) == Ok(r.value[i])
    ensures r.Err? <==> exists i :: 0 <= i < |nodes| && Summarize(nodes[i]).Err?
    ensures r.Err? ==> r.error == Unexpected
  {
    MapAll(Summarize, nodes)
  }

  function RepositoriesRequest(username: Option<string>, token: string): Request {
    Request(Endpoint, "bearer " + token, RepositoriesQuery(RepositoryPageSize), username)
  }

  /** The checks on a delivered reply: `errors` first, then a null user, then no nodes. */
  function RepositoriesOf(username: Option<string>, reply: Transport<RepositoriesReply>)
    : (r: Result<seq<RepoSummary>, GithubError>)
    ensures reply.RequestFailed? ==> r == Err(FetchFailed(reply.reason))
    ensures reply.Delivered? && reply.reply.errors.Some? ==> r == Err(ReportedError(reply.reply.errors.value))
    ensures reply.Delivered? && reply.reply.errors.None? && reply.reply.user.None? ==> r == Err(UserNotFound(username))
    ensures reply.Delivered? && reply.reply.errors.None? && reply.reply.user.Some?
            && (reply.reply.user.value.nodes.None? || reply.reply.user.value.nodes == Some([]))
            ==> r == Err(NoRepositories(username))
    ensures reply.Delivered? && reply.reply.errors.None? && reply.reply.user.Some?
            && reply.reply.user.value.nodes.Some? && reply.reply.user.value.nodes.value != []
            ==> r == Summaries(reply.reply.user.value.nodes.value)
    ensures r.Ok? ==>
      && reply.Delivered? && reply.reply.user.Some? && reply.reply.user.value.nodes.Some?
      && r == Summaries(reply.reply.user.value.nodes.value) && r.value != []
    ensures r.Err? ==> r.error != TokenNotConfigured
  {
    match reply
    case RequestFailed(reason) => Err(FetchFailed(reason))
    case Delivered(data) =>
      if data.errors.Some? then Err(ReportedError(data.errors.value))
      else match data.user
        case None => Err(UserNotFound(username))
        case Some(u) =>
          match u.nodes
          case None => Err(NoRepositories(username))
          case Some(nodes) => if nodes == [] then Err(NoRepositories(username)) else Summaries(nodes)
  }

  /** `get_repository_info`: it always sends its request. */
  function GetRepositoryInfo(username: Option<string>, token: string, reply: Transport<RepositoriesReply>)
    : (r: (Result<seq<RepoSummary>, GithubError>, Request))
    ensures r.1 == RepositoriesRequest(username, token)
    ensures r.1.query == RepositoriesQuery(100) && r.1.authorization == "bearer " + token
    ensures r.0 == RepositoriesOf(username, reply)
  {
    (RepositoriesOf(username, reply), RepositoriesRequest(username, token))
  }

  // ---- scrape_github_profile --------------------------------------------------

  /** `{"error": "GITHUB_TOKEN not found in environment variables"}`, or the two results in order. */
  datatype GithubData =
    | TokenMissing
    | Results(contributions: Result<Contributions, GithubError>, repositories: Result<seq<RepoSummary>, GithubError>)

  const TokenMissingMessage: string := "GITHUB_TOKEN not found in environment variables"

  datatype GithubRecord = GithubRecord(id: string, source: string, data: GithubData)

  /**
   * `scrape_github_profile`: with the environment's token and the replies the
   * API gives to the two requests, the record and the requests, in the order
   * sent. Both calls read the same token.
   */
  function ScrapeGithubProfile(applicantId: string, url: string, token: Option<string>,
                               contributionsReply: Transport<ContributionsReply>,
                               repositoriesReply: Transport<RepositoriesReply>)
    : (r: (GithubRecord, seq<Request>))
    ensures r.0.id == applicantId && r.0.source == "github"
    ensures r.0.data.TokenMissing? <==> !Truthy(token)
    ensures r.0.data.TokenMissing? ==> r.1 == []
    ensures r.0.data.Results? ==>
      var username := GithubUsername.ExtractUsername(url);
      && r.1 == [ContributionsRequest(username, token.value), RepositoriesRequest(username, token.value)]
      && r.0.data.contributions == ContributionsOf(contributionsReply)
      && r.0.data.repositories == RepositoriesOf(username, repositoriesReply)
      && r.0.data.contributions != Err(TokenNotConfigured)
  {
    var username := GithubUsername.ExtractUsername(url);
    if !Truthy(token) then (GithubRecord(applicantId, "github", TokenMissing), [])
    else
      var (contributions, sent) := GetGithubContributions(username, token, contributionsReply);
      var (repositories, request) := GetRepositoryInfo(username, token.value, repositoriesReply);
      (GithubRecord(applicantId, "github", Results(contributions, repositories)), sent + [request])
  }

  // ---- Properties ---------------------------------------------------------------

  /** One bad date anywhere spoils the whole list, whatever the other nodes hold. */
  lemma BadDateSpoilsAll(before: seq<RepoNode>, bad: RepoNode, after: seq<RepoNode>)
    requires FormatDate(bad.createdAt).Err? || FormatDate(bad.updatedAt).Err?
    ensures Summaries(before + [bad] + after) == Err(Unexpected)
  {
    var nodes := before + [bad] + after;
    assert nodes[|before|] == bad;
  }

  /** `errors` wins over everything else in the reply. */
  lemma ErrorsTakePrecedence(username: Option<string>, errors: seq<GraphqlError>, user: Option<UserRepositories>)
    ensures RepositoriesOf(username, Delivered(RepositoriesReply(Some(errors), user))) == Err(ReportedError(errors))
  {
  }

  /** The three readme shapes. */
  lemma ReadmeCases(node: RepoNode, text: Option<string>)
    requires Summarize(node).Ok?
    ensures node.readme == NoReadme ==> !Summarize(node).value.hasReadme && Summarize(node).value.readmeContent.None?
    ensures node.readme == OtherObject ==> !Summarize(node).value.hasReadme && Summarize(node).value.readmeContent.None?
    ensures node.readme == Blob(text) ==> Summarize(node).value.hasReadme && Summarize(node).value.readmeContent == text
  {
  }
}
