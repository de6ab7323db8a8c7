/**
 * The LinkedIn entry points: `LinkedInScraper.login`,
 * `LinkedInScraper.get_profile_info` and the module-level
 * `scrape_linkedin_profile`, which resolves credentials, drives one browser
 * session and always closes it once it was started.
 */
module Linkedin {
  import opened Common
  import opened Dom
  import opened ProfileUrl
  import opened Extract
  import Experience
  import Education
  import Projects
  import Certificates

  /** The dictionary `get_profile_info` returns, key by key. */
  datatype ProfileInfo = ProfileInfo(
    profileUrl: string,
    about: Option<string>,
    experience: seq<Experience.ExperienceEntry>,
    education: seq<Education.EducationEntry>,
    projects: seq<Projects.Project>,
    certificates: seq<Certificates.Certificate>)

  /** What can go wrong inside the session, before it is wrapped. */
  datatype ProfileError =
    | BadProfileUrl             // the `ValueError` of `validate_linkedin_url`
    | PageLoadFailed(url: string)
    | LoginFormMissing

  const LoginUrl: string := "https://www.linkedin.com/login"

  /** The login form's fields, found by id, and its submit button. */
  const UsernameField: Locator := "#username"
  const PasswordField: Locator := "#password"
  const SubmitButton: Locator := "button[type=\"submit\"]"

  /**
   * `login`: load the login page and find the form; typing the credentials
   * and submitting are not modelled, so the browser stays on the login page.
   */
  function Login(web: Web, b: Browser): (r: Result<Browser, ProfileError>)
    ensures r.Ok? <==> LoginUrl in web && FindOne(web[LoginUrl], UsernameField).Hit?
                       && FindOne(web[LoginUrl], PasswordField).Hit? && FindOne(web[LoginUrl], SubmitButton).Hit?
    ensures r.Ok? ==> r.value.url == LoginUrl && r.value.visits == b.visits + [LoginUrl]
    ensures r.Err? && LoginUrl !in web ==> r.error == PageLoadFailed(LoginUrl)
  {
    match Navigate(web, b, LoginUrl)
    case Err(_) => Err(PageLoadFailed(LoginUrl))
    case Ok(b1) =>
      if FindOne(b1.page, UsernameField).Hit? && FindOne(b1.page, PasswordField).Hit? && FindOne(b1.page, SubmitButton).Hit?
      then Ok(b1)
      else Err(LoginFormMissing)
  }

  /**
   * The reading half of `get_profile_info` on a loaded profile page: about,
   * experience and education off the page, then the projects flow and, on
   * whatever page that flow leaves the browser, the certificates flow.
   */
  function ReadProfile(web: Web, loaded: Browser, url: string): (r: (ProfileInfo, Browser))
    ensures
      var projects := Projects.GetProjects(web, loaded, url);
      var certificates := Certificates.GetCertificates(web, projects.1, url);
      && r.0 == ProfileInfo(url, About(loaded.page), Experience.Experiences(loaded.page), Education.Educations(loaded.page),
                            projects.0, certificates.0)
      && r.1 == certificates.1
      && (forall p :: p in r.0.projects ==> p.title != "")
      && (forall c :: c in r.0.certificates ==> c.title != "")
      && loaded.visits <= r.1.visits
  {
    var projects := Projects.GetProjects(web, loaded, url);
    var certificates := Certificates.GetCertificates(web, projects.1, url);
    (ProfileInfo(url, About(loaded.page), Experience.Experiences(loaded.page), Education.Educations(loaded.page),
                 projects.0, certificates.0),
     certificates.1)
  }

  /** `get_profile_info` past the URL check: load the profile, then read it. */
  function LoadProfile(web: Web, b: Browser, url: string): (r: Result<(ProfileInfo, Browser), ProfileError>)
    ensures r.Ok? <==> url in web
    ensures url !in web ==> r == Err(PageLoadFailed(url))
    ensures r.Ok? ==>
      var info := r.value.0;
      var projects := Projects.GetProjects(web, Browser(url, web[url], b.visits + [url]), url);
      var certificates := Certificates.GetCertificates(web, projects.1, url);
      && info.profileUrl == url
      && info.about == About(web[url])
      && info.experience == Experience.Experiences(web[url])
      && info.education == Education.Educations(web[url])
      && info.projects == projects.0
      && info.certificates == certificates.0
      && r.value.1 == certificates.1
      && (forall p :: p in info.projects ==> p.title != "")
      && (forall c :: c in info.certificates ==> c.title != "")
      && b.visits + [url] <= r.value.1.visits
  {
    match Navigate(web, b, url)
    case Err(_) => Err(PageLoadFailed(url))
    case Ok(loaded) => Ok(ReadProfile(web, loaded, url))
  }

  /** `get_profile_info`: a URL the validator rejects stops it before any page is loaded. */
  function GetProfileInfo(web: Web, b: Browser, profileUrl: string): (r: Result<(ProfileInfo, Browser), ProfileError>)
    ensures ValidateLinkedinUrl(profileUrl).Err? ==> r == Err(BadProfileUrl)
    ensures ValidateLinkedinUrl(profileUrl).Ok? ==> r == LoadProfile(web, b, ValidateLinkedinUrl(profileUrl).value)
    ensures r.Ok? ==>
      && ValidateLinkedinUrl(profileUrl).Ok? && r.value.0.profileUrl == ValidateLinkedinUrl(profileUrl).value
      && b.visits + [r.value.0.profileUrl] <= r.value.1.visits
  {
    match ValidateLinkedinUrl(profileUrl)
    case Err(_) => Err(BadProfileUrl)
    case Ok(url) => LoadProfile(web, b, url)
  }

  // ---- scrape_linkedin_profile ------------------------------------------------

  /**
   * Explicit credentials, each falling back to its environment variable;
   * `None` where the `ValueError` is raised.
   */
  function ResolveCredentials(email: Option<string>, password: Option<string>,
                              envEmail: Option<string>, envPassword: Option<string>): (r: Option<(string, string)>)
    ensures r.Some? <==> Truthy(Or(email, envEmail)) && Truthy(Or(password, envPassword))
    ensures r.Some? ==> r.value == (Or(email, envEmail).value, Or(password, envPassword).value)
    ensures Truthy(email) && Truthy(password) ==> r == Some((email.value, password.value))
  {
    var (e, p) := if !Truthy(email) || !Truthy(password) then (Or(email, envEmail), Or(password, envPassword))
                  else (email, password);
    if !Truthy(e) || !Truthy(p) then None else Some((e.value, p.value))
  }

  /** What the browser driver does, in order; `Loaded` is a page load that succeeded. */
  datatype DriverEvent = Started | Loaded(url: string) | Quit

  datatype ScrapeError =
    | MissingCredentials
    | DriverSetupFailed
    | ScrapeFailed(cause: ProfileError)   // re-raised as "Error scraping profile: …"

  /** The `{id, source, data}` wrapper. */
  datatype LinkedinRecord = LinkedinRecord(id: string, source: string, data: ProfileInfo)

  /** The outcome of one call together with the driver's lifetime. */
  datatype Run = Run(result: Result<LinkedinRecord, ScrapeError>, events: seq<DriverEvent>)

  /** The driver's state right after setup. */
  const FreshBrowser := Browser("data:,", Element("", map[], map[]), [])

  function LoadEvents(visits: seq<string>): (r: seq<DriverEvent>)
    ensures |r| == |visits| && forall i :: 0 <= i < |visits| ==> r[i] == Loaded(visits[i])
  {
    seq(|visits|, i requires 0 <= i < |visits| => Loaded(visits[i]))
  }

  /** A session: started once, then only page loads, then quit once. */
  predicate Session(events: seq<DriverEvent>) {
    |events| >= 2 && events[0] == Started && events[|events| - 1] == Quit
    && forall i :: 0 < i < |events| - 1 ==> events[i].Loaded?
  }

  /** Wrapping the page loads between setup and `close` gives a session. */
  lemma SessionOfLoads(visits: seq<string>)
    ensures Session([Started] + LoadEvents(visits) + [Quit])
  {
    var events := [Started] + LoadEvents(visits) + [Quit];
    forall i | 0 < i < |events| - 1
      ensures events[i].Loaded?
    {
      assert events[i] == LoadEvents(visits)[i - 1];
    }
  }

  /**
   * The `try` block: log in on a fresh browser, read the profile and wrap
   * it; any error is re-raised wrapped. Also returns every page loaded.
   */
  function Attempt(applicantId: string, profileUrl: string, web: Web): (r: (Result<LinkedinRecord, ScrapeError>, seq<string>))
    ensures var login := Login(web, FreshBrowser);
      r.0.Ok? <==> login.Ok? && GetProfileInfo(web, login.value, profileUrl).Ok?
    ensures var login := Login(web, FreshBrowser);
      r.0.Ok? ==> r.0.value == LinkedinRecord(applicantId, "linkedin", GetProfileInfo(web, login.value, profileUrl).value.0)
    ensures var login := Login(web, FreshBrowser);
      && (login.Err? ==> r.0 == Err(ScrapeFailed(login.error)))
      && (login.Ok? && GetProfileInfo(web, login.value, profileUrl).Err? ==>
            r.0 == Err(ScrapeFailed(GetProfileInfo(web, login.value, profileUrl).error)))
    ensures r.0.Ok? ==>
      && r.0.value.id == applicantId && r.0.value.source == "linkedin"
      && ValidateLinkedinUrl(profileUrl).Ok? && r.0.value.data.profileUrl == ValidateLinkedinUrl(profileUrl).value
  {
    var login := Login(web, FreshBrowser);
    if login.Err? then (Err(ScrapeFailed(login.error)), if LoginUrl in web then [LoginUrl] else [])
    else
      var got := GetProfileInfo(web, login.value, profileUrl);
      if got.Err? then (Err(ScrapeFailed(got.error)), login.value.visits)
      else
        (Ok(LinkedinRecord(applicantId, "linkedin", got.value.0)), got.value.1.visits)
  }

  /**
   * Once logged in, the attempt succeeds exactly when the URL validates and
   * its profile page loads, and the record holds what the section readers
   * read off that page; a URL the validator rejects fails as `BadProfileUrl`.
   */
  lemma AttemptReadsProfile(applicantId: string, profileUrl: string, web: Web)
    requires Login(web, FreshBrowser).Ok?
    ensures var r := Attempt(applicantId, profileUrl, web).0;
      r.Ok? <==> ValidateLinkedinUrl(profileUrl).Ok? && ValidateLinkedinUrl(profileUrl).value in web
    ensures ValidateLinkedinUrl(profileUrl).Err? ==> Attempt(applicantId, profileUrl, web).0 == Err(ScrapeFailed(BadProfileUrl))
    ensures var r := Attempt(applicantId, profileUrl, web).0;
      r.Ok? ==>
        var page := web[r.value.data.profileUrl];
        && r.value.data.about == About(page)
        && r.value.data.experience == Experience.Experiences(page)
        && r.value.data.education == Education.Educations(page)
  {
  }

  /**
   * `scrape_linkedin_profile`. `driverStarts` says whether `setup_driver`
   * succeeds; `envEmail` and `envPassword` are the environment's values.
   * Missing credentials are refused before a driver exists; once the
   * driver is up it is quit on every path.
   */
  function ScrapeLinkedinProfile(applicantId: string, profileUrl: string,
                                 email: Option<string>, password: Option<string>,
                                 envEmail: Option<string>, envPassword: Option<string>,
                                 driverStarts: bool, web: Web): (r: Run)
    ensures ResolveCredentials(email, password, envEmail, envPassword).None? ==> r == Run(Err(MissingCredentials), [])
    ensures ResolveCredentials(email, password, envEmail, envPassword).Some? && !driverStarts ==>
      r == Run(Err(DriverSetupFailed), [])
    ensures ResolveCredentials(email, password, envEmail, envPassword).Some? && driverStarts ==>
      Session(r.events) && (r.result.Err? ==> r.result.error.ScrapeFailed?)
    ensures ResolveCredentials(email, password, envEmail, envPassword).Some? && driverStarts ==>
      var attempt := Attempt(applicantId, profileUrl, web);
      r.result == attempt.0 && r.events == [Started] + LoadEvents(attempt.1) + [Quit]
    ensures r.result.Ok? ==>
      && r.result.value.id == applicantId && r.result.value.source == "linkedin"
      && ValidateLinkedinUrl(profileUrl).Ok? && r.result.value.data.profileUrl == ValidateLinkedinUrl(profileUrl).value
  {
    match ResolveCredentials(email, password, envEmail, envPassword)
    case None => Run(Err(MissingCredentials), [])
    case Some(_) =>
      if !driverStarts then Run(Err(DriverSetupFailed), [])
      else
        var (result, visits) := Attempt(applicantId, profileUrl, web);
        SessionOfLoads(visits);
        Run(result, [Started] + LoadEvents(visits) + [Quit])
  }
}
