# Profile scrapers, modelled in Dafny

This project models the decision logic of two applicant-screening scrapers.

- **LinkedIn.** `LinkedIn_Scraper.py` drives a browser. It logs in and normalises the profile URL. On the profile page it reads the about text, experience, education, projects and certificates. Each is found through ordered lists of fallback CSS selectors. Projects and certificates may also mean following a "Show all" link to a listing page and coming back.
- **GitHub.** `Github_Scraper.py` pulls the username out of a profile URL. It sends two GraphQL requests: the contribution total and the repository list. It checks each parsed reply, maps repository nodes to summaries, and wraps both results in an `{id, source, data}` record.

How the outside world enters the model:

- **Browser.** The browser is an oracle. A page or element (`Dom.Element`) is an immutable value. For every locator it is asked about, it answers with the elements found or with a raise. `find_element` is the first of `find_elements`; no match stands for `NoSuchElementException`. Navigation loads pages from a fixed map of reachable URLs (`Dom.Web`). The browser records every URL it has loaded.
- **HTTP.** The replies are parameters. A reply is either a parsed JSON value (`Github.RepositoriesReply`, `Github.ContributionsReply`) or a transport failure, which stands for any `requests.RequestException`. The requests the scraper sends are part of the result.
- **Environment.** Credentials and `GITHUB_TOKEN` are optional parameters.
- **Driver lifetime.** Driver start-up succeeding is a boolean parameter. The driver's lifetime is an event log.

The shared parts:

- **Regular expressions.** All four patterns share one matcher (`Patterns`). A pattern is literal alternatives followed by a greedy `([^stops]+)` group. It is searched leftmost-first, with the alternatives tried in backtracking order.
- **List extraction.** The scraper's loops have a few recurring shapes (`Listing`, `CardSection`, `SectionFlow`). Each shape is modelled once, with a reference definition where one exists. For example, the duplicate-title check equals a plain first-occurrence `Nub`.

## Model

| member | source | states |
|---|---|---|
| ProfileUrl.BeforeQuery | LinkedIn_Scraper.py:82-83 | the result is the longest `?`-free prefix of the URL; it is the whole URL exactly when there is no `?` |
| ProfileUrl.ValidateLinkedinUrl | LinkedIn_Scraper.py:80-98 | success always yields `https://www.linkedin.com/in/<u>/` for a non-empty `u` without `/` or `?`; `ValueError` is raised exactly when the part before `?` is made only of slashes |
| ProfileUrl.IdPatternNeverMatches | LinkedIn_Scraper.py:83-89 | the `profile/view?id=` pattern can never match, because its `?` was cut off first |
| ProfileUrl.BareMatchesIff | LinkedIn_Scraper.py:89-95 | the bare `([^/]+)` pattern matches exactly when some character is not a slash |
| ProfileUrl.CanonicalIsFixed | LinkedIn_Scraper.py:86-96 | a canonical profile URL normalises to itself |
| ProfileUrl.ValidateIdempotent | LinkedIn_Scraper.py:80-98 | normalising a normalised URL changes nothing |
| ProfileUrl.QueryIgnored | LinkedIn_Scraper.py:82-83 | whatever follows the first `?` never affects the result |
| ProfileUrl.TrackingQueryExample | LinkedIn_Scraper.py:80-98 | `https://www.linkedin.com/in/jane-doe/?trk=abc` normalises to `https://www.linkedin.com/in/jane-doe/` |
| ProfileUrl.StandardHeadFirst | LinkedIn_Scraper.py:87 | on a URL that starts with one of the four `http(s)://(www.)linkedin.com/in/` forms, the alternative tried first that matches is that form |
| ProfileUrl.StandardSearch | LinkedIn_Scraper.py:87-95 | the standard pattern's search on such a URL, followed by a username and nothing or a path, captures exactly the username |
| ProfileUrl.StandardUrlUsername | LinkedIn_Scraper.py:80-96 | every such URL, for every valid username and every path after it, normalises to that user's canonical URL |
| ProfileUrl.StandardUrlWithQuery | LinkedIn_Scraper.py:80-96 | the same holds with any query string appended |
| ProfileUrl.BareUsernameAccepted | LinkedIn_Scraper.py:89-96 | a bare username (no `/`, `?` or `h`) is accepted whole and turned into its profile URL |
| Patterns.Run | LinkedIn_Scraper.py:87-89 | the greedy group is the maximal run of non-stop characters: it ends at a stop character or at the end |
| Patterns.RunUntil | LinkedIn_Scraper.py:87-89 | a run is determined by the position of the first stop character |
| Patterns.MatchAt | LinkedIn_Scraper.py:92-95 | a match exists at a position exactly when some alternative matches there; its group is non-empty and free of stop characters |
| Patterns.SearchFrom | LinkedIn_Scraper.py:92-95 | `re.search` finds the leftmost matching position, and finds nothing exactly when no position matches |
| Patterns.SearchIsLeftmost | Github_Scraper.py:232-233 | the search's group is the one at whichever position is leftmost |
| Patterns.SearchNeedsChar | LinkedIn_Scraper.py:92-95 | a pattern whose every alternative needs a character the input lacks never matches |
| Dom.FindOne | LinkedIn_Scraper.py:1133-1136 | `find_element` is missing exactly when `find_elements` is empty, raises exactly when it raises, and otherwise is its first element |
| Dom.Navigate | LinkedIn_Scraper.py:106 | loading succeeds exactly for reachable URLs, and then the URL, the page and the visit log all move to it |
| Extract.ElementText | LinkedIn_Scraper.py:1129-1137 | the stripped text of the first locator that finds anything, even when that text is empty; `None` only when every locator finds nothing; any other raise escapes |
| Extract.AboutText | LinkedIn_Scraper.py:144-168 | the first non-empty stripped text; locators that find nothing, raise, or find only whitespace are skipped; `None` exactly when all are skipped |
| Extract.EmptyFirstMatchContrast | LinkedIn_Scraper.py:158-163 | with a whitespace-only first match and a texted second one, `_get_element_text` returns `""` while `_get_about` returns the second text |
| Extract.FirstText | LinkedIn_Scraper.py:672-678 | the stripped text of the first element found, present exactly when the lookup succeeds with at least one element |
| Listing.Harvest | LinkedIn_Scraper.py:603-614 | every item the extractor accepts has its entry kept, and every kept entry is some item's; none exactly when every item is rejected; one per item when all are accepted |
| Listing.HarvestAppend | LinkedIn_Scraper.py:603-614 | document order: the entries of earlier items come before those of later items |
| Listing.HarvestAround | LinkedIn_Scraper.py:603-614 | an item's entry sits between the entries of the items before it and those after it; a rejected item contributes nothing |
| Listing.HarvestAt | LinkedIn_Scraper.py:603-614 | the same by position: the harvest is the items before `i`, then item `i`'s entry, then the items after |
| Listing.FirstNonEmpty | LinkedIn_Scraper.py:519-559 | the first selector that yields entries decides; raises and empty harvests move on; nothing only when no selector yields |
| Listing.FirstNonEmptyOrRaise | LinkedIn_Scraper.py:202-283 | the first item selector with entries decides; an empty one moves on; a raise aborts the selector loop, and the loop raises exactly when the first selector that does not come back empty raises |
| Listing.Nub | LinkedIn_Scraper.py:535-542 | the reference for de-duplication: keys distinct, every kept entry an input, every input's key kept |
| Listing.KeepFirstIsNub | LinkedIn_Scraper.py:535-542 | the scraper's running "is duplicate" check equals the reference `Nub` of what is left |
| Listing.DedupByKey | LinkedIn_Scraper.py:535-542 | de-duplication by title equals `Nub`: distinct titles, nothing invented, every title represented |
| Listing.WithoutConcat | LinkedIn_Scraper.py:535-542 | removing a title distributes over concatenation |
| Listing.FirstOccurrenceKept | LinkedIn_Scraper.py:535-542 | the first entry with a given title is the one kept |
| Listing.RepeatedItemContrast | LinkedIn_Scraper.py:603-614 | the main-page reader keeps a repeated item twice, while the paged reader keeps it once |
| CardSection.Card | LinkedIn_Scraper.py:317-324 | the enclosing `artdeco-card` section when there is one; otherwise the anchor itself (education, main-page lists) or nothing (experience) |
| CardSection.CardEntries | LinkedIn_Scraper.py:183-292 | the entries of the first section selector whose attempt yields any; none exactly when no selector yields; every entry comes from the extractor |
| CardSection.MissingCardContrast | LinkedIn_Scraper.py:317-324 | an anchor with no card ancestor: experience abandons the selector, education reads the anchor's own items |
| Experience.CompanyParts | LinkedIn_Scraper.py:254-261 | `company.split(" · ")`: the name is the separator-free prefix; the job type, when present, is the next separator-free segment right after the first separator |
| Experience.CompanyPartsOfJoined | LinkedIn_Scraper.py:254-261 | splitting `name · type` gives back the name and the type |
| Experience.JobType | LinkedIn_Scraper.py:254-275 | a job type is recorded only when it is non-empty, and it is the segment after the first separator |
| Experience.ExperienceOf | LinkedIn_Scraper.py:207-280 | an entry is kept exactly when all four reads succeed and the title or the company name is truthy; its fields are those reads, with the company text split into the name and the job type |
| Experience.Experiences | LinkedIn_Scraper.py:170-297 | the entries of the first experience section selector that yields any, none exactly when none does; every entry has a truthy title or company, and any job type is non-empty |
| Education.EducationOf | LinkedIn_Scraper.py:340-383 | an entry is kept exactly when the three reads succeed and the school or the degree is truthy |
| Education.Educations | LinkedIn_Scraper.py:299-404 | the entries of the first education section selector that yields any, none exactly when none does; every entry has a truthy school or degree |
| SectionFlow.FirstButton | LinkedIn_Scraper.py:448-460 | the first element whose lower-cased text says "show all" and names the section, or whose href holds the details path; none only when no element qualifies |
| SectionFlow.FindButton | LinkedIn_Scraper.py:446-463 | the button found qualifies and is the first qualifying element of the first selector that has one; none exactly when no selector has one; the search raises exactly when a lookup raises before any selector has a button |
| SectionFlow.SectionPresent | LinkedIn_Scraper.py:422-434 | absent exactly when every probe finds nothing; present exactly when some probe finds an element after only empty probes; a raise aborts exactly when it comes before any probe has found one |
| SectionFlow.PagedEntries | LinkedIn_Scraper.py:519-555 | the first selector whose items the extractor accepts any of decides, and its entries are deduplicated first-wins; empty exactly when no selector harvests; titles distinct and produced by the extractor |
| SectionFlow.Flow | LinkedIn_Scraper.py:406-496 | no section: nothing and no navigation; no button, or a link that fails to load: the main-page reading; a failed return: the main-page reading of the listing page; otherwise the listing's entries and a browser back on the profile |
| SectionFlow.EmptyListingIsFinal | LinkedIn_Scraper.py:465-478 | an empty listing page gives no entries, with no fallback to the main page, and the browser ends on the profile |
| Projects.ProjectLinkOf | LinkedIn_Scraper.py:689-703 | a link is kept exactly when its href is present and starts with `http`; its title is the caption text |
| Projects.ProjectOf | LinkedIn_Scraper.py:631-718 | a project exists exactly when the three reads succeed and the title is truthy; duration and description only when truthy; skills from the first match; every link starts with `http` |
| Projects.PagedProjects | LinkedIn_Scraper.py:498-564 | the title-deduplicated projects of the first listing selector that harvests any; none exactly when none does; titles non-empty and distinct |
| Projects.MainPageProjects | LinkedIn_Scraper.py:566-629 | the projects of the first main-page section that yields any; none exactly when none does; titles non-empty |
| Projects.GetProjects | LinkedIn_Scraper.py:406-496 | titles are non-empty; visits only grow; no probe match means no projects and no navigation |
| Certificates.DateTextOf | LinkedIn_Scraper.py:1001-1022 | a text is collected exactly when, stripped, it is non-empty and mentions "issued", "expired" or a month abbreviation |
| Certificates.DateTexts | LinkedIn_Scraper.py:995-1026 | a text is collected exactly when it is the date text of some element found by some selector; every collected text is a date text |
| Certificates.DateTextsAppend | LinkedIn_Scraper.py:995-1026 | selector order: the texts of earlier selectors come before those of later ones |
| Certificates.DateTextsOne | LinkedIn_Scraper.py:995-1024 | one selector contributes its elements' date texts in document order |
| Certificates.AssignDatesIsLast | LinkedIn_Scraper.py:1028-1033 | the loop leaves the issue date as the last text mentioning "issued", and the expiry date as the last one mentioning only "expired" |
| Certificates.LastWhereFiltered | LinkedIn_Scraper.py:1028-1033 | filtering with a weaker test first does not change the last match |
| Certificates.MonthOnlyTextsIgnored | LinkedIn_Scraper.py:1001-1033 | texts collected only for a month name never reach either date |
| Certificates.FirstMentioning | LinkedIn_Scraper.py:1041-1045 | the first text containing the keyword, case-insensitively; none when no text does |
| Certificates.FirstLineMentioning | LinkedIn_Scraper.py:1039-1045 | the stripped text of the first element whose lower-cased stripped text contains the keyword; none exactly when no element's does |
| Certificates.CredentialId | LinkedIn_Scraper.py:1035-1047 | present exactly when some found element's stripped text contains "credential id" case-insensitively; then it is the stripped text of the first such element |
| Certificates.SkillsPart | LinkedIn_Scraper.py:1059 | the stripped text after the last `Skills:`, or the whole stripped text when the exact-case marker is absent |
| Certificates.LowerCaseSkillsKeepPrefix | LinkedIn_Scraper.py:1056-1059 | a line whose marker is written "skills:" keeps it, because the split is case-sensitive |
| Certificates.Skills | LinkedIn_Scraper.py:1049-1063 | skills are present exactly when some element's text contains "skills:" case-insensitively; then they are the part after the marker of the first such element's stripped text |
| Certificates.CredentialLinkOf | LinkedIn_Scraper.py:1074-1084 | a credential link is kept exactly when its href is present, starts with `http` and avoids `linkedin.com`; its text only when truthy |
| Certificates.CredentialLinks | LinkedIn_Scraper.py:1065-1089 | every button the link reader accepts gives a link, and every link is some button's; all start with `http`, avoid `linkedin.com` and are typed "credential" |
| Certificates.DocumentOf | LinkedIn_Scraper.py:1097-1113 | a document is kept exactly when its href is truthy; its title is the caption text |
| Certificates.Documents | LinkedIn_Scraper.py:1091-1118 | every media link the document reader accepts gives a document, and every document is some link's; all have a non-empty url and are typed "document" |
| Certificates.CertificateOf | LinkedIn_Scraper.py:958-1127 | a certificate exists exactly when the title and organisation reads succeed and the title is truthy; its fields are the pieces above |
| Certificates.PagedCertificates | LinkedIn_Scraper.py:819-888 | the title-deduplicated certificates of the first listing selector that harvests any; none exactly when none does; titles non-empty and distinct |
| Certificates.MainPageCertificates | LinkedIn_Scraper.py:890-956 | the certificates of the first main-page section that yields any; none exactly when none does; titles non-empty |
| Certificates.GetCertificates | LinkedIn_Scraper.py:720-817 | titles are non-empty; visits only grow; no probe match means no certificates and no navigation |
| Scroll.ScrollPage | LinkedIn_Scraper.py:123-142 | at most five scrolls; each scroll but the last changed the height; stopping early means the height stayed put; the scripts alternate between reading the height and scrolling |
| Linkedin.Login | LinkedIn_Scraper.py:57-78 | login succeeds exactly when the login page loads and shows the username, password and submit fields; the browser then sits on the login page |
| Linkedin.GetProfileInfo | LinkedIn_Scraper.py:100-103 | a URL the validator rejects is an error before any page is loaded; an accepted one is loaded under its canonical form, which the record carries and the browser visits next |
| Linkedin.LoadProfile | LinkedIn_Scraper.py:105-121 | the profile loads exactly when it is reachable, and an unreachable one is a load error; otherwise the record holds the URL and each section's reading of the loaded page; the certificates flow runs on the browser the projects flow left, and its browser is the one returned; projects and certificates carry titles |
| Linkedin.ResolveCredentials | LinkedIn_Scraper.py:1149-1158 | each credential is the argument or the environment value (Python `or`); missing exactly when either result is falsy; arguments that are both given win |
| Linkedin.SessionOfLoads | LinkedIn_Scraper.py:1160-1175 | the driver starts once, loads pages, and quits once |
| Linkedin.Attempt | LinkedIn_Scraper.py:1163-1173 | success exactly when the login and then the profile read succeed, and it carries the id, the source "linkedin" and that profile record; a failed login's error is wrapped as "Error scraping profile", and so is a failed read's |
| Linkedin.AttemptReadsProfile | LinkedIn_Scraper.py:100-121 | after a good login, the attempt succeeds exactly when the URL validates and its profile is reachable; a rejected URL fails as `BadProfileUrl`; the about, experience and education in the record are the section readers' results on that profile page |
| Linkedin.ScrapeLinkedinProfile | LinkedIn_Scraper.py:1145-1175 | missing credentials fail before a driver exists; failed setup fails without quitting; otherwise the result is the attempt's, and the events are the start, a load for each page the attempt loaded and one quit, whatever happens |
| GithubUsername.PrefixedSearchIsHostSearch | Github_Scraper.py:232 | the optional `https?://` and `www.` never change the group: searching for `github.com/` alone finds the same |
| GithubUsername.ExtractUsername | Github_Scraper.py:231-233 | `None` exactly when no `github.com/` is followed by a non-stop character; otherwise the maximal run of characters other than `/`, `?` and `#` after the leftmost such occurrence |
| GithubUsername.UsernameAfterHost | Github_Scraper.py:231-233 | the segment right after the first `github.com/`, ended by `/`, `?`, `#` or the end, is the username |
| GithubUsername.UsernameExample | Github_Scraper.py:231-233 | `https://github.com/octocat?tab=repositories` gives `octocat` |
| Dates.Hour12 | Github_Scraper.py:86 | `%I` is in 1..12 and agrees with the hour modulo 12, so hours 0 and 12 both print as 12 |
| Dates.Meridiem | Github_Scraper.py:86 | `%p` is PM exactly for hours 12 and later |
| Dates.Pad2 | Github_Scraper.py:86 | two decimal digits that read back as the number |
| Dates.Pad2OfDigits | Github_Scraper.py:86 | any two digits are the padding of the number they denote |
| Dates.ClockOfShaped | Github_Scraper.py:86 | a well-formed " at HH:MM AM" clock, with the hour in 1..12, is the printing of the hour and minute it denotes |
| Dates.ReadDecimalOfDecimal | Github_Scraper.py:86 | the year's numeral reads back as the year |
| Dates.FormatDate | Github_Scraper.py:81-86 | `None` exactly for a falsy input; an error exactly for fields `datetime` rejects; otherwise text starting with the full month name from which year, month, day, hour and minute are read back |
| Dates.RenderedReadsBack | Github_Scraper.py:86 | parsing "Month DD, YYYY at HH:MM AM" back recovers every field but the seconds |
| Dates.ReadRenderedShape | Github_Scraper.py:86 | the converse: any text the reader accepts is "Month DD, YYYY at HH:MM AM" printed from the fields it reads, up to leading zeros in the year |
| Dates.RejectsHourPastTwelve | Github_Scraper.py:86 | "January 05, 2024 at 15:07 PM" is not a rendered date |
| Dates.RejectsOtherSeparators | Github_Scraper.py:86 | "January 05xx2024 zz 03:07 PM" is not a rendered date |
| Dates.RejectsUnpadded | Github_Scraper.py:86 | "January  5, 2024 at  3:07 PM" is not a rendered date |
| Dates.RenderInjective | Github_Scraper.py:86 | timestamps that differ to the minute render differently |
| Dates.MidnightAndNoon | Github_Scraper.py:86 | hour 0 prints as "12:MM AM" and hour 12 as "12:MM PM" |
| Github.ReportedError | Github_Scraper.py:54-55 | the first error's message; an empty list or a missing message raises, and that becomes "An error occurred" |
| Github.ContributionsOf | Github_Scraper.py:46-78 | a transport failure reports "Failed to fetch data"; `errors` wins next; a null user is "An error occurred"; success exactly when there are no errors and a user, with only the total |
| Github.GetGithubContributions | Github_Scraper.py:13-78 | a falsy token reports "not configured" and sends nothing; otherwise exactly one bearer-authorised request is sent |
| Github.LanguageNames | Github_Scraper.py:192 | the language names in the order listed |
| Github.TopicNames | Github_Scraper.py:195-197 | the topic names in the order listed |
| Github.ReadmeContent | Github_Scraper.py:218 | content only for a truthy readme; a null readme or an empty object gives `None`; a blob gives its text |
| Github.ReadmeCases | Github_Scraper.py:217-218 | a null readme and an empty object give no readme and no content; a blob gives a readme and its text |
| Github.Summarize | Github_Scraper.py:189-219 | every field is copied or mapped from the node; `has_readme` holds exactly for a blob; a date `strptime` rejects fails the summary |
| Github.Summaries | Github_Scraper.py:189-223 | one summary per node, in order, each the node's summary; failure exactly when some node fails |
| Github.MapAll | Github_Scraper.py:189-223 | the loop maps every element in order, and fails exactly when some element fails, with that element's error |
| Github.BadDateSpoilsAll | Github_Scraper.py:209-228 | one bad date anywhere turns the whole list into "An error occurred" |
| Github.RepositoriesOf | Github_Scraper.py:165-228 | in order: a transport failure, then `errors`, then a null user ("User X not found"), then no nodes ("No repositories found"); a non-empty node list gives exactly the summaries of its nodes |
| Github.ErrorsTakePrecedence | Github_Scraper.py:175-176 | an `errors` key wins over whatever else the reply holds |
| Github.GetRepositoryInfo | Github_Scraper.py:89-228 | one request is always sent, asking for the first 100 repositories with the bearer token |
| Github.ScrapeGithubProfile | Github_Scraper.py:236-253 | the source is always "github"; a falsy token gives the single error and sends nothing; otherwise the data is the contributions result then the repository result, from exactly two requests in that order, and the contributions never report a missing token |

## Left out

- Browser and network I/O are not modelled: sleeps, explicit waits and their timeouts, `execute_script`, `send_keys` and `click`. Waits are read as a single lookup. Typing and clicking are not modelled; the login is judged by the fields being present.
- Linkedin.Login: does not model whether the submitted credentials are accepted, because that is decided by the remote site.
- Scrolling is modelled in `Scroll.ScrollPage` over a given height sequence. The content it reveals is not: every reader sees the page as given, including after the scroll inside the paged readers.
- `setup_driver`'s browser options and `close` beyond the `Quit` event are not modelled; they are configuration.
- `print` logging is not modelled, and neither is the text of caught exceptions. `Github.ErrorMessage` keeps only the fixed prefix of "An error occurred: …".
- Python's `str.lower` is modelled for ASCII only. `str.strip` uses the exact `str.isspace` set.
- `format_date` takes the timestamp already split into fields. Text `strptime` would reject is modelled as fields `datetime` rejects, and `strptime`'s acceptance of single-digit fields is not modelled.
- Dates.FormatDate: prints the year without padding to four digits, as glibc's `%Y` does; other platforms pad years below 1000.
- The GraphQL query strings and the reply keys that the schema always sends (for example `totalCount`) are not modelled as optional. Only the keys the code tests for are.
- `app.py` is not part of this model: the HTTP layer, and its call of `scrape_linkedin_profile` with arguments the function does not take.
- Email and SMS verification and CAPTCHA handling are not part of this model: no such code exists in `LinkedIn_Scraper.py`.
- `_get_element_text` returns `""` for a locator that finds an element with only whitespace. The code does this; a description that skips empty matches would not.
- On the listing page, zero items do not fall back to the main page. The code falls back only when something raises.
