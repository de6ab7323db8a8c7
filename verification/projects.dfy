/**
 * `LinkedInScraper._get_projects` and the three helpers behind it: the
 * per-item reader `_extract_project_data`, the listing-page reader and the
 * profile-page fallback.
 */
module Projects {
  import opened Common
  import opened Strings
  import opened Dom
  import opened Extract
  import opened Listing
  import opened CardSection
  import opened SectionFlow

  /** A project's link; the `title` key is present only when `title` is `Some`. */
  datatype ProjectLink = ProjectLink(url: string, title: Option<string>)

  /**
   * A project dictionary. The optional keys are absent when `None`, and
   * `external_links` is absent when `externalLinks` is empty.
   */
  datatype Project = Project(
    title: string,
    duration: Option<string>,
    description: Option<string>,
    skills: Option<string>,
    externalLinks: seq<ProjectLink>)

  const ProbeLocators: seq<Locator> := [
    "a[href*=\"/details/projects\"]",
    "a[id*=\"navigation-index-see-all-projects\"]",
    "a[href*=\"projects\"]",
    "button[aria-label*=\"projects\"]",
    "#projects",
    ".projects-section",
    ".pv-projects-section"
  ]

  const ButtonLocators: seq<Locator> := ProbeLocators[..4]

  const Config := SectionConfig(ProbeLocators, ButtonLocators, ButtonRule(["project"], "/details/projects"))

  const MainSectionLocators: seq<Locator> := ["#projects", ".projects-section", ".pv-projects-section"]

  const TitleLocators: seq<Locator> := [
    ".display-flex.align-items-center.mr1.t-bold span[aria-hidden=\"true\"]",
    ".hoverable-link-text.t-bold span[aria-hidden=\"true\"]",
    ".t-bold span[aria-hidden=\"true\"]",
    ".display-flex.align-items-center.mr1.hoverable-link-text.t-bold span[aria-hidden=\"true\"]"
  ]

  const DurationLocators: seq<Locator> := [
    ".t-14.t-normal span[aria-hidden=\"true\"]",
    ".t-14.t-normal",
    ".pvs-entity__caption-wrapper span[aria-hidden=\"true\"]"
  ]

  const DescriptionLocators: seq<Locator> := [
    ".inline-show-more-text span[aria-hidden=\"true\"]",
    ".bdZjlATLciupslqErVKaEhgLJmpKCjM span[aria-hidden=\"true\"]",
    ".t-14.t-normal.t-black.display-flex.align-items-center span[aria-hidden=\"true\"]"
  ]

  const SkillsLocator: Locator := ".hoverable-link-text.display-flex.align-items-center.t-14.t-normal.t-black strong"

  const LinkLocator: Locator := "a[href]:not([href*=\"linkedin.com\"])"

  /** A link is kept when its `href` is present and starts with `http`. */
  function ProjectLinkOf(link: Element): (r: Option<ProjectLink>)
    ensures r.Some? <==> Attribute(link, "href").Some? && StartsWith(Attribute(link, "href").value, "http")
    ensures r.Some? ==> r.value.url == Attribute(link, "href").value && r.value.title == FirstText(link, CaptionLocator)
  {
    match Attribute(link, "href")
    case Some(href) =>
      if StartsWith(href, "http") then Some(ProjectLink(href, FirstText(link, CaptionLocator))) else None
    case None => None
  }

  /**
   * `_extract_project_data`: `None` when a text lookup raises or when no
   * title is found; otherwise the optional keys hold only non-empty text.
   */
  function ProjectOf(item: Element): (r: Option<Project>)
    ensures r.Some? <==>
      && ElementText(item, TitleLocators).Ok? && ElementText(item, DurationLocators).Ok?
      && ElementText(item, DescriptionLocators).Ok? && Truthy(ElementText(item, TitleLocators).value)
    ensures r.Some? ==>
      && r.value.title != ""
      && Some(r.value.title) == ElementText(item, TitleLocators).value
      && r.value.duration == KeepTruthy(ElementText(item, DurationLocators).value)
      && r.value.description == KeepTruthy(ElementText(item, DescriptionLocators).value)
      && r.value.skills == FirstText(item, SkillsLocator)
      && r.value.externalLinks == Harvest(FoundOrNone(item, LinkLocator), ProjectLinkOf)
    ensures r.Some? ==> forall l :: l in r.value.externalLinks ==> StartsWith(l.url, "http")
  {
    match (ElementText(item, TitleLocators), ElementText(item, DurationLocators), ElementText(item, DescriptionLocators))
    case (Ok(title), Ok(duration), Ok(description)) =>
      if Truthy(title) then
        var links := Harvest(FoundOrNone(item, LinkLocator), ProjectLinkOf);
        assert forall l :: l in links ==> StartsWith(l.url, "http") by {
          forall l | l in links
            ensures StartsWith(l.url, "http")
          {
            var items := FoundOrNone(item, LinkLocator);
            var i :| 0 <= i < |items| && ProjectLinkOf(items[i]) == Some(l);
          }
        }
        Some(Project(title.value, KeepTruthy(duration), KeepTruthy(description), FirstText(item, SkillsLocator), links))
      else None
    case _ => None
  }

  function TitleOf(p: Project): string {
    p.title
  }

  /** `_extract_projects_from_page`: the deduplicated harvest of the first selector that harvests anything; titles are distinct and never empty. */
  function PagedProjects(page: Element): (r: seq<Project>)
    ensures r == [] <==> forall k :: 0 <= k < |ListingItemLocators| ==> !Harvests(page, ListingItemLocators[k], ProjectOf)
    ensures forall k :: 0 <= k < |ListingItemLocators|
                        && (forall j :: 0 <= j < k ==> !Harvests(page, ListingItemLocators[j], ProjectOf))
                        && Harvests(page, ListingItemLocators[k], ProjectOf)
               ==> r == DedupByKey(SelectorHarvest(page, ListingItemLocators[k], ProjectOf), TitleOf)
    ensures DistinctKeys(r, TitleOf)
    ensures forall p :: p in r ==> p.title != ""
  {
    PagedEntries(page, ListingItemLocators, ProjectOf, TitleOf)
  }

  /** `_extract_projects_from_main_page`: the entries of the first section that gives any; titles are never empty, but may repeat. */
  function MainPageProjects(page: Element): (r: seq<Project>)
    ensures r == [] <==> forall k :: 0 <= k < |MainSectionLocators| ==> !Yields(SectionAttempt(page, MainItemLocators, ProjectOf, AncestorOrSelf, MainSectionLocators[k]))
    ensures forall k :: 0 <= k < |MainSectionLocators| && (forall j :: 0 <= j < k ==> !Yields(SectionAttempt(page, MainItemLocators, ProjectOf, AncestorOrSelf, MainSectionLocators[j])))
                        && Yields(SectionAttempt(page, MainItemLocators, ProjectOf, AncestorOrSelf, MainSectionLocators[k]))
               ==> r == SectionAttempt(page, MainItemLocators, ProjectOf, AncestorOrSelf, MainSectionLocators[k]).value
    ensures forall p :: p in r ==> p.title != ""
  {
    CardEntries(page, MainSectionLocators, MainItemLocators, ProjectOf, AncestorOrSelf)
  }

  /** `_get_projects`, run on the profile page at `mainUrl`. */
  function GetProjects(web: Web, b: Browser, mainUrl: string): (r: (seq<Project>, Browser))
    ensures forall p :: p in r.0 ==> p.title != ""
    ensures b.visits <= r.1.visits
    ensures SectionPresent(b.page, ProbeLocators) != Ok(true) ==> r == ([], b)
  {
    Flow(web, b, mainUrl, Config, PagedProjects, MainPageProjects)
  }
}
