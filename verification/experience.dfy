/**
 * `LinkedInScraper._get_experience`: one entry per list item of the
 * experience card, with the company line split into the company name and
 * the employment type that LinkedIn appends after a middle dot.
 */
module Experience {
  import opened Common
  import opened Strings
  import opened Dom
  import opened Extract
  import opened Listing
  import opened CardSection

  /** The `job_type` key is present only when `jobType` is `Some`. */
  datatype ExperienceEntry = ExperienceEntry(
    title: Option<string>,
    company: Option<string>,
    duration: Option<string>,
    location: Option<string>,
    jobType: Option<string>)

  const SectionLocators: seq<Locator> := [
    "#experience", "#experience-section", ".experience-section", ".pv-experience-section"
  ]

  const ItemLocators: seq<Locator> := [
    "li.artdeco-list__item", ".experience-item", ".pv-entity__position-group-pager", ".pv-entity__summary-info"
  ]

  const TitleLocators: seq<Locator> := [
    ".display-flex.align-items-center.mr1.hoverable-link-text.t-bold span[aria-hidden=\"true\"]",
    ".hoverable-link-text.t-bold span",
    ".experience-item__title",
    ".pv-entity__name",
    ".pv-entity__summary-info h3"
  ]

  const CompanyLocators: seq<Locator> := [
    ".t-14.t-normal span[aria-hidden=\"true\"]",
    ".experience-item__subtitle",
    ".pv-entity__secondary-title",
    ".pv-entity__company-name"
  ]

  const DurationLocators: seq<Locator> := [
    ".t-14.t-normal.t-black--light .pvs-entity__caption-wrapper[aria-hidden=\"true\"]",
    ".t-14.t-normal.t-black--light span[aria-hidden=\"true\"]",
    ".experience-item__duration",
    ".pv-entity__date-range span:nth-child(2)",
    ".pv-entity__date-range"
  ]

  const LocationLocators: seq<Locator> := [
    ".t-14.t-normal.t-black--light span[aria-hidden=\"true\"]:last-child",
    ".pv-entity__location span"
  ]

  /** Space, middle dot (U+00B7), space. */
  const CompanySeparator: string := " · "

  /**
   * `company.split(" · ")`, keeping the first segment and, when there is
   * more than one, the second.
   */
  function CompanyParts(company: string): (r: (string, Option<string>))
    ensures StartsWith(company, r.0) && !Contains(r.0, CompanySeparator)
    ensures r.1.None? <==> r.0 == company
    ensures r.1.Some? ==> OccursAt(company, CompanySeparator, |r.0|)
    ensures r.1.Some? ==> forall j :: 0 <= j < |r.0| ==> !OccursAt(company, CompanySeparator, j)
    ensures r.1.Some? ==>
      var rest := company[|r.0| + |CompanySeparator|..];
      StartsWith(rest, r.1.value) && !Contains(r.1.value, CompanySeparator)
      && (r.1.value == rest || OccursAt(rest, CompanySeparator, |r.1.value|))
  {
    var parts := Split(company, CompanySeparator);
    SplitHead(company, CompanySeparator);
    SplitMany(company, CompanySeparator);
    ContainsIffFound(company, CompanySeparator);
    if |parts| > 1 then
      var i := IndexFrom(company, CompanySeparator, 0).value;
      var rest := company[i + |CompanySeparator|..];
      SplitHead(rest, CompanySeparator);
      ContainsIffFound(rest, CompanySeparator);
      (parts[0], Some(parts[1]))
    else
      (parts[0], None)
  }

  /** A company line that does not start with whitespace has a non-empty company name. */
  lemma CompanyNameNonEmpty(company: string)
    requires company != [] && !IsSpace(company[0])
    ensures CompanyParts(company).0 != []
  {
  }

  /** No separator starts inside a name that contains none and does not end in a space or a middle dot. */
  lemma SeparatorNotInName(name: string, jobType: string, p: nat)
    requires name != [] && name[|name| - 1] != ' ' && name[|name| - 1] != '·'
    requires !Contains(name, CompanySeparator)
    requires p < |name|
    ensures !OccursAt(name + CompanySeparator + jobType, CompanySeparator, p)
  {
    var s := name + CompanySeparator + jobType;
    var n := |name|;
    if p + 3 <= n {
      assert s[p..p + 3] == name[p..p + 3];
      assert !OccursAt(name, CompanySeparator, p);
    } else if p == n - 1 {
      assert s[p] == name[n - 1];
    } else {
      assert s[p + 1] == name[n - 1];
    }
  }

  /**
   * Splitting undoes joining, provided the name cannot end where a separator
   * begins: it contains no separator and does not end in a space or a middle dot.
   */
  lemma CompanyPartsOfJoined(name: string, jobType: string)
    requires name != [] && name[|name| - 1] != ' ' && name[|name| - 1] != '·'
    requires !Contains(name, CompanySeparator) && !Contains(jobType, CompanySeparator)
    ensures CompanyParts(name + CompanySeparator + jobType) == (name, Some(jobType))
  {
    var s := name + CompanySeparator + jobType;
    var n := |name|;
    var r := CompanyParts(s);
    assert OccursAt(s, CompanySeparator, n) by {
      assert s[n..n + 3] == CompanySeparator;
    }
    assert Contains(s, CompanySeparator);
    assert r.1.Some?;
    forall p | 0 <= p < n
      ensures !OccursAt(s, CompanySeparator, p)
    {
      SeparatorNotInName(name, jobType, p);
    }
    assert |r.0| == n;
    assert r.0 == name;
    var rest := s[n + 3..];
    assert rest == jobType;
  }

  /** What the entry's `company` key holds: the name part of a truthy company line, else the line itself. */
  function CompanyName(company: Option<string>): (r: Option<string>)
    ensures Truthy(company) ==> r == Some(CompanyParts(company.value).0)
    ensures !Truthy(company) ==> r == company
  {
    if Truthy(company) then Some(CompanyParts(company.value).0) else company
  }

  /** The entry's `job_type`, kept only when non-empty. */
  function JobType(company: Option<string>): (r: Option<string>)
    ensures r.Some? ==> r.value != [] && Truthy(company) && r == CompanyParts(company.value).1
    ensures r.None? ==> !Truthy(company) || CompanyParts(company.value).1 in {None, Some([])}
  {
    if Truthy(company) && Truthy(CompanyParts(company.value).1) then CompanyParts(company.value).1 else None
  }

  /**
   * One experience item: `None` when a lookup in the item raises (the item
   * is skipped) or when neither a title nor a company was found.
   */
  function ExperienceOf(item: Element): (r: Option<ExperienceEntry>)
    ensures r.Some? <==>
      && ElementText(item, TitleLocators).Ok? && ElementText(item, CompanyLocators).Ok?
      && ElementText(item, DurationLocators).Ok? && ElementText(item, LocationLocators).Ok?
      && (Truthy(ElementText(item, TitleLocators).value) || Truthy(ElementText(item, CompanyLocators).value))
    ensures r.Some? ==>
      && r.value.title == ElementText(item, TitleLocators).value
      && r.value.duration == ElementText(item, DurationLocators).value
      && r.value.location == ElementText(item, LocationLocators).value
      && r.value.company == CompanyName(ElementText(item, CompanyLocators).value)
      && r.value.jobType == JobType(ElementText(item, CompanyLocators).value)
    ensures r.Some? ==> Truthy(r.value.title) || Truthy(r.value.company)
    ensures r.Some? && r.value.jobType.Some? ==> r.value.jobType.value != []
  {
    match (ElementText(item, TitleLocators), ElementText(item, CompanyLocators),
           ElementText(item, DurationLocators), ElementText(item, LocationLocators))
    case (Ok(title), Ok(company), Ok(duration), Ok(location)) =>
      var name := CompanyName(company);
      assert Truthy(company) ==> Truthy(name) by {
        if Truthy(company) {
          var e := FindOne(item, CompanyLocators[FirstResolving(item, CompanyLocators, 0)]).element;
          assert company == Some(Strip(e.text));
          CompanyNameNonEmpty(company.value);
        }
      }
      if Truthy(title) || Truthy(name) then
        Some(ExperienceEntry(title, name, duration, location, JobType(company)))
      else
        None
    case _ => None
  }

  /**
   * The entries of the first section selector whose card gives any; every
   * entry satisfies the keep rule, and a `job_type` key is never empty.
   */
  function Experiences(page: Element): (r: seq<ExperienceEntry>)
    ensures r == [] <==> forall k :: 0 <= k < |SectionLocators| ==> !Yields(SectionAttempt(page, ItemLocators, ExperienceOf, AncestorOnly, SectionLocators[k]))
    ensures forall k :: 0 <= k < |SectionLocators| && (forall j :: 0 <= j < k ==> !Yields(SectionAttempt(page, ItemLocators, ExperienceOf, AncestorOnly, SectionLocators[j])))
                        && Yields(SectionAttempt(page, ItemLocators, ExperienceOf, AncestorOnly, SectionLocators[k]))
               ==> r == SectionAttempt(page, ItemLocators, ExperienceOf, AncestorOnly, SectionLocators[k]).value
    ensures forall x :: x in r ==> (Truthy(x.title) || Truthy(x.company)) && (x.jobType.Some? ==> x.jobType.value != [])
  {
    CardEntries(page, SectionLocators, ItemLocators, ExperienceOf, AncestorOnly)
  }
}
