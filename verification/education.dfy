/**
 * `LinkedInScraper._get_education`: one entry per list item of the
 * education card. Unlike the experience card, a section with no
 * `artdeco-card` ancestor is searched itself.
 */
module Education {
  import opened Common
  import opened Dom
  import opened Extract
  import opened Listing
  import opened CardSection

  datatype EducationEntry = EducationEntry(school: Option<string>, degree: Option<string>, duration: Option<string>)

  const SectionLocators: seq<Locator> := [
    "#education", "#education-section", ".education-section", ".pv-education-section"
  ]

  const ItemLocators: seq<Locator> := [
    "li.artdeco-list__item", ".education-item", ".pv-education-entity", ".pv-entity__summary-info"
  ]

  const SchoolLocators: seq<Locator> := [
    ".display-flex.align-items-center.mr1.hoverable-link-text.t-bold span[aria-hidden=\"true\"]",
    ".hoverable-link-text.t-bold span",
    ".education-item__school-name",
    ".pv-entity__school-name",
    ".pv-entity__degree-name"
  ]

  const DegreeLocators: seq<Locator> := [
    ".t-14.t-normal span[aria-hidden=\"true\"]",
    ".education-item__degree-name",
    ".pv-entity__degree-name",
    ".pv-entity__fos"
  ]

  const DurationLocators: seq<Locator> := [
    ".t-14.t-normal.t-black--light .pvs-entity__caption-wrapper[aria-hidden=\"true\"]",
    ".t-14.t-normal.t-black--light span[aria-hidden=\"true\"]",
    ".education-item__duration",
    ".pv-entity__dates span:nth-child(2)",
    ".pv-entity__dates"
  ]

  /**
   * One education item: `None` when a lookup in the item raises or when
   * neither a school nor a degree was found.
   */
  function EducationOf(item: Element): (r: Option<EducationEntry>)
    ensures r.Some? <==>
      && ElementText(item, SchoolLocators).Ok? && ElementText(item, DegreeLocators).Ok?
      && ElementText(item, DurationLocators).Ok?
      && (Truthy(ElementText(item, SchoolLocators).value) || Truthy(ElementText(item, DegreeLocators).value))
    ensures r.Some? ==> r.value == EducationEntry(ElementText(item, SchoolLocators).value,
                                                  ElementText(item, DegreeLocators).value,
                                                  ElementText(item, DurationLocators).value)
  {
    match (ElementText(item, SchoolLocators), ElementText(item, DegreeLocators), ElementText(item, DurationLocators))
    case (Ok(school), Ok(degree), Ok(duration)) =>
      if Truthy(school) || Truthy(degree) then Some(EducationEntry(school, degree, duration)) else None
    case _ => None
  }

  /** The entries of the first section selector whose card gives any; every entry has a school or a degree. */
  function Educations(page: Element): (r: seq<EducationEntry>)
    ensures r == [] <==> forall k :: 0 <= k < |SectionLocators| ==> !Yields(SectionAttempt(page, ItemLocators, EducationOf, AncestorOrSelf, SectionLocators[k]))
    ensures forall k :: 0 <= k < |SectionLocators| && (forall j :: 0 <= j < k ==> !Yields(SectionAttempt(page, ItemLocators, EducationOf, AncestorOrSelf, SectionLocators[j])))
                        && Yields(SectionAttempt(page, ItemLocators, EducationOf, AncestorOrSelf, SectionLocators[k]))
               ==> r == SectionAttempt(page, ItemLocators, EducationOf, AncestorOrSelf, SectionLocators[k]).value
    ensures forall x :: x in r ==> Truthy(x.school) || Truthy(x.degree)
  {
    CardEntries(page, SectionLocators, ItemLocators, EducationOf, AncestorOrSelf)
  }
}
