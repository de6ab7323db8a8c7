/**
 * `LinkedInScraper._get_certificates` and the helpers behind it, chiefly
 * `_extract_certificate_data`, which sorts a certificate's caption lines
 * into dates, a credential id and skills by looking for keywords.
 */
module Certificates {
  import opened Common
  import opened Strings
  import opened Dom
  import opened Extract
  import opened Listing
  import opened CardSection
  import opened SectionFlow

  /** A "Show credential" link; `kind` is the dictionary's constant `type` key. */
  datatype CredentialLink = CredentialLink(url: string, kind: string, text: Option<string>)

  /** A media-viewer document; `kind` is the dictionary's constant `type` key. */
  datatype CertificateDocument = CertificateDocument(url: string, kind: string, title: Option<string>)

  /**
   * A certificate dictionary. The optional keys are absent when `None`;
   * `external_links` and `documents` are absent when empty.
   */
  datatype Certificate = Certificate(
    title: string,
    organization: Option<string>,
    issueDate: Option<string>,
    expiryDate: Option<string>,
    credentialId: Option<string>,
    skills: Option<string>,
    externalLinks: seq<CredentialLink>,
    documents: seq<CertificateDocument>)

  const ProbeLocators: seq<Locator> := [
    "a[href*=\"/details/certifications\"]",
    "a[id*=\"navigation-index-see-all-licenses-and-certifications\"]",
    "a[href*=\"certifications\"]",
    "button[aria-label*=\"certificates\"]",
    "button[aria-label*=\"licenses\"]",
    "#licenses_and_certifications",
    "#certifications",
    ".licenses-certifications-section",
    ".pv-certifications-section"
  ]

  const ButtonLocators: seq<Locator> := ProbeLocators[..5]

  const Config := SectionConfig(ProbeLocators, ButtonLocators, ButtonRule(["certificate", "license"], "/details/certifications"))

  const MainSectionLocators: seq<Locator> := ProbeLocators[5..]

  const TitleLocators: seq<Locator> := [
    ".display-flex.align-items-center.mr1.hoverable-link-text.t-bold span[aria-hidden=\"true\"]",
    ".hoverable-link-text.t-bold span[aria-hidden=\"true\"]",
    ".display-flex.align-items-center.mr1.t-bold span[aria-hidden=\"true\"]",
    ".t-bold span[aria-hidden=\"true\"]"
  ]

  const OrganizationLocators: seq<Locator> := [".t-14.t-normal span[aria-hidden=\"true\"]", ".t-14.t-normal"]

  const DateLocators: seq<Locator> := [
    ".t-14.t-normal.t-black--light .pvs-entity__caption-wrapper[aria-hidden=\"true\"]",
    ".t-14.t-normal.t-black--light span[aria-hidden=\"true\"]",
    ".pvs-entity__caption-wrapper span[aria-hidden=\"true\"]"
  ]

  const CredentialIdLocator: Locator := ".t-14.t-normal.t-black--light span[aria-hidden=\"true\"]"

  const SkillsLocator: Locator := ".display-flex.align-items-center.t-14.t-normal.t-black span[aria-hidden=\"true\"]"

  const CredentialLinkLocator: Locator := "a[aria-label*=\"Show credential\"], a[href]:not([href*=\"linkedin.com\"])"

  const DocumentLocator: Locator := "a[href*=\"single-media-viewer\"]"

  const Months: seq<string> := ["jan", "feb", "mar", "apr", "may", "jun", "jul", "aug", "sep", "oct", "nov", "dec"]

  // ---- Dates ----------------------------------------------------------------

  predicate MentionsIssued(t: string) {
    Contains(Lower(t), "issued")
  }

  predicate MentionsExpired(t: string) {
    Contains(Lower(t), "expired")
  }

  /** The text the `elif` branch assigns: it mentions expiry and not issue. */
  predicate MentionsOnlyExpired(t: string) {
    !MentionsIssued(t) && MentionsExpired(t)
  }

  /** A caption line worth collecting: non-empty, with a date keyword or a month abbreviation. */
  predicate IsDateText(t: string) {
    t != "" && (MentionsIssued(t) || MentionsExpired(t) || NamesAny(Lower(t), Months))
  }

  function DateTextOf(e: Element): (r: Option<string>)
    ensures r.Some? <==> IsDateText(Strip(e.text))
    ensures r.Some? ==> r.value == Strip(e.text)
  {
    var t := Strip(e.text);
    if IsDateText(t) then Some(t) else None
  }

  /** A date line of a selector's elements, as `DateTexts` collects it. */
  predicate CollectedAt(item: Element, locs: seq<Locator>, k: int, i: int, t: string) {
    0 <= k < |locs| && 0 <= i < |FoundOrNone(item, locs[k])| && DateTextOf(FoundOrNone(item, locs[k])[i]) == Some(t)
  }

  /** The collected date lines: selector by selector, each selector's elements in order. */
  function DateTexts(item: Element, locs: seq<Locator>): (r: seq<string>)
    ensures forall t :: t in r ==> exists k, i :: CollectedAt(item, locs, k, i, t)
    ensures forall t :: t in r ==> IsDateText(t)
    ensures forall k, i, t :: CollectedAt(item, locs, k, i, t) ==> t in r
  {
    if locs == [] then []
    else
      var here := Harvest(FoundOrNone(item, locs[0]), DateTextOf);
      var rest := DateTexts(item, locs[1..]);
      DateTextsSound(item, locs, here, rest);
      DateTextsComplete(item, locs, here, rest);
      assert forall t :: t in here + rest ==> IsDateText(t) by {
        forall t | t in here + rest
          ensures IsDateText(t)
        {
          var k, i :| CollectedAt(item, locs, k, i, t);
        }
      }
      here + rest
  }

  /** One step of `DateTexts`: every line of the first selector's and the other selectors' is a collected one. */
  lemma DateTextsSound(item: Element, locs: seq<Locator>, here: seq<string>, rest: seq<string>)
    requires locs != [] && here == Harvest(FoundOrNone(item, locs[0]), DateTextOf)
    requires forall t :: t in rest ==> exists k, i :: CollectedAt(item, locs[1..], k, i, t)
    ensures forall t :: t in here + rest ==> exists k, i :: CollectedAt(item, locs, k, i, t)
  {
    forall t | t in here + rest
      ensures exists k, i :: CollectedAt(item, locs, k, i, t)
    {
      if t in here {
        var es := FoundOrNone(item, locs[0]);
        var i :| 0 <= i < |es| && DateTextOf(es[i]) == Some(t);
        assert CollectedAt(item, locs, 0, i, t);
      } else {
        var k, i :| CollectedAt(item, locs[1..], k, i, t);
        assert locs[1..][k] == locs[k + 1];
        assert CollectedAt(item, locs, k + 1, i, t);
      }
    }
  }

  /** One step of `DateTexts`: every collected line of the first selector or the others is kept. */
  lemma DateTextsComplete(item: Element, locs: seq<Locator>, here: seq<string>, rest: seq<string>)
    requires locs != [] && here == Harvest(FoundOrNone(item, locs[0]), DateTextOf)
    requires forall k, i, t :: CollectedAt(item, locs[1..], k, i, t) ==> t in rest
    ensures forall k, i, t :: CollectedAt(item, locs, k, i, t) ==> t in here + rest
  {
    forall k, i, t | CollectedAt(item, locs, k, i, t)
      ensures t in here + rest
    {
      if k > 0 {
        assert locs[1..][k - 1] == locs[k];
        assert CollectedAt(item, locs[1..], k - 1, i, t);
      }
    }
  }

  /** Selector order: the lines of earlier selectors come before those of later ones. */
  lemma {:induction false} DateTextsAppend(item: Element, a: seq<Locator>, b: seq<Locator>)
    ensures DateTexts(item, a + b) == DateTexts(item, a) + DateTexts(item, b)
    decreases |a|
  {
    if a == [] {
      assert a + b == b;
    } else {
      var ab := a + b;
      assert ab[0] == a[0] && ab[1..] == a[1..] + b;
      DateTextsAppend(item, a[1..], b);
      var here := Harvest(FoundOrNone(item, a[0]), DateTextOf);
      assert DateTexts(item, ab) == here + DateTexts(item, ab[1..]);
      assert DateTexts(item, a) == here + DateTexts(item, a[1..]);
      AppendAssoc(here, DateTexts(item, a[1..]), DateTexts(item, b));
    }
  }

  /** One selector contributes the date lines of its elements, in document order. */
  lemma DateTextsOne(item: Element, loc: Locator)
    ensures DateTexts(item, [loc]) == Harvest(FoundOrNone(item, loc), DateTextOf)
  {
    assert [loc][1..] == [];
    assert DateTexts(item, []) == [];
  }

  datatype DateKeys = DateKeys(issueDate: Option<string>, expiryDate: Option<string>)

  /** The scraper's loop over the collected lines, on top of what `acc` already holds. */
  function AssignDates(acc: DateKeys, texts: seq<string>): DateKeys
    decreases |texts|
  {
    if texts == [] then acc
    else
      var t := texts[0];
      var next := if MentionsIssued(t) then acc.(issueDate := Some(t))
                  else if MentionsExpired(t) then acc.(expiryDate := Some(t))
                  else acc;
      AssignDates(next, texts[1..])
  }

  /** The last text satisfying `p`: the reference for a loop whose later writes overwrite earlier ones. */
  function LastWhere(texts: seq<string>, p: string -> bool): (r: Option<string>)
    ensures r.None? <==> forall i :: 0 <= i < |texts| ==> !p(texts[i])
    ensures r.Some? ==> exists i :: 0 <= i < |texts| && texts[i] == r.value && p(texts[i])
                          && forall j :: i < j < |texts| ==> !p(texts[j])
  {
    if texts == [] then None
    else
      var later := LastWhere(texts[1..], p);
      if later.Some? then
        assert exists i :: 0 <= i < |texts| && texts[i] == later.value && p(texts[i])
                 && forall j :: i < j < |texts| ==> !p(texts[j]) by {
          var i :| 0 <= i < |texts[1..]| && texts[1..][i] == later.value && p(texts[1..][i])
                   && forall j :: i < j < |texts[1..]| ==> !p(texts[1..][j]);
          assert texts[i + 1] == later.value;
          forall j | i + 1 < j < |texts|
            ensures !p(texts[j])
          {
            assert texts[j] == texts[1..][j - 1];
          }
        }
        later
      else if p(texts[0]) then
        assert forall j :: 0 < j < |texts| ==> !p(texts[j]) by {
          forall j | 0 < j < |texts|
            ensures !p(texts[j])
          {
            assert texts[j] == texts[1..][j - 1];
          }
        }
        Some(texts[0])
      else
        assert forall i :: 0 <= i < |texts| ==> !p(texts[i]) by {
          forall i | 0 < i < |texts|
            ensures !p(texts[i])
          {
            assert texts[i] == texts[1..][i - 1];
          }
        }
        None
  }

  function OrElse(a: Option<string>, b: Option<string>): (r: Option<string>)
    ensures a.Some? ==> r == a
    ensures a.None? ==> r == b
  {
    if a.Some? then a else b
  }

  /**
   * The loop keeps the last line mentioning "issued" as the issue date and
   * the last line mentioning "expired" but not "issued" as the expiry date.
   */
  lemma {:induction false} AssignDatesIsLast(acc: DateKeys, texts: seq<string>)
    decreases |texts|
    ensures AssignDates(acc, texts) == DateKeys(OrElse(LastWhere(texts, MentionsIssued), acc.issueDate),
                                                OrElse(LastWhere(texts, MentionsOnlyExpired), acc.expiryDate))
  {
    if texts != [] {
      var t := texts[0];
      var next := if MentionsIssued(t) then acc.(issueDate := Some(t))
                  else if MentionsExpired(t) then acc.(expiryDate := Some(t))
                  else acc;
      AssignDatesIsLast(next, texts[1..]);
    }
  }

  function Filter(texts: seq<string>, p: string -> bool): (r: seq<string>)
    ensures forall t :: t in r ==> t in texts && p(t)
  {
    if texts == [] then []
    else if p(texts[0]) then [texts[0]] + Filter(texts[1..], p)
    else Filter(texts[1..], p)
  }

  predicate MentionsIssuedOrExpired(t: string) {
    MentionsIssued(t) || MentionsExpired(t)
  }

  lemma {:induction false} LastWhereFiltered(texts: seq<string>, p: string -> bool, q: string -> bool)
    requires forall t :: p(t) ==> q(t)
    decreases |texts|
    ensures LastWhere(Filter(texts, q), p) == LastWhere(texts, p)
  {
    if texts != [] {
      LastWhereFiltered(texts[1..], p, q);
      if q(texts[0]) {
        assert ([texts[0]] + Filter(texts[1..], q))[1..] == Filter(texts[1..], q);
      }
    }
  }

  /** Lines that only carry a month are collected but never change the dates. */
  lemma MonthOnlyTextsIgnored(acc: DateKeys, texts: seq<string>)
    ensures AssignDates(acc, texts) == AssignDates(acc, Filter(texts, MentionsIssuedOrExpired))
  {
    var kept := Filter(texts, MentionsIssuedOrExpired);
    AssignDatesIsLast(acc, texts);
    AssignDatesIsLast(acc, kept);
    LastWhereFiltered(texts, MentionsIssued, MentionsIssuedOrExpired);
    LastWhereFiltered(texts, MentionsOnlyExpired, MentionsIssuedOrExpired);
  }

  // ---- Credential id and skills ----------------------------------------------

  function StrippedTexts(es: seq<Element>): (r: seq<string>)
    ensures |r| == |es| && forall i :: 0 <= i < |es| ==> r[i] == Strip(es[i].text)
  {
    seq(|es|, i requires 0 <= i < |es| => Strip(es[i].text))
  }

  /** The first text whose lower-cased form contains `keyword`. */
  function FirstMentioning(texts: seq<string>, keyword: string): (r: Option<string>)
    ensures r.None? <==> forall i :: 0 <= i < |texts| ==> !Contains(Lower(texts[i]), keyword)
    ensures r.Some? ==> exists i :: 0 <= i < |texts| && texts[i] == r.value && Contains(Lower(texts[i]), keyword)
                          && forall j :: 0 <= j < i ==> !Contains(Lower(texts[j]), keyword)
  {
    if texts == [] then None
    else if Contains(Lower(texts[0]), keyword) then Some(texts[0])
    else
      var r := FirstMentioning(texts[1..], keyword);
      assert r.Some? ==> exists i :: 0 <= i < |texts| && texts[i] == r.value && Contains(Lower(texts[i]), keyword)
                           && forall j :: 0 <= j < i ==> !Contains(Lower(texts[j]), keyword) by {
        if r.Some? {
          var i :| 0 <= i < |texts[1..]| && texts[1..][i] == r.value && Contains(Lower(texts[1..][i]), keyword)
                   && forall j :: 0 <= j < i ==> !Contains(Lower(texts[1..][j]), keyword);
          assert texts[i + 1] == r.value;
          forall j | 0 <= j < i + 1
            ensures !Contains(Lower(texts[j]), keyword)
          {
            if j > 0 {
              assert texts[j] == texts[1..][j - 1];
            }
          }
        }
      }
      r
  }

  /** The marker the skills line is split on; the test for the line itself ignores case. */
  const SkillsMarker: string := "Skills:"

  /** Whether the stripped, lower-cased text of `e` contains `keyword`. */
  predicate Mentions(e: Element, keyword: string) {
    Contains(Lower(Strip(e.text)), keyword)
  }

  /** The stripped text of the first element that mentions `keyword`: the loop that breaks at its first hit. */
  function FirstLineMentioning(es: seq<Element>, keyword: string): (r: Option<string>)
    ensures r.None? <==> forall i :: 0 <= i < |es| ==> !Mentions(es[i], keyword)
    ensures r.Some? ==> exists i :: 0 <= i < |es| && r.value == Strip(es[i].text) && Mentions(es[i], keyword)
                          && forall j :: 0 <= j < i ==> !Mentions(es[j], keyword)
  {
    FirstMentioning(StrippedTexts(es), keyword)
  }

  /** `text.split("Skills:")[-1].strip()`: what follows the last marker, or the whole line without one. */
  function SkillsPart(text: string): (r: string)
    ensures !Contains(text, SkillsMarker) ==> r == Strip(text)
    ensures Contains(text, SkillsMarker) ==>
      exists i :: 0 <= i <= |text| - |SkillsMarker| && OccursAt(text, SkillsMarker, i)
        && !Contains(text[i + |SkillsMarker|..], SkillsMarker) && r == Strip(text[i + |SkillsMarker|..])
  {
    var last := LastSegment(text, SkillsMarker);
    assert Contains(text, SkillsMarker) ==>
      exists i :: 0 <= i <= |text| - |SkillsMarker| && OccursAt(text, SkillsMarker, i)
        && !Contains(text[i + |SkillsMarker|..], SkillsMarker) && Strip(last) == Strip(text[i + |SkillsMarker|..]) by {
      if Contains(text, SkillsMarker) {
        var i :| 0 <= i <= |text| - |SkillsMarker| && OccursAt(text, SkillsMarker, i) && last == text[i + |SkillsMarker|..];
      }
    }
    Strip(last)
  }

  /** A skills line written in lower case keeps its "skills:" prefix, since the split is case-sensitive. */
  lemma LowerCaseSkillsKeepPrefix(tail: string)
    requires !Contains("skills:" + tail, SkillsMarker)
    ensures SkillsPart("skills:" + tail) == Strip("skills:" + tail)
  {
  }

  // ---- Links and documents ----------------------------------------------------

  /** A credential link is kept when its `href` is present, starts with `http` and is not on linkedin.com. */
  function CredentialLinkOf(button: Element): (r: Option<CredentialLink>)
    ensures r.Some? <==> Attribute(button, "href").Some?
                         && StartsWith(Attribute(button, "href").value, "http")
                         && !Contains(Attribute(button, "href").value, "linkedin.com")
    ensures r.Some? ==> r.value == CredentialLink(Attribute(button, "href").value, "credential",
                                                  KeepTruthy(Some(Strip(button.text))))
  {
    match Attribute(button, "href")
    case Some(href) =>
      if StartsWith(href, "http") && !Contains(href, "linkedin.com") then
        Some(CredentialLink(href, "credential", KeepTruthy(Some(Strip(button.text)))))
      else None
    case None => None
  }

  /** A document is kept when its `href` is non-empty. */
  function DocumentOf(link: Element): (r: Option<CertificateDocument>)
    ensures r.Some? <==> Truthy(Attribute(link, "href"))
    ensures r.Some? ==> r.value == CertificateDocument(Attribute(link, "href").value, "document", FirstText(link, CaptionLocator))
  {
    if Truthy(Attribute(link, "href")) then
      Some(CertificateDocument(Attribute(link, "href").value, "document", FirstText(link, CaptionLocator)))
    else None
  }

  // ---- One certificate --------------------------------------------------------

  /** The issue and expiry dates: the last collected lines naming them. */
  function Dates(item: Element): (r: DateKeys)
    ensures r.issueDate == LastWhere(DateTexts(item, DateLocators), MentionsIssued)
    ensures r.expiryDate == LastWhere(DateTexts(item, DateLocators), MentionsOnlyExpired)
  {
    AssignDatesIsLast(DateKeys(None, None), DateTexts(item, DateLocators));
    AssignDates(DateKeys(None, None), DateTexts(item, DateLocators))
  }

  /** The first caption line naming a credential id, kept whole. */
  function CredentialId(item: Element): (r: Option<string>)
    ensures var es := FoundOrNone(item, CredentialIdLocator);
      r.Some? <==> exists i :: 0 <= i < |es| && Contains(Lower(Strip(es[i].text)), "credential id")
    ensures var es := FoundOrNone(item, CredentialIdLocator);
      r.Some? ==> exists i :: 0 <= i < |es| && r.value == Strip(es[i].text)
                    && Contains(Lower(Strip(es[i].text)), "credential id")
                    && forall j :: 0 <= j < i ==> !Contains(Lower(Strip(es[j].text)), "credential id")
    ensures r.Some? ==> Contains(Lower(r.value), "credential id")
  {
    FirstLineMentioning(FoundOrNone(item, CredentialIdLocator), "credential id")
  }

  /** The skills after the marker of the first line that mentions skills. */
  function Skills(item: Element): (r: Option<string>)
    ensures var es := FoundOrNone(item, SkillsLocator);
      r.Some? <==> exists i :: 0 <= i < |es| && Contains(Lower(Strip(es[i].text)), "skills:")
    ensures var es := FoundOrNone(item, SkillsLocator);
      r.Some? ==> exists i :: 0 <= i < |es| && r.value == SkillsPart(Strip(es[i].text))
                    && Contains(Lower(Strip(es[i].text)), "skills:")
                    && forall j :: 0 <= j < i ==> !Contains(Lower(Strip(es[j].text)), "skills:")
  {
    match FirstLineMentioning(FoundOrNone(item, SkillsLocator), "skills:")
    case Some(t) => Some(SkillsPart(t))
    case None => None
  }

  /** The accepted credential links, one per accepted element in document order. */
  function CredentialLinks(item: Element): (r: seq<CredentialLink>)
    ensures var es := FoundOrNone(item, CredentialLinkLocator);
      forall i :: 0 <= i < |es| && CredentialLinkOf(es[i]).Some? ==> CredentialLinkOf(es[i]).value in r
    ensures var es := FoundOrNone(item, CredentialLinkLocator);
      forall l :: l in r ==> exists i :: 0 <= i < |es| && CredentialLinkOf(es[i]) == Some(l)
    ensures forall l :: l in r ==> StartsWith(l.url, "http") && !Contains(l.url, "linkedin.com") && l.kind == "credential"
  {
    var buttons := FoundOrNone(item, CredentialLinkLocator);
    var links := Harvest(buttons, CredentialLinkOf);
    assert forall l :: l in links ==> StartsWith(l.url, "http") && !Contains(l.url, "linkedin.com") && l.kind == "credential" by {
      forall l | l in links
        ensures StartsWith(l.url, "http") && !Contains(l.url, "linkedin.com") && l.kind == "credential"
      {
        var i :| 0 <= i < |buttons| && CredentialLinkOf(buttons[i]) == Some(l);
      }
    }
    links
  }

  /** The accepted media documents, one per accepted element in document order. */
  function Documents(item: Element): (r: seq<CertificateDocument>)
    ensures var es := FoundOrNone(item, DocumentLocator);
      forall i :: 0 <= i < |es| && DocumentOf(es[i]).Some? ==> DocumentOf(es[i]).value in r
    ensures var es := FoundOrNone(item, DocumentLocator);
      forall d :: d in r ==> exists i :: 0 <= i < |es| && DocumentOf(es[i]) == Some(d)
    ensures forall d :: d in r ==> d.url != "" && d.kind == "document"
  {
    var media := FoundOrNone(item, DocumentLocator);
    var documents := Harvest(media, DocumentOf);
    assert forall d :: d in documents ==> d.url != "" && d.kind == "document" by {
      forall d | d in documents
        ensures d.url != "" && d.kind == "document"
      {
        var i :| 0 <= i < |media| && DocumentOf(media[i]) == Some(d);
      }
    }
    documents
  }

  /**
   * `_extract_certificate_data`: `None` when a text lookup raises or when
   * no title is found; otherwise the optional keys hold only non-empty text,
   * apart from a skills line that has nothing after its marker.
   */
  function CertificateOf(item: Element): (r: Option<Certificate>)
    ensures r.Some? <==>
      && ElementText(item, TitleLocators).Ok? && ElementText(item, OrganizationLocators).Ok?
      && Truthy(ElementText(item, TitleLocators).value)
    ensures r.Some? ==>
      && Some(r.value.title) == ElementText(item, TitleLocators).value && r.value.title != ""
      && r.value.organization == KeepTruthy(ElementText(item, OrganizationLocators).value)
      && r.value.issueDate == Dates(item).issueDate && r.value.expiryDate == Dates(item).expiryDate
      && r.value.credentialId == CredentialId(item) && r.value.skills == Skills(item)
      && r.value.externalLinks == CredentialLinks(item) && r.value.documents == Documents(item)
  {
    match (ElementText(item, TitleLocators), ElementText(item, OrganizationLocators))
    case (Ok(title), Ok(organization)) =>
      if Truthy(title) then
        var dates := Dates(item);
        Some(Certificate(title.value, KeepTruthy(organization), dates.issueDate, dates.expiryDate,
                         CredentialId(item), Skills(item), CredentialLinks(item), Documents(item)))
      else None
    case _ => None
  }

  function TitleOf(c: Certificate): string {
    c.title
  }

  /** `_extract_certificates_from_page`: the deduplicated harvest of the first selector that harvests anything; titles are distinct and never empty. */
  function PagedCertificates(page: Element): (r: seq<Certificate>)
    ensures r == [] <==> forall k :: 0 <= k < |ListingItemLocators| ==> !Harvests(page, ListingItemLocators[k], CertificateOf)
    ensures forall k :: 0 <= k < |ListingItemLocators|
                        && (forall j :: 0 <= j < k ==> !Harvests(page, ListingItemLocators[j], CertificateOf))
                        && Harvests(page, ListingItemLocators[k], CertificateOf)
               ==> r == DedupByKey(SelectorHarvest(page, ListingItemLocators[k], CertificateOf), TitleOf)
    ensures DistinctKeys(r, TitleOf)
    ensures forall c :: c in r ==> c.title != ""
  {
    PagedEntries(page, ListingItemLocators, CertificateOf, TitleOf)
  }

  /** `_extract_certificates_from_main_page`: the entries of the first section that gives any; titles are never empty, but may repeat. */
  function MainPageCertificates(page: Element): (r: seq<Certificate>)
    ensures r == [] <==> forall k :: 0 <= k < |MainSectionLocators| ==> !Yields(SectionAttempt(page, MainItemLocators, CertificateOf, AncestorOrSelf, MainSectionLocators[k]))
    ensures forall k :: 0 <= k < |MainSectionLocators| && (forall j :: 0 <= j < k ==> !Yields(SectionAttempt(page, MainItemLocators, CertificateOf, AncestorOrSelf, MainSectionLocators[j])))
                        && Yields(SectionAttempt(page, MainItemLocators, CertificateOf, AncestorOrSelf, MainSectionLocators[k]))
               ==> r == SectionAttempt(page, MainItemLocators, CertificateOf, AncestorOrSelf, MainSectionLocators[k]).value
    ensures forall c :: c in r ==> c.title != ""
  {
    CardEntries(page, MainSectionLocators, MainItemLocators, CertificateOf, AncestorOrSelf)
  }

  /** `_get_certificates`, run on whatever page the browser shows, returning to `mainUrl`. */
  function GetCertificates(web: Web, b: Browser, mainUrl: string): (r: (seq<Certificate>, Browser))
    ensures forall c :: c in r.0 ==> c.title != ""
    ensures b.visits <= r.1.visits
    ensures SectionPresent(b.page, ProbeLocators) != Ok(true) ==> r == ([], b)
  {
    Flow(web, b, mainUrl, Config, PagedCertificates, MainPageCertificates)
  }
}
