/**
 * The control flow `_get_projects` and `_get_certificates` share: check
 * that the section exists at all, look for its "Show all" control, follow
 * it to the section's own listing page and come back, and read the entries
 * off the profile page instead only when that excursion raises or no
 * control is found.
 */
module SectionFlow {
  import opened Common
  import opened Strings
  import opened Dom
  import opened Listing

  /** What marks the control leading to a section's listing page. */
  datatype ButtonRule = ButtonRule(nouns: seq<string>, detailsPath: string)

  /** A section as the flow sees it: presence probes, then the selectors its controls are sought with. */
  datatype SectionConfig = SectionConfig(probes: seq<Locator>, buttons: seq<Locator>, rule: ButtonRule)

  predicate NamesAny(text: string, nouns: seq<string>) {
    exists i :: 0 <= i < |nouns| && Contains(text, nouns[i])
  }

  /** `element.get_attribute("href") or ""`. */
  function Href(e: Element): (r: string)
    ensures "href" in e.attributes ==> r == e.attributes["href"]
    ensures "href" !in e.attributes ==> r == ""
  {
    match Attribute(e, "href")
    case Some(h) => h
    case None => ""
  }

  /** The button test: lower-cased text says "show all" and names the section, or the link points at its details page. */
  predicate IsButton(rule: ButtonRule, e: Element) {
    var text := Lower(e.text);
    (Contains(text, "show all") && NamesAny(text, rule.nouns)) || Contains(Href(e), rule.detailsPath)
  }

  /** The first element that passes the button test. */
  function FirstButton(es: seq<Element>, rule: ButtonRule): (r: Option<Element>)
    ensures r.None? <==> forall i :: 0 <= i < |es| ==> !IsButton(rule, es[i])
    ensures r.Some? ==> exists i :: 0 <= i < |es| && es[i] == r.value && IsButton(rule, es[i])
                          && forall j :: 0 <= j < i ==> !IsButton(rule, es[j])
  {
    if es == [] then None
    else if IsButton(rule, es[0]) then Some(es[0])
    else
      var r := FirstButton(es[1..], rule);
      assert r.Some? ==> exists i :: 0 <= i < |es| && es[i] == r.value && IsButton(rule, es[i])
                           && forall j :: 0 <= j < i ==> !IsButton(rule, es[j]) by {
        if r.Some? {
          var i :| 0 <= i < |es[1..]| && es[1..][i] == r.value && IsButton(rule, es[1..][i])
                   && forall j :: 0 <= j < i ==> !IsButton(rule, es[1..][j]);
          assert es[i + 1] == r.value;
          forall j | 0 <= j < i + 1
            ensures !IsButton(rule, es[j])
          {
            if j > 0 {
              assert es[j] == es[1..][j - 1];
            }
          }
        }
      }
      r
  }

  /** One button selector: a one-element list holding the button it finds, or nothing, or the raise. */
  function ButtonAttempt(page: Element, rule: ButtonRule, sel: Locator): (r: Result<seq<Element>, DomFault>)
    ensures r.Ok? ==> |r.value| <= 1 && forall e :: e in r.value ==> IsButton(rule, e)
    ensures r == Ok([]) <==> FindAll(page, sel).Ok? && forall i :: 0 <= i < |FindAll(page, sel).value| ==> !IsButton(rule, FindAll(page, sel).value[i])
  {
    match FindAll(page, sel)
    case Err(f) => Err(f)
    case Ok(es) =>
      match FirstButton(es, rule)
      case Some(e) => Ok([e])
      case None => Ok([])
  }

  /** `ButtonAttempt` as the function the selector loop applies. */
  function ButtonAttempts(page: Element, rule: ButtonRule): Locator -> Result<seq<Element>, DomFault> {
    sel => ButtonAttempt(page, rule, sel)
  }

  /** Before selector `k`, no attempt stopping the loop means every attempt found no button. */
  lemma NoButtonBefore(page: Element, rule: ButtonRule, locs: seq<Locator>, k: nat)
    requires k <= |locs|
    ensures NoStopBefore(locs, ButtonAttempts(page, rule), k) <==>
              forall j :: 0 <= j < k ==> ButtonAttempt(page, rule, locs[j]) == Ok([])
  {
  }

  /**
   * The button search: selectors in order, and within a selector its
   * elements in order; the first element passing the test is the button,
   * and a lookup that raises ends the search with that raise.
   */
  function FindButton(page: Element, locs: seq<Locator>, rule: ButtonRule): (r: Result<Option<Element>, DomFault>)
    ensures r.Ok? && r.value.Some? ==> IsButton(rule, r.value.value)
    ensures r == Ok(None) <==> forall k :: 0 <= k < |locs| ==> ButtonAttempt(page, rule, locs[k]) == Ok([])
    ensures r.Ok? && r.value.Some? ==>
      exists k :: 0 <= k < |locs| && (forall j :: 0 <= j < k ==> ButtonAttempt(page, rule, locs[j]) == Ok([]))
                  && ButtonAttempt(page, rule, locs[k]) == Ok([r.value.value])
    ensures r.Err? <==>
      exists k :: 0 <= k < |locs| && (forall j :: 0 <= j < k ==> ButtonAttempt(page, rule, locs[j]) == Ok([]))
                  && ButtonAttempt(page, rule, locs[k]).Err?
    ensures r.Err? ==> exists k :: 0 <= k < |locs| && ButtonAttempt(page, rule, locs[k]) == Err(r.error)
  {
    var found := FirstNonEmptyOrRaise(locs, ButtonAttempts(page, rule));
    NoButtonBefore(page, rule, locs, |locs|);
    assert found != Ok([]) ==>
      exists k :: 0 <= k < |locs| && (forall j :: 0 <= j < k ==> ButtonAttempt(page, rule, locs[j]) == Ok([]))
                  && ButtonAttempt(page, rule, locs[k]) == found by {
      if found != Ok([]) {
        var k :| 0 <= k < |locs| && NoStopBefore(locs, ButtonAttempts(page, rule), k) && ButtonAttempts(page, rule)(locs[k]) == found;
        NoButtonBefore(page, rule, locs, k);
      }
    }
    forall k | 0 <= k < |locs| && (forall j :: 0 <= j < k ==> ButtonAttempt(page, rule, locs[j]) == Ok([]))
               && ButtonAttempt(page, rule, locs[k]).Err?
      ensures found.Err?
    {
      NoButtonBefore(page, rule, locs, k);
    }
    match found
    case Err(f) => Err(f)
    case Ok(es) => if es == [] then Ok(None) else Ok(Some(es[0]))
  }

  /** A presence probe as the function the selector loop applies. */
  function ProbeAttempts(page: Element): Locator -> Result<seq<Element>, DomFault> {
    sel => FindAll(page, sel)
  }

  /** Before probe `k`, no probe stopping the loop means every probe found nothing. */
  lemma NoProbeBefore(page: Element, probes: seq<Locator>, k: nat)
    requires k <= |probes|
    ensures NoStopBefore(probes, ProbeAttempts(page), k) <==> forall j :: 0 <= j < k ==> FindAll(page, probes[j]) == Ok([])
  {
  }

  /**
   * The presence check: probes in order; the first that finds an element
   * settles it, and the first that raises before any has found one aborts it.
   */
  function SectionPresent(page: Element, probes: seq<Locator>): (r: Result<bool, DomFault>)
    ensures r == Ok(false) <==> forall k :: 0 <= k < |probes| ==> FindAll(page, probes[k]) == Ok([])
    ensures r == Ok(true) <==>
      exists k :: 0 <= k < |probes| && (forall j :: 0 <= j < k ==> FindAll(page, probes[j]) == Ok([]))
                  && FindAll(page, probes[k]).Ok? && FindAll(page, probes[k]).value != []
    ensures r.Err? <==>
      exists k :: 0 <= k < |probes| && (forall j :: 0 <= j < k ==> FindAll(page, probes[j]) == Ok([]))
                  && FindAll(page, probes[k]).Err?
    ensures r.Err? ==> exists k :: 0 <= k < |probes| && FindAll(page, probes[k]) == Err(r.error)
  {
    var found := FirstNonEmptyOrRaise(probes, ProbeAttempts(page));
    NoProbeBefore(page, probes, |probes|);
    forall k | 0 <= k < |probes| && (forall j :: 0 <= j < k ==> FindAll(page, probes[j]) == Ok([]))
      ensures found == FindAll(page, probes[k]) || FindAll(page, probes[k]) == Ok([])
    {
      NoProbeBefore(page, probes, k);
    }
    assert found != Ok([]) ==>
      exists k :: 0 <= k < |probes| && (forall j :: 0 <= j < k ==> FindAll(page, probes[j]) == Ok([]))
                  && FindAll(page, probes[k]) == found by {
      if found != Ok([]) {
        var k :| 0 <= k < |probes| && NoStopBefore(probes, ProbeAttempts(page), k) && ProbeAttempts(page)(probes[k]) == found;
        NoProbeBefore(page, probes, k);
      }
    }
    match found
    case Err(f) => Err(f)
    case Ok(es) => Ok(es != [])
  }

  /** The item selectors of a section's own listing page. */
  const ListingItemLocators: seq<Locator> := [
    "li.pvs-list__paged-list-item",
    "li.artdeco-list__item.pvs-list__item--line-separated",
    "li.artdeco-list__item",
    ".pvs-list__item",
    "div[data-view-name=\"profile-component-entity\"]"
  ]

  /** The only item selector of the profile-page fallback. */
  const MainItemLocators: seq<Locator> := ["li.artdeco-list__item"]

  /** One selector of a listing page: its items, filtered and then deduplicated by key. */
  function PagedAttempt<T>(page: Element, extract: Element -> Option<T>, key: T -> string, sel: Locator)
    : Result<seq<T>, DomFault>
  {
    match FindAll(page, sel)
    case Err(f) => Err(f)
    case Ok(items) => Ok(DedupByKey(Harvest(items, extract), key))
  }

  /** `PagedAttempt` as the function the selector loop applies. */
  function PagedAttempts<T>(page: Element, extract: Element -> Option<T>, key: T -> string): Locator -> Result<seq<T>, DomFault> {
    sel => PagedAttempt(page, extract, key, sel)
  }

  /** The entries a selector's items give; a lookup that raises gives none. */
  function SelectorHarvest<T>(page: Element, sel: Locator, extract: Element -> Option<T>): seq<T> {
    match FindAll(page, sel)
    case Err(_) => []
    case Ok(items) => Harvest(items, extract)
  }

  /** A selector's lookup succeeds and the extractor accepts at least one of its items. */
  predicate Harvests<T>(page: Element, sel: Locator, extract: Element -> Option<T>) {
    SelectorHarvest(page, sel, extract) != []
  }

  /** Deduplication never empties a harvest, so a selector yields exactly when it harvests something. */
  lemma PagedYields<T>(page: Element, extract: Element -> Option<T>, key: T -> string, sel: Locator)
    ensures Yields(PagedAttempts(page, extract, key)(sel)) <==> Harvests(page, sel, extract)
  {
    if FindAll(page, sel).Ok? {
      var h := SelectorHarvest(page, sel, extract);
      if h != [] {
        assert h[0] in h;
      }
    }
  }

  lemma NoHarvestBefore<T>(page: Element, extract: Element -> Option<T>, key: T -> string, locs: seq<Locator>, k: nat)
    requires k <= |locs|
    ensures NoYieldBefore(locs, PagedAttempts(page, extract, key), k) <==>
              forall j :: 0 <= j < k ==> !Harvests(page, locs[j], extract)
  {
    forall j | 0 <= j < k {
      PagedYields(page, extract, key, locs[j]);
    }
  }

  /** The first selector that harvests anything is the one the selector loop keeps. */
  lemma PagedFirst<T>(page: Element, locs: seq<Locator>, extract: Element -> Option<T>, key: T -> string, k: nat)
    requires k < |locs| && (forall j :: 0 <= j < k ==> !Harvests(page, locs[j], extract)) && Harvests(page, locs[k], extract)
    ensures FirstNonEmpty(locs, PagedAttempts(page, extract, key)) == DedupByKey(SelectorHarvest(page, locs[k], extract), key)
  {
    NoHarvestBefore(page, extract, key, locs, k);
    PagedYields(page, extract, key, locs[k]);
  }

  /**
   * `_extract_projects_from_page` / `_extract_certificates_from_page`: the
   * first selector whose items give any entry wins, and its entries are
   * deduplicated by key, first occurrence kept; a selector that raises is
   * skipped.
   */
  function PagedEntries<T>(page: Element, locs: seq<Locator>, extract: Element -> Option<T>, key: T -> string): (r: seq<T>)
    ensures forall k :: 0 <= k < |locs| && (forall j :: 0 <= j < k ==> !Harvests(page, locs[j], extract))
                        && Harvests(page, locs[k], extract)
               ==> r == DedupByKey(SelectorHarvest(page, locs[k], extract), key)
    ensures r == [] <==> forall k :: 0 <= k < |locs| ==> !Harvests(page, locs[k], extract)
    ensures DistinctKeys(r, key)
    ensures forall y :: y in r ==> exists e :: extract(e) == Some(y)
  {
    var attempt := PagedAttempts(page, extract, key);
    var r := FirstNonEmpty(locs, attempt);
    NoHarvestBefore(page, extract, key, locs, |locs|);
    forall k | 0 <= k < |locs| && (forall j :: 0 <= j < k ==> !Harvests(page, locs[j], extract))
               && Harvests(page, locs[k], extract)
      ensures r == DedupByKey(SelectorHarvest(page, locs[k], extract), key)
    {
      PagedFirst(page, locs, extract, key, k);
    }
    assert DistinctKeys(r, key) && forall y :: y in r ==> exists e :: extract(e) == Some(y) by {
      if r != [] {
        var k :| 0 <= k < |locs| && attempt(locs[k]) == Ok(r);
        PagedProduced(page, extract, key, locs[k], r);
      }
    }
    r
  }

  /** What one listing selector yields is deduplicated and produced by the extractor. */
  lemma PagedProduced<T>(page: Element, extract: Element -> Option<T>, key: T -> string, sel: Locator, r: seq<T>)
    requires PagedAttempt(page, extract, key, sel) == Ok(r)
    ensures DistinctKeys(r, key)
    ensures forall y :: y in r ==> exists e :: extract(e) == Some(y)
  {
    var items := FindAll(page, sel).value;
    assert r == DedupByKey(Harvest(items, extract), key);
    forall y | y in r
      ensures exists e :: extract(e) == Some(y)
    {
      var i :| 0 <= i < |items| && extract(items[i]) == Some(y);
    }
  }

  /** Where the section's control points, when the search found one that carries an `href`. */
  function ListingUrl(b: Browser, cfg: SectionConfig): (r: Option<string>)
    ensures r.Some? ==> exists e :: FindButton(b.page, cfg.buttons, cfg.rule) == Ok(Some(e)) && Attribute(e, "href") == r
  {
    match FindButton(b.page, cfg.buttons, cfg.rule)
    case Ok(Some(e)) => Attribute(e, "href")
    case _ => None
  }

  /**
   * The whole flow, returning the entries and the browser afterwards.
   * `paged` reads a listing page and `main` reads the profile page.
   */
  function Flow<T>(web: Web, b: Browser, mainUrl: string, cfg: SectionConfig,
                   paged: Element -> seq<T>, main: Element -> seq<T>): (r: (seq<T>, Browser))
    ensures SectionPresent(b.page, cfg.probes) != Ok(true) ==> r == ([], b)
    ensures SectionPresent(b.page, cfg.probes) == Ok(true) ==>
      match ListingUrl(b, cfg)
      case None => r == (main(b.page), b)
      case Some(u) =>
        if u !in web then r == (main(b.page), b)
        else if mainUrl !in web then r == (main(web[u]), Browser(u, web[u], b.visits + [u]))
        else r == (paged(web[u]), Browser(mainUrl, web[mainUrl], b.visits + [u, mainUrl]))
  {
    if SectionPresent(b.page, cfg.probes) != Ok(true) then ([], b)
    else
      match ListingUrl(b, cfg)
      case None => (main(b.page), b)
      case Some(u) =>
        match Navigate(web, b, u)
        case Err(_) => (main(b.page), b)
        case Ok(listing) =>
          var entries := paged(listing.page);
          match Navigate(web, listing, mainUrl)
          case Ok(back) =>
            assert back.visits == b.visits + [u, mainUrl];
            (entries, back)
          case Err(_) => (main(listing.page), listing)
  }

  /**
   * A listing page that yields nothing is an answer, not a failure: the
   * profile page is not consulted, however many entries it shows.
   */
  lemma EmptyListingIsFinal<T>(web: Web, b: Browser, mainUrl: string, cfg: SectionConfig,
                               paged: Element -> seq<T>, main: Element -> seq<T>)
    requires SectionPresent(b.page, cfg.probes) == Ok(true)
    requires ListingUrl(b, cfg).Some? && ListingUrl(b, cfg).value in web && mainUrl in web
    requires paged(web[ListingUrl(b, cfg).value]) == []
    ensures Flow(web, b, mainUrl, cfg, paged, main).0 == []
    ensures Flow(web, b, mainUrl, cfg, paged, main).1.url == mainUrl
  {
  }
}
