/**
 * The shape the experience and education extractors share: try section
 * selectors on the page; for the first section found, locate the card that
 * holds its list; try item selectors on the card until one yields entries.
 * Any raise while locating the section, its card or an item list abandons
 * that section selector; a raise inside one item only drops that item.
 */
module CardSection {
  import opened Common
  import opened Dom
  import opened Listing

  /** The XPath that climbs from a section anchor to the card around it. */
  const AncestorCard: Locator := "./ancestor::section[contains(@class, \"artdeco-card\")]"

  /** How a section's card is found when the section has no `artdeco-card` ancestor. */
  datatype CardRule = AncestorOnly | AncestorOrSelf

  /** The card that holds the section's list, if the rule finds one. */
  function Card(section: Element, rule: CardRule): (r: Option<Element>)
    ensures FindOne(section, AncestorCard).Hit? ==> r == Some(FindOne(section, AncestorCard).element)
    ensures !FindOne(section, AncestorCard).Hit? ==> (r.Some? <==> rule == AncestorOrSelf)
    ensures !FindOne(section, AncestorCard).Hit? && r.Some? ==> r.value == section
  {
    match FindOne(section, AncestorCard)
    case Hit(card) => Some(card)
    case _ => if rule == AncestorOrSelf then Some(section) else None
  }

  /** One item selector on the card: the entries its items give, or the raise. */
  function ItemsAttempt<T>(card: Element, extract: Element -> Option<T>, loc: Locator): Result<seq<T>, DomFault> {
    match FindAll(card, loc)
    case Err(f) => Err(f)
    case Ok(items) => Ok(Harvest(items, extract))
  }

  /** One section selector: the entries of the first item selector that gives any, or a raise. */
  function SectionAttempt<T>(page: Element, itemLocs: seq<Locator>, extract: Element -> Option<T>, rule: CardRule, sel: Locator)
    : Result<seq<T>, DomFault>
  {
    match FindOne(page, sel)
    case Hit(section) =>
      (match Card(section, rule)
       case Some(card) => FirstNonEmptyOrRaise(itemLocs, loc => ItemsAttempt(card, extract, loc))
       case None => Err(LookupRaised))
    case _ => Err(LookupRaised)
  }

  /** Every entry an item selector gives is one the extractor produced. */
  lemma ItemsEntriesProduced<T>(card: Element, extract: Element -> Option<T>, loc: Locator, r: seq<T>)
    requires ItemsAttempt(card, extract, loc) == Ok(r)
    ensures forall y :: y in r ==> exists e :: extract(e) == Some(y)
  {
    var items := FindAll(card, loc).value;
    forall y | y in r
      ensures exists e :: extract(e) == Some(y)
    {
      var i :| 0 <= i < |items| && extract(items[i]) == Some(y);
    }
  }

  /** Every entry a section selector gives is one the extractor produced. */
  lemma SectionEntriesProduced<T>(page: Element, itemLocs: seq<Locator>, extract: Element -> Option<T>, rule: CardRule,
                                  sel: Locator, r: seq<T>)
    requires SectionAttempt(page, itemLocs, extract, rule, sel) == Ok(r)
    ensures forall y :: y in r ==> exists e :: extract(e) == Some(y)
  {
    if r != [] {
      var card := Card(FindOne(page, sel).element, rule).value;
      var attempt := loc => ItemsAttempt(card, extract, loc);
      assert FirstNonEmptyOrRaise(itemLocs, attempt) == Ok(r);
      var j :| 0 <= j < |itemLocs| && attempt(itemLocs[j]) == Ok(r);
      ItemsEntriesProduced(card, extract, itemLocs[j], r);
    }
  }

  /** `SectionAttempt` as the function the section-selector loop applies. */
  function SectionAttempts<T>(page: Element, itemLocs: seq<Locator>, extract: Element -> Option<T>, rule: CardRule)
    : Locator -> Result<seq<T>, DomFault>
  {
    sel => SectionAttempt(page, itemLocs, extract, rule, sel)
  }

  lemma NoSectionBefore<T>(page: Element, sectionLocs: seq<Locator>, itemLocs: seq<Locator>,
                           extract: Element -> Option<T>, rule: CardRule, k: nat)
    requires k <= |sectionLocs|
    ensures NoYieldBefore(sectionLocs, SectionAttempts(page, itemLocs, extract, rule), k) <==>
              forall j :: 0 <= j < k ==> !Yields(SectionAttempt(page, itemLocs, extract, rule, sectionLocs[j]))
  {
  }

  /**
   * The whole section extractor: the entries of the first section selector
   * that gives any, and none when no selector does. Every entry is one the
   * item extractor produced from some element.
   */
  function CardEntries<T>(page: Element, sectionLocs: seq<Locator>, itemLocs: seq<Locator>,
                          extract: Element -> Option<T>, rule: CardRule): (r: seq<T>)
    ensures r == [] <==> forall k :: 0 <= k < |sectionLocs| ==> !Yields(SectionAttempt(page, itemLocs, extract, rule, sectionLocs[k]))
    ensures forall k :: 0 <= k < |sectionLocs|
                        && (forall j :: 0 <= j < k ==> !Yields(SectionAttempt(page, itemLocs, extract, rule, sectionLocs[j])))
                        && Yields(SectionAttempt(page, itemLocs, extract, rule, sectionLocs[k]))
               ==> r == SectionAttempt(page, itemLocs, extract, rule, sectionLocs[k]).value
    ensures forall y :: y in r ==> exists e :: extract(e) == Some(y)
    ensures r != [] ==> exists k :: 0 <= k < |sectionLocs|
                            && SectionAttempt(page, itemLocs, extract, rule, sectionLocs[k]) == Ok(r)
  {
    var r := FirstNonEmpty(sectionLocs, SectionAttempts(page, itemLocs, extract, rule));
    NoSectionBefore(page, sectionLocs, itemLocs, extract, rule, |sectionLocs|);
    forall k | 0 <= k < |sectionLocs|
               && (forall j :: 0 <= j < k ==> !Yields(SectionAttempt(page, itemLocs, extract, rule, sectionLocs[j])))
               && Yields(SectionAttempt(page, itemLocs, extract, rule, sectionLocs[k]))
      ensures r == SectionAttempt(page, itemLocs, extract, rule, sectionLocs[k]).value
    {
      NoSectionBefore(page, sectionLocs, itemLocs, extract, rule, k);
    }
    assert forall y :: y in r ==> exists e :: extract(e) == Some(y) by {
      if r != [] {
        var k :| 0 <= k < |sectionLocs| && SectionAttempt(page, itemLocs, extract, rule, sectionLocs[k]) == Ok(r);
        SectionEntriesProduced(page, itemLocs, extract, rule, sectionLocs[k], r);
      }
    }
    r
  }

  /**
   * A page whose first section anchor has no card ancestor but holds list
   * items itself: education reads those items, experience, given the same
   * anchor, abandons that selector.
   */
  lemma MissingCardContrast<T>(page: Element, sel: Locator, itemLocs: seq<Locator>, extract: Element -> Option<T>)
    requires FindOne(page, sel).Hit?
    requires FindOne(FindOne(page, sel).element, AncestorCard).Missing?
    ensures SectionAttempt(page, itemLocs, extract, AncestorOnly, sel).Err?
    ensures SectionAttempt(page, itemLocs, extract, AncestorOrSelf, sel)
         == FirstNonEmptyOrRaise(itemLocs, loc => ItemsAttempt(FindOne(page, sel).element, extract, loc))
  {
  }
}
