/**
 * Selector-fallback text extraction: try an ordered list of equivalent
 * locators and take the first that works. The two variants in the scraper
 * disagree on what "works" means.
 */
module Extract {
  import opened Common
  import opened Strings
  import opened Dom

  /** Every locator in `locs[i..k]` finds nothing. */
  predicate MissingBetween(e: Element, locs: seq<Locator>, i: nat, k: nat)
    requires i <= k <= |locs|
  {
    forall j :: i <= j < k ==> FindOne(e, locs[j]).Missing?
  }

  /** The first locator, from index `i` on, that does anything but find nothing. */
  function FirstResolving(e: Element, locs: seq<Locator>, i: nat): (k: nat)
    requires i <= |locs|
    decreases |locs| - i
    ensures i <= k <= |locs|
    ensures MissingBetween(e, locs, i, k)
    ensures k < |locs| ==> !FindOne(e, locs[k]).Missing?
  {
    if i == |locs| || !FindOne(e, locs[i]).Missing? then i else FirstResolving(e, locs, i + 1)
  }

  /**
   * `_get_element_text`: the stripped text of the first locator that finds
   * an element, even when that text is empty; `None` when none does; a raise
   * other than "no such element" escapes to the caller.
   */
  function ElementText(e: Element, locs: seq<Locator>): (r: Result<Option<string>, DomFault>)
    ensures r == Ok(None) <==> MissingBetween(e, locs, 0, |locs|)
    ensures forall k :: 0 <= k < |locs| && MissingBetween(e, locs, 0, k) && FindOne(e, locs[k]).Hit?
               ==> r == Ok(Some(Strip(FindOne(e, locs[k]).element.text)))
    ensures forall k :: 0 <= k < |locs| && MissingBetween(e, locs, 0, k) && FindOne(e, locs[k]).Fault?
               ==> r.Err?
  {
    var k := FirstResolving(e, locs, 0);
    if k == |locs| then Ok(None)
    else match FindOne(e, locs[k])
      case Hit(x) => Ok(Some(Strip(x.text)))
      case _ => Err(LookupRaised)
  }

  /** The locator finds an element whose stripped text is non-empty. */
  predicate HasText(page: Element, loc: Locator) {
    FindOne(page, loc).Hit? && Strip(FindOne(page, loc).element.text) != ""
  }

  predicate NoTextBetween(page: Element, locs: seq<Locator>, i: nat, k: nat)
    requires i <= k <= |locs|
  {
    forall j :: i <= j < k ==> !HasText(page, locs[j])
  }

  /** The first locator, from index `i` on, that finds an element with text. */
  function FirstWithText(page: Element, locs: seq<Locator>, i: nat): (k: nat)
    requires i <= |locs|
    decreases |locs| - i
    ensures i <= k <= |locs|
    ensures NoTextBetween(page, locs, i, k)
    ensures k < |locs| ==> HasText(page, locs[k])
  {
    if i == |locs| || HasText(page, locs[i]) then i else FirstWithText(page, locs, i + 1)
  }

  /**
   * `_get_about`: locators that find nothing, raise, or find only
   * whitespace are all skipped.
   */
  function AboutText(page: Element, locs: seq<Locator>): (r: Option<string>)
    ensures r.Some? ==> r.value != ""
    ensures r.None? <==> NoTextBetween(page, locs, 0, |locs|)
    ensures forall k :: 0 <= k < |locs| && NoTextBetween(page, locs, 0, k) && HasText(page, locs[k])
               ==> r == Some(Strip(FindOne(page, locs[k]).element.text))
  {
    var k := FirstWithText(page, locs, 0);
    if k == |locs| then None else Some(Strip(FindOne(page, locs[k]).element.text))
  }

  /** The about-section locators, most specific first. */
  const AboutLocators: seq<Locator> := [
    ".yozeCfRsmxqzgPSAFUghMVylfzjWitoNfLlqTd span[aria-hidden=\"true\"]",
    ".yozeCfRsmxqzgPSAFUghMVylfzjWitoNfLlqTd",
    ".display-flex.ph5.pv3 .inline-show-more-text",
    ".pv-shared-text-with-see-more-text .inline-show-more-text",
    ".pv-about__summary-text"
  ]

  /** `_get_about` on the loaded profile page. */
  function About(page: Element): Option<string> {
    AboutText(page, AboutLocators)
  }

  /**
   * Where the first locator finds only whitespace and the second finds text,
   * `_get_element_text` stops at the empty first match but `_get_about` moves on.
   */
  lemma EmptyFirstMatchContrast(e: Element, a: Locator, b: Locator)
    requires FindOne(e, a).Hit? && AllSpace(FindOne(e, a).element.text)
    requires HasText(e, b)
    ensures ElementText(e, [a, b]) == Ok(Some(""))
    ensures AboutText(e, [a, b]) == Some(Strip(FindOne(e, b).element.text))
  {
    StripEmptyIff(FindOne(e, a).element.text);
    var locs := [a, b];
    assert locs[0] == a && locs[1] == b;
    assert FirstResolving(e, locs, 0) == 0;
    assert !HasText(e, locs[0]);
    assert FirstWithText(e, locs, 1) == 1;
    assert FirstWithText(e, locs, 0) == 1;
  }

  /** Where a link's or a document's caption sits. */
  const CaptionLocator: Locator := ".t-14.t-bold.break-words span[aria-hidden=\"true\"]"

  /** The stripped text of the first element a locator finds, even when empty; nothing on no match or a raise. */
  function FirstText(e: Element, loc: Locator): (r: Option<string>)
    ensures r.Some? <==> FindAll(e, loc).Ok? && FindAll(e, loc).value != []
    ensures r.Some? ==> r.value == Strip(FindAll(e, loc).value[0].text)
  {
    match FindOne(e, loc)
    case Hit(x) => Some(Strip(x.text))
    case _ => None
  }

  /** The elements a locator finds, with a raise read as none (the scraper's `except: pass`). */
  function FoundOrNone(e: Element, loc: Locator): (r: seq<Element>)
    ensures FindAll(e, loc).Ok? ==> r == FindAll(e, loc).value
    ensures FindAll(e, loc).Err? ==> r == []
  {
    match FindAll(e, loc)
    case Ok(es) => es
    case Err(_) => []
  }
}
