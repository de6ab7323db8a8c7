/**
 * The browser as an oracle. A page or element is an immutable value that
 * answers, for every locator it is asked about, with the elements the
 * locator finds, or with a raise. A locator it does not mention finds
 * nothing. Navigation loads a page from a fixed map of reachable URLs.
 */
module Dom {
  import opened Common

  /** A CSS selector or XPath expression, as the scraper writes it. */
  type Locator = string

  /** What a lookup does: return the matching elements (possibly none), or raise. */
  datatype Lookup = Found(elements: seq<Element>) | Raises

  datatype Element = Element(text: string, attributes: map<string, string>, lookups: map<Locator, Lookup>)

  /** Anything a lookup raises other than "no such element". */
  datatype DomFault = LookupRaised

  /** Selenium's `find_elements`: an empty list when nothing matches. */
  function FindAll(e: Element, loc: Locator): (r: Result<seq<Element>, DomFault>)
    ensures loc !in e.lookups ==> r == Ok([])
  {
    if loc !in e.lookups then Ok([])
    else match e.lookups[loc]
      case Found(es) => Ok(es)
      case Raises => Err(LookupRaised)
  }

  /** What `find_element` does: no match, the first match, or some other raise. */
  datatype Probe = Missing | Hit(element: Element) | Fault

  /** Selenium's `find_element`: the first of `find_elements`, `NoSuchElementException` when there is none. */
  function FindOne(e: Element, loc: Locator): (r: Probe)
    ensures r.Missing? <==> FindAll(e, loc) == Ok([])
    ensures r.Fault? <==> FindAll(e, loc).Err?
    ensures r.Hit? ==> FindAll(e, loc).Ok? && r.element == FindAll(e, loc).value[0]
  {
    match FindAll(e, loc)
    case Err(_) => Fault
    case Ok(es) => if es == [] then Missing else Hit(es[0])
  }

  /** Selenium's `get_attribute`: `None` when the element lacks it. */
  function Attribute(e: Element, name: string): Option<string> {
    if name in e.attributes then Some(e.attributes[name]) else None
  }

  /** The pages `driver.get` can load; any other URL makes it raise. */
  type Web = map<string, Element>

  /** The driver's current URL and page, and every URL it has loaded, oldest first. */
  datatype Browser = Browser(url: string, page: Element, visits: seq<string>)

  datatype NavigationFault = NavigationFailed(target: string)

  /** `driver.get(url)`: a failed load leaves the browser where it was. */
  function Navigate(web: Web, b: Browser, url: string): (r: Result<Browser, NavigationFault>)
    ensures r.Ok? <==> url in web
    ensures r.Ok? ==> r.value.url == url && r.value.page == web[url] && r.value.visits == b.visits + [url]
  {
    if url in web then Ok(Browser(url, web[url], b.visits + [url])) else Err(NavigationFailed(url))
  }
}
