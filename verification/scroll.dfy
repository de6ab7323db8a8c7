/**
 * `LinkedInScraper._scroll_page`: scroll to the bottom up to five times,
 * stopping as soon as the page stops growing. The page heights the
 * browser reports are an oracle: `height(0)` before the first scroll and
 * `height(i)` after the i-th.
 */
module Scroll {

  const MaxScrolls: nat := 5

  /** The scripts the loop runs in the browser, in order. */
  datatype Script = ReadHeight | ScrollToBottom

  method ScrollPage(height: nat -> int) returns (scrolls: nat, scripts: seq<Script>)
    ensures 1 <= scrolls <= MaxScrolls
    ensures forall i :: 1 <= i < scrolls ==> height(i) != height(i - 1)
    ensures scrolls < MaxScrolls ==> height(scrolls) == height(scrolls - 1)
    ensures |scripts| == 2 * scrolls + 1 && scripts[0] == ReadHeight
    ensures forall i :: 0 <= i < scrolls ==> scripts[2 * i + 1] == ScrollToBottom && scripts[2 * i + 2] == ReadHeight
  {
    var last := height(0);
    scripts := [ReadHeight];
    scrolls := 0;
    while scrolls < MaxScrolls
      invariant scrolls <= MaxScrolls
      invariant last == height(scrolls)
      invariant forall i :: 1 <= i <= scrolls ==> height(i) != height(i - 1)
      invariant |scripts| == 2 * scrolls + 1 && scripts[0] == ReadHeight
      invariant forall i :: 0 <= i < scrolls ==> scripts[2 * i + 1] == ScrollToBottom && scripts[2 * i + 2] == ReadHeight
    {
      scrolls := scrolls + 1;
      scripts := scripts + [ScrollToBottom, ReadHeight];
      var newHeight := height(scrolls);
      if newHeight == last {
        return;
      }
      last := newHeight;
    }
  }
}
