/**
 * The loops every section extractor shares: try item selectors in order
 * until one yields a non-empty list, turn the found elements into entries
 * (skipping the ones that fail), and, on the dedicated listing pages, drop
 * entries whose title was already taken.
 */
module Listing {
  import opened Common
  import opened Dom

  /** The entries an extractor accepts, in document order; rejected or failing items are skipped. */
  function Harvest<T>(items: seq<Element>, extract: Element -> Option<T>): (r: seq<T>)
    ensures forall i :: 0 <= i < |items| && extract(items[i]).Some? ==> extract(items[i]).value in r
    ensures |r| <= |items|
    ensures r == [] <==> forall i :: 0 <= i < |items| ==> extract(items[i]).None?
    ensures forall y :: y in r ==> exists i :: 0 <= i < |items| && extract(items[i]) == Some(y)
    ensures (forall i :: 0 <= i < |items| ==> extract(items[i]).Some?) ==> |r| == |items|
  {
    if items == [] then []
    else
      var rest := Harvest(items[1..], extract);
      assert forall y :: y in rest ==> exists i :: 0 <= i < |items| && extract(items[i]) == Some(y) by {
        forall y | y in rest
          ensures exists i :: 0 <= i < |items| && extract(items[i]) == Some(y)
        {
          var i :| 0 <= i < |items[1..]| && extract(items[1..][i]) == Some(y);
          assert items[1..][i] == items[i + 1];
        }
      }
      assert forall i :: 1 <= i < |items| && extract(items[i]).Some? ==> extract(items[i]).value in rest by {
        forall i | 1 <= i < |items| && extract(items[i]).Some?
          ensures extract(items[i]).value in rest
        {
          assert items[1..][i - 1] == items[i];
        }
      }
      match extract(items[0])
      case Some(y) => [y] + rest
      case None => rest
  }

  /** What one item contributes to a harvest. */
  function Entry<T>(item: Element, extract: Element -> Option<T>): (r: seq<T>)
    ensures r == [] <==> extract(item).None?
    ensures extract(item).Some? ==> r == [extract(item).value]
  {
    match extract(item)
    case Some(y) => [y]
    case None => []
  }

  lemma HarvestCons<T>(item: Element, items: seq<Element>, extract: Element -> Option<T>)
    ensures Harvest([item] + items, extract) == Entry(item, extract) + Harvest(items, extract)
  {
    var xs := [item] + items;
    assert xs[0] == item && xs[1..] == items;
  }

  /** Harvesting keeps document order: the entries of a prefix come before those of the rest. */
  lemma {:induction false} HarvestAppend<T>(a: seq<Element>, b: seq<Element>, extract: Element -> Option<T>)
    ensures Harvest(a + b, extract) == Harvest(a, extract) + Harvest(b, extract)
    decreases |a|
  {
    if a == [] {
      assert a + b == b;
    } else {
      var x, rest := a[0], a[1..];
      assert a == [x] + rest && a + b == [x] + (rest + b);
      HarvestAppend(rest, b, extract);
      HarvestCons(x, rest + b, extract);
      HarvestCons(x, rest, extract);
      AppendAssoc(Entry(x, extract), Harvest(rest, extract), Harvest(b, extract));
    }
  }

  /** Every accepted item is kept in its place: after the entries of the items before it, before those of the items after it. */
  lemma HarvestAround<T>(before: seq<Element>, item: Element, after: seq<Element>, extract: Element -> Option<T>)
    ensures Harvest(before + [item] + after, extract)
         == Harvest(before, extract) + Entry(item, extract) + Harvest(after, extract)
  {
    HarvestAppend(before + [item], after, extract);
    HarvestAppend(before, [item], extract);
    assert [item] + [] == [item];
    HarvestCons(item, [], extract);
    assert Harvest([], extract) == [];
    assert Entry(item, extract) + [] == Entry(item, extract);
  }

  /** The same, by position: the entries of item `i` sit between those of the items before and after it. */
  lemma HarvestAt<T>(items: seq<Element>, i: nat, extract: Element -> Option<T>)
    requires i < |items|
    ensures Harvest(items, extract)
         == Harvest(items[..i], extract) + Entry(items[i], extract) + Harvest(items[i + 1..], extract)
  {
    SplitAt(items, i);
    HarvestAround(items[..i], items[i], items[i + 1..], extract);
  }

  lemma SplitAt<T>(xs: seq<T>, i: nat)
    requires i < |xs|
    ensures xs == xs[..i] + [xs[i]] + xs[i + 1..]
  {
  }

  /** An attempt at one selector produced a non-empty list. */
  predicate Yields<T>(r: Result<seq<T>, DomFault>) {
    r.Ok? && r.value != []
  }

  predicate NoYieldBefore<T>(locs: seq<Locator>, attempt: Locator -> Result<seq<T>, DomFault>, k: nat)
    requires k <= |locs|
  {
    forall j :: 0 <= j < k ==> !Yields(attempt(locs[j]))
  }

  function FirstYield<T>(locs: seq<Locator>, attempt: Locator -> Result<seq<T>, DomFault>, i: nat): (k: nat)
    requires i <= |locs|
    requires NoYieldBefore(locs, attempt, i)
    decreases |locs| - i
    ensures i <= k <= |locs|
    ensures NoYieldBefore(locs, attempt, k)
    ensures k < |locs| ==> Yields(attempt(locs[k]))
  {
    if i == |locs| || Yields(attempt(locs[i])) then i else FirstYield(locs, attempt, i + 1)
  }

  /**
   * The outer selector loop: an attempt that raises or finds nothing moves on
   * to the next selector; the first non-empty list is the section's result.
   */
  function FirstNonEmpty<T>(locs: seq<Locator>, attempt: Locator -> Result<seq<T>, DomFault>): (r: seq<T>)
    ensures r == [] <==> NoYieldBefore(locs, attempt, |locs|)
    ensures forall k :: 0 <= k < |locs| && NoYieldBefore(locs, attempt, k) && Yields(attempt(locs[k]))
               ==> r == attempt(locs[k]).value
    ensures r != [] ==> exists k :: 0 <= k < |locs| && attempt(locs[k]) == Ok(r)
  {
    var k := FirstYield(locs, attempt, 0);
    if k == |locs| then [] else attempt(locs[k]).value
  }

  /** An attempt either raised or produced a non-empty list: either way the loop stops there. */
  predicate Stops<T>(r: Result<seq<T>, DomFault>) {
    r.Err? || r.value != []
  }

  predicate NoStopBefore<T>(locs: seq<Locator>, attempt: Locator -> Result<seq<T>, DomFault>, k: nat)
    requires k <= |locs|
  {
    forall j :: 0 <= j < k ==> !Stops(attempt(locs[j]))
  }

  function FirstStop<T>(locs: seq<Locator>, attempt: Locator -> Result<seq<T>, DomFault>, i: nat): (k: nat)
    requires i <= |locs|
    requires NoStopBefore(locs, attempt, i)
    decreases |locs| - i
    ensures i <= k <= |locs|
    ensures NoStopBefore(locs, attempt, k)
    ensures k < |locs| ==> Stops(attempt(locs[k]))
  {
    if i == |locs| || Stops(attempt(locs[i])) then i else FirstStop(locs, attempt, i + 1)
  }

  /**
   * The inner item-selector loop of the experience and education sections,
   * which has no handler of its own: a raise ends it and escapes.
   */
  function FirstNonEmptyOrRaise<T>(locs: seq<Locator>, attempt: Locator -> Result<seq<T>, DomFault>): (r: Result<seq<T>, DomFault>)
    ensures r == Ok([]) <==> NoStopBefore(locs, attempt, |locs|)
    ensures forall k :: 0 <= k < |locs| && NoStopBefore(locs, attempt, k) && Stops(attempt(locs[k]))
               ==> r == attempt(locs[k])
    ensures r != Ok([]) ==> exists k :: 0 <= k < |locs| && NoStopBefore(locs, attempt, k) && attempt(locs[k]) == r
    ensures r.Err? <==> exists k :: 0 <= k < |locs| && NoStopBefore(locs, attempt, k) && attempt(locs[k]).Err?
  {
    var k := FirstStop(locs, attempt, 0);
    if k == |locs| then Ok([]) else attempt(locs[k])
  }

  // ---- Deduplication by title ------------------------------------------------

  predicate HasKey<T>(xs: seq<T>, key: T -> string, k: string) {
    exists i :: 0 <= i < |xs| && key(xs[i]) == k
  }

  predicate DistinctKeys<T>(xs: seq<T>, key: T -> string) {
    forall i, j :: 0 <= i < j < |xs| ==> key(xs[i]) != key(xs[j])
  }

  /** The scraper's loop: append an entry unless an entry already kept has its title. */
  function KeepFirst<T>(kept: seq<T>, xs: seq<T>, key: T -> string): seq<T>
    decreases |xs|
  {
    if xs == [] then kept
    else if HasKey(kept, key, key(xs[0])) then KeepFirst(kept, xs[1..], key)
    else KeepFirst(kept + [xs[0]], xs[1..], key)
  }

  /** The entries of `xs` whose key is not `k`. */
  function Without<T>(xs: seq<T>, key: T -> string, k: string): (r: seq<T>)
    ensures |r| <= |xs|
    ensures forall y :: y in r ==> y in xs && key(y) != k
    ensures forall y :: y in xs && key(y) != k ==> y in r
  {
    if xs == [] then []
    else if key(xs[0]) == k then Without(xs[1..], key, k)
    else [xs[0]] + Without(xs[1..], key, k)
  }

  /** The entries of `xs` whose key no entry of `kept` has. */
  function WithoutKeysOf<T>(xs: seq<T>, kept: seq<T>, key: T -> string): seq<T> {
    if xs == [] then []
    else if HasKey(kept, key, key(xs[0])) then WithoutKeysOf(xs[1..], kept, key)
    else [xs[0]] + WithoutKeysOf(xs[1..], kept, key)
  }

  /** An entry whose key no entry of a distinct-keyed list has can lead it. */
  lemma ConsDistinct<T>(x: T, rest: seq<T>, key: T -> string)
    requires DistinctKeys(rest, key)
    requires forall y :: y in rest ==> key(y) != key(x)
    ensures DistinctKeys([x] + rest, key)
  {
    var r := [x] + rest;
    forall i, j | 0 <= i < j < |r|
      ensures key(r[i]) != key(r[j])
    {
      assert r[j] == rest[j - 1];
      if i > 0 {
        assert r[i] == rest[i - 1];
      } else {
        assert rest[j - 1] in rest;
      }
    }
  }

  /** Keeping the head and covering every other key covers every key of the list. */
  lemma ConsCovers<T>(xs: seq<T>, rest: seq<T>, key: T -> string)
    requires xs != []
    requires forall y :: y in Without(xs[1..], key, key(xs[0])) ==> HasKey(rest, key, key(y))
    ensures forall y :: y in xs ==> HasKey([xs[0]] + rest, key, key(y))
  {
    var r := [xs[0]] + rest;
    forall y | y in xs
      ensures HasKey(r, key, key(y))
    {
      if key(y) == key(xs[0]) {
        assert key(r[0]) == key(y);
      } else {
        var i :| 0 <= i < |xs| && xs[i] == y;
        assert i > 0 && xs[1..][i - 1] == y;
        var j :| 0 <= j < |rest| && key(rest[j]) == key(y);
        assert key(r[j + 1]) == key(y);
      }
    }
  }

  /**
   * Reference definition of first-wins deduplication: keep the head, drop
   * every later entry with the head's key, and repeat on what is left.
   */
  function Nub<T>(xs: seq<T>, key: T -> string): (r: seq<T>)
    decreases |xs|
    ensures DistinctKeys(r, key)
    ensures forall y :: y in r ==> y in xs
    ensures forall y :: y in xs ==> HasKey(r, key, key(y))
  {
    if xs == [] then []
    else
      var x := xs[0];
      var rest := Nub(Without(xs[1..], key, key(x)), key);
      ConsDistinct(x, rest, key);
      ConsCovers(xs, rest, key);
      [x] + rest
  }

  lemma KeysOfAppended<T>(kept: seq<T>, x: T, key: T -> string, k: string)
    ensures HasKey(kept + [x], key, k) <==> HasKey(kept, key, k) || key(x) == k
  {
    if HasKey(kept, key, k) {
      var i :| 0 <= i < |kept| && key(kept[i]) == k;
      assert (kept + [x])[i] == kept[i];
    }
    if key(x) == k {
      assert (kept + [x])[|kept|] == x;
    }
    if HasKey(kept + [x], key, k) {
      var i :| 0 <= i < |kept + [x]| && key((kept + [x])[i]) == k;
      if i < |kept| {
        assert (kept + [x])[i] == kept[i];
      }
    }
  }

  lemma {:induction false} WithoutAfterWithoutKeys<T>(ys: seq<T>, kept: seq<T>, x: T, key: T -> string)
    ensures Without(WithoutKeysOf(ys, kept, key), key, key(x)) == WithoutKeysOf(ys, kept + [x], key)
    decreases |ys|
  {
    if ys != [] {
      KeysOfAppended(kept, x, key, key(ys[0]));
      WithoutAfterWithoutKeys(ys[1..], kept, x, key);
    }
  }

  /** The scraper's loop, started from `kept`, appends the reference dedup of what `kept` does not cover. */
  lemma {:induction false} KeepFirstIsNub<T>(kept: seq<T>, xs: seq<T>, key: T -> string)
    ensures KeepFirst(kept, xs, key) == kept + Nub(WithoutKeysOf(xs, kept, key), key)
    decreases |xs|
  {
    if xs == [] {
      assert kept + [] == kept;
    } else if HasKey(kept, key, key(xs[0])) {
      KeepFirstIsNub(kept, xs[1..], key);
      assert WithoutKeysOf(xs, kept, key) == WithoutKeysOf(xs[1..], kept, key);
    } else {
      var x := xs[0];
      var ys := xs[1..];
      var w := WithoutKeysOf(ys, kept, key);
      KeepFirstIsNub(kept + [x], ys, key);
      WithoutAfterWithoutKeys(ys, kept, x, key);
      assert WithoutKeysOf(xs, kept, key) == [x] + w;
      assert ([x] + w)[1..] == w;
      assert Nub([x] + w, key) == [x] + Nub(Without(w, key, key(x)), key);
      assert KeepFirst(kept, xs, key) == KeepFirst(kept + [x], ys, key);
    }
  }

  lemma {:induction false} WithoutKeysOfNothing<T>(xs: seq<T>, key: T -> string)
    ensures WithoutKeysOf(xs, [], key) == xs
    decreases |xs|
  {
    if xs != [] {
      WithoutKeysOfNothing(xs[1..], key);
    }
  }

  /** First-wins deduplication by key, as the listing-page loops do it. */
  function DedupByKey<T>(xs: seq<T>, key: T -> string): (r: seq<T>)
    ensures r == Nub(xs, key)
    ensures DistinctKeys(r, key)
    ensures forall y :: y in r ==> y in xs
    ensures forall y :: y in xs ==> HasKey(r, key, key(y))
  {
    KeepFirstIsNub([], xs, key);
    WithoutKeysOfNothing(xs, key);
    KeepFirst([], xs, key)
  }

  lemma {:induction false} WithoutConcat<T>(a: seq<T>, b: seq<T>, key: T -> string, k: string)
    ensures Without(a + b, key, k) == Without(a, key, k) + Without(b, key, k)
    decreases |a|
  {
    if a == [] {
      assert a + b == b;
    } else {
      WithoutConcat(a[1..], b, key, k);
      WithoutConcatStep(a, b, key, k);
    }
  }

  /** One step of `WithoutConcat`: what holds for the tail holds with the head put back. */
  lemma WithoutConcatStep<T>(a: seq<T>, b: seq<T>, key: T -> string, k: string)
    requires a != []
    requires Without(a[1..] + b, key, k) == Without(a[1..], key, k) + Without(b, key, k)
    ensures Without(a + b, key, k) == Without(a, key, k) + Without(b, key, k)
  {
    var x, rest := a[0], a[1..];
    ConsSplit(a, b);
    WithoutCons(x, rest + b, key, k);
    WithoutCons(x, rest, key, k);
    ConsAssoc(x, Without(rest, key, k), Without(b, key, k));
  }

  lemma ConsSplit<T>(a: seq<T>, b: seq<T>)
    requires a != []
    ensures a == [a[0]] + a[1..] && a + b == [a[0]] + (a[1..] + b)
  {
  }

  lemma ConsAssoc<T>(x: T, p: seq<T>, q: seq<T>)
    ensures [x] + (p + q) == ([x] + p) + q
  {
  }

  lemma AppendAssoc<T>(o: seq<T>, p: seq<T>, q: seq<T>)
    ensures o + (p + q) == (o + p) + q
  {
  }

  lemma WithoutCons<T>(x: T, xs: seq<T>, key: T -> string, k: string)
    ensures Without([x] + xs, key, k) == if key(x) == k then Without(xs, key, k) else [x] + Without(xs, key, k)
  {
    assert ([x] + xs)[0] == x && ([x] + xs)[1..] == xs;
  }

  /** The first entry with a given key is the one kept. */
  lemma {:induction false} FirstOccurrenceKept<T>(a: seq<T>, y: T, b: seq<T>, key: T -> string)
    requires !HasKey(a, key, key(y))
    ensures y in Nub(a + [y] + b, key)
    decreases |a|
  {
    var xs := a + [y] + b;
    if a != [] {
      var x := a[0];
      assert xs[0] == x && key(x) != key(y);
      assert xs[1..] == a[1..] + [y] + b;
      WithoutConcat(a[1..] + [y], b, key, key(x));
      WithoutConcat(a[1..], [y], key, key(x));
      var a' := Without(a[1..], key, key(x));
      assert Without([y], key, key(x)) == [y];
      assert !HasKey(a', key, key(y));
      FirstOccurrenceKept(a', y, Without(b, key, key(x)), key);
    }
  }

  /** Listing pages deduplicate; the main-page fallback keeps every accepted entry, repeats included. */
  lemma RepeatedItemContrast<T>(item: Element, extract: Element -> Option<T>, key: T -> string)
    requires extract(item).Some?
    ensures Harvest([item, item], extract) == [extract(item).value, extract(item).value]
    ensures DedupByKey(Harvest([item, item], extract), key) == [extract(item).value]
  {
    var v := extract(item).value;
    assert [item, item][1..] == [item];
    assert Harvest([item], extract) == [v];
    assert HasKey([v], key, key(v)) by { assert key([v][0]) == key(v); }
    assert [v, v][1..] == [v];
    assert [] + [v] == [v];
    assert KeepFirst([], [v, v], key) == KeepFirst([v], [v], key);
    assert KeepFirst([v], [v], key) == KeepFirst([v], [], key);
  }
}
