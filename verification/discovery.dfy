/**
  The page-discovery loop both scrapers run for each city: request result pages 1, 2, ...
  and stop at the first page that does not exist, collecting the listing links of every page
  that does. Fetching and HTML lookups are injected as `present` (the page-existence check
  for page n) and `links` (the links harvested from page n).
 */
module Discovery {

  /** Pages 1..n all exist and page n + 1 does not: n is the length of the existing prefix. */
  ghost predicate ExistingPrefix(present: nat -> bool, n: nat) {
    (forall k :: 1 <= k <= n ==> present(k)) && !present(n + 1)
  }

  /** Some page does not exist, so the loop ends (the source loops forever otherwise). */
  ghost predicate Terminates(present: nat -> bool) {
    exists n: nat :: 1 <= n && !present(n)
  }

  /** The links of pages 1..n in page order. */
  function Collected(links: nat -> seq<string>, n: nat): seq<string> {
    if n == 0 then [] else Collected(links, n - 1) + links(n)
  }

  /** The existing prefix is unique: at most one n satisfies `ExistingPrefix`. */
  lemma ExistingPrefixUnique(present: nat -> bool, m: nat, n: nat)
    requires ExistingPrefix(present, m) && ExistingPrefix(present, n)
    ensures m == n
  {
  }

  /** Page 1 missing means no page is counted and no link is collected. */
  lemma NoFirstPage(present: nat -> bool, links: nat -> seq<string>)
    requires !present(1)
    ensures ExistingPrefix(present, 0) && Collected(links, 0) == []
  {
  }

  /**
    Requests pages 1, 2, ... until `present` fails. `count` is the number of existing pages
    (the source's per-city page counter) and `urls` the links of those pages, in order.
   */
  method Discover(present: nat -> bool, links: nat -> seq<string>) returns (count: nat, urls: seq<string>)
    requires Terminates(present)
    ensures ExistingPrefix(present, count)
    ensures urls == Collected(links, count)
  {
    ghost var stop: nat :| 1 <= stop && !present(stop);
    var page := 1;
    count := 0;
    urls := [];
    while present(page)
      invariant page == count + 1
      invariant page <= stop
      invariant forall k :: 1 <= k < page ==> present(k)
      invariant urls == Collected(links, count)
      decreases stop - page
    {
      urls := urls + links(page);
      page := page + 1;
      count := count + 1;
    }
  }
}
