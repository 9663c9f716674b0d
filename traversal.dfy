/**
 * The frontier traversal `traverse` of src/fetch.ts.
 *
 * The walk pops the front of the caller's own array, fetches that page,
 * appends the strings the item selector selects (as they are, unresolved) to
 * the output, and pushes every next-page link, resolved against the page's URL,
 * at the back.  Nothing is deduplicated.
 *
 * The specification describes the walk by its log: the sequence of every URL
 * ever enqueued, which is the start URLs followed by the links of the first
 * visited page, then those of the second, and so on.
 */
module Traversal {
  import opened Common
  import opened Network

  /** The fixed parameters of one `traverse` call, besides its start array. */
  datatype Crawl = Crawl(web: Web, transport: Transport, itemSelector: string, nextPageSelector: string)

  /** What visiting one page amounts to. */
  datatype Page = Hangs | Throws | Loaded(items: seq<string>, links: seq<string>)

  /**
   * One iteration of the loop for the URL `url`: fetch it (never returning
   * if no attempt succeeds), select the items, select the next-page references
   * and resolve them against `url`.  A throw in any of the last three ends the
   * whole traversal.
   */
  function Visit(c: Crawl, url: string): Page
  {
    match EventualBody(c.web, c.transport, url)
    case None => Hangs
    case Some(body) =>
      match c.web.select(c.itemSelector, body)
      case None => Throws
      case Some(selected) =>
        match c.web.select(c.nextPageSelector, body)
        case None => Throws
        case Some(next) =>
          match ResolveAll(c.web, next, url)
          case None => Throws
          case Some(links) => Loaded(selected, links)
  }

  /** The fetch of `url` succeeds, both selections succeed and every next-page reference resolves against `url`. */
  predicate Loads(c: Crawl, url: string)
  {
    && EventualBody(c.web, c.transport, url).Some?
    && var body := EventualBody(c.web, c.transport, url).value;
       var refs := c.web.select(c.nextPageSelector, body);
       && c.web.select(c.itemSelector, body).Some?
       && refs.Some?
       && forall i :: 0 <= i < |refs.value| ==> c.web.resolve(refs.value[i], url).Some?
  }

  /**
   * `items` are the strings the item selector selects on the page of `url`,
   * unresolved, and `links` are its next-page references, each resolved
   * against `url`, in order.
   */
  predicate LoadedAs(c: Crawl, url: string, items: seq<string>, links: seq<string>)
  {
    && EventualBody(c.web, c.transport, url).Some?
    && var body := EventualBody(c.web, c.transport, url).value;
       var refs := c.web.select(c.nextPageSelector, body);
       && c.web.select(c.itemSelector, body) == Some(items)
       && refs.Some? && |refs.value| == |links|
       && forall i :: 0 <= i < |links| ==> c.web.resolve(refs.value[i], url) == Some(links[i])
  }

  /**
   * A page hangs exactly when its fetch never succeeds, and loads exactly
   * when the fetch, both selections and every resolution succeed; otherwise
   * the visit throws.  A loaded page holds the selected items as they are and
   * the next-page links resolved against its own URL.
   */
  lemma PageOutcome(c: Crawl, url: string)
    ensures Visit(c, url).Hangs? <==> EventualBody(c.web, c.transport, url).None?
    ensures Visit(c, url).Loaded? <==> Loads(c, url)
    ensures Visit(c, url).Loaded? ==> LoadedAs(c, url, Visit(c, url).items, Visit(c, url).links)
  {
  }

  /** What every URL's page amounts to, for one crawl. */
  type Pages = string -> Page

  function PagesOf(c: Crawl): Pages
  {
    u => Visit(c, u)
  }

  /** Links contributed by a page: those of a loaded page, none otherwise. */
  function PageLinks(pages: Pages, url: string): seq<string>
  {
    match pages(url)
    case Loaded(_, links) => links
    case _ => []
  }

  /** Items contributed by a page: those of a loaded page, none otherwise. */
  function PageItems(pages: Pages, url: string): seq<string>
  {
    match pages(url)
    case Loaded(items, _) => items
    case _ => []
  }

  /** The next-page links of `urls`, page after page, in selector order. */
  function LinksOf(pages: Pages, urls: seq<string>): seq<string>
  {
    if urls == [] then [] else LinksOf(pages, urls[..|urls| - 1]) + PageLinks(pages, urls[|urls| - 1])
  }

  /** The items of `urls`, page after page, in selector order. */
  function ItemsOf(pages: Pages, urls: seq<string>): seq<string>
  {
    if urls == [] then [] else ItemsOf(pages, urls[..|urls| - 1]) + PageItems(pages, urls[|urls| - 1])
  }

  /** Every URL enqueued so far, and the items collected so far. */
  datatype Walk = Walk(log: seq<string>, items: seq<string>)

  /**
   * The walk after the first `k` visits, when each of them loaded its page:
   * visit `j` is of `log[j]`, and appends that page's links to the log.
   */
  function WalkAfter(pages: Pages, start: seq<string>, k: nat): (w: Option<Walk>)
    ensures w.Some? ==> k <= |w.value.log|
  {
    if k == 0 then Some(Walk(start, []))
    else
      match WalkAfter(pages, start, k - 1)
      case None => None
      case Some(prev) =>
        if k - 1 < |prev.log| then
          match pages(prev.log[k - 1])
          case Loaded(items, links) => Some(Walk(prev.log + links, prev.items + items))
          case _ => None
        else None
  }

  /**
   * How the traversal goes on after `k` loaded visits: it returns once all the
   * log has been visited, ends with the first page that hangs or throws, and is
   * reported as still running when `fuel` pages have been fetched.
   */
  function TraverseFrom(pages: Pages, start: seq<string>, k: nat, fuel: nat): Report
    requires k <= fuel && WalkAfter(pages, start, k).Some?
    decreases fuel - k
  {
    var w := WalkAfter(pages, start, k).value;
    if k == |w.log| then Report(Returned(w.items), [])
    else if k == fuel then Report(Running, [])
    else
      match pages(w.log[k])
      case Hangs => Report(Running, [w.log[k]])
      case Throws => Report(Threw, [w.log[k]])
      case Loaded(_, _) =>
        var rest := TraverseFrom(pages, start, k + 1, fuel);
        Report(rest.outcome, [w.log[k]] + rest.fetched)
  }

  /** `traverse(doFetch, start, itemSelector, nextPageSelector)`, following at most `fuel` pages. */
  function Traversed(c: Crawl, start: seq<string>, fuel: nat): Report
  {
    TraverseFrom(PagesOf(c), start, 0, fuel)
  }

  /**
   * The body of the loop of `traverse` for one URL: fetch it, select the
   * items, select the next-page references and resolve them against the URL.
   */
  method VisitPage(c: Crawl, url: string) returns (page: Page)
    ensures page == Visit(c, url)
  {
    var body := Fetch(c.web, c.transport, url);
    if body.None? {
      return Hangs;
    }
    var selected := c.web.select(c.itemSelector, body.value);
    if selected.None? {
      return Throws;
    }
    var nextRefs := c.web.select(c.nextPageSelector, body.value);
    if nextRefs.None? {
      return Throws;
    }
    var links := ResolveAll(c.web, nextRefs.value, url);
    if links.None? {
      return Throws;
    }
    page := Loaded(selected.value, links.value);
  }

  /** A report whose fetches are preceded by `done`. */
  function After(done: seq<string>, rep: Report): Report
  {
    Report(rep.outcome, done + rep.fetched)
  }

  /**
   * `traverse`: `frontier` is the caller's `startURLs` array itself, which is
   * shifted and pushed in place.  `fuel` bounds the number of pages the model
   * follows.
   */
  method Traverse(c: Crawl, startURLs: StringArray, fuel: nat) returns (report: Report)
    modifies startURLs
    ensures report == Traversed(c, old(startURLs.elems), fuel)
    ensures report.outcome.Returned? ==> startURLs.elems == []
  {
    ghost var start := startURLs.elems;
    ghost var pages := PagesOf(c);
    ghost var whole := Traversed(c, start, fuel);
    assert whole == After([], TraverseFrom(pages, start, 0, fuel));
    var items: seq<string> := [];
    var fetched: seq<string> := [];
    var frontier := startURLs;
    assert fetched + frontier.elems == start;
    while |frontier.elems| > 0
      invariant frontier == startURLs
      invariant |fetched| <= fuel
      invariant Midway(pages, start, fuel, whole, fetched, frontier.elems, items)
      decreases fuel - |fetched|
    {
      if |fetched| == fuel {
        return Report(Running, fetched);
      }
      ghost var done := fetched;
      Unshift(frontier.elems);
      var next := frontier.Shift();
      var nextURL := next.value;
      ghost var queued := frontier.elems;
      Advance(pages, start, fuel, whole, done, nextURL, queued, items);
      fetched := fetched + [nextURL];
      var page := VisitPage(c, nextURL);
      assert pages(nextURL) == page;
      match page
      case Hangs =>
        return Report(Running, fetched);
      case Throws =>
        return Report(Threw, fetched);
      case Loaded(selected, links) =>
        items := items + selected;
        frontier.Push(links);
        assert frontier.elems == queued + links;
    }
    assert WalkAfter(pages, start, |fetched|) == Some(Walk(fetched + [], items));
    report := Report(Returned(items), fetched);
  }

  /**
   * The state of the loop of `traverse` after `|fetched|` loaded visits: the
   * log is `fetched` followed by the `queue` still waiting, `items` are the
   * items collected, and the whole traversal `whole` is `fetched` followed by
   * how the walk goes on from here.
   */
  ghost predicate Midway(pages: Pages, start: seq<string>, fuel: nat, whole: Report,
                         fetched: seq<string>, queue: seq<string>, items: seq<string>)
  {
    && |fetched| <= fuel
    && WalkAfter(pages, start, |fetched|) == Some(Walk(fetched + queue, items))
    && whole == After(fetched, TraverseFrom(pages, start, |fetched|, fuel))
  }

  /**
   * One turn of the loop, on the walk: with `done` fetched and `queued` still
   * waiting behind the next URL `u`, the page of `u` decides whether the
   * traversal stops there or goes on, with `u` fetched, its links queued and
   * its items collected.
   */
  lemma Advance(pages: Pages, start: seq<string>, fuel: nat, whole: Report,
                done: seq<string>, u: string, queued: seq<string>, items: seq<string>)
    requires |done| < fuel && Midway(pages, start, fuel, whole, done, [u] + queued, items)
    ensures pages(u).Hangs? ==> whole == Report(Running, done + [u])
    ensures pages(u).Throws? ==> whole == Report(Threw, done + [u])
    ensures pages(u).Loaded? ==>
      Midway(pages, start, fuel, whole, done + [u], queued + pages(u).links, items + pages(u).items)
  {
    var k := |done|;
    var log := done + ([u] + queued);
    assert log[k] == u;
    Unroll(pages, start, k, fuel);
    if pages(u).Loaded? {
      Associative(done, [u], queued);
      Associative(done + [u], queued, pages(u).links);
      Associative(done, [u], TraverseFrom(pages, start, k + 1, fuel).fetched);
    }
  }

  /**
   * One visit of the walk: the page at the next log position decides whether
   * the traversal stops there or goes on after one more loaded visit.
   */
  lemma Unroll(pages: Pages, start: seq<string>, k: nat, fuel: nat)
    requires k < fuel && WalkAfter(pages, start, k).Some? && k < |WalkAfter(pages, start, k).value.log|
    ensures var w := WalkAfter(pages, start, k).value;
      var u := w.log[k];
      var rep := TraverseFrom(pages, start, k, fuel);
      && (pages(u).Hangs? ==> rep == Report(Running, [u]))
      && (pages(u).Throws? ==> rep == Report(Threw, [u]))
      && (pages(u).Loaded? ==>
            && WalkAfter(pages, start, k + 1) == Some(Walk(w.log + pages(u).links, w.items + pages(u).items))
            && rep == After([u], TraverseFrom(pages, start, k + 1, fuel)))
  {
  }

  /** The first `k` elements of `a + b`, when `a` has at least `k`, end with `a[k - 1]`. */
  lemma PrefixThroughAppend<T>(a: seq<T>, b: seq<T>, k: nat)
    requires 0 < k <= |a|
    ensures (a + b)[..k] == a[..k - 1] + [a[k - 1]]
  {
    assert (a + b)[..k] == a[..k];
  }

  lemma Unshift<T>(xs: seq<T>)
    requires xs != []
    ensures xs == [xs[0]] + xs[1..]
  {
  }

  lemma LinksOfSnoc(pages: Pages, urls: seq<string>, u: string)
    ensures LinksOf(pages, urls + [u]) == LinksOf(pages, urls) + PageLinks(pages, u)
    ensures ItemsOf(pages, urls + [u]) == ItemsOf(pages, urls) + PageItems(pages, u)
  {
    assert (urls + [u])[..|urls|] == urls;
  }

  /** One more loaded visit: the visited URL's links and items are appended. */
  lemma WalkStep(pages: Pages, start: seq<string>, k: nat)
    requires k > 0 && WalkAfter(pages, start, k).Some?
    ensures WalkAfter(pages, start, k - 1).Some?
    ensures var prev := WalkAfter(pages, start, k - 1).value;
      var u := prev.log[k - 1];
      && k - 1 < |prev.log|
      && pages(u).Loaded?
      && WalkAfter(pages, start, k).value == Walk(prev.log + PageLinks(pages, u), prev.items + PageItems(pages, u))
  {
  }

  /**
   * After `k` loaded visits the log is the start URLs followed by the links
   * of the visited pages, and the items are theirs, in visit order.
   */
  lemma {:induction false} WalkShape(pages: Pages, start: seq<string>, k: nat)
    requires WalkAfter(pages, start, k).Some?
    ensures var w := WalkAfter(pages, start, k).value;
      w.log == start + LinksOf(pages, w.log[..k]) && w.items == ItemsOf(pages, w.log[..k])
  {
    if k == 0 {
      assert WalkAfter(pages, start, k).value.log[..0] == [];
    } else {
      WalkStep(pages, start, k);
      var prev := WalkAfter(pages, start, k - 1).value;
      var w := WalkAfter(pages, start, k).value;
      var u := prev.log[k - 1];
      var before := prev.log[..k - 1];
      WalkShape(pages, start, k - 1);
      assert w.log == prev.log + PageLinks(pages, u);
      PrefixThroughAppend(prev.log, PageLinks(pages, u), k);
      assert w.log[..k] == before + [u];
      LinksOfSnoc(pages, before, u);
      assert prev.log == start + LinksOf(pages, before);
      assert LinksOf(pages, w.log[..k]) == LinksOf(pages, before) + PageLinks(pages, u);
      Associative(start, LinksOf(pages, before), PageLinks(pages, u));
      assert w.log == start + LinksOf(pages, w.log[..k]);
      assert w.items == prev.items + PageItems(pages, u);
      assert w.items == ItemsOf(pages, w.log[..k]);
    }
  }

  /** `fetched` is a prefix of the start URLs followed by the links of the pages in `fetched`. */
  ghost predicate InDiscoveryOrder(pages: Pages, start: seq<string>, fetched: seq<string>)
  {
    fetched <= start + LinksOf(pages, fetched)
  }

  /** `fetched` is all of the start URLs and the links of its pages, and `items` all of their items. */
  ghost predicate Exhaustive(pages: Pages, start: seq<string>, fetched: seq<string>, items: seq<string>)
  {
    fetched == start + LinksOf(pages, fetched) && items == ItemsOf(pages, fetched)
  }

  lemma {:induction false} TraverseFromShape(pages: Pages, start: seq<string>, k: nat, fuel: nat)
    requires k <= fuel && WalkAfter(pages, start, k).Some?
    ensures var rep := TraverseFrom(pages, start, k, fuel);
      var all := WalkAfter(pages, start, k).value.log[..k] + rep.fetched;
      && |all| <= fuel
      && InDiscoveryOrder(pages, start, all)
      && (rep.outcome.Returned? ==> Exhaustive(pages, start, all, rep.outcome.value))
    decreases fuel - k
  {
    var w := WalkAfter(pages, start, k).value;
    if k == |w.log| || k == fuel {
      WalkShape(pages, start, k);
      assert w.log[..k] + [] == w.log[..k];
      assert w.log[..k] <= w.log;
    } else {
      var u := w.log[k];
      Unroll(pages, start, k, fuel);
      if pages(u).Loaded? {
        var rest := TraverseFrom(pages, start, k + 1, fuel);
        TraverseFromShape(pages, start, k + 1, fuel);
        PrefixThroughAppend(w.log, PageLinks(pages, u), k + 1);
        Associative(w.log[..k], [u], rest.fetched);
      } else {
        StopShape(pages, start, k);
      }
    }
  }

  /** A visit that ends the walk leaves the fetched URLs in discovery order. */
  lemma StopShape(pages: Pages, start: seq<string>, k: nat)
    requires WalkAfter(pages, start, k).Some? && k < |WalkAfter(pages, start, k).value.log|
    requires !pages(WalkAfter(pages, start, k).value.log[k]).Loaded?
    ensures var w := WalkAfter(pages, start, k).value;
      InDiscoveryOrder(pages, start, w.log[..k] + [w.log[k]])
  {
    var w := WalkAfter(pages, start, k).value;
    var u := w.log[k];
    WalkShape(pages, start, k);
    PrefixThroughAppend(w.log, [], k + 1);
    assert w.log + [] == w.log;
    LinksOfSnoc(pages, w.log[..k], u);
    assert w.log[..k + 1] <= w.log;
  }

  /** Every page of `urls` loaded. */
  ghost predicate AllLoaded(pages: Pages, urls: seq<string>)
  {
    forall i :: 0 <= i < |urls| ==> pages(urls[i]).Loaded?
  }

  /** `urls` ends with a page of the given outcome, and every page before it loaded. */
  ghost predicate StoppedBy(pages: Pages, urls: seq<string>, last: Page)
  {
    urls != [] && AllLoaded(pages, urls[..|urls| - 1]) && pages(urls[|urls| - 1]) == last
  }

  /**
   * The traversal goes past a page only when it loaded: it throws at a page
   * that throws, stops running at a page that hangs, and otherwise every page
   * it fetched loaded.
   */
  lemma {:induction false} StopsAtFirstFailure(pages: Pages, start: seq<string>, k: nat, fuel: nat)
    requires k <= fuel && WalkAfter(pages, start, k).Some?
    ensures var rep := TraverseFrom(pages, start, k, fuel);
      && (rep.outcome.Returned? ==> AllLoaded(pages, rep.fetched))
      && (rep.outcome.Threw? ==> StoppedBy(pages, rep.fetched, Throws))
      && (rep.outcome.Running? ==> AllLoaded(pages, rep.fetched) || StoppedBy(pages, rep.fetched, Hangs))
    decreases fuel - k
  {
    var w := WalkAfter(pages, start, k).value;
    if k < |w.log| && k < fuel && pages(w.log[k]).Loaded? {
      var u := w.log[k];
      var rest := TraverseFrom(pages, start, k + 1, fuel);
      StopsAtFirstFailure(pages, start, k + 1, fuel);
      LoadedInFront(pages, u, rest.fetched);
    } else if k < |w.log| && k < fuel {
      assert [w.log[k]][..0] == [];
    }
  }

  /** A loaded page in front keeps the pages after it loaded or stopped as they were. */
  lemma LoadedInFront(pages: Pages, u: string, urls: seq<string>)
    requires pages(u).Loaded?
    ensures AllLoaded(pages, urls) ==> AllLoaded(pages, [u] + urls)
    ensures forall last :: StoppedBy(pages, urls, last) ==> StoppedBy(pages, [u] + urls, last)
  {
    if urls != [] {
      assert ([u] + urls)[..|urls|] == [u] + urls[..|urls| - 1];
    }
  }

  /**
   * Pages are fetched first in, first out: the pages fetched are a prefix of
   * the start URLs followed by the next-page links of the fetched pages, in
   * the order they were discovered.  When the traversal returns, it fetched
   * exactly that sequence (every discovered link, duplicates included) and
   * returned the item strings of those pages, page after page, as selected.
   * It goes past a page only when that page loaded.
   */
  lemma FifoOrder(pages: Pages, start: seq<string>, fuel: nat)
    ensures var rep := TraverseFrom(pages, start, 0, fuel);
      && |rep.fetched| <= fuel
      && rep.fetched <= start + LinksOf(pages, rep.fetched)
      && (rep.outcome.Returned? ==>
            && rep.fetched == start + LinksOf(pages, rep.fetched)
            && rep.outcome.value == ItemsOf(pages, rep.fetched))
      && (rep.outcome.Returned? ==> AllLoaded(pages, rep.fetched))
      && (rep.outcome.Threw? ==> StoppedBy(pages, rep.fetched, Throws))
      && (rep.outcome.Running? ==> AllLoaded(pages, rep.fetched) || StoppedBy(pages, rep.fetched, Hangs))
  {
    TraverseFromShape(pages, start, 0, fuel);
    StopsAtFirstFailure(pages, start, 0, fuel);
    var rep := TraverseFrom(pages, start, 0, fuel);
    assert WalkAfter(pages, start, 0).value.log[..0] + rep.fetched == rep.fetched;
    assert InDiscoveryOrder(pages, start, rep.fetched);
  }

  /**
   * Nothing is deduplicated: when the traversal returns, each URL was fetched
   * exactly as many times as it was queued, as a start URL or as a link of a
   * fetched page.
   */
  lemma EveryQueuedCopyIsFetched(pages: Pages, start: seq<string>, fuel: nat)
    ensures var rep := TraverseFrom(pages, start, 0, fuel);
      rep.outcome.Returned? ==> multiset(rep.fetched) == multiset(start) + multiset(LinksOf(pages, rep.fetched))
  {
    FifoOrder(pages, start, fuel);
  }

  /**
   * For instance, a start URL listed twice whose page has no next-page link
   * is fetched twice, and its items are collected twice.
   */
  lemma DuplicateIsFetchedTwice(pages: Pages, u: string, items: seq<string>, fuel: nat)
    requires pages(u) == Loaded(items, []) && 2 <= fuel
    ensures TraverseFrom(pages, [u, u], 0, fuel) == Report(Returned(items + items), [u, u])
  {
    var start := [u, u];
    assert WalkAfter(pages, start, 1) == Some(Walk(start + [], [] + items));
    assert WalkAfter(pages, start, 2) == Some(Walk(start + [] + [], [] + items + items));
    assert TraverseFrom(pages, start, 2, fuel) == Report(Returned([] + items + items), []);
    assert TraverseFrom(pages, start, 1, fuel) == Report(Returned([] + items + items), [u]);
    assert [] + items + items == items + items;
    assert [u] + [u] == start;
  }

  /** Every URL in `cycle` has a page that loads, has a next-page link, and links only into `cycle`. */
  ghost predicate Cyclic(pages: Pages, cycle: set<string>)
  {
    forall u :: u in cycle ==>
      pages(u).Loaded? && pages(u).links != [] && forall v :: v in pages(u).links ==> v in cycle
  }

  lemma {:induction false} CyclicWalk(pages: Pages, start: seq<string>, cycle: set<string>, k: nat)
    requires Cyclic(pages, cycle)
    requires start != [] && forall u :: u in start ==> u in cycle
    ensures WalkAfter(pages, start, k).Some?
    ensures k < |WalkAfter(pages, start, k).value.log|
    ensures forall u :: u in WalkAfter(pages, start, k).value.log ==> u in cycle
  {
    if k > 0 {
      CyclicWalk(pages, start, cycle, k - 1);
      var prev := WalkAfter(pages, start, k - 1).value;
      assert prev.log[k - 1] in cycle;
    }
  }

  lemma {:induction false} CyclicFrom(pages: Pages, start: seq<string>, cycle: set<string>, k: nat, fuel: nat)
    requires Cyclic(pages, cycle)
    requires start != [] && forall u :: u in start ==> u in cycle
    requires k <= fuel
    ensures WalkAfter(pages, start, k).Some? && TraverseFrom(pages, start, k, fuel).outcome == Running
    decreases fuel - k
  {
    CyclicWalk(pages, start, cycle, k);
    if k < fuel {
      var w := WalkAfter(pages, start, k).value;
      assert w.log[k] in cycle;
      CyclicFrom(pages, start, cycle, k + 1, fuel);
    }
  }

  /**
   * Without deduplication a cyclic link graph is never left: from start URLs
   * inside a set of pages that all load and all link back into the set, the
   * traversal does not return, however many pages it is followed for.
   */
  lemma CycleNeverReturns(pages: Pages, start: seq<string>, cycle: set<string>, fuel: nat)
    requires Cyclic(pages, cycle)
    requires start != [] && forall u :: u in start ==> u in cycle
    ensures TraverseFrom(pages, start, 0, fuel).outcome == Running
  {
    CyclicFrom(pages, start, cycle, 0, fuel);
  }
}
