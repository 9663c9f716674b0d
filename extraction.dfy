/**
 * The item extraction `extract` of src/fetch.ts.
 *
 * Every item URL is fetched in turn; the strings the item selector selects
 * are resolved against that URL and appended to the output.  A failure while
 * selecting or resolving is caught and logged, and only that URL contributes
 * nothing: the others are not affected.  A URL no attempt ever fetches holds
 * the loop forever.
 */
module Extraction {
  import opened Common
  import opened Network

  /** The fixed parameters of one `extract` call, besides its URL list. */
  datatype ItemQuery = ItemQuery(web: Web, transport: Transport, itemSelector: string)

  /**
   * What one item URL adds to the output: None when its fetch never returns,
   * nothing when selecting or resolving throws (the exception is caught), and
   * otherwise every selected string resolved against the URL, in order.
   */
  function Contribution(q: ItemQuery, url: string): (r: Option<seq<string>>)
    ensures r.None? <==> EventualBody(q.web, q.transport, url).None?
    ensures r.Some? ==>
      var refs := q.web.select(q.itemSelector, EventualBody(q.web, q.transport, url).value);
      if refs.Some? && forall i :: 0 <= i < |refs.value| ==> q.web.resolve(refs.value[i], url).Some? then
        && |r.value| == |refs.value|
        && forall i :: 0 <= i < |refs.value| ==> q.web.resolve(refs.value[i], url) == Some(r.value[i])
      else r.value == []
  {
    match EventualBody(q.web, q.transport, url)
    case None => None
    case Some(body) =>
      match q.web.select(q.itemSelector, body)
      case None => Some([])
      case Some(refs) =>
        match ResolveAll(q.web, refs, url)
        case None => Some([])
        case Some(links) => Some(links)
  }

  /** What every URL contributes, for one query. */
  type Contributions = string -> Option<seq<string>>

  function ContributionsOf(q: ItemQuery): Contributions
  {
    u => Contribution(q, u)
  }

  /**
   * The extraction of `urls`, one after the other: it returns the
   * contributions in URL order unless a fetch never returns, and then it is
   * still running with that URL as the last one fetched.
   */
  function Gather(gives: Contributions, urls: seq<string>): Report
  {
    if urls == [] then Report(Returned([]), [])
    else
      var before := Gather(gives, urls[..|urls| - 1]);
      var u := urls[|urls| - 1];
      match before.outcome
      case Returned(found) =>
        (match gives(u)
         case None => Report(Running, before.fetched + [u])
         case Some(more) => Report(Returned(found + more), before.fetched + [u]))
      case _ => before
  }

  /** `extract(doFetch, itemURLs, itemSelector)`. */
  function Extracted(q: ItemQuery, itemURLs: seq<string>): Report
  {
    Gather(ContributionsOf(q), itemURLs)
  }

  /**
   * The body of the loop of `extract` for one URL, with its `try`/`catch`:
   * fetch it, select the item references and resolve them against the URL.
   */
  method ExtractOne(q: ItemQuery, url: string) returns (found: Option<seq<string>>)
    ensures found == Contribution(q, url)
  {
    var body := Fetch(q.web, q.transport, url);
    if body.None? {
      return None;
    }
    var refs := q.web.select(q.itemSelector, body.value);
    if refs.None? {
      // caught: this URL contributes nothing
      return Some([]);
    }
    var links := ResolveAll(q.web, refs.value, url);
    if links.None? {
      // caught: this URL contributes nothing
      return Some([]);
    }
    found := Some(links.value);
  }

  /** `extract`: the URLs are visited in order and their contributions appended. */
  method Extract(q: ItemQuery, itemURLs: seq<string>) returns (report: Report)
    ensures report == Extracted(q, itemURLs)
  {
    ghost var gives := ContributionsOf(q);
    var urls: seq<string> := [];
    for i := 0 to |itemURLs|
      invariant Gather(gives, itemURLs[..i]) == Report(Returned(urls), itemURLs[..i])
    {
      var itemURL := itemURLs[i];
      GatherNext(gives, itemURLs, i, urls);
      var found := ExtractOne(q, itemURL);
      assert gives(itemURL) == found;
      if found.None? {
        PrefixStaysRunning(gives, itemURLs, i + 1);
        return Report(Running, itemURLs[..i + 1]);
      }
      urls := urls + found.value;
    }
    assert itemURLs[..|itemURLs|] == itemURLs;
    report := Report(Returned(urls), itemURLs);
  }

  /** One more URL after a returning prefix: its contribution is appended, or it holds the loop. */
  lemma GatherNext(gives: Contributions, urls: seq<string>, i: nat, found: seq<string>)
    requires i < |urls| && Gather(gives, urls[..i]) == Report(Returned(found), urls[..i])
    ensures gives(urls[i]).None? ==> Gather(gives, urls[..i + 1]) == Report(Running, urls[..i + 1])
    ensures gives(urls[i]).Some? ==>
      Gather(gives, urls[..i + 1]) == Report(Returned(found + gives(urls[i]).value), urls[..i + 1])
  {
    assert urls[..i + 1][..i] == urls[..i];
    assert urls[..i + 1] == urls[..i] + [urls[i]];
  }

  /** Once a fetch never returns, nothing after it changes the report. */
  lemma {:induction false} PrefixStaysRunning(gives: Contributions, urls: seq<string>, n: nat)
    requires n <= |urls| && Gather(gives, urls[..n]).outcome.Running?
    ensures Gather(gives, urls) == Gather(gives, urls[..n])
    decreases |urls| - n
  {
    if n < |urls| {
      assert urls[..n + 1][..n] == urls[..n];
      PrefixStaysRunning(gives, urls, n + 1);
    } else {
      assert urls[..n] == urls;
    }
  }

  /** Every URL's fetch returns. */
  ghost predicate AllReturn(gives: Contributions, urls: seq<string>)
  {
    forall u :: u in urls ==> gives(u).Some?
  }

  /** Every URL's contribution, concatenated in URL order. */
  function Concatenated(gives: Contributions, urls: seq<string>): seq<string>
    requires AllReturn(gives, urls)
  {
    if urls == [] then [] else gives(urls[0]).value + Concatenated(gives, urls[1..])
  }

  /**
   * The extraction returns exactly when every URL's fetch returns; it then
   * fetched every URL once, in order, and returned the contributions
   * concatenated in URL order.
   */
  lemma {:induction false} GatherIsConcatenation(gives: Contributions, urls: seq<string>)
    ensures Gather(gives, urls).outcome.Returned? <==> AllReturn(gives, urls)
    ensures Gather(gives, urls).outcome.Returned? ==>
      Gather(gives, urls).fetched == urls && Gather(gives, urls).outcome.value == Concatenated(gives, urls)
    decreases |urls|
  {
    if urls != [] {
      var init := urls[..|urls| - 1];
      var u := urls[|urls| - 1];
      assert urls == init + [u];
      GatherIsConcatenation(gives, init);
      assert AllReturn(gives, urls) <==> AllReturn(gives, init) && gives(u).Some? by {
        assert forall v :: v in urls <==> v in init || v == u;
      }
      if AllReturn(gives, urls) {
        ConcatenatedSnoc(gives, init, u);
      }
    }
  }

  /** The fetch of `urls[n - 1]` never returns, and every fetch before it does. */
  ghost predicate FirstHang(gives: Contributions, urls: seq<string>, n: nat)
  {
    0 < n <= |urls| && gives(urls[n - 1]).None? && AllReturn(gives, urls[..n - 1])
  }

  /**
   * Otherwise the extraction is still running (it never throws), and it
   * fetched the URLs up to the first one whose fetch never returns.
   */
  lemma {:induction false} GatherHangsAtFirstHang(gives: Contributions, urls: seq<string>)
    ensures !Gather(gives, urls).outcome.Threw?
    ensures Gather(gives, urls).outcome.Running? ==>
      exists n: nat :: FirstHang(gives, urls, n) && Gather(gives, urls).fetched == urls[..n]
    decreases |urls|
  {
    if urls != [] {
      var init := urls[..|urls| - 1];
      GatherHangsAtFirstHang(gives, init);
      var before := Gather(gives, init);
      if before.outcome.Running? {
        var n: nat :| FirstHang(gives, init, n) && before.fetched == init[..n];
        HangExtends(gives, urls, n);
      } else if gives(urls[|urls| - 1]).None? {
        GatherIsConcatenation(gives, init);
        HangAtEnd(gives, urls);
      }
    }
  }

  /** A first hang in all but the last URL is a first hang in all of them. */
  lemma HangExtends(gives: Contributions, urls: seq<string>, n: nat)
    requires urls != [] && FirstHang(gives, urls[..|urls| - 1], n)
    ensures FirstHang(gives, urls, n) && urls[..|urls| - 1][..n] == urls[..n]
  {
    assert urls[..|urls| - 1][..n - 1] == urls[..n - 1];
  }

  /** A hang at the last URL after every other returned is the first hang. */
  lemma HangAtEnd(gives: Contributions, urls: seq<string>)
    requires urls != [] && AllReturn(gives, urls[..|urls| - 1]) && gives(urls[|urls| - 1]).None?
    ensures FirstHang(gives, urls, |urls|) && urls[..|urls| - 1] + [urls[|urls| - 1]] == urls[..|urls|]
  {
  }

  lemma {:induction false} ConcatenatedSnoc(gives: Contributions, urls: seq<string>, u: string)
    requires AllReturn(gives, urls) && gives(u).Some?
    ensures AllReturn(gives, urls + [u])
    ensures Concatenated(gives, urls + [u]) == Concatenated(gives, urls) + gives(u).value
    decreases |urls|
  {
    if urls == [] {
      assert [] + [u] == [u];
    } else {
      assert (urls + [u])[1..] == urls[1..] + [u];
      ConcatenatedSnoc(gives, urls[1..], u);
    }
  }

  /**
   * A URL whose selection or resolution throws is isolated: the extraction
   * returns what it would return without that URL in the list.
   */
  lemma {:induction false} FailedUrlIsSkipped(gives: Contributions, urls: seq<string>, i: nat)
    requires i < |urls| && gives(urls[i]) == Some([])
    ensures Gather(gives, urls).outcome == Gather(gives, urls[..i] + urls[i + 1..]).outcome
    decreases |urls|
  {
    var u := urls[|urls| - 1];
    var init := urls[..|urls| - 1];
    if i == |urls| - 1 {
      assert urls[..i] + urls[i + 1..] == init;
      var before := Gather(gives, init);
      if before.outcome.Returned? {
        assert before.outcome.value + [] == before.outcome.value;
      }
    } else {
      FailedUrlIsSkipped(gives, init, i);
      var without := init[..i] + init[i + 1..];
      DropBeforeLast(urls, i);
      SameOutcomeAfter(gives, init, without, u);
    }
  }

  /** Two URL lists with the same outcome keep it when the same URL is appended. */
  lemma SameOutcomeAfter(gives: Contributions, a: seq<string>, b: seq<string>, u: string)
    requires Gather(gives, a).outcome == Gather(gives, b).outcome
    ensures Gather(gives, a + [u]).outcome == Gather(gives, b + [u]).outcome
  {
    assert (a + [u])[..|a|] == a;
    assert (b + [u])[..|b|] == b;
  }

  /** Dropping an element before the last one, then putting the last one back. */
  lemma DropBeforeLast<T>(xs: seq<T>, i: nat)
    requires i < |xs| - 1
    ensures xs[..i] + xs[i + 1..] == (xs[..|xs| - 1][..i] + xs[..|xs| - 1][i + 1..]) + [xs[|xs| - 1]]
  {
  }
}
