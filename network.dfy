/**
 * What the crawler sees of the outside world: the two transports, the
 * server's answers, the document query (JSDOM parsing followed by
 * `evaluateXPathToStrings`) and URL resolution (`new URL(ref, base).href`),
 * together with the mutable string arrays that src/fetch.ts works on.
 */
module Network {
  import opened Common
  import opened Backoff

  /**
   * The fetch function a step uses: node-fetch as it is, or node-fetch with a
   * `Cookie` header whose value is fixed when the journey starts.
   */
  datatype Transport = Plain | Credentialed(cookieHeader: string)

  /**
   * The uninterpreted collaborators of the crawler.
   * - attempts(t, url): the outcomes of successive calls of `doFetch(url)`
   *   through transport `t`, each a rejection or the body text of the response;
   * - select(expression, body): the strings the XPath expression selects in the
   *   parsed body, or None when parsing or evaluation throws;
   * - resolve(ref, base): `new URL(ref, base).href`, or None when the
   *   constructor throws a TypeError.
   */
  datatype Web = Web(
    attempts: (Transport, string) -> seq<Attempt<string>>,
    select: (string, string) -> Option<seq<string>>,
    resolve: (string, string) -> Option<string>)

  /** What a traversal or an extraction returned, and the URLs it fetched, in order. */
  datatype Report = Report(outcome: Outcome<seq<string>>, fetched: seq<string>)

  /**
   * The body that `retryWithBackoff(() => doFetch(url))` yields under the
   * default configuration, or None when no attempt ever succeeds (then the
   * retry loop never ends).
   */
  function EventualBody(web: Web, t: Transport, url: string): Option<string>
  {
    var script := web.attempts(t, url);
    var k := FirstSuccess(script);
    if k < |script| then Some(script[k].value) else None
  }

  /**
   * A fetch as src/fetch.ts writes it: `retryWithBackoff` with a warning
   * callback and the default configuration.  None stands for the call that
   * never returns.
   */
  method Fetch(web: Web, t: Transport, url: string) returns (body: Option<string>)
    ensures body == EventualBody(web, t, url)
  {
    var script := web.attempts(t, url);
    if FirstSuccess(script) == |script| {
      // every attempt fails: with maxRetries = -1 the loop runs forever
      return None;
    }
    var page, _ := RetryWithBackoff(script, true, DefaultRetryConfig);
    body := page;
  }

  /**
   * `refs.map((ref) => resolveURL(ref, base))`: either every reference
   * resolves and the results keep their order, or the first failure throws and
   * nothing is produced.
   */
  function ResolveAll(web: Web, refs: seq<string>, base: string): (r: Option<seq<string>>)
    ensures r.Some? <==> forall i :: 0 <= i < |refs| ==> web.resolve(refs[i], base).Some?
    ensures r.Some? ==> |r.value| == |refs|
    ensures r.Some? ==> forall i :: 0 <= i < |refs| ==> web.resolve(refs[i], base) == Some(r.value[i])
  {
    if refs == [] then Some([])
    else
      match web.resolve(refs[0], base)
      case None => None
      case Some(first) =>
        match ResolveAll(web, refs[1..], base)
        case None =>
          assert forall i :: 1 <= i < |refs| ==> refs[1..][i - 1] == refs[i];
          None
        case Some(rest) => Some([first] + rest)
  }

  /** A JavaScript `string[]`: a growable array shared by reference. */
  class StringArray {
    var elems: seq<string>

    constructor (initial: seq<string>)
      ensures elems == initial
    {
      elems := initial;
    }

    /** `shift()`: remove and return the first element, `undefined` when empty. */
    method Shift() returns (first: Option<string>)
      modifies this
      ensures old(elems) == [] ==> first == None && elems == []
      ensures old(elems) != [] ==> first == Some(old(elems)[0]) && elems == old(elems)[1..]
    {
      if elems == [] {
        first := None;
      } else {
        first := Some(elems[0]);
        elems := elems[1..];
      }
    }

    /** `push(...xs)`: append every element of `xs`, in order. */
    method Push(xs: seq<string>)
      modifies this
      ensures elems == old(elems) + xs
    {
      elems := elems + xs;
    }
  }
}
