/**
 * The `Cookie` request header built from the cookies of an interactive login
 * (src/knapsack.ts and src/scraper.ts build it the same way): each cookie
 * becomes `name=value`, and the pairs are joined with "; ", in list order.
 *
 * The header reads back as the list it was built from, provided no name
 * contains `;` or `=` and no value contains `;`: `ParseHeader` is that
 * reading, the inverse the header format is designed for.
 */
module Cookies {
  import opened Common

  /** The part of a browser cookie that goes into a request header. */
  datatype Cookie = Cookie(name: string, value: string)

  /** `${c.name}=${c.value}` */
  function Pair(c: Cookie): string
  {
    c.name + "=" + c.value
  }

  /** `cookies.map((c) => `${c.name}=${c.value}`).join("; ")` */
  function CookieHeader(cookies: seq<Cookie>): (header: string)
    ensures header == "" <==> cookies == []
  {
    if cookies == [] then ""
    else if |cookies| == 1 then Pair(cookies[0])
    else Pair(cookies[0]) + "; " + CookieHeader(cookies[1..])
  }

  /** A cookie whose pair can be told apart from its neighbours in a header. */
  predicate Separable(c: Cookie)
  {
    ';' !in c.name && '=' !in c.name && ';' !in c.value
  }

  /** The position of the first `ch` in `s`, or `|s|` when there is none. */
  function IndexOf(s: string, ch: char): (i: nat)
    ensures i <= |s|
    ensures i < |s| ==> s[i] == ch
    ensures forall j :: 0 <= j < i ==> s[j] != ch
  {
    if s == [] then 0
    else if s[0] == ch then 0
    else 1 + IndexOf(s[1..], ch)
  }

  /** A `name=value` pair: the name runs up to the first `=`. */
  function ParseCookie(pair: string): (r: Option<Cookie>)
    ensures r.Some? ==> Pair(r.value) == pair && '=' !in r.value.name
  {
    var j := IndexOf(pair, '=');
    if j == |pair| then None
    else
      assert pair == pair[..j] + "=" + pair[j + 1..];
      Some(Cookie(pair[..j], pair[j + 1..]))
  }

  /** Reads a header back into its cookies; None for text no header has. */
  function ParseHeader(header: string): (r: Option<seq<Cookie>>)
    decreases |header|
  {
    if header == "" then Some([])
    else
      var i := IndexOf(header, ';');
      match ParseCookie(header[..i])
      case None => None
      case Some(c) =>
        if i == |header| then Some([c])
        else if i + 2 < |header| && header[i + 1] == ' ' then
          match ParseHeader(header[i + 2..])
          case None => None
          case Some(rest) => Some([c] + rest)
        else None
  }

  /** The first `ch` of `a + b` is at `|a|` when `a` has none and `b` starts with one. */
  lemma FirstAtJoin(a: string, b: string, ch: char)
    requires ch !in a && b != [] && b[0] == ch
    ensures IndexOf(a + b, ch) == |a|
  {
    assert (a + b)[|a|] == ch;
    assert forall j :: 0 <= j < |a| ==> (a + b)[j] == a[j];
  }

  /** Without any `ch`, the first `ch` is past the end. */
  lemma NoneAtAll(s: string, ch: char)
    requires ch !in s
    ensures IndexOf(s, ch) == |s|
  {
  }

  /** A separable cookie's pair reads back as that cookie. */
  lemma ParsePair(c: Cookie)
    requires Separable(c)
    ensures ParseCookie(Pair(c)) == Some(c)
  {
    FirstAtJoin(c.name, "=" + c.value, '=');
    assert Pair(c) == c.name + ("=" + c.value);
    assert Pair(c)[..|c.name|] == c.name;
    assert Pair(c)[|c.name| + 1..] == c.value;
  }

  /** A separable pair contains no `;`. */
  lemma PairHasNoSemicolon(c: Cookie)
    requires Separable(c)
    ensures ';' !in Pair(c)
  {
    var pair := Pair(c);
    assert forall k :: 0 <= k < |pair| ==> pair[k] in c.name || pair[k] == '=' || pair[k] in c.value;
  }

  /** A separable cookie's pair in front of "; " and more header text reads back in front of that text's cookies. */
  lemma ParseInFront(c: Cookie, tail: string)
    requires Separable(c) && tail != ""
    ensures ParseHeader(Pair(c) + "; " + tail) ==
      match ParseHeader(tail)
      case None => None
      case Some(rest) => Some([c] + rest)
  {
    var pair := Pair(c);
    var header := pair + "; " + tail;
    PairHasNoSemicolon(c);
    ParsePair(c);
    assert header == pair + ("; " + tail);
    FirstAtJoin(pair, "; " + tail, ';');
    assert header[..|pair|] == pair;
    assert header[|pair| + 2..] == tail;
  }

  /** The header of separable cookies reads back as exactly those cookies, in order. */
  lemma {:induction false} HeaderRoundTrip(cookies: seq<Cookie>)
    requires forall c :: c in cookies ==> Separable(c)
    ensures ParseHeader(CookieHeader(cookies)) == Some(cookies)
    decreases |cookies|
  {
    if cookies != [] {
      var c := cookies[0];
      var pair := Pair(c);
      ParsePair(c);
      if |cookies| == 1 {
        PairHasNoSemicolon(c);
        NoneAtAll(pair, ';');
        assert pair[..|pair|] == pair;
        assert cookies == [c];
      } else {
        assert forall c' :: c' in cookies[1..] ==> c' in cookies;
        HeaderRoundTrip(cookies[1..]);
        ParseInFront(c, CookieHeader(cookies[1..]));
        assert [c] + cookies[1..] == cookies;
      }
    }
  }

  /** Different lists of separable cookies give different headers. */
  lemma HeaderIsInjective(a: seq<Cookie>, b: seq<Cookie>)
    requires forall c :: c in a ==> Separable(c)
    requires forall c :: c in b ==> Separable(c)
    requires CookieHeader(a) == CookieHeader(b)
    ensures a == b
  {
    HeaderRoundTrip(a);
    HeaderRoundTrip(b);
  }
}
