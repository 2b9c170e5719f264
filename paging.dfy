/**
 * The platform's paginated list endpoints, seen from the client: a finite
 * sequence of responses. Response `i` is what the request carrying the page
 * token handed out with response `i - 1` returns; a response carries a next
 * page token exactly when another response follows it.
 */
module Paging {

  /** One response: the page's items, or a request that raised (transport error, missing `items`). */
  datatype Page<+T> = Page(items: seq<T>) | PageError

  /** The response to the `i`-th request. An empty sequence stands for an endpoint whose first request fails. */
  function PageAt<T>(pages: seq<Page<T>>, i: nat): (p: Page<T>)
    ensures i < |pages| ==> p == pages[i]
    ensures i >= |pages| ==> p == PageError
  {
    if i < |pages| then pages[i] else PageError
  }

  /** Whether response `i` carries a `nextPageToken`. */
  predicate HasNextToken<T>(pages: seq<Page<T>>, i: nat) {
    i + 1 < |pages|
  }

  /** The items of responses `i`, `i + 1`, ... up to the first failed request, in order. */
  function StreamFrom<T>(pages: seq<Page<T>>, i: nat): seq<T>
    decreases |pages| - i
  {
    if i >= |pages| then []
    else match pages[i]
      case PageError => []
      case Page(items) => items + StreamFrom(pages, i + 1)
  }

  /** Nothing after a failed request is ever seen: the stream of `pages` is that of the pages before it. */
  lemma {:induction false} StreamStopsAtError<T>(pages: seq<Page<T>>, k: nat, i: nat)
    requires i <= k < |pages| && pages[k] == PageError
    ensures StreamFrom(pages, i) == StreamFrom(pages[..k], i)
    decreases k - i
  {
    if i < k {
      assert pages[..k][i] == pages[i];
      StreamStopsAtError(pages, k, i + 1);
    }
  }

  /** `s` cut to at most `n` elements. */
  function Take<T>(s: seq<T>, n: nat): (r: seq<T>)
    ensures |r| == if n < |s| then n else |s|
    ensures r == s[..|r|]
  {
    if n < |s| then s[..n] else s
  }

  /** Taking exactly the length of a prefix, or at least the whole of it when nothing follows, yields that prefix. */
  lemma TakeOfPrefix<T>(prefix: seq<T>, rest: seq<T>, n: nat)
    requires |prefix| <= n
    requires |prefix| == n || rest == []
    ensures Take(prefix + rest, n) == prefix
  {
    assert (prefix + rest)[..|prefix|] == prefix;
  }
}
