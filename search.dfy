/**
 * `search_videos` pages through the search endpoint for one
 * query and accumulates whole pages of videos, stopping after a page without
 * a next token or once the accumulated count has reached `maxResults`. The
 * count is checked only after a whole page has been appended, so the result
 * can be longer than `maxResults`. Errors are not caught here.
 */
module Search {
  import opened Wrappers
  import opened Paging

  /** A video the search found: its id, title and publication date. */
  datatype Video = Video(id: string, title: string, date: string)

  /** A search request that raised, or an item whose id or snippet fields could not be read, on the given page. */
  datatype SearchError = SearchFailed(page: nat)

  /** A response all of whose items could be read (`None` is an item missing `id.videoId`, `snippet.title` or `snippet.publishedAt`). */
  predicate PageReadable(p: Page<Option<Video>>) {
    p.Page? && forall j :: 0 <= j < |p.items| ==> p.items[j].Some?
  }

  /** The videos of the readable items, in order. */
  function Values(items: seq<Option<Video>>): (vs: seq<Video>)
    ensures |vs| <= |items|
  {
    if |items| == 0 then []
    else
      var last := items[|items| - 1];
      Values(items[..|items| - 1]) + (if last.Some? then [last.value] else [])
  }

  /** The videos of a run of responses, page after page. */
  function VideosOf(pages: seq<Page<Option<Video>>>): seq<Video> {
    if |pages| == 0 then []
    else
      var last := pages[|pages| - 1];
      VideosOf(pages[..|pages| - 1]) + (if last.Page? then Values(last.items) else [])
  }

  /** Whether the search ends with the `k`-th request: it raised, or no next token came back, or enough videos were gathered. */
  predicate StopsAt(pages: seq<Page<Option<Video>>>, maxResults: int, k: nat) {
    !PageReadable(PageAt(pages, k)) || !HasNextToken(pages, k) || |VideosOf(pages[..k + 1])| >= maxResults
  }

  /** The index of the last request the search makes: the first one, from `from` on, that ends it. */
  function FirstStop(pages: seq<Page<Option<Video>>>, maxResults: int, from: nat): (k: nat)
    ensures from <= k && StopsAt(pages, maxResults, k)
    decreases |pages| - from
  {
    if StopsAt(pages, maxResults, from) then from else FirstStop(pages, maxResults, from + 1)
  }

  /**
   * What `search_videos` returns, in closed form: the videos of every
   * response up to and including the one that ends the search, or the error
   * raised by that response.
   */
  function SearchOutcome(pages: seq<Page<Option<Video>>>, maxResults: int): Result<seq<Video>, SearchError> {
    var k := FirstStop(pages, maxResults, 0);
    if PageReadable(PageAt(pages, k)) then Ok(VideosOf(pages[..k + 1])) else Err(SearchFailed(k))
  }

  /** No request before the one FirstStop names ends the search. */
  lemma {:induction false} BeforeFirstStop(pages: seq<Page<Option<Video>>>, maxResults: int, from: nat, m: nat)
    requires from <= m < FirstStop(pages, maxResults, from)
    ensures !StopsAt(pages, maxResults, m)
    decreases |pages| - from
  {
    if from < m {
      BeforeFirstStop(pages, maxResults, from + 1, m);
    }
  }

  /** The first page from `from` on that ends the search is the one FirstStop names. */
  lemma {:induction false} FirstStopIs(pages: seq<Page<Option<Video>>>, maxResults: int, from: nat, k: nat)
    requires from <= k && StopsAt(pages, maxResults, k)
    requires forall m :: from <= m < k ==> !StopsAt(pages, maxResults, m)
    ensures FirstStop(pages, maxResults, from) == k
    decreases k - from
  {
    if from < k {
      FirstStopIs(pages, maxResults, from + 1, k);
    }
  }

  /** The videos of the first `i + 1` items extend those of the first `i` by the `i`-th item's. */
  lemma ValuesSnoc(items: seq<Option<Video>>, i: nat)
    requires i < |items| && items[i].Some?
    ensures Values(items[..i + 1]) == Values(items[..i]) + [items[i].value]
  {
    assert items[..i + 1][..i] == items[..i];
  }

  /** The videos of the first `k + 1` pages extend those of the first `k` by page `k`'s. */
  lemma VideosOfSnoc(pages: seq<Page<Option<Video>>>, k: nat)
    requires k < |pages| && pages[k].Page?
    ensures VideosOf(pages[..k + 1]) == VideosOf(pages[..k]) + Values(pages[k].items)
  {
    assert pages[..k + 1][..k] == pages[..k];
  }

  /**
   * Lines 38-45, the loop over one response's items: appends the video of
   * each item in turn; `readable` is false when some item's fields cannot be
   * read, which raises.
   */
  method AppendPage(videosIn: seq<Video>, items: seq<Option<Video>>) returns (videos: seq<Video>, readable: bool)
    ensures readable <==> forall j :: 0 <= j < |items| ==> items[j].Some?
    ensures readable ==> videos == videosIn + Values(items)
  {
    videos := videosIn;
    var i := 0;
    while i < |items|
      invariant 0 <= i <= |items|
      invariant videos == videosIn + Values(items[..i])
      invariant forall j :: 0 <= j < i ==> items[j].Some?
    {
      if items[i].None? {
        return videos, false;
      }
      ValuesSnoc(items, i);
      videos := videos + [items[i].value];
      i := i + 1;
    }
    assert items[..i] == items;
    readable := true;
  }

  /**
   * `search_videos`: requests one page at a time, appending every video of
   * the page, and ends after a page without a next token or once at least
   * `maxResults` videos are gathered. A failed request or an unreadable item
   * raises, and the error reaches the caller.
   */
  method SearchVideos(pages: seq<Page<Option<Video>>>, maxResults: int) returns (r: Result<seq<Video>, SearchError>)
    ensures r == SearchOutcome(pages, maxResults)
  {
    var videos: seq<Video> := [];
    var page: nat := 0;  // the page the next request returns: stands for next_page_token
    while true
      invariant page == 0 || page < |pages|
      invariant videos == VideosOf(pages[..page])
      invariant forall m :: 0 <= m < page ==> !StopsAt(pages, maxResults, m)
      decreases |pages| - page
    {
      var response := PageAt(pages, page);
      if response.PageError? {
        FirstStopIs(pages, maxResults, 0, page);
        return Err(SearchFailed(page));
      }
      var readable;
      videos, readable := AppendPage(videos, response.items);
      if !readable {
        FirstStopIs(pages, maxResults, 0, page);
        return Err(SearchFailed(page));
      }
      VideosOfSnoc(pages, page);
      if !HasNextToken(pages, page) || |videos| >= maxResults {
        FirstStopIs(pages, maxResults, 0, page);
        return Ok(videos);
      }
      page := page + 1;
    }
  }

  /**
   * How far past `maxResults` the search can go when every response honours
   * the page size it asks for (`min(maxResults, 100)`): by less than one page.
   */
  lemma SearchOvershootIsLessThanOnePage(pages: seq<Page<Option<Video>>>, maxResults: int)
    requires maxResults >= 1
    requires forall k :: 0 <= k < |pages| && pages[k].Page? ==> |pages[k].items| <= Min(maxResults, 100)
    ensures SearchOutcome(pages, maxResults).Ok? ==>
      |SearchOutcome(pages, maxResults).value| < maxResults + Min(maxResults, 100)
  {
    var k := FirstStop(pages, maxResults, 0);
    if PageReadable(PageAt(pages, k)) {
      VideosOfSnoc(pages, k);
      if k > 0 {
        BeforeFirstStop(pages, maxResults, 0, k - 1);
        assert k - 1 + 1 == k;
      }
    }
  }

  /** The smaller of `a` and `b`. */
  function Min(a: int, b: int): int {
    if a < b then a else b
  }

  /** `maxResults` is not a hard bound: one response longer than it is returned whole. */
  lemma SearchKeepsWholeFirstPage(v: Video, w: Video)
    ensures SearchOutcome([Page([Some(v), Some(w)])], 1) == Ok([v, w])
  {
    var items := [Some(v), Some(w)];
    var pages := [Page(items)];
    assert !HasNextToken(pages, 0);
    FirstStopIs(pages, 1, 0, 0);
    assert PageReadable(PageAt(pages, 0));
    assert pages[..1] == pages;
    assert Values(items) == [v, w] by {
      assert items[..1] == [Some(v)];
      assert items[..1][..0] == [];
    }
    assert VideosOf(pages) == VideosOf(pages[..0]) + Values(items);
    assert VideosOf(pages) == [v, w];
  }

  /** A search whose first request fails raises before any video is gathered. */
  lemma SearchPropagatesFirstFailure(pages: seq<Page<Option<Video>>>, maxResults: int)
    requires pages == [] || pages[0] == PageError
    ensures SearchOutcome(pages, maxResults) == Err(SearchFailed(0))
  {
  }
}
