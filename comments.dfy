/**
 * `get_video_comments` pages through one video's comment
 * threads, keeping at most `maxComments` comments for the video and stopping
 * once the running total reaches `maxTotal`. Both caps are checked before
 * each comment is appended; any failure ends collection for this video only.
 */
module Comments {
  import opened Wrappers
  import opened Paging
  import Text

  /** The fields of a top-level comment that the harvester keeps. */
  datatype Comment = Comment(author: string, text: string, date: string)

  /**
   * One comment thread as the endpoint returns it. `NoSnippet`: the path
   * `snippet.topLevelComment.snippet` is missing, which raises before the caps
   * are checked. `WithSnippet(None)`: the author, text or date field is
   * missing, which raises only when the comment is about to be appended.
   */
  datatype ThreadItem = NoSnippet | WithSnippet(fields: Option<Comment>)

  /** The comment as stored: its text with line breaks escaped. */
  function Stored(c: Comment): Comment {
    c.(text := Text.Escape(c.text))
  }

  /** The stored form of each comment, in order. */
  function StoredAll(cs: seq<Comment>): seq<Comment> {
    seq(|cs|, j requires 0 <= j < |cs| => Stored(cs[j]))
  }

  /** Whether all of a thread's comment fields can be read. */
  predicate ThreadReadable(t: ThreadItem) {
    t.WithSnippet? && t.fields.Some?
  }

  /** The position of the first thread at or after `i` whose comment cannot be read, or the length of the stream. */
  function FirstUnreadable(items: seq<ThreadItem>, i: nat): (n: nat)
    requires i <= |items|
    ensures i <= n <= |items|
    ensures n == |items| || !ThreadReadable(items[n])
    decreases |items| - i
  {
    if i == |items| || !ThreadReadable(items[i]) then i else FirstUnreadable(items, i + 1)
  }

  /** Every thread from `i` up to FirstUnreadable can be read. */
  lemma {:induction false} ReadableBefore(items: seq<ThreadItem>, i: nat, j: nat)
    requires i <= |items| && i <= j < FirstUnreadable(items, i)
    ensures ThreadReadable(items[j])
    decreases |items| - i
  {
    if i < j {
      ReadableBefore(items, i + 1, j);
    }
  }

  /** The comments of a thread stream up to the first thread whose fields cannot be read. */
  function Usable(items: seq<ThreadItem>): (cs: seq<Comment>)
    ensures |cs| <= |items|
  {
    var n := FirstUnreadable(items, 0);
    seq(n, j requires 0 <= j < n => ReadableBefore(items, 0, j); items[j].fields.value)
  }

  /** How many comments one call may still append: the smaller of the per-video cap and what is left of the total, never negative. */
  function Allowance(maxComments: int, total: int, maxTotal: int): (a: nat)
    ensures a <= maxComments || a == 0
    ensures total + a <= maxTotal || a == 0
    ensures a == 0 <==> maxComments <= 0 || total >= maxTotal
  {
    var room := if maxComments < maxTotal - total then maxComments else maxTotal - total;
    if room < 0 then 0 else room
  }

  /**
   * What one call of the collector returns, in closed form: the first
   * `Allowance` readable comments of the video's thread stream, escaped.
   */
  function CollectedComments(pages: seq<Page<ThreadItem>>, maxComments: int, total: int, maxTotal: int): (cs: seq<Comment>)
    ensures |cs| <= Allowance(maxComments, total, maxTotal)
  {
    StoredAll(Take(Usable(StreamFrom(pages, 0)), Allowance(maxComments, total, maxTotal)))
  }

  /** Storing works comment by comment, so it distributes over concatenation. */
  lemma StoredAllConcat(a: seq<Comment>, b: seq<Comment>)
    ensures StoredAll(a + b) == StoredAll(a) + StoredAll(b)
  {
    assert forall j :: 0 <= j < |a + b| ==> StoredAll(a + b)[j] == (StoredAll(a) + StoredAll(b))[j];
  }

  /** Past the end of `a`, the first unreadable thread of `a + b` is found in `b`. */
  lemma {:induction false} FirstUnreadableShift(a: seq<ThreadItem>, b: seq<ThreadItem>, k: nat)
    requires k <= |b|
    ensures FirstUnreadable(a + b, |a| + k) == |a| + FirstUnreadable(b, k)
    decreases |b| - k
  {
    if k < |b| {
      assert (a + b)[|a| + k] == b[k];
      if ThreadReadable(b[k]) {
        FirstUnreadableShift(a, b, k + 1);
      }
    }
  }

  /** The first unreadable thread of `a + b`: that of `a` if there is one, otherwise that of `b`, shifted. */
  lemma {:induction false} FirstUnreadableConcat(a: seq<ThreadItem>, b: seq<ThreadItem>, i: nat)
    requires i <= |a|
    ensures FirstUnreadable(a + b, i) ==
      if FirstUnreadable(a, i) < |a| then FirstUnreadable(a, i) else |a| + FirstUnreadable(b, 0)
    decreases |a| - i
  {
    if i < |a| {
      assert (a + b)[i] == a[i];
      if ThreadReadable(a[i]) {
        FirstUnreadableConcat(a, b, i + 1);
      }
    } else {
      FirstUnreadableShift(a, b, 0);
    }
  }

  /** Reading a stream that is one page followed by more: the later threads count only if the page is readable throughout. */
  lemma UsableConcat(a: seq<ThreadItem>, b: seq<ThreadItem>)
    ensures Usable(a + b) == Usable(a) + (if |Usable(a)| == |a| then Usable(b) else [])
  {
    FirstUnreadableConcat(a, b, 0);
    var l := Usable(a + b);
    var r := Usable(a) + (if |Usable(a)| == |a| then Usable(b) else []);
    forall j | 0 <= j < |l|
      ensures l[j] == r[j]
    {
      if j < |a| {
        assert (a + b)[j] == a[j];
      } else {
        assert (a + b)[j] == b[j - |a|];
      }
    }
  }

  /** What is left of the allowance after `c` comments were appended. */
  lemma AllowanceAfter(maxComments: int, total: int, maxTotal: int, c: nat)
    requires c <= Allowance(maxComments, total, maxTotal)
    ensures Allowance(maxComments - c, total + c, maxTotal) == Allowance(maxComments, total, maxTotal) - c
  {
  }

  /**
   * Whether reading one page's threads with `room` comments left raises: the
   * first unreadable thread is reached, and either it has no snippet (line 75
   * fails before the cap check) or it is reached with room left (lines 81-83
   * fail after it).
   */
  predicate RaisesOn(items: seq<ThreadItem>, room: nat) {
    var u := FirstUnreadable(items, 0);
    u < |items| && (if items[u].NoSnippet? then u <= room else u < room)
  }

  /**
   * Lines 74-87, the loop over one page's threads: each readable comment is
   * appended while the per-video count is below `maxComments` and the running
   * total below `maxTotal`; an unreadable thread raises.
   */
  method CollectFromPage(items: seq<ThreadItem>, maxComments: int, maxTotal: int, counterIn: int, totalIn: int)
    returns (added: seq<Comment>, counter: int, total: int, raised: bool)
    ensures var room := Allowance(maxComments - counterIn, totalIn, maxTotal);
      added == StoredAll(Take(Usable(items), room))
    ensures counter == counterIn + |added| && total == totalIn + |added|
    ensures raised ==> |Usable(items)| < |items| && |Usable(items)| <= Allowance(maxComments - counterIn, totalIn, maxTotal)
    ensures !raised && counter < maxComments && total < maxTotal ==> |Usable(items)| == |items|
    ensures raised <==> RaisesOn(items, Allowance(maxComments - counterIn, totalIn, maxTotal))
  {
    added, counter, total, raised := [], counterIn, totalIn, false;
    var room := Allowance(maxComments - counterIn, totalIn, maxTotal);
    ghost var usable := Usable(items);
    var i := 0;
    while i < |items|
      invariant 0 <= i <= |usable| && i <= room
      invariant added == StoredAll(usable[..i])
      invariant counter == counterIn + i && total == totalIn + i
      invariant !raised
    {
      if items[i].NoSnippet? {
        if i < |usable| {
          ReadableBefore(items, 0, i);
        }
        raised := true;
        break;
      }
      if counter >= maxComments || total >= maxTotal {
        break;
      }
      if items[i].fields.None? {
        if i < |usable| {
          ReadableBefore(items, 0, i);
        }
        raised := true;
        break;
      }
      var c := items[i].fields.value;
      assert usable[..i + 1] == usable[..i] + [c];
      StoredAllConcat(usable[..i], [c]);
      added := added + [Stored(c)];
      counter := counter + 1;
      total := total + 1;
      i := i + 1;
    }
    assert Take(usable, room) == usable[..i];
  }

  /**
   * One page read, with `raw` collected before it and `room` left of the
   * allowance: if collection stops after the page, what has been collected is
   * the allowance-long prefix of the whole stream; otherwise the page was read
   * to its end with room to spare, and collection goes on with the later
   * pages' stream.
   */
  lemma PageStep(all: seq<Comment>, raw: seq<Comment>, items: seq<ThreadItem>, later: seq<ThreadItem>, room: nat, allowance: nat, stop: bool)
    requires all == raw + Usable(items + later) && |raw| + room == allowance
    requires stop ==> (|Usable(items)| < |items| && |Usable(items)| <= room) || |Take(Usable(items), room)| == room
    requires !stop ==> |Usable(items)| == |items| && |Usable(items)| < room
    ensures stop ==> raw + Take(Usable(items), room) == Take(all, allowance)
    ensures !stop ==> all == (raw + Take(Usable(items), room)) + Usable(later)
  {
    UsableConcat(items, later);
    var u := Usable(items);
    if stop {
      if |u| < |items| && |u| <= room {
        assert all == raw + u;
        TakeOfPrefix(raw + u, [], allowance);
      } else {
        assert Take(u, room) == u[..room];
        assert all == (raw + u[..room]) + (u[room..] + (if |u| == |items| then Usable(later) else []));
        TakeOfPrefix(raw + u[..room], u[room..] + (if |u| == |items| then Usable(later) else []), allowance);
      }
    } else {
      assert (raw + u) + Usable(later) == raw + (u + Usable(later));
    }
  }

  /**
   * One round of the loop of lines 59-96, entered with the running total
   * below `maxTotal`: requests page `page` and collects from it. `stop` says
   * whether collection ends with this page: after a failed request, an
   * exception within the page, a cap reached, or a page without a next token.
   * `raw` is what was collected before (unescaped) and `room` what is left of
   * the allowance; `taken` is what this round adds.
   */
  method CollectRound(pages: seq<Page<ThreadItem>>, page: nat, maxComments: int, maxTotal: int, counterIn: int, totalIn: int,
                      ghost all: seq<Comment>, ghost raw: seq<Comment>, ghost allowance: nat)
    returns (added: seq<Comment>, counter: int, total: int, stop: bool, taken: seq<Comment>)
    requires page == 0 || page < |pages|
    requires all == raw + Usable(StreamFrom(pages, page))
    requires totalIn < maxTotal && counterIn == |raw|
    requires |raw| + Allowance(maxComments - counterIn, totalIn, maxTotal) == allowance
    ensures added == StoredAll(taken)
    ensures counter == counterIn + |taken| && total == totalIn + |taken| && |raw| + |taken| <= allowance
    ensures stop ==> raw + taken == Take(all, allowance)
    ensures !stop ==> page + 1 < |pages| && all == (raw + taken) + Usable(StreamFrom(pages, page + 1))
    ensures var response := PageAt(pages, page);
      stop <==> (response.PageError? ||
                 RaisesOn(response.items, Allowance(maxComments - counterIn, totalIn, maxTotal)) ||
                 counter >= maxComments || total >= maxTotal || !HasNextToken(pages, page))
    ensures var response := PageAt(pages, page);
      response.Page? ==> taken == Take(Usable(response.items), Allowance(maxComments - counterIn, totalIn, maxTotal))
  {
    var response := PageAt(pages, page);
    if response.PageError? {
      // the request raised: the exception ends collection for this video
      TakeOfPrefix(raw, [], allowance);
      return [], counterIn, totalIn, true, [];
    }
    var items := response.items;
    ghost var later := StreamFrom(pages, page + 1);
    assert StreamFrom(pages, page) == items + later;
    var room := Allowance(maxComments - counterIn, totalIn, maxTotal);
    var raised;
    added, counter, total, raised := CollectFromPage(items, maxComments, maxTotal, counterIn, totalIn);
    taken := Take(Usable(items), room);
    // an exception, or a cap reached within or at the end of the page
    stop := raised || counter >= maxComments || total >= maxTotal;
    PageStep(all, raw, items, later, room, allowance, stop);
    if !stop && !HasNextToken(pages, page) {
      stop := true;
      TakeOfPrefix(raw + taken, [], allowance);
    }
  }

  /**
   * How many requests collection makes from page `page` on, with `counter`
   * comments of this video and a running total `total` below `maxTotal`
   * gathered before: this request, and more only while the page raised
   * nothing, left both caps unreached and brought a next token (line 90).
   */
  function RequestsFrom(pages: seq<Page<ThreadItem>>, page: nat, maxComments: int, counter: int, total: int, maxTotal: int): nat
    decreases |pages| - page
  {
    var response := PageAt(pages, page);
    if response.PageError? then 1
    else
      var room := Allowance(maxComments - counter, total, maxTotal);
      var n := |Take(Usable(response.items), room)|;
      if RaisesOn(response.items, room) || counter + n >= maxComments || total + n >= maxTotal || !HasNextToken(pages, page) then 1
      else 1 + RequestsFrom(pages, page + 1, maxComments, counter + n, total + n, maxTotal)
  }

  /** Collection never requests a page past the last one: from page `page` on, at most the pages that remain. */
  lemma {:induction false} RequestsWithinPages(pages: seq<Page<ThreadItem>>, page: nat, maxComments: int, counter: int, total: int, maxTotal: int)
    requires page < |pages|
    ensures RequestsFrom(pages, page, maxComments, counter, total, maxTotal) <= |pages| - page
    decreases |pages| - page
  {
    var response := PageAt(pages, page);
    if response.Page? {
      var room := Allowance(maxComments - counter, total, maxTotal);
      var n := |Take(Usable(response.items), room)|;
      if !(RaisesOn(response.items, room) || counter + n >= maxComments || total + n >= maxTotal || !HasNextToken(pages, page)) {
        RequestsWithinPages(pages, page + 1, maxComments, counter + n, total + n, maxTotal);
      }
    }
  }

  /** The request count from one page on: one, and the rest only if collection goes on after it. */
  lemma RequestsAfterRound(pages: seq<Page<ThreadItem>>, page: nat, maxComments: int, maxTotal: int,
                            counterIn: int, totalIn: int, counter: int, total: int, stop: bool)
    requires counter - counterIn == total - totalIn
    requires var response := PageAt(pages, page);
      response.Page? ==> counter - counterIn == |Take(Usable(response.items), Allowance(maxComments - counterIn, totalIn, maxTotal))|
    requires var response := PageAt(pages, page);
      stop <==> (response.PageError? ||
                 RaisesOn(response.items, Allowance(maxComments - counterIn, totalIn, maxTotal)) ||
                 counter >= maxComments || total >= maxTotal || !HasNextToken(pages, page))
    ensures RequestsFrom(pages, page, maxComments, counterIn, totalIn, maxTotal) ==
      if stop then 1 else 1 + RequestsFrom(pages, page + 1, maxComments, counter, total, maxTotal)
  {
  }

  /**
   * `get_video_comments`: requests pages in order while the running total is
   * below `maxTotal`, collecting from each, and stops after a page without a
   * next token, after a failure, or once either cap is reached. Returns the
   * comments, the per-video count, the updated running total and how many
   * pages it requested.
   */
  method GetVideoComments(pages: seq<Page<ThreadItem>>, maxComments: int, totalIn: int, maxTotal: int)
    returns (comments: seq<Comment>, counter: int, total: int, requests: nat)
    ensures comments == CollectedComments(pages, maxComments, totalIn, maxTotal)
    ensures counter == |comments| && total == totalIn + counter
    ensures requests == 0 <==> totalIn >= maxTotal
    ensures requests == if totalIn >= maxTotal then 0 else RequestsFrom(pages, 0, maxComments, 0, totalIn, maxTotal)
    ensures |pages| > 0 ==> requests <= |pages|
    ensures maxComments >= 0 ==> counter <= maxComments
    ensures totalIn <= maxTotal ==> total <= maxTotal
    ensures totalIn >= maxTotal ==> comments == [] && total == totalIn
  {
    comments, counter, total, requests := [], 0, totalIn, 0;
    ghost var all := Usable(StreamFrom(pages, 0));
    ghost var allowance := Allowance(maxComments, totalIn, maxTotal);
    ghost var raw: seq<Comment> := [];
    var page: nat := 0;  // the page the next request returns: stands for next_page_token
    while true
      invariant page == 0 || page < |pages|
      invariant all == raw + Usable(StreamFrom(pages, page))
      invariant comments == StoredAll(raw)
      invariant counter == |raw| <= allowance
      invariant total == totalIn + counter
      invariant requests == page
      invariant page == 0 ==> counter == 0
      invariant page > 0 ==> totalIn < maxTotal
      invariant totalIn < maxTotal ==> total < maxTotal
      invariant totalIn < maxTotal ==>
        requests + RequestsFrom(pages, page, maxComments, counter, total, maxTotal) == RequestsFrom(pages, 0, maxComments, 0, totalIn, maxTotal)
      decreases |pages| - page
    {
      if total >= maxTotal {
        assert raw == Take(all, allowance);
        break;
      }
      requests := requests + 1;
      AllowanceAfter(maxComments, totalIn, maxTotal, counter);
      var added, stop;
      var taken;
      ghost var counterIn, totalIn' := counter, total;
      added, counter, total, stop, taken := CollectRound(pages, page, maxComments, maxTotal, counter, total, all, raw, allowance);
      RequestsAfterRound(pages, page, maxComments, maxTotal, counterIn, totalIn', counter, total, stop);
      StoredAllConcat(raw, taken);
      comments := comments + added;
      raw := raw + taken;
      if stop {
        break;
      }
      page := page + 1;
    }
    assert raw == Take(all, allowance);
    if |pages| > 0 {
      RequestsWithinPages(pages, 0, maxComments, 0, totalIn, maxTotal);
    }
  }

  /** No stored comment text contains a line feed or a carriage return. */
  lemma StoredTextHasNoLineBreaks(cs: seq<Comment>)
    ensures forall c :: c in StoredAll(cs) ==> '\n' !in c.text && '\r' !in c.text
  {
  }

  /**
   * A failed request ends collection for the video: the result is what the
   * pages before it yield (the last of them then carries no next token).
   */
  lemma FailedRequestKeepsEarlierComments(pages: seq<Page<ThreadItem>>, k: nat, maxComments: int, total: int, maxTotal: int)
    requires k < |pages| && pages[k] == PageError
    ensures CollectedComments(pages, maxComments, total, maxTotal) == CollectedComments(pages[..k], maxComments, total, maxTotal)
  {
    StreamStopsAtError(pages, k, 0);
  }

  /**
   * An unreadable thread ends collection for the video: the comments before
   * it, including those earlier on the same page, are kept.
   */
  lemma UnreadableThreadKeepsEarlierComments(before: seq<ThreadItem>, bad: ThreadItem, after: seq<ThreadItem>)
    requires !ThreadReadable(bad)
    ensures Usable(before + [bad] + after) == Usable(before)
  {
    assert before + [bad] + after == before + ([bad] + after);
    UsableConcat(before, [bad] + after);
    assert FirstUnreadable([bad] + after, 0) == 0;
  }
}
