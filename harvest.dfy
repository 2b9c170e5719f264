/**
 * `get_data_from_youtube` searches for one query, collects the
 * comments of each video found while the query's running total is below the
 * budget, turns them into rows and writes the rows to the sink;
 * `process_queries_from_file` does this for every query of the work list and
 * removes each query from the list once it has been processed.
 */
module Harvest {
  import opened Wrappers
  import opened Paging
  import opened Comments
  import opened Search
  import opened Sink
  import opened QueryList

  /** The two platform endpoints: search results for a query, comment threads for a video id. */
  datatype Api = Api(search: string -> seq<Page<Option<Video>>>, threads: string -> seq<Page<ThreadItem>>)

  /** What the search endpoint returns for `query`, page by page. */
  function SearchPages(api: Api, query: string): seq<Page<Option<Video>>> {
    api.search(query)
  }

  /** What the comment-thread endpoint returns for the video `v`, page by page. */
  function ThreadPages(api: Api, v: Video): seq<Page<ThreadItem>> {
    api.threads(v.id)
  }

  /** The row for one comment of one video found for `query`. */
  function RowOf(query: string, v: Video, c: Comment): Row {
    Row(query, v.id, v.title, v.date, c.text, c.date)
  }

  /** The rows for the comments of one video, in comment order. */
  function RowsFor(query: string, v: Video, cs: seq<Comment>): (rows: seq<Row>)
    ensures |rows| == |cs|
  {
    seq(|cs|, j requires 0 <= j < |cs| => RowOf(query, v, cs[j]))
  }

  /** The rows collected so far for a query and its running total of comments. */
  datatype Tally = Tally(rows: seq<Row>, total: int)

  /**
   * The tally after visiting the videos at positions `from` onwards, starting
   * from `acc`: each video's comments, collected with the running total,
   * become rows appended in order. No video is visited once the total has
   * reached `maxTotal`.
   */
  function VideoRows(api: Api, query: string, videos: seq<Video>, from: nat, maxComment: int, acc: Tally, maxTotal: int): Tally
    decreases |videos| - from
  {
    if from >= |videos| || acc.total >= maxTotal then acc
    else
      var cs := CollectedComments(ThreadPages(api, videos[from]), maxComment, acc.total, maxTotal);
      VideoRows(api, query, videos, from + 1, maxComment, Tally(acc.rows + RowsFor(query, videos[from], cs), acc.total + |cs|), maxTotal)
  }

  /** The rows `get_data_from_youtube` builds for one query (the budget starts at 0 for every query), or the search error it raises. */
  function QueryRows(api: Api, query: string, maxVideo: int, maxComment: int, maxTotal: int): Result<seq<Row>, SearchError> {
    match SearchOutcome(SearchPages(api, query), maxVideo)
    case Err(e) => Err(e)
    case Ok(videos) => Ok(VideoRows(api, query, videos, 0, maxComment, Tally([], 0), maxTotal).rows)
  }

  /** What `get_data_from_youtube` yields for each of `queries`, in order: its rows or its search error. */
  function QueryResults(api: Api, queries: seq<string>, maxVideo: int, maxComment: int, maxTotal: int): (results: seq<Result<seq<Row>, SearchError>>)
    ensures |results| == |queries|
  {
    seq(|queries|, i requires 0 <= i < |queries| => QueryRows(api, queries[i], maxVideo, maxComment, maxTotal))
  }

  /** The rows of the first `n` results, result after result. */
  function RowsOfResults(results: seq<Result<seq<Row>, SearchError>>, n: nat): seq<Row>
    requires n <= |results|
  {
    if n == 0 then []
    else RowsOfResults(results, n - 1) + (if results[n - 1].Ok? then results[n - 1].value else [])
  }

  /** Once the query at position `n` succeeded, its rows follow those of the queries before it, after any earlier rows. */
  lemma RowsOfResultsSnoc(earlier: seq<Row>, results: seq<Result<seq<Row>, SearchError>>, n: nat)
    requires n < |results| && results[n].Ok?
    ensures earlier + RowsOfResults(results, n + 1) == (earlier + RowsOfResults(results, n)) + results[n].value
  {
    assert earlier + (RowsOfResults(results, n) + results[n].value) == (earlier + RowsOfResults(results, n)) + results[n].value;
  }

  /** Whether each of the first `n` results is a success. */
  predicate AllSucceed(results: seq<Result<seq<Row>, SearchError>>, n: nat)
    requires n <= |results|
  {
    forall i :: 0 <= i < n ==> results[i].Ok?
  }

  /** Each collected comment adds one row and one to the total, and the total never passes `maxTotal` once below it. */
  lemma {:induction false} VideoRowsCount(api: Api, query: string, videos: seq<Video>, from: nat, maxComment: int, acc: Tally, maxTotal: int)
    ensures var r := VideoRows(api, query, videos, from, maxComment, acc, maxTotal);
      r.total >= acc.total && |r.rows| - |acc.rows| == r.total - acc.total &&
      (acc.total <= maxTotal ==> r.total <= maxTotal)
    decreases |videos| - from
  {
    if from < |videos| && acc.total < maxTotal {
      var cs := CollectedComments(ThreadPages(api, videos[from]), maxComment, acc.total, maxTotal);
      VideoRowsCount(api, query, videos, from + 1, maxComment, Tally(acc.rows + RowsFor(query, videos[from], cs), acc.total + |cs|), maxTotal);
    }
  }

  /** Every row built from the comments of video `v` carries the query and the id, title and date of `v`. */
  lemma RowsForProvenance(query: string, v: Video, cs: seq<Comment>, row: Row)
    requires row in RowsFor(query, v, cs)
    ensures row.query == query && row.videoId == v.id && row.videoTitle == v.title && row.videoDate == v.date
  {
    var j :| 0 <= j < |cs| && RowsFor(query, v, cs)[j] == row;
  }

  /** Every row collected from the videos either was already in the tally or carries the query and the id, title and date of one of the videos. */
  lemma {:induction false} VideoRowsProvenance(api: Api, query: string, videos: seq<Video>, from: nat, maxComment: int, acc: Tally, maxTotal: int, row: Row)
    requires row in VideoRows(api, query, videos, from, maxComment, acc, maxTotal).rows
    ensures row in acc.rows ||
      (row.query == query && exists v :: v in videos && row.videoId == v.id && row.videoTitle == v.title && row.videoDate == v.date)
    decreases |videos| - from
  {
    if from < |videos| && acc.total < maxTotal {
      var v := videos[from];
      var cs := CollectedComments(ThreadPages(api, v), maxComment, acc.total, maxTotal);
      var next := Tally(acc.rows + RowsFor(query, v, cs), acc.total + |cs|);
      VideoRowsProvenance(api, query, videos, from + 1, maxComment, next, maxTotal, row);
      if row in next.rows && row !in acc.rows {
        RowsForProvenance(query, v, cs, row);
      }
    }
  }

  /** Every row of a query carries the query and the id, title and date of one of the videos its search found. */
  lemma QueryRowsProvenance(api: Api, query: string, maxVideo: int, maxComment: int, maxTotal: int, row: Row)
    requires QueryRows(api, query, maxVideo, maxComment, maxTotal).Ok?
    requires row in QueryRows(api, query, maxVideo, maxComment, maxTotal).value
    ensures var videos := SearchOutcome(SearchPages(api, query), maxVideo).value;
      row.query == query && exists v :: v in videos && row.videoId == v.id && row.videoTitle == v.title && row.videoDate == v.date
  {
    var videos := SearchOutcome(SearchPages(api, query), maxVideo).value;
    VideoRowsProvenance(api, query, videos, 0, maxComment, Tally([], 0), maxTotal, row);
  }

  /** The rows of one query never outnumber the budget, and a budget of 0 or less yields none. */
  lemma QueryRowsWithinBudget(api: Api, query: string, maxVideo: int, maxComment: int, maxTotal: int)
    requires QueryRows(api, query, maxVideo, maxComment, maxTotal).Ok?
    ensures var rows := QueryRows(api, query, maxVideo, maxComment, maxTotal).value;
      (maxTotal >= 0 ==> |rows| <= maxTotal) && (maxTotal <= 0 ==> rows == [])
  {
    var videos := SearchOutcome(SearchPages(api, query), maxVideo).value;
    VideoRowsCount(api, query, videos, 0, maxComment, Tally([], 0), maxTotal);
  }

  /** Lines 139-147: appends one row per comment of `video`. */
  method AppendRows(rows: seq<Row>, query: string, video: Video, comments: seq<Comment>) returns (out: seq<Row>)
    ensures out == rows + RowsFor(query, video, comments)
  {
    out := rows;
    var j := 0;
    while j < |comments|
      invariant 0 <= j <= |comments|
      invariant out == rows + RowsFor(query, video, comments[..j])
    {
      assert comments[..j + 1][..j] == comments[..j];
      assert (rows + RowsFor(query, video, comments[..j])) + [RowOf(query, video, comments[j])] ==
        rows + (RowsFor(query, video, comments[..j]) + [RowOf(query, video, comments[j])]);
      out := out + [RowOf(query, video, comments[j])];
      j := j + 1;
    }
    assert comments[..j] == comments;
  }

  /**
   * Lines 126-147, one video visited while the query's total is below
   * `maxTotal`: its comments are collected with the running total and become
   * rows appended after `rowsIn`, which is the step `VideoRows` takes from
   * position `i` to `i + 1`.
   */
  method CollectVideo(api: Api, query: string, videos: seq<Video>, i: nat, maxComment: int, maxTotal: int, rowsIn: seq<Row>, totalIn: int)
    returns (rows: seq<Row>, total: int)
    requires i < |videos| && totalIn < maxTotal
    ensures var cs := CollectedComments(ThreadPages(api, videos[i]), maxComment, totalIn, maxTotal);
      rows == rowsIn + RowsFor(query, videos[i], cs) && total == totalIn + |cs|
    ensures VideoRows(api, query, videos, i + 1, maxComment, Tally(rows, total), maxTotal) ==
            VideoRows(api, query, videos, i, maxComment, Tally(rowsIn, totalIn), maxTotal)
  {
    var video := videos[i];
    var comments, perVideo, requests;
    comments, perVideo, total, requests := GetVideoComments(ThreadPages(api, video), maxComment, totalIn, maxTotal);
    rows := AppendRows(rowsIn, query, video, comments);
  }

  /**
   * Lines 121-147: for each video while the query's total is below
   * `maxTotal`, collects its comments and appends one row per comment.
   */
  method CollectVideoRows(api: Api, query: string, videos: seq<Video>, maxComment: int, maxTotal: int)
    returns (rows: seq<Row>, total: int)
    ensures Tally(rows, total) == VideoRows(api, query, videos, 0, maxComment, Tally([], 0), maxTotal)
  {
    rows, total := [], 0;
    ghost var result := VideoRows(api, query, videos, 0, maxComment, Tally([], 0), maxTotal);
    var i := 0;
    while i < |videos| && total < maxTotal
      invariant 0 <= i <= |videos|
      invariant VideoRows(api, query, videos, i, maxComment, Tally(rows, total), maxTotal) == result
    {
      rows, total := CollectVideo(api, query, videos, i, maxComment, maxTotal, rows, total);
      i := i + 1;
    }
  }

  /**
   * Lines 114-147: the rows of one query, and the running total, which
   * starts afresh at 0 for every query. A search error is not caught.
   */
  method CollectQueryRows(api: Api, query: string, maxVideo: int, maxComment: int, maxTotal: int)
    returns (r: Result<seq<Row>, SearchError>, total: int)
    ensures r == QueryRows(api, query, maxVideo, maxComment, maxTotal)
    ensures r.Ok? ==> total == |r.value|
    ensures r.Ok? && maxTotal >= 0 ==> total <= maxTotal
  {
    var found := SearchVideos(SearchPages(api, query), maxVideo);
    if found.Err? {
      return Err(found.error), 0;
    }
    var rows;
    rows, total := CollectVideoRows(api, query, found.value, maxComment, maxTotal);
    VideoRowsCount(api, query, found.value, 0, maxComment, Tally([], 0), maxTotal);
    r := Ok(rows);
  }

  /** `get_data_from_youtube`: collects the rows of one query and writes them to the sink; a search error reaches the caller and nothing is written. */
  method GetDataFromYouTube(api: Api, query: string, maxVideo: int, maxComment: int, maxTotal: int, sink: CsvSink)
    returns (outcome: Outcome<SearchError>)
    requires sink.Valid()
    modifies sink
    ensures sink.Valid() && sink.writable == old(sink.writable)
    ensures var rows := QueryRows(api, query, maxVideo, maxComment, maxTotal);
      (outcome.Pass? <==> rows.Ok?) &&
      (outcome.Fail? ==> rows.error == outcome.error && sink.lines == old(sink.lines) && sink.fileExists == old(sink.fileExists)) &&
      (outcome.Pass? ==>
        sink.fileExists == (old(sink.fileExists) || sink.writable) &&
        DataRows(sink.lines) == old(DataRows(sink.lines)) + (if sink.writable then rows.value else []) &&
        HeaderCount(sink.lines) == if old(sink.fileExists) || !sink.writable then old(HeaderCount(sink.lines)) else 1)
  {
    var rows, total := CollectQueryRows(api, query, maxVideo, maxComment, maxTotal);
    if rows.Err? {
      return Fail(rows.error);
    }
    sink.Write(rows.value);
    return Pass;
  }

  /** What a run changes: the query file's lines, and the sink's rows, header count and existence. */
  datatype Snapshot = Snapshot(queryLines: seq<string>, rows: seq<Row>, headers: nat, sinkExists: bool)

  /** The snapshot of a query file holding `queryLines` and a sink holding `sinkLines`. */
  function Observe(queryLines: seq<string>, sinkLines: seq<CsvLine>, sinkExists: bool): Snapshot {
    Snapshot(queryLines, DataRows(sinkLines), HeaderCount(sinkLines), sinkExists)
  }

  /**
   * The snapshot after the first `n` of `queries` were processed from
   * `start`, given what each query yields (`results`): the `n` queries are
   * gone from the file, their rows follow the earlier rows when the sink
   * accepts writes, and a header was added only if the file had to be created.
   */
  function After(queries: seq<string>, results: seq<Result<seq<Row>, SearchError>>, n: nat, writable: bool, start: Snapshot): Snapshot
    requires n <= |queries| && n <= |results|
  {
    Snapshot(RemoveQueries(start.queryLines, queries, n),
             start.rows + (if writable then RowsOfResults(results, n) else []),
             if start.sinkExists || !writable || n == 0 then start.headers else 1,
             start.sinkExists || (writable && n > 0))
  }

  /** The first `n` of `queries` were processed from `start`: all their searches succeeded, and the state `now` is as `After` says. */
  ghost predicate Progress(queries: seq<string>, results: seq<Result<seq<Row>, SearchError>>, n: nat, now: Snapshot, writable: bool, start: Snapshot) {
    n <= |queries| == |results| && AllSucceed(results, n) && now == After(queries, results, n, writable, start)
  }

  /**
   * Processing the query at position `n` with success takes a state described
   * by `Progress` for `n` to one described by it for `n + 1`: the query is
   * removed from the file's lines, its rows follow the sink's rows when the
   * sink accepts writes, and a header appears only if the file is created.
   */
  lemma ProgressStep(queries: seq<string>, results: seq<Result<seq<Row>, SearchError>>, n: nat, writable: bool,
                     start: Snapshot, now: Snapshot, next: Snapshot)
    requires Progress(queries, results, n, now, writable, start)
    requires n < |queries| && results[n].Ok?
    requires next == Snapshot(RemoveQuery(now.queryLines, queries[n]),
                              now.rows + (if writable then results[n].value else []),
                              if now.sinkExists || !writable then now.headers else 1,
                              now.sinkExists || writable)
    ensures Progress(queries, results, n + 1, next, writable, start)
  {
    if writable {
      RowsOfResultsSnoc(start.rows, results, n);
    }
  }

  /**
   * One round of `process_queries_from_file` (lines 160-167) for the query at
   * position `n`: collects and writes its rows, then removes it from the file.
   * A search error leaves the file and the sink as they were.
   */
  method ProcessNext(api: Api, queries: seq<string>, n: nat, file: QueryFile, sink: CsvSink,
                     maxVideo: int, maxComment: int, maxTotal: int, ghost results: seq<Result<seq<Row>, SearchError>>, ghost start: Snapshot)
    returns (outcome: Outcome<SearchError>)
    requires n < |queries|
    requires results == QueryResults(api, queries, maxVideo, maxComment, maxTotal)
    requires sink.Valid()
    requires Progress(queries, results, n, Observe(file.lines, sink.lines, sink.fileExists), sink.writable, start)
    modifies file, sink
    ensures sink.Valid() && sink.writable == old(sink.writable)
    ensures outcome.Fail? ==>
      file.lines == old(file.lines) && sink.lines == old(sink.lines) && sink.fileExists == old(sink.fileExists)
    ensures outcome.Fail? ==>
      results[n] == Err(outcome.error) &&
      Progress(queries, results, n, Observe(file.lines, sink.lines, sink.fileExists), sink.writable, start)
    ensures outcome.Pass? ==>
      Progress(queries, results, n + 1, Observe(file.lines, sink.lines, sink.fileExists), sink.writable, start)
  {
    ghost var now := Observe(file.lines, sink.lines, sink.fileExists);
    var query := queries[n];
    outcome := GetDataFromYouTube(api, query, maxVideo, maxComment, maxTotal, sink);
    if outcome.Pass? {
      file.Remove(query);
      ProgressStep(queries, results, n, sink.writable, start, now, Observe(file.lines, sink.lines, sink.fileExists));
    }
  }

  /** Before any query is processed, the state is the starting state. */
  lemma ProgressStart(queries: seq<string>, results: seq<Result<seq<Row>, SearchError>>, start: Snapshot, writable: bool)
    requires |results| == |queries|
    ensures Progress(queries, results, 0, start, writable, start)
  {
    assert start.rows + [] == start.rows;
  }

  /**
   * `process_queries_from_file`: loads the queries once, then for each one in
   * order collects and writes its rows and removes it from the file. A search
   * error ends the run with the remaining queries still in the file. On
   * return, the first `processed` queries are done in the sense of `Progress`
   * (gone from the file, their rows written after the earlier rows, a header
   * only if the file had to be created); all of them when the outcome is a
   * pass, in which case the file holds no query any more. A failure carries
   * the search error of the query at position `processed`.
   */
  method ProcessQueries(api: Api, file: QueryFile, sink: CsvSink, maxVideo: int, maxComment: int, maxTotal: int)
    returns (outcome: Outcome<SearchError>, processed: nat)
    requires sink.Valid()
    modifies file, sink
    ensures sink.Valid() && sink.writable == old(sink.writable)
    ensures var queries := LoadQueries(old(file.lines));
      var results := QueryResults(api, queries, maxVideo, maxComment, maxTotal);
      Progress(queries, results, processed, Observe(file.lines, sink.lines, sink.fileExists), sink.writable,
               old(Observe(file.lines, sink.lines, sink.fileExists))) &&
      (outcome.Pass? <==> processed == |queries|) &&
      (outcome.Fail? ==> processed < |queries| && results[processed] == Err(outcome.error))
    ensures outcome.Pass? ==> LoadQueries(file.lines) == []
  {
    var queries := LoadQueries(file.lines);
    ghost var results := QueryResults(api, queries, maxVideo, maxComment, maxTotal);
    ghost var start := Observe(file.lines, sink.lines, sink.fileExists);
    ProgressStart(queries, results, start, sink.writable);
    processed := 0;
    outcome := Pass;
    while processed < |queries| && outcome.Pass?
      invariant sink.Valid() && sink.writable == old(sink.writable)
      invariant Progress(queries, results, processed, Observe(file.lines, sink.lines, sink.fileExists), sink.writable, start)
      invariant outcome.Fail? ==> processed < |queries| && results[processed] == Err(outcome.error)
      decreases |queries| - processed, if outcome.Pass? then 1 else 0
    {
      outcome := ProcessNext(api, queries, processed, file, sink, maxVideo, maxComment, maxTotal, results, start);
      if outcome.Pass? {
        processed := processed + 1;
      }
    }
    if outcome.Pass? {
      QueueDrained(start.queryLines);
    }
  }
}
