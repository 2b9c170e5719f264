# YouTube comment harvester — a Dafny model

`yt_comment_getter.py` reads a list of search queries from a text file. For each query it:

1. searches the video platform;
2. collects the top-level comments of the videos found, under a per-video cap and a per-query comment budget;
3. writes one row per comment to a CSV file, with a header only when the file is new;
4. removes the query from the list file.

This project models that core in Dafny. Each module follows one part of the program:

| module | file | models |
|---|---|---|
| `Wrappers` | `wrappers.dfy` | `Option`, `Result` and `Outcome`: a raised exception becomes an `Err` or `Fail` value. |
| `Paging` | `paging.dfy` | A paginated endpoint, as a sequence of responses. Response `i` answers the `i`-th request; a `PageError` is a request that raised. A next-page token is present exactly when another response follows. |
| `Text` | `text.dfy` | Python's `str.strip()`, and the two `str.replace` calls that escape line breaks in comment text. |
| `Search` | `search.dfy` | `search_videos`: a `while` loop over result pages, proved equal to a closed-form outcome. |
| `Comments` | `comments.dfy` | `get_video_comments`: nested loops over comment pages and their items, proved equal to a closed form. The closed form is the usable threads' comments, cut to the allowance left by the per-video cap and the running total, and stored with escaped text. |
| `Sink` | `sink.dfy` | `write_to_csv`: the destination file as an object whose lines the write appends to. The header is written only when the file did not exist. |
| `QueryList` | `querylist.dfy` | Loading the query list (strip, drop blank lines), and the file rewrite that removes a processed query. |
| `Harvest` | `harvest.dfy` | `get_data_from_youtube` and `process_queries_from_file`, proved against `QueryRows` and the `Progress`/`After` description of the file and sink state. |

The platform is a value `Api` with two deterministic functions:

- the search responses for a query;
- the comment-thread responses for a video id.

Every loop in the source is a `while` loop here, with the invariants that tie it to its specification function.

## Model

| member | source | states |
|---|---|---|
| Search.SearchVideos | yt_comment_getter.py:22-51 | The result is the closed-form search outcome. The request that ends the search is the first one that raised, returned an unreadable item, returned no next-page token, or brought the count to `max_results`. The videos of all pages up to that one are returned whole; a failed request yields that request's error. |
| Search.AppendPage | yt_comment_getter.py:38-43 | Appending one response's items succeeds exactly when every item can be read, and then adds those videos, in order, after the earlier ones. |
| Search.FirstStop | yt_comment_getter.py:45-47 | The request it names does end the search. |
| Search.FirstStopIs | yt_comment_getter.py:45-47 | A request that ends the search, with none before it that does, is the one FirstStop names. |
| Search.BeforeFirstStop | yt_comment_getter.py:45-47 | No request before the one FirstStop names ends the search. |
| Search.SearchOvershootIsLessThanOnePage | yt_comment_getter.py:30-47 | With `max_results >= 1` and at most `min(max_results, 100)` items per page, a successful search returns fewer than `max_results + min(max_results, 100)` videos. |
| Search.SearchKeepsWholeFirstPage | yt_comment_getter.py:38-47 | `max_results` is no hard bound: one page of two videos, searched with `max_results = 1`, is returned whole. |
| Search.SearchPropagatesFirstFailure | yt_comment_getter.py:36 | When the first request raises, the search fails with that request's error. |
| Comments.GetVideoComments | yt_comment_getter.py:54-98 | The comments returned are the closed form `CollectedComments`. The counter is their number and the new total is the old total plus that number. A non-negative cap bounds the counter, and the total never passes a budget it had not already reached. The number of requests is `RequestsFrom`: none when the total is already at or over the budget. Otherwise one per page, going on after a page only while it raised nothing, left both caps unreached and brought a next token. When at least one response exists, it is never more than the number of pages. |
| Comments.RequestsWithinPages | yt_comment_getter.py:89-91 | Collection never requests a page past the last one: from any page on, it makes at most as many requests as pages remain. |
| Comments.CollectRound | yt_comment_getter.py:59-96 | One request. After a page that was read, the comments it adds are that page's usable ones up to the room left, stored. The round ends collection exactly when the request raised, the page raised, a cap is reached or no next token came back (line 90). When it ends, everything gathered is the allowance-long prefix of the whole usable stream. When it goes on, a next page exists and the rest of the stream starts there. |
| Comments.CollectFromPage | yt_comment_getter.py:74-87 | The comments appended from one page are the stored form of its usable prefix, cut to the room left, and the counters grow by their number. The page raises exactly when its first unreadable thread is reached: one without a snippet raises even at the cap (line 75 comes before the check at 77), one without fields only with room left (lines 81-83). |
| Comments.PageStep | yt_comment_getter.py:74-91 | Stopping after a page leaves exactly the allowance-long prefix of the usable stream. Going on leaves the rest of the stream to come after what was gathered. |
| Comments.Allowance | yt_comment_getter.py:77-78 | The room is bounded by the per-video cap and by what is left of the budget. It is 0 exactly when the cap is 0 or less or the budget is already used up. |
| Comments.AllowanceAfter | yt_comment_getter.py:86-87 | After `c` comments, the room left is the old room minus `c`. |
| Comments.FirstUnreadable | yt_comment_getter.py:75-84 | The position returned is in range and is either the end of the stream or a thread whose fields cannot be read. |
| Comments.ReadableBefore | yt_comment_getter.py:75-84 | Every thread before FirstUnreadable can be read. |
| Comments.UsableConcat | yt_comment_getter.py:74-84 | The usable comments of a page followed by more: the later threads count only if the whole page could be read. |
| Comments.FirstUnreadableConcat | yt_comment_getter.py:74-84 | The first unreadable thread of `a + b` is that of `a` if there is one, otherwise that of `b`, shifted by `|a|`. |
| Comments.StoredTextHasNoLineBreaks | yt_comment_getter.py:82 | No stored comment text contains a line feed or a carriage return. |
| Comments.FailedRequestKeepsEarlierComments | yt_comment_getter.py:94-96 | A request that raises ends collection. The result is what the pages before it give, and nothing after it is read. |
| Comments.UnreadableThreadKeepsEarlierComments | yt_comment_getter.py:75-84 | A thread whose fields cannot be read ends collection for the video. The comments before it are kept, and those after it are dropped. |
| Comments.StoredAllConcat | yt_comment_getter.py:80-84 | Storing comments works one comment at a time, in order. |
| Paging.StreamStopsAtError | yt_comment_getter.py:94-96 | Nothing after a failed request is ever seen. |
| Paging.TakeOfPrefix | yt_comment_getter.py:77-78 | Cutting to the length of a prefix yields that prefix. So does cutting to at least its length when nothing follows. |
| Sink.CsvSink.Write | yt_comment_getter.py:101-110 | A writable destination gains the batch's rows after its own rows. The header comes first only if the file did not exist, so the header count ends at 1 for a new file and is unchanged otherwise. A write that fails leaves the lines as they were. |
| Sink.AppendLines | yt_comment_getter.py:104-107 | Appending lines adds their rows after the file's rows and their headers to its header count. |
| Sink.DataLinesHoldRows | yt_comment_getter.py:105 | The lines a batch is written as hold exactly its rows, in order, and no header. |
| QueryList.LoadQueries | yt_comment_getter.py:156 | There are never more queries than lines. Which queries appear is stated by LoadQueriesMembership, LoadedQueriesAreStripped and LoadQueriesAppend. |
| QueryList.LoadQueriesMembership | yt_comment_getter.py:156 | A query is loaded exactly when it is non-blank and some line strips to it. |
| QueryList.LoadedQueriesAreStripped | yt_comment_getter.py:156 | Every loaded query is non-blank and stripping it again changes nothing. |
| QueryList.LoadQueriesAppend | yt_comment_getter.py:156 | Loading works line by line: the queries of two parts of a file are those of the first part, then those of the second. |
| QueryList.QueryFile.Remove | yt_comment_getter.py:162-167 | The file keeps exactly the lines whose stripped text differs from the query, unchanged and in their order. |
| QueryList.RemoveQuery | yt_comment_getter.py:164-167 | The rewritten file never has more lines than before. Which lines remain, and in what order, is stated by RemoveQueryMembership and RemoveQueryAppend. |
| QueryList.RemoveQueryMembership | yt_comment_getter.py:165-167 | A line survives removal exactly when it was in the file and does not strip to the query. |
| QueryList.RemoveQueryAppend | yt_comment_getter.py:165-167 | Removal filters each part of the file on its own, so the kept lines keep their order. |
| QueryList.RemoveAbsentQuery | yt_comment_getter.py:165-167 | A file with no line that strips to the query is written back unchanged. |
| QueryList.RemoveQueryIdempotent | yt_comment_getter.py:162-167 | Removing the same query twice is the same as removing it once. |
| QueryList.LoadAfterRemove | yt_comment_getter.py:156-167 | After a removal, loading gives the earlier queries with every occurrence of the removed one gone, duplicates included. |
| QueryList.LoadAfterRemoveAll | yt_comment_getter.py:156-167 | After the first `n` queries are removed in turn, loading gives the earlier queries without any of them. |
| QueryList.WithoutAllMembership | yt_comment_getter.py:158-167 | A query is left after the first `n` removals exactly when it was loaded and is none of the removed ones. |
| QueryList.QueueDrained | yt_comment_getter.py:158-167 | Once every loaded query has been removed, the file has no query left to load. |
| Text.Strip | yt_comment_getter.py:156 | The stripped string is never longer than the original. |
| Text.StripEnds | yt_comment_getter.py:156 | The stripped string is empty or starts and ends with a non-whitespace character. |
| Text.StripIdempotent | yt_comment_getter.py:156 | Stripping twice is stripping once. |
| Text.StripDropsOnlySpaces | yt_comment_getter.py:156 | The stripped string is a slice of the original with only whitespace before and after it. |
| Text.Escape | yt_comment_getter.py:82 | An escaped text holds no line feed and no carriage return. |
| Text.EscapeIsPerCharacter | yt_comment_getter.py:82 | The two replacements in sequence equal a one-pass escape of each character. The `\n` written by the first is never touched by the second. |
| Text.UnescapeEscape | yt_comment_getter.py:82 | For text without backslashes, the escaped form determines the original: unescaping gives it back. |
| Text.EscapeKeepsPlainText | yt_comment_getter.py:82 | Text with no line breaks is stored as it is. |
| Text.ReplaceCharChars | yt_comment_getter.py:82 | Every character after a replacement is either an original character other than the pattern, or a character of the replacement. |
| Text.ReplaceCharConcat | yt_comment_getter.py:82 | Replacing a single character distributes over concatenation. |
| Harvest.AppendRows | yt_comment_getter.py:139-147 | One row per comment is appended after the earlier rows, in comment order. |
| Harvest.CollectVideo | yt_comment_getter.py:126-147 | Visiting one video under the budget appends one row per comment `get_video_comments` returns for it, with the running total as it stood. The total grows by their number. This is exactly the step `VideoRows` takes from that video to the next. |
| Harvest.CollectVideoRows | yt_comment_getter.py:121-147 | The rows and the running total are the tally `VideoRows` gives. No video is visited once the total has reached the budget. |
| Harvest.CollectQueryRows | yt_comment_getter.py:114-147 | The outcome is `QueryRows`: the search error, or the rows of all videos visited. The total counts the rows and never passes a non-negative budget. |
| Harvest.VideoRowsCount | yt_comment_getter.py:121-147 | The tally's total grows by exactly the number of rows added, and never passes a budget it started below. |
| Harvest.RowsForProvenance | yt_comment_getter.py:139-147 | Each row built from a video's comments carries the query and that video's id, title and date. |
| Harvest.VideoRowsProvenance | yt_comment_getter.py:121-147 | Every row collected is an earlier row, or carries the query and the id, title and date of one of the videos. |
| Harvest.QueryRowsProvenance | yt_comment_getter.py:113-147 | Every row of a query carries that query and the id, title and date of a video its search found. |
| Harvest.QueryRowsWithinBudget | yt_comment_getter.py:116-124 | A query never yields more rows than a non-negative budget allows, and a budget of 0 or less yields none. |
| Harvest.GetDataFromYouTube | yt_comment_getter.py:113-149 | The call passes exactly when the search succeeds. On a failure, the sink is untouched. On a pass, the query's rows follow the file's earlier rows when the destination is writable, and the header count becomes 1 only for a newly created file. |
| Harvest.ProcessNext | yt_comment_getter.py:158-167 | One query is processed. A pass extends `Progress` by that query: it is gone from the file and its rows and header are as `After` says. A failure carries that query's search error and leaves the query file's lines, the CSV file's lines and whether it exists as they were. |
| Harvest.RowsOfResultsSnoc | yt_comment_getter.py:158-159 | The rows of the first n+1 passing queries are those of the first n, followed by the rows of query n. |
| Harvest.ProgressStep | yt_comment_getter.py:158-167 | A passing query moves `Progress` one step: the query is removed from the file, its rows follow the earlier ones when the destination is writable, and the header count becomes 1 only if the file had to be created. |
| Harvest.ProgressStart | yt_comment_getter.py:152-156 | Before any query is processed, the state is the starting state. |
| Harvest.ProcessQueries | yt_comment_getter.py:152-169 | The first `processed` loaded queries are done, as `Progress` says. They are gone from the file, their rows come after the earlier rows, and a header appears only when the file had to be created. The run passes exactly when every query was processed, and the file then holds no query. A failure names the search error of the next query, which stays in the file. |

## Left out

- Configuration (lines 9-19): the environment variables, the API client and the console are outside the model. `MAX_VIDEO`, `MAX_COMMENT` and `MAX_TOTAL_COMMENTS` are parameters.
- The HTTP requests are modelled only by what comes back, as a fixed sequence of responses per query or video id. Request parameters are not modelled: the date window, the `viewCount` order, `part`, `textFormat` and the page size `min(x, 100)`. The platform is assumed to answer the same request the same way every time.
- Requests whose response lacks an `items` list, or that raise in transport, are one case (`PageError`). The kind of exception is not kept.
- `time.sleep` (lines 49, 93) and all `console` logging: no effect on the data.
- The comment's `author` field (line 81) is kept in the model's `Comment` but never reaches a row, as in the source.
- `Sink.CsvSink.Write`: pandas' CSV encoding (quoting, UTF-8) is not modelled. A line is a header or a row value. A failing write is a fixed `writable` flag of the destination, not an exception raised by chance. When the first batch written to a new file is empty, pandas still writes a line of empty column headers. The model records that line as the header too.
- The query file's reads and writes are modelled as its sequence of lines. `readlines` keeps each line's terminator. Stripping removes it, so a line is a string that may end in `\n`.
- Python's `str.strip()` is modelled with the fixed set of characters for which `str.isspace()` holds. Unicode data tables are not modelled.
- `Harvest.ProcessQueries`: in the source, a search error is not caught and ends the program. The model ends the run with a `Fail` outcome and the remaining queries, the failing one included, left in the file. Rows written for earlier queries stay.
- `Harvest.ProcessQueries`: a query that appears twice in the file is loaded twice. Its first round removes every occurrence and the second still runs, as in the source. The model does not describe a restart after a crash.
- `Search.SearchVideos`: the search returns whole pages, so it can return more than `max_results` videos. This follows the code, not the bound the name `max_results` suggests; `Search.SearchOvershootIsLessThanOnePage` states how far past the bound it can go.
- `Harvest.CollectQueryRows`: the running total restarts at 0 for every query (line 116), as the code does. It is not one budget shared by the whole run.
