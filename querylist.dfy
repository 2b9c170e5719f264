/**
 * The query list file read and rewritten by `process_queries_from_file`, one query per line.
 * Loading strips every line and drops the blank ones; removing a query
 * rewrites the file with every line whose stripped text differs from it.
 */
module QueryList {
  import opened Text

  /** The stripped query of one line, or nothing for a blank line. */
  function QueryOfLine(line: string): seq<string> {
    if |Strip(line)| > 0 then [Strip(line)] else []
  }

  /** The queries of the file's lines (line 156): stripped, blank ones dropped, in file order. */
  function LoadQueries(lines: seq<string>): (qs: seq<string>)
    ensures |qs| <= |lines|
  {
    if |lines| == 0 then []
    else LoadQueries(lines[..|lines| - 1]) + QueryOfLine(lines[|lines| - 1])
  }

  /** The lines written back when `query` is removed (lines 164-167): those whose stripped text differs from it, unchanged and in order. */
  function RemoveQuery(lines: seq<string>, query: string): (kept: seq<string>)
    ensures |kept| <= |lines|
  {
    if |lines| == 0 then []
    else
      var last := lines[|lines| - 1];
      RemoveQuery(lines[..|lines| - 1], query) + (if Strip(last) != query then [last] else [])
  }

  /** The lines left after removing the first `n` of `queries` in turn. */
  function RemoveQueries(lines: seq<string>, queries: seq<string>, n: nat): seq<string>
    requires n <= |queries|
  {
    if n == 0 then lines
    else RemoveQuery(RemoveQueries(lines, queries, n - 1), queries[n - 1])
  }

  /** `qs` without any occurrence of `q`, in order. */
  function Without(qs: seq<string>, q: string): seq<string> {
    if |qs| == 0 then []
    else Without(qs[..|qs| - 1], q) + (if qs[|qs| - 1] != q then [qs[|qs| - 1]] else [])
  }

  /** Loading works line by line, so it distributes over concatenation. */
  lemma {:induction false} LoadQueriesAppend(a: seq<string>, b: seq<string>)
    ensures LoadQueries(a + b) == LoadQueries(a) + LoadQueries(b)
    decreases |b|
  {
    if |b| == 0 {
      assert a + b == a;
    } else {
      var b' := b[..|b| - 1];
      assert (a + b)[..|a + b| - 1] == a + b';
      LoadQueriesAppend(a, b');
    }
  }

  /** Every loaded query is non-blank and already stripped. */
  lemma {:induction false} LoadedQueriesAreStripped(lines: seq<string>)
    ensures forall q :: q in LoadQueries(lines) ==> q != "" && Strip(q) == q
  {
    if |lines| > 0 {
      LoadedQueriesAreStripped(lines[..|lines| - 1]);
      StripIdempotent(lines[|lines| - 1]);
    }
  }

  /** Some line of `lines` strips to `q`. */
  predicate SomeLineStripsTo(lines: seq<string>, q: string) {
    exists i :: 0 <= i < |lines| && Strip(lines[i]) == q
  }

  /** A line of `init + [last]` strips to `q` exactly when one of `init` does or `last` does. */
  lemma SomeLineStripsToSnoc(init: seq<string>, last: string, q: string)
    ensures SomeLineStripsTo(init + [last], q) <==> SomeLineStripsTo(init, q) || Strip(last) == q
  {
    var lines := init + [last];
    if SomeLineStripsTo(init, q) {
      var i :| 0 <= i < |init| && Strip(init[i]) == q;
      assert lines[i] == init[i];
    }
    if Strip(last) == q {
      assert lines[|init|] == last;
    }
    if SomeLineStripsTo(lines, q) {
      var i :| 0 <= i < |lines| && Strip(lines[i]) == q;
      if i < |init| {
        assert init[i] == lines[i];
      }
    }
  }

  /** A query is loaded exactly when some line strips to it and it is not blank. */
  lemma {:induction false} LoadQueriesMembership(lines: seq<string>, q: string)
    ensures q in LoadQueries(lines) <==> q != "" && SomeLineStripsTo(lines, q)
  {
    if |lines| > 0 {
      var init := lines[..|lines| - 1];
      var last := lines[|lines| - 1];
      LoadQueriesMembership(init, q);
      assert lines == init + [last];
      SomeLineStripsToSnoc(init, last, q);
      assert LoadQueries(lines) == LoadQueries(init) + QueryOfLine(last);
    }
  }

  /** A line survives a removal exactly when it was there and does not strip to the removed query. */
  lemma {:induction false} RemoveQueryMembership(lines: seq<string>, query: string, l: string)
    ensures l in RemoveQuery(lines, query) <==> l in lines && Strip(l) != query
  {
    if |lines| > 0 {
      var init := lines[..|lines| - 1];
      RemoveQueryMembership(init, query, l);
      assert lines == init + [lines[|lines| - 1]];
    }
  }

  /** Removal filters each part of the file on its own, so the kept lines stay in their original order. */
  lemma {:induction false} RemoveQueryAppend(a: seq<string>, b: seq<string>, query: string)
    ensures RemoveQuery(a + b, query) == RemoveQuery(a, query) + RemoveQuery(b, query)
    decreases |b|
  {
    if |b| == 0 {
      assert a + b == a;
    } else {
      var b' := b[..|b| - 1];
      assert (a + b)[..|a + b| - 1] == a + b';
      RemoveQueryAppend(a, b', query);
    }
  }

  /** A file with no line that strips to the query is rewritten unchanged. */
  lemma {:induction false} RemoveAbsentQuery(lines: seq<string>, query: string)
    requires forall i :: 0 <= i < |lines| ==> Strip(lines[i]) != query
    ensures RemoveQuery(lines, query) == lines
  {
    if |lines| > 0 {
      RemoveAbsentQuery(lines[..|lines| - 1], query);
    }
  }

  /** Removing the same query twice is the same as removing it once. */
  lemma {:induction false} RemoveQueryIdempotent(lines: seq<string>, query: string)
    ensures RemoveQuery(RemoveQuery(lines, query), query) == RemoveQuery(lines, query)
  {
    var kept := RemoveQuery(lines, query);
    forall i | 0 <= i < |kept|
      ensures Strip(kept[i]) != query
    {
      RemoveQueryMembership(lines, query, kept[i]);
    }
    RemoveAbsentQuery(kept, query);
  }

  /** After a removal, loading yields the earlier queries with every occurrence of the removed one gone. */
  lemma {:induction false} LoadAfterRemove(lines: seq<string>, query: string)
    ensures LoadQueries(RemoveQuery(lines, query)) == Without(LoadQueries(lines), query)
  {
    if |lines| > 0 {
      var init := lines[..|lines| - 1];
      var last := lines[|lines| - 1];
      LoadAfterRemove(init, query);
      var kept := if Strip(last) != query then [last] else [];
      LoadQueriesAppend(RemoveQuery(init, query), kept);
      assert LoadQueries(kept) == (if Strip(last) != query then QueryOfLine(last) else []) by {
        if Strip(last) != query {
          assert kept[..0] == [];
        }
      }
      WithoutAppend(LoadQueries(init), QueryOfLine(last), query);
    }
  }

  /** Dropping a query works element by element, so it distributes over concatenation. */
  lemma {:induction false} WithoutAppend(a: seq<string>, b: seq<string>, q: string)
    requires |b| <= 1
    ensures Without(a + b, q) == Without(a, q) + Without(b, q)
  {
    if |b| > 0 {
      assert (a + b)[..|a + b| - 1] == a;
      assert b[..0] == [];
    } else {
      assert a + b == a;
    }
  }

  /** `x` is left after dropping `q` exactly when it was there and is not `q`. */
  lemma {:induction false} WithoutMembership(qs: seq<string>, q: string, x: string)
    ensures x in Without(qs, q) <==> x in qs && x != q
  {
    if |qs| > 0 {
      WithoutMembership(qs[..|qs| - 1], q, x);
      assert qs == qs[..|qs| - 1] + [qs[|qs| - 1]];
    }
  }

  /** `qs` without any occurrence of the first `n` of `queries`, removed one after another. */
  function WithoutAll(qs: seq<string>, queries: seq<string>, n: nat): seq<string>
    requires n <= |queries|
  {
    if n == 0 then qs else Without(WithoutAll(qs, queries, n - 1), queries[n - 1])
  }

  /** After removing the first `n` of `queries` from the file, loading yields the earlier queries without those `n`. */
  lemma {:induction false} LoadAfterRemoveAll(lines: seq<string>, queries: seq<string>, n: nat)
    requires n <= |queries|
    ensures LoadQueries(RemoveQueries(lines, queries, n)) == WithoutAll(LoadQueries(lines), queries, n)
  {
    if n > 0 {
      var before := RemoveQueries(lines, queries, n - 1);
      LoadAfterRemoveAll(lines, queries, n - 1);
      LoadAfterRemove(before, queries[n - 1]);
      assert RemoveQueries(lines, queries, n) == RemoveQuery(before, queries[n - 1]);
      assert WithoutAll(LoadQueries(lines), queries, n) == Without(LoadQueries(before), queries[n - 1]);
    }
  }

  /** A query survives the removals exactly when it was there and is none of the removed ones. */
  lemma {:induction false} WithoutAllMembership(qs: seq<string>, queries: seq<string>, n: nat, x: string)
    requires n <= |queries|
    ensures x in WithoutAll(qs, queries, n) <==> x in qs && x !in queries[..n]
  {
    if n > 0 {
      var before := WithoutAll(qs, queries, n - 1);
      WithoutAllMembership(qs, queries, n - 1, x);
      WithoutMembership(before, queries[n - 1], x);
      assert WithoutAll(qs, queries, n) == Without(before, queries[n - 1]);
      assert queries[..n] == queries[..n - 1] + [queries[n - 1]];
      assert x in queries[..n] <==> x in queries[..n - 1] || x == queries[n - 1];
    }
  }

  /** Once every loaded query has been removed, nothing is left to load. */
  lemma QueueDrained(lines: seq<string>)
    ensures var queries := LoadQueries(lines);
      LoadQueries(RemoveQueries(lines, queries, |queries|)) == []
  {
    var queries := LoadQueries(lines);
    LoadAfterRemoveAll(lines, queries, |queries|);
    var rest := WithoutAll(queries, queries, |queries|);
    if |rest| > 0 {
      WithoutAllMembership(queries, queries, |queries|, rest[0]);
    }
  }

  /** The query list file: its lines as `readlines` returns them. */
  class QueryFile {
    var lines: seq<string>

    /** A file holding `lines`. */
    constructor (lines: seq<string>)
      ensures this.lines == lines
    {
      this.lines := lines;
    }

    /** Lines 162-167: re-reads the file and writes back every line whose stripped text differs from `query`. */
    method Remove(query: string)
      modifies this
      ensures lines == RemoveQuery(old(lines), query)
    {
      var current := lines;
      var written: seq<string> := [];
      var i := 0;
      while i < |current|
        invariant 0 <= i <= |current|
        invariant written == RemoveQuery(current[..i], query)
      {
        assert current[..i + 1][..i] == current[..i];
        if Strip(current[i]) != query {
          written := written + [current[i]];
        }
        i := i + 1;
      }
      assert current[..i] == current;
      lines := written;
    }
  }
}
