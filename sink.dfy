/**
 * `write_to_csv`: the append-only CSV file the harvested rows go to. The header is
 * written only when the file does not exist yet; later writes append rows
 * without one. A failed write is logged and loses that batch.
 */
module Sink {

  /** One output row: the query, the video it came from, and one comment. */
  datatype Row = Row(query: string, videoId: string, videoTitle: string, videoDate: string,
                     commentText: string, commentDate: string)

  /** A line of the CSV file: the header or one data row. */
  datatype CsvLine = Header | Data(row: Row)

  /** The lines a batch of rows is written as, without the header. */
  function DataLines(rows: seq<Row>): (ls: seq<CsvLine>)
    ensures |ls| == |rows|
  {
    if |rows| == 0 then [] else DataLines(rows[..|rows| - 1]) + [Data(rows[|rows| - 1])]
  }

  /** The rows a file holds, in order. */
  function DataRows(lines: seq<CsvLine>): seq<Row> {
    if |lines| == 0 then []
    else DataRows(lines[..|lines| - 1]) + (if lines[|lines| - 1].Data? then [lines[|lines| - 1].row] else [])
  }

  /** How many header lines a file holds. */
  function HeaderCount(lines: seq<CsvLine>): nat {
    if |lines| == 0 then 0
    else HeaderCount(lines[..|lines| - 1]) + (if lines[|lines| - 1].Header? then 1 else 0)
  }

  /** Appending lines to a file adds their rows after the file's rows and their headers to its headers. */
  lemma {:induction false} AppendLines(a: seq<CsvLine>, b: seq<CsvLine>)
    ensures DataRows(a + b) == DataRows(a) + DataRows(b)
    ensures HeaderCount(a + b) == HeaderCount(a) + HeaderCount(b)
    decreases |b|
  {
    if b == [] {
      assert a + b == a;
    } else {
      assert (a + b)[..|a + b| - 1] == a + b[..|b| - 1];
      AppendLines(a, b[..|b| - 1]);
    }
  }

  /** The data lines of a batch hold exactly its rows and no header. */
  lemma {:induction false} DataLinesHoldRows(rows: seq<Row>)
    ensures DataRows(DataLines(rows)) == rows && HeaderCount(DataLines(rows)) == 0
  {
    if rows != [] {
      DataLinesHoldRows(rows[..|rows| - 1]);
      var ls := DataLines(rows);
      assert ls[..|ls| - 1] == DataLines(rows[..|rows| - 1]);
      assert rows == rows[..|rows| - 1] + [rows[|rows| - 1]];
    }
  }

  /** The destination file. `writable` says whether writes to it succeed. */
  class CsvSink {
    var fileExists: bool
    var writable: bool
    var lines: seq<CsvLine>

    /** A file that does not exist holds no line. */
    ghost predicate Valid()
      reads this
    {
      !fileExists ==> lines == []
    }

    /** A sink in the given state. */
    constructor (fileExists: bool, writable: bool, lines: seq<CsvLine>)
      requires fileExists || lines == []
      ensures Valid()
      ensures this.fileExists == fileExists && this.writable == writable && this.lines == lines
    {
      this.fileExists := fileExists;
      this.writable := writable;
      this.lines := lines;
    }

    /**
     * `write_to_csv`: appends the rows without a header to an existing file,
     * or creates the file with a header; a failing write changes nothing.
     */
    method Write(rows: seq<Row>)
      requires Valid()
      modifies this
      ensures Valid() && writable == old(writable)
      ensures fileExists == (old(fileExists) || writable)
      ensures !writable ==> lines == old(lines)
      ensures writable ==> lines == (if old(fileExists) then old(lines) else [Header]) + DataLines(rows)
      ensures DataRows(lines) == old(DataRows(lines)) + (if writable then rows else [])
      ensures HeaderCount(lines) == if old(fileExists) || !writable then old(HeaderCount(lines)) else 1
    {
      if !writable {
        return;  // the exception is logged and the batch is lost
      }
      var batch := DataLines(rows);
      DataLinesHoldRows(rows);
      if fileExists {
        AppendLines(lines, batch);
        lines := lines + batch;
      } else {
        AppendLines([Header], batch);
        assert [Header][..0] == [];
        lines := [Header] + batch;
        fileExists := true;
      }
    }
  }
}
