/** The record side of the CSV helpers: turning tokenized rows into records
    (the part of `CSVFileReader` after parsing), projecting a record onto a
    header list (`writeCSV`, `appendToCSV`), and the create-or-append rule. A
    file is its sequence of rows; the CSV tokenizer is not modelled. */
module CsvUtils {
  import opened Records
  import opened Numerals

  type Row = seq<string>

  const OpenError: string := "无法打开CSV文件"

  /** What the reader stores for a cell: empty cells become the placeholder. */
  function ReadCell(value: string): (r: string)
    ensures r != ""
    ensures value != "" ==> r == value
  {
    if value == "" then Unknown else value
  }

  /** The record the reader has built after the first `n` cells of `row`:
      cell `j` is stored under `headers[j]`, cells past the header are dropped,
      and a later column overwrites an earlier one with the same name. */
  function RowPrefixRecord(headers: Row, row: Row, n: nat): Record
    requires n <= |row|
  {
    if n == 0 then map[]
    else
      var item := RowPrefixRecord(headers, row, n - 1);
      if n - 1 < |headers| then item[headers[n - 1] := Str(ReadCell(row[n - 1]))] else item
  }

  function RowToRecord(headers: Row, row: Row): Record {
    RowPrefixRecord(headers, row, |row|)
  }

  /** The records that `CSVFileReader` returns for the rows the tokenizer
      produced: the first row is the header, every later row one record. */
  function RowsToRecords(rows: seq<Row>): seq<Record> {
    if rows == [] then []
    else seq(|rows| - 1, i requires 0 <= i < |rows| - 1 => RowToRecord(rows[0], rows[i + 1]))
  }

  method ConvertRows(records: seq<Row>) returns (result: seq<Record>)
    ensures result == RowsToRecords(records)
  {
    if |records| == 0 {
      return [];
    }
    var headers := records[0];
    result := [];
    var i := 1;
    while i < |records|
      invariant 1 <= i <= |records|
      invariant |result| == i - 1
      invariant forall k | 0 <= k < i - 1 :: result[k] == RowToRecord(headers, records[k + 1])
    {
      var row := records[i];
      var item: Record := map[];
      var j := 0;
      while j < |row|
        invariant j <= |row|
        invariant item == RowPrefixRecord(headers, row, j)
      {
        var value := row[j];
        if j < |headers| {
          if value == "" {
            value := Unknown;
          }
          item := item[headers[j] := Str(value)];
        }
        j := j + 1;
      }
      result := result + [item];
      i := i + 1;
    }
  }

  /** No column after `j` (and before `n`, inside the header) repeats `headers[j]`. */
  predicate LastColumn(headers: Row, j: nat, n: nat) {
    forall j' | j < j' < n && j' < |headers| :: headers[j'] != headers[j]
  }

  /** The header names of the first `n` cells (those inside the header). */
  function CellNames(headers: Row, n: nat): set<string> {
    set j | 0 <= j < n && j < |headers| :: headers[j]
  }

  lemma CellNamesStep(headers: Row, n: nat)
    requires n > 0
    ensures CellNames(headers, n) ==
      if n - 1 < |headers| then CellNames(headers, n - 1) + {headers[n - 1]} else CellNames(headers, n - 1)
  {
    var big, small := CellNames(headers, n), CellNames(headers, n - 1);
    forall h | h in big
      ensures h in small || (n - 1 < |headers| && h == headers[n - 1])
    {
      var j :| 0 <= j < n && j < |headers| && headers[j] == h;
      if j < n - 1 {
        assert h in small;
      }
    }
    if n - 1 < |headers| {
      assert headers[n - 1] in big;
    }
  }

  /** A converted prefix has exactly the header names of its cells as keys. */
  lemma {:induction false} RowPrefixKeys(headers: Row, row: Row, n: nat)
    requires n <= |row|
    ensures RowPrefixRecord(headers, row, n).Keys == CellNames(headers, n)
  {
    if n > 0 {
      RowPrefixKeys(headers, row, n - 1);
      CellNamesStep(headers, n);
    }
  }

  /** Every value of `item` is a non-empty string. */
  predicate NonEmptyStrings(item: Record) {
    forall k | k in item :: item[k].Str? && item[k].s != ""
  }

  /** Every value of a converted prefix is a non-empty string. */
  lemma {:induction false} RowPrefixValues(headers: Row, row: Row, n: nat)
    requires n <= |row|
    ensures NonEmptyStrings(RowPrefixRecord(headers, row, n))
  {
    if n > 0 {
      RowPrefixValues(headers, row, n - 1);
    }
  }

  /** Under a name that no later cell repeats, a converted prefix holds that
      cell, with an empty cell read as the placeholder. */
  lemma {:induction false} RowPrefixLastColumn(headers: Row, row: Row, n: nat, j: nat)
    requires j < n <= |row| && j < |headers| && LastColumn(headers, j, n)
    ensures var item := RowPrefixRecord(headers, row, n);
      headers[j] in item && item[headers[j]] == Str(ReadCell(row[j]))
  {
    if j < n - 1 {
      assert LastColumn(headers, j, n - 1);
      RowPrefixLastColumn(headers, row, n - 1, j);
      if n - 1 < |headers| {
        assert headers[n - 1] != headers[j];
      }
    }
  }

  /** A converted row has one key per header cell present, and no value "". */
  lemma RowToRecordKeys(headers: Row, row: Row)
    ensures var item := RowToRecord(headers, row);
      && item.Keys == (set j | 0 <= j < |row| && j < |headers| :: headers[j])
      && NonEmptyStrings(item)
  {
    RowPrefixKeys(headers, row, |row|);
    RowPrefixValues(headers, row, |row|);
  }

  /** With duplicate header names the later column's value is the one kept. */
  lemma LaterColumnWins(headers: Row, row: Row, j: nat)
    requires j < |row| && j < |headers| && LastColumn(headers, j, |row|)
    ensures var item := RowToRecord(headers, row);
      headers[j] in item && item[headers[j]] == Str(ReadCell(row[j]))
  {
    RowPrefixLastColumn(headers, row, |row|, j);
  }

  /** `fmt.Sprintf("%v", v)` for the scalar values the model holds. A number
      is a JSON `float64`, so from a million upwards it is written in exponent
      form, which no longer reads back as an integer. */
  function FormatValue(v: Value): (r: string)
    ensures v.Str? ==> r == v.s
    ensures v.Bool? ==> r == if v.b then "true" else "false"
    ensures v.Num? ==> (Atoi(r) == Some(v.n) <==> -1000000 < v.n < 1000000)
    ensures v.Null? ==> r == "<nil>"
  {
    match v
    case Str(s) => s
    case Bool(b) => if b then "true" else "false"
    case Num(n) => FloatText(n)
    case Null => "<nil>"
  }

  /** The cell written for `header`: the record's value, or the placeholder. */
  function ProjectedCell(item: Record, header: string): string {
    if header in item then FormatValue(item[header]) else Unknown
  }

  /** The row written for a record: one cell per header, in header order. */
  function Projection(item: Record, headers: Row): Row {
    seq(|headers|, i requires 0 <= i < |headers| => ProjectedCell(item, headers[i]))
  }

  /** The rows of a file written by `writeCSV`: the header, then one projected
      row per record, in order. */
  function CsvDocument(data: seq<Record>, headers: Row): seq<Row> {
    [headers] + seq(|data|, i requires 0 <= i < |data| => Projection(data[i], headers))
  }

  /** The loop that builds a row in `writeCSV` and `appendToCSV`. */
  method ProjectRow(item: Record, headers: Row) returns (row: Row)
    ensures |row| == |headers|
    ensures forall i | 0 <= i < |headers| ::
      row[i] == if headers[i] in item then FormatValue(item[headers[i]]) else Unknown
  {
    row := [];
    var i := 0;
    while i < |headers|
      invariant i <= |headers|
      invariant row == Projection(item, headers)[..i]
    {
      var header := headers[i];
      if header in item {
        row := row + [FormatValue(item[header])];
      } else {
        row := row + [Unknown];
      }
      i := i + 1;
    }
  }

  /** What reading back a projected record gives: `item` restricted to the
      headers, with absent or empty values replaced by the placeholder. */
  function Reloaded(item: Record, headers: Row): Record {
    map h | h in headers :: if h in item && item[h] != Str("") then item[h] else Str(Unknown)
  }

  /** Round trip: projecting a record of string values onto distinct headers
      and converting the row back yields the record restricted to the headers. */
  lemma ProjectThenRead(item: Record, headers: Row)
    requires Distinct(headers)
    requires forall k | k in item :: item[k].Str?
    ensures RowToRecord(headers, Projection(item, headers)) == Reloaded(item, headers)
  {
    var row := Projection(item, headers);
    var back := RowToRecord(headers, row);
    var want := Reloaded(item, headers);
    RowPrefixKeys(headers, row, |row|);
    assert back.Keys == want.Keys by {
      forall h | h in headers ensures h in CellNames(headers, |row|) {
        var j :| 0 <= j < |headers| && headers[j] == h;
      }
    }
    forall h | h in want
      ensures back[h] == want[h]
    {
      var j :| 0 <= j < |headers| && headers[j] == h;
      assert LastColumn(headers, j, |row|);
      RowPrefixLastColumn(headers, row, |row|, j);
    }
  }

  /** Writing records and reading the file back gives each record restricted
      to the headers, in order. */
  lemma WriteThenRead(data: seq<Record>, headers: Row)
    requires Distinct(headers)
    requires forall i, k | 0 <= i < |data| && k in data[i] :: data[i][k].Str?
    ensures RowsToRecords(CsvDocument(data, headers)) ==
      seq(|data|, i requires 0 <= i < |data| => Reloaded(data[i], headers))
  {
    var doc := CsvDocument(data, headers);
    forall i | 0 <= i < |data|
      ensures RowToRecord(doc[0], doc[i + 1]) == Reloaded(data[i], headers)
    {
      ProjectThenRead(data[i], headers);
    }
  }

  /** Reading a non-empty file after a row is appended gives the old records
      followed by the one for the new row, converted under the file's own
      header. */
  lemma ReadAfterAppend(rows: seq<Row>, row: Row)
    requires rows != []
    ensures RowsToRecords(rows + [row]) == RowsToRecords(rows) + [RowToRecord(rows[0], row)]
  {
  }

  /** A file that exists but is empty gets no header from `appendToCSV`, so the
      appended row becomes the header and reading the file gives no records. */
  lemma AppendToEmptyFile(row: Row)
    ensures RowsToRecords([] + [row]) == []
  {
  }

  /** The files the CSV helpers read, create and append to, by path. */
  class FileSystem {
    var files: map<string, seq<Row>>

    constructor (existing: map<string, seq<Row>>)
      ensures files == existing
    {
      files := existing;
    }

    /** `CSVFileReader`: a missing file is an error; otherwise its rows are
        converted into records. */
    method CsvFileReader(path: string) returns (r: Result<seq<Record>, string>)
      ensures path !in files ==> r == Err(OpenError)
      ensures path in files ==> r == Ok(RowsToRecords(files[path]))
    {
      if path !in files {
        return Err(OpenError);
      }
      var records := ConvertRows(files[path]);
      return Ok(records);
    }

    /** `writeCSV`: create (or truncate) the file, write the header row, then
        one projected row per record. */
    method WriteCsv(path: string, data: seq<Record>, headers: Row)
      modifies this
      ensures files == old(files)[path := CsvDocument(data, headers)]
    {
      files := files[path := [headers]];
      var k := 0;
      assert data[..0] == [];
      assert CsvDocument(data[..0], headers) == [headers];
      while k < |data|
        invariant k <= |data|
        invariant files == old(files)[path := CsvDocument(data[..k], headers)]
      {
        var row := ProjectRow(data[k], headers);
        assert row == Projection(data[k], headers);
        assert CsvDocument(data[..k + 1], headers) == CsvDocument(data[..k], headers) + [row];
        files := files[path := files[path] + [row]];
        k := k + 1;
      }
      assert data[..k] == data;
    }

    /** `appendToCSV`: a missing file is written afresh with its header and
        the one record; an existing file gets exactly one projected row at the
        end and keeps its earlier rows. */
    method AppendToCsv(path: string, data: Record, headers: Row)
      modifies this
      ensures path !in old(files) ==> files == old(files)[path := CsvDocument([data], headers)]
      ensures path in old(files) ==>
        files == old(files)[path := old(files)[path] + [Projection(data, headers)]]
    {
      if path !in files {
        WriteCsv(path, [data], headers);
        return;
      }
      var row := ProjectRow(data, headers);
      assert row == Projection(data, headers);
      files := files[path := files[path] + [row]];
    }
  }
}
