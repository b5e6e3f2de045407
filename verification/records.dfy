/**
 * `readLine`, shared verbatim by both CsvReader generations: one `fgetcsv`
 * call, each field unescaped and converted; and the rows a handle still
 * yields, which is what iterating a reader walks through.
 */
module Records {
  import opened Php
  import opened Converter
  import opened Streams
  import opened RowCodec
  import opened CsvBase

  /**
   * The row `readLine` returns for an open handle (None for null) and the
   * handle after it: null at end of file or when the tokenizer returns false,
   * otherwise the tokenized record decoded field by field.
   */
  function NextRecord(fmt: Format, env: Backends, tokenize: Fgetcsv, s: Stream): (r: (Option<Row>, Stream))
    ensures r.1.lines == s.lines && r.1.written == s.written
    ensures Eof(s) ==> r == (None, s)
    ensures !Eof(s) ==> r.1.pos > s.pos
    ensures r.0.Some? ==> !Eof(s) && ReadCsv(tokenize, s, fmt.delimiter, fmt.enclosure).0.Fields?
    ensures r.0.Some? ==> r.0.value == Decoded(fmt, env, ReadCsv(tokenize, s, fmt.delimiter, fmt.enclosure).0.values)
  {
    if Eof(s) then (None, s)
    else
      var (token, next) := ReadCsv(tokenize, s, fmt.delimiter, fmt.enclosure);
      match token
      case NoRecord => (None, next)
      case Fields(values) => (Some(Decoded(fmt, env, values)), next)
  }

  /** Lines not yet read. */
  function Unread(s: Stream): nat
  {
    if s.pos < |s.lines| then |s.lines| - s.pos else 0
  }

  /** The rows successive `readLine` calls return before the first null. */
  function RowsFrom(fmt: Format, env: Backends, tokenize: Fgetcsv, s: Stream): seq<Row>
    decreases Unread(s)
  {
    var (row, next) := NextRecord(fmt, env, tokenize, s);
    if row.None? then [] else [row.value] + RowsFrom(fmt, env, tokenize, next)
  }

  /** Every row takes at least one physical line, so a handle yields at most as many rows as it has unread lines. */
  lemma {:induction false} RowsFromBound(fmt: Format, env: Backends, tokenize: Fgetcsv, s: Stream)
    ensures |RowsFrom(fmt, env, tokenize, s)| <= Unread(s)
    decreases Unread(s)
  {
    var (row, next) := NextRecord(fmt, env, tokenize, s);
    if row.Some? {
      RowsFromBound(fmt, env, tokenize, next);
    }
  }

  /** `readLine($fileHandler)` on the instance's own handle: no handle throws; otherwise one record is consumed. */
  method ReadLine(csv: AbstractCsv, env: Backends, tokenize: Fgetcsv) returns (r: Result<Option<Row>>)
    modifies csv
    ensures old(csv.fileHandler).None? ==> r == Err(InvalidArgument) && csv.State() == old(csv.State())
    ensures old(csv.fileHandler).Some? ==>
              var outcome := NextRecord(old(csv.Format()), env, tokenize, old(csv.fileHandler).value);
              r == Ok(outcome.0) && csv.State() == old(csv.State()).(fileHandler := Some(outcome.1))
  {
    if csv.fileHandler.None? {
      return Err(InvalidArgument);
    }
    var result: Option<Row> := None;
    var handle := csv.fileHandler.value;
    if !Eof(handle) {
      var (token, next) := ReadCsv(tokenize, handle, csv.delimiter, csv.enclosure);
      csv.fileHandler := Some(next);
      if token.Fields? {
        var values := DecodeFields(csv.Format(), env, token.values);
        result := Some(values);
      }
    }
    r := Ok(result);
  }
}
