/**
 * Spyrit\LightCsv\CsvWriter: converts each whole line, writes the BOM rule
 * only from an explicit `open`, and opens implicitly on the first row.
 * `writeBom` is not defined in the LightCsv classes; it is taken to be the
 * older writer's rule (Spyrit\Csv\CsvWriter::writeBom).
 */
module LightWriter {
  import opened Php
  import opened Converter
  import opened Streams
  import opened RowCodec
  import opened CsvBase

  /** What `writeRows` appends: each row's converted line, in input order. */
  function BytesOf(fmt: Format, env: Backends, rows: seq<Row>): Bytes
  {
    Concat(seq(|rows|, i requires 0 <= i < |rows| => LightBytes(fmt, env, rows[i])))
  }

  class CsvWriter {
    const csv: AbstractCsv
    const useBom: bool

    /**
     * `__construct(..., $useBom, $translit)`: the parent constructor takes
     * only the five format settings, so useBom and translit are dropped and
     * useBom keeps its initial false; the mode is "wb".
     */
    constructor (delimiter: Option<Bytes>, enclosure: Option<Bytes>, encoding: Option<Bytes>, eol: Option<Bytes>, escape: Option<Bytes>, useBom: Value, translit: Value)
      ensures fresh(csv)
      ensures csv.State() == Configured(delimiter, enclosure, encoding, eol, escape).(fileHandlerMode := Some("wb"))
      ensures !this.useBom
    {
      var base := new AbstractCsv(delimiter, enclosure, encoding, eol, escape);
      base.fileHandlerMode := Some("wb");
      csv := base;
      this.useBom := false;
    }

    /**
     * `open($filename)`: the parent's open, then the BOM rule on the new
     * handle. Since the constructor leaves useBom false and nothing sets it,
     * a LightCsv writer never writes a BOM: `open` leaves exactly the
     * parent's open, whatever the encoding.
     */
    method Open(filename: Option<Bytes>, fopen: Fopen) returns (r: Result<()>)
      modifies csv
      ensures var attempt := Opened(old(csv.State()).(filename := ChosenFilename(old(csv.filename), filename)), old(csv.fileHandlerMode), fopen);
              if attempt.0.Err? then r.Err? && csv.State() == attempt.1
              else r.Ok? && csv.State() == attempt.1.(fileHandler := Some(Written(attempt.0.value, BomFor(useBom, old(csv.encoding)))))
      ensures !useBom ==>
                csv.State() == Opened(old(csv.State()).(filename := ChosenFilename(old(csv.filename), filename)), old(csv.fileHandlerMode), fopen).1
    {
      r := csv.Open(filename, fopen);
      if r.Err? {
        return;
      }
      if useBom && csv.encoding == UTF8 {
        csv.fileHandler := Some(Written(csv.fileHandler.value, Utf8Bom));
      } else {
        assert Written(csv.fileHandler.value, []) == csv.fileHandler.value;
      }
    }

    /**
     * `writeRow($values)`: open through `openFile` if needed (so no BOM is
     * written, and a missing file name throws), then append the converted line.
     */
    method WriteRow(row: Row, fopen: Fopen, env: Backends) returns (r: Result<()>)
      modifies csv
      ensures var attempt := OpenedIfNeeded(old(csv.State()), fopen);
              if attempt.0.Err? then r.Err? && csv.State() == attempt.1
              else r.Ok? && csv.State() == attempt.1.(fileHandler := Some(Written(attempt.0.value, LightBytes(old(csv.Format()), env, row))))
    {
      if !csv.IsFileOpened() {
        var h := csv.OpenFile(csv.fileHandlerMode, fopen);
        if h.Err? {
          return Err(h.error);
        }
      }
      var line := LightBytes(csv.Format(), env, row);
      csv.fileHandler := Some(Written(csv.fileHandler.value, line));
      r := Ok(());
    }

    /** `writeRows($rows)`: `writeRow` for each row in turn; each row is written once, in input order. */
    method WriteRows(rows: seq<Row>, fopen: Fopen, env: Backends) returns (r: Result<()>)
      modifies csv
      ensures rows == [] ==> r.Ok? && csv.State() == old(csv.State())
      ensures rows != [] ==>
                var attempt := OpenedIfNeeded(old(csv.State()), fopen);
                if attempt.0.Err? then r.Err? && csv.State() == attempt.1
                else r.Ok? && csv.State() == attempt.1.(fileHandler := Some(Written(attempt.0.value, BytesOf(old(csv.Format()), env, rows))))
    {
      ghost var fmt := csv.Format();
      ghost var attempt := OpenedIfNeeded(csv.State(), fopen);
      ghost var lines: seq<Bytes> := seq(|rows|, i requires 0 <= i < |rows| => LightBytes(fmt, env, rows[i]));
      for i := 0 to |rows|
        invariant csv.Format() == fmt
        invariant i == 0 ==> csv.State() == old(csv.State())
        invariant i > 0 ==> attempt.0.Ok? && csv.State() == attempt.1.(fileHandler := Some(Written(attempt.0.value, Concat(lines[..i]))))
      {
        var added := WriteRow(rows[i], fopen, env);
        if added.Err? {
          return added;
        }
        WrittenPrefix(attempt.0.value, lines, i);
      }
      assert lines[..|rows|] == lines;
      r := Ok(());
    }
  }
}
