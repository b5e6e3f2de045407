/**
 * Spyrit\Csv\CsvWriter, the older writer: converts each field on its own,
 * opens the file on first use, and writes the UTF-8 BOM only on request.
 * Spyrit\Csv\AbstractCsv is not part of this model; the writer is built on
 * the LightCsv AbstractCsv, whose members it uses by the same names.
 */
module LegacyWriter {
  import opened Php
  import opened Converter
  import opened Streams
  import opened RowCodec
  import opened CsvBase

  /** What `addLines` appends: each row's line, in input order. */
  function LinesOf(fmt: Format, env: Backends, rows: seq<Row>): Bytes
  {
    Concat(seq(|rows|, i requires 0 <= i < |rows| => LegacyLine(fmt, env, rows[i])))
  }

  class CsvWriter {
    const csv: AbstractCsv
    var useBom: bool

    /** `__construct(..., $useBom)`: the parent's settings, mode "wb", and the boolean cast of useBom. */
    constructor (delimiter: Option<Bytes>, enclosure: Option<Bytes>, encoding: Option<Bytes>, eol: Option<Bytes>, escape: Option<Bytes>, useBom: Value)
      ensures fresh(csv)
      ensures csv.State() == Configured(delimiter, enclosure, encoding, eol, escape).(fileHandlerMode := Some("wb"))
      ensures this.useBom == ToBool(useBom)
    {
      var base := new AbstractCsv(delimiter, enclosure, encoding, eol, escape);
      base.fileHandlerMode := Some("wb");
      csv := base;
      new;
      var self := SetUseBom(useBom);
    }

    /** `setUseBom($useBom)` */
    method SetUseBom(useBom: Value) returns (self: CsvWriter)
      modifies this
      ensures self == this && this.useBom == ToBool(useBom)
    {
      this.useBom := ToBool(useBom);
      self := this;
    }

    /** `writeBom()`: the BOM rule applied to the open handle; without a handle nothing is written. */
    method WriteBom()
      modifies csv
      ensures old(csv.fileHandler).None? ==> csv.State() == old(csv.State())
      ensures old(csv.fileHandler).Some? ==>
                csv.State() == old(csv.State()).(fileHandler := Some(Written(old(csv.fileHandler).value, BomFor(useBom, old(csv.encoding)))))
    {
      if useBom && csv.encoding == UTF8 && csv.fileHandler.Some? {
        csv.fileHandler := Some(Written(csv.fileHandler.value, Utf8Bom));
      } else if csv.fileHandler.Some? {
        assert Written(csv.fileHandler.value, []) == csv.fileHandler.value;
      }
    }

    /** `addLine($values)`: open in "wb" if needed (throwing without a usable file name), then append the row's line. */
    method AddLine(row: Row, fopen: Fopen, env: Backends) returns (r: Result<()>)
      modifies csv
      ensures var attempt := OpenedIfNeeded(old(csv.State()), fopen);
              if attempt.0.Err? then r.Err? && csv.State() == attempt.1
              else r.Ok? && csv.State() == attempt.1.(fileHandler := Some(Written(attempt.0.value, LegacyLine(old(csv.Format()), env, row))))
    {
      if !csv.IsFileOpened() {
        var h := csv.OpenFile(csv.fileHandlerMode, fopen);
        if h.Err? {
          return Err(h.error);
        }
      }
      var line := BuildLine(csv.Format(), env, row);
      csv.fileHandler := Some(Written(csv.fileHandler.value, line));
      r := Ok(());
    }

    /**
     * `addLines($lines)`: `addLine` for each row in turn. Only the first call
     * can open the file, so either that open fails and nothing is written, or
     * the file receives every row's line in input order.
     */
    method AddLines(rows: seq<Row>, fopen: Fopen, env: Backends) returns (r: Result<()>)
      modifies csv
      ensures rows == [] ==> r.Ok? && csv.State() == old(csv.State())
      ensures rows != [] ==>
                var attempt := OpenedIfNeeded(old(csv.State()), fopen);
                if attempt.0.Err? then r.Err? && csv.State() == attempt.1
                else r.Ok? && csv.State() == attempt.1.(fileHandler := Some(Written(attempt.0.value, LinesOf(old(csv.Format()), env, rows))))
    {
      ghost var fmt := csv.Format();
      ghost var attempt := OpenedIfNeeded(csv.State(), fopen);
      ghost var lines: seq<Bytes> := seq(|rows|, i requires 0 <= i < |rows| => LegacyLine(fmt, env, rows[i]));
      for i := 0 to |rows|
        invariant csv.Format() == fmt
        invariant i == 0 ==> csv.State() == old(csv.State())
        invariant i > 0 ==> attempt.0.Ok? && csv.State() == attempt.1.(fileHandler := Some(Written(attempt.0.value, Concat(lines[..i]))))
      {
        var added := AddLine(rows[i], fopen, env);
        if added.Err? {
          return added;
        }
        WrittenPrefix(attempt.0.value, lines, i);
      }
      assert lines[..|rows|] == lines;
      r := Ok(());
    }
  }
}
