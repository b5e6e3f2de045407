/**
 * Spyrit\Csv\CsvReader, the older reader: the same iterator, except that
 * `rewind` never opens the file, so iterating a reader nobody opened throws.
 * Spyrit\Csv\AbstractCsv is not part of this model; the reader is built on
 * the LightCsv AbstractCsv, whose members it uses by the same names.
 */
module LegacyReader {
  import opened Php
  import opened Converter
  import opened Streams
  import opened RowCodec
  import opened CsvBase
  import opened Records

  class CsvReader {
    const csv: AbstractCsv
    var position: int
    var currentValues: Option<Row>

    /** `__construct(...)`: the parent's settings, mode "rb", key 0 and the empty array as current row. */
    constructor (delimiter: Option<Bytes>, enclosure: Option<Bytes>, encoding: Option<Bytes>, eol: Option<Bytes>, escape: Option<Bytes>)
      ensures fresh(csv)
      ensures csv.State() == Configured(delimiter, enclosure, encoding, eol, escape).(fileHandlerMode := Some("rb"))
      ensures position == 0 && currentValues == Some([])
    {
      var base := new AbstractCsv(delimiter, enclosure, encoding, eol, escape);
      base.fileHandlerMode := Some("rb");
      csv := base;
      position := 0;
      currentValues := Some([]);
    }

    /** `valid()`: the current row is not null. */
    predicate HasCurrent()
      reads this
    {
      currentValues.Some?
    }

    /** `current()` */
    function Current(): Option<Row>
      reads this
    {
      currentValues
    }

    /** `key()` */
    function Key(): int
      reads this
    {
      position
    }

    /** The rows a foreach still yields from here: the current one, then those left in the handle. */
    ghost function Remaining(env: Backends, tokenize: Fgetcsv): seq<Row>
      reads this, csv
    {
      if currentValues.None? then []
      else [currentValues.value] + if csv.fileHandler.Some? then RowsFrom(csv.Format(), env, tokenize, csv.fileHandler.value) else []
    }

    /** `next()`: the key goes up by exactly one and the current row becomes the next decoded record. */
    method Next(env: Backends, tokenize: Fgetcsv) returns (r: Result<()>)
      modifies this, csv
      ensures position == old(position) + 1
      ensures old(csv.fileHandler).None? ==>
                r.Err? && currentValues == old(currentValues) && csv.State() == old(csv.State())
      ensures old(csv.fileHandler).Some? ==>
                var outcome := NextRecord(old(csv.Format()), env, tokenize, old(csv.fileHandler).value);
                r.Ok? && currentValues == outcome.0 && csv.State() == old(csv.State()).(fileHandler := Some(outcome.1))
      ensures old(csv.fileHandler).Some? && old(HasCurrent()) ==> Remaining(env, tokenize) == old(Remaining(env, tokenize))[1..]
    {
      position := position + 1;
      var line := ReadLine(csv, env, tokenize);
      if line.Err? {
        return Err(line.error);
      }
      currentValues := line.value;
      r := Ok(());
    }

    /**
     * `rewind()`: only an open reader goes back to key 0 and the first line;
     * then a record is read, which throws when no file was ever opened.
     */
    method Rewind(env: Backends, tokenize: Fgetcsv) returns (r: Result<()>)
      modifies this, csv
      ensures old(csv.fileHandler).None? ==>
                r == Err(InvalidArgument) && position == old(position) && currentValues == old(currentValues)
                && csv.State() == old(csv.State())
      ensures old(csv.fileHandler).Some? ==>
                var start := Rewound(old(csv.fileHandler).value);
                var outcome := NextRecord(old(csv.Format()), env, tokenize, start);
                && r.Ok? && position == 0 && currentValues == outcome.0
                && csv.State() == old(csv.State()).(fileHandler := Some(outcome.1))
                && Remaining(env, tokenize) == RowsFrom(old(csv.Format()), env, tokenize, start)
    {
      if csv.IsFileOpened() {
        position := 0;
        csv.fileHandler := Some(Rewound(csv.fileHandler.value));
      }
      var line := ReadLine(csv, env, tokenize);
      if line.Err? {
        return Err(line.error);
      }
      currentValues := line.value;
      r := Ok(());
    }
  }

  /**
   * Bridge between `valid()` and `Remaining`: a foreach stops exactly when
   * no rows remain. What `rewind` and `next` do to `Remaining` is stated in
   * their own contracts.
   */
  lemma ForeachStopsWhenExhausted(reader: CsvReader, env: Backends, tokenize: Fgetcsv)
    ensures reader.Remaining(env, tokenize) == [] <==> !reader.HasCurrent()
  {
  }
}
