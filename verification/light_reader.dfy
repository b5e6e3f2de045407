/**
 * Spyrit\LightCsv\CsvReader: an iterator over the decoded records of a file,
 * with `getRow`/`reset` as a second way to walk it and `count` over the
 * file's non-empty physical lines.
 */
module LightReader {
  import opened Php
  import opened Converter
  import opened Streams
  import opened RowCodec
  import opened CsvBase
  import opened Records

  /** The number of lines `count` counts: those `fgets` returns as something other than "". */
  function NonEmptyCount(lines: seq<Bytes>): nat
    decreases |lines|
  {
    if lines == [] then 0
    else NonEmptyCount(lines[..|lines| - 1]) + if lines[|lines| - 1] != "" then 1 else 0
  }

  /** The count is additive over a split of the file and never exceeds the number of lines. */
  lemma {:induction false} NonEmptyCountAppend(a: seq<Bytes>, b: seq<Bytes>)
    ensures NonEmptyCount(a + b) == NonEmptyCount(a) + NonEmptyCount(b)
    ensures NonEmptyCount(b) <= |b|
    decreases |b|
  {
    if b != [] {
      var b' := b[..|b| - 1];
      assert (a + b)[..|a + b| - 1] == a + b';
      NonEmptyCountAppend(a, b');
    } else {
      assert a + b == a;
    }
  }

  /** The count is the size of the set of positions holding a non-empty line. */
  lemma {:induction false} NonEmptyCountIsSize(lines: seq<Bytes>)
    ensures NonEmptyCount(lines) == |set i | 0 <= i < |lines| && lines[i] != ""|
    decreases |lines|
  {
    if lines != [] {
      var n := |lines| - 1;
      var init := lines[..n];
      NonEmptyCountIsSize(init);
      var before := set i | 0 <= i < n && init[i] != "";
      var after := set i | 0 <= i < |lines| && lines[i] != "";
      if lines[n] != "" {
        assert after == before + {n};
      } else {
        assert after == before;
      }
    }
  }

  class CsvReader {
    const csv: AbstractCsv
    var position: int
    var currentValues: Option<Row>

    /** `__construct(...)`: the parent's settings, mode "rb", key 0 and the empty array as current row. */
    constructor (delimiter: Option<Bytes>, enclosure: Option<Bytes>, encoding: Option<Bytes>, eol: Option<Bytes>, escape: Option<Bytes>)
      ensures fresh(csv)
      ensures csv.State() == Configured(delimiter, enclosure, encoding, eol, escape).(fileHandlerMode := Some("rb"))
      ensures position == 0 && currentValues == Some([])
    {
      var base := new AbstractCsv(delimiter, enclosure, encoding, eol, escape);
      base.fileHandlerMode := Some("rb");
      csv := base;
      position := 0;
      currentValues := Some([]);
    }

    /** `valid()`: the current row is not null. */
    predicate HasCurrent()
      reads this
    {
      currentValues.Some?
    }

    /** `current()` */
    function Current(): Option<Row>
      reads this
    {
      currentValues
    }

    /** `key()` */
    function Key(): int
      reads this
    {
      position
    }

    /** The rows iteration still yields from here: the current one, then those left in the handle. */
    ghost function Remaining(env: Backends, tokenize: Fgetcsv): seq<Row>
      reads this, csv
    {
      if currentValues.None? then []
      else [currentValues.value] + if csv.fileHandler.Some? then RowsFrom(csv.Format(), env, tokenize, csv.fileHandler.value) else []
    }

    /** `next()`: the key goes up by one, then the next record is read; with no handle the read throws after the increment. */
    method Next(env: Backends, tokenize: Fgetcsv) returns (r: Result<()>)
      modifies this, csv
      ensures position == old(position) + 1
      ensures old(csv.fileHandler).None? ==>
                r.Err? && currentValues == old(currentValues) && csv.State() == old(csv.State())
      ensures old(csv.fileHandler).Some? ==>
                var outcome := NextRecord(old(csv.Format()), env, tokenize, old(csv.fileHandler).value);
                r.Ok? && currentValues == outcome.0 && csv.State() == old(csv.State()).(fileHandler := Some(outcome.1))
      ensures old(csv.fileHandler).Some? && old(HasCurrent()) ==> Remaining(env, tokenize) == old(Remaining(env, tokenize))[1..]
    {
      position := position + 1;
      var line := ReadLine(csv, env, tokenize);
      if line.Err? {
        return Err(line.error);
      }
      currentValues := line.value;
      r := Ok(());
    }

    /** `rewind()`: open the file if needed, key 0, back to the first line, read the first record. */
    method Rewind(fopen: Fopen, env: Backends, tokenize: Fgetcsv) returns (r: Result<()>)
      modifies this, csv
      ensures var attempt := OpenedIfNeeded(old(csv.State()), fopen);
              if attempt.0.Err? then
                r.Err? && csv.State() == attempt.1 && position == old(position) && currentValues == old(currentValues)
              else
                var outcome := NextRecord(old(csv.Format()), env, tokenize, Rewound(attempt.0.value));
                && r.Ok? && position == 0 && currentValues == outcome.0
                && csv.State() == attempt.1.(fileHandler := Some(outcome.1))
                && Remaining(env, tokenize) == RowsFrom(old(csv.Format()), env, tokenize, Rewound(attempt.0.value))
    {
      if !csv.IsFileOpened() {
        var h := csv.OpenFile(csv.fileHandlerMode, fopen);
        if h.Err? {
          return Err(h.error);
        }
      }
      position := 0;
      csv.fileHandler := Some(Rewound(csv.fileHandler.value));
      var line := ReadLine(csv, env, tokenize);
      currentValues := line.value;
      r := Ok(());
    }

    /** `reset()`: an alias of `rewind()`, with exactly its outcome. */
    method Reset(fopen: Fopen, env: Backends, tokenize: Fgetcsv) returns (r: Result<()>)
      modifies this, csv
      ensures var attempt := OpenedIfNeeded(old(csv.State()), fopen);
              if attempt.0.Err? then
                r.Err? && csv.State() == attempt.1 && position == old(position) && currentValues == old(currentValues)
              else
                var outcome := NextRecord(old(csv.Format()), env, tokenize, Rewound(attempt.0.value));
                && r.Ok? && position == 0 && currentValues == outcome.0
                && csv.State() == attempt.1.(fileHandler := Some(outcome.1))
                && Remaining(env, tokenize) == RowsFrom(old(csv.Format()), env, tokenize, Rewound(attempt.0.value))
      ensures r.Ok? ==> csv.fileHandler.Some?
    {
      r := Rewind(fopen, env, tokenize);
    }

    /**
     * `getRow()`: when valid, the current row, after `next()` has moved past
     * it; false (None here) otherwise.
     */
    method GetRow(env: Backends, tokenize: Fgetcsv) returns (r: Result<Option<Row>>)
      modifies this, csv
      ensures !old(HasCurrent()) ==> r == Ok(None) && position == old(position) && currentValues == old(currentValues)
                                     && csv.State() == old(csv.State())
      ensures old(HasCurrent()) ==> position == old(position) + 1
      ensures old(HasCurrent()) && old(csv.fileHandler).None? ==>
                r.Err? && currentValues == old(currentValues) && csv.State() == old(csv.State())
      ensures old(HasCurrent()) && old(csv.fileHandler).Some? ==>
                var outcome := NextRecord(old(csv.Format()), env, tokenize, old(csv.fileHandler).value);
                && r == Ok(Some(old(Remaining(env, tokenize))[0]))
                && currentValues == outcome.0 && csv.State() == old(csv.State()).(fileHandler := Some(outcome.1))
                && Remaining(env, tokenize) == old(Remaining(env, tokenize))[1..]
      ensures old(csv.fileHandler).Some? ==>
                r.Ok? && csv.fileHandler.Some? && (r.value.None? <==> old(Remaining(env, tokenize)) == [])
    {
      if HasCurrent() {
        var current := Current();
        var moved := Next(env, tokenize);
        if moved.Err? {
          return Err(moved.error);
        }
        return Ok(current);
      }
      r := Ok(None);
    }

    /**
     * `count()`: open the file if needed, rewind, count the non-empty lines
     * `fgets` returns up to the end of file, and leave the handle there; key
     * and current row are untouched.
     */
    method Count(fopen: Fopen) returns (r: Result<nat>)
      modifies csv
      ensures var attempt := OpenedIfNeeded(old(csv.State()), fopen);
              if attempt.0.Err? then r.Err? && csv.State() == attempt.1
              else
                var h := attempt.0.value;
                r == Ok(NonEmptyCount(h.lines)) && csv.State() == attempt.1.(fileHandler := Some(h.(pos := |h.lines|)))
    {
      if !csv.IsFileOpened() {
        var h := csv.OpenFile(csv.fileHandlerMode, fopen);
        if h.Err? {
          return Err(h.error);
        }
      }
      var count := 0;
      ghost var start := csv.State();
      ghost var lines := csv.fileHandler.value.lines;
      csv.fileHandler := Some(Rewound(csv.fileHandler.value));
      while !Eof(csv.fileHandler.value)
        invariant csv.fileHandler.Some? && csv.fileHandler.value.lines == lines && csv.fileHandler.value.pos <= |lines|
        invariant csv.State() == start.(fileHandler := csv.fileHandler)
        invariant csv.fileHandler.value.written == start.fileHandler.value.written
        invariant count == NonEmptyCount(lines[..csv.fileHandler.value.pos])
        decreases |lines| - csv.fileHandler.value.pos
      {
        var (line, next) := GetLine(csv.fileHandler.value);
        assert lines[..next.pos] == lines[..next.pos - 1] + [line];
        csv.fileHandler := Some(next);
        if line != "" {
          count := count + 1;
        }
      }
      assert lines[..|lines|] == lines;
      r := Ok(count);
    }
  }

  /**
   * The rows `while ($row = $reader->getRow())` collects from a sequence of
   * rows: PHP's test fails on an empty array as well as on false, so the
   * walk keeps the longest prefix of non-empty rows.
   */
  function UntilEmpty(rows: seq<Row>): (taken: seq<Row>)
    ensures |taken| <= |rows| && taken == rows[..|taken|]
    ensures forall k :: 0 <= k < |taken| ==> taken[k] != []
    ensures |taken| < |rows| ==> rows[|taken|] == []
    decreases |rows|
  {
    if rows == [] || rows[0] == [] then [] else [rows[0]] + UntilEmpty(rows[1..])
  }

  /**
   * A caller's `while ($row = $reader->getRow())` on a reader with an open
   * handle: the rows collected are the rows iteration had left, in order, up
   * to the first `getRow` that returns false or an empty array.
   */
  method DrainByGetRow(reader: CsvReader, env: Backends, tokenize: Fgetcsv) returns (rows: seq<Row>)
    requires reader.csv.fileHandler.Some?
    modifies reader, reader.csv
    ensures rows == UntilEmpty(old(reader.Remaining(env, tokenize)))
  {
    ghost var all := reader.Remaining(env, tokenize);
    ghost var rest := all;
    rows := [];
    var row := reader.GetRow(env, tokenize);
    while row.Ok? && row.value.Some? && row.value.value != []
      invariant reader.csv.fileHandler.Some? && row.Ok?
      invariant UntilEmpty(all) == rows + UntilEmpty(rest)
      invariant row.value.Some? ==> rest != [] && row.value.value == rest[0] && reader.Remaining(env, tokenize) == rest[1..]
      invariant row.value.None? ==> rest == []
      decreases |rest|
    {
      assert UntilEmpty(rest) == [rest[0]] + UntilEmpty(rest[1..]);
      assert rows + UntilEmpty(rest) == (rows + [rest[0]]) + UntilEmpty(rest[1..]);
      rows := rows + [row.value.value];
      rest := rest[1..];
      row := reader.GetRow(env, tokenize);
    }
    assert UntilEmpty(rest) == [];
  }

  /**
   * A caller's `reset()` followed by the `getRow()` walk: the rows collected
   * are the file's records from its first line, in order, up to the first
   * empty one; when no record is empty (fgetcsv gives a blank line as one
   * null field, never as an empty array) they are exactly the rows a
   * foreach yields.
   */
  method ReadByGetRow(reader: CsvReader, fopen: Fopen, env: Backends, tokenize: Fgetcsv) returns (r: Result<seq<Row>>)
    modifies reader, reader.csv
    ensures var attempt := OpenedIfNeeded(old(reader.csv.State()), fopen);
            && (r.Ok? <==> attempt.0.Ok?)
            && (r.Ok? ==>
                  var all := RowsFrom(old(reader.csv.Format()), env, tokenize, Rewound(attempt.0.value));
                  && r.value == UntilEmpty(all)
                  && ((forall k :: 0 <= k < |all| ==> all[k] != []) ==> r.value == all))
  {
    var reset := reader.Reset(fopen, env, tokenize);
    if reset.Err? {
      return Err(reset.error);
    }
    var rows := DrainByGetRow(reader, env, tokenize);
    r := Ok(rows);
  }
}
