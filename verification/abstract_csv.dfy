/**
 * Spyrit\LightCsv\AbstractCsv: the five format settings with their
 * normalising setters, the file name and open mode, and the file handle's
 * open/close state machine.
 */
module CsvBase {
  import opened Php
  import opened Normalise
  import opened Streams
  import RowCodec

  /** Every field of an AbstractCsv; `fileHandler` is None where PHP holds null or false. */
  datatype CsvState = CsvState(
    delimiter: Bytes,
    enclosure: Bytes,
    encoding: Bytes,
    eol: Bytes,
    escape: Bytes,
    filename: Option<Bytes>,
    fileHandlerMode: Option<Bytes>,
    fileHandler: Option<Stream>)

  /** What the setters guarantee: no format setting is PHP-empty and the eol is one of the three terminators. */
  predicate Normalised(s: CsvState)
  {
    && s.delimiter != "" && s.delimiter != "0"
    && s.enclosure != "" && s.enclosure != "0"
    && s.encoding != "" && s.encoding != "0"
    && s.escape != "" && s.escape != "0"
    && IsLineEnding(s.eol)
  }

  /** The state the constructor leaves: each argument through its setter, no file name, mode or handle. */
  function Configured(delimiter: Option<Bytes>, enclosure: Option<Bytes>, encoding: Option<Bytes>, eol: Option<Bytes>, escape: Option<Bytes>): (s: CsvState)
    ensures Normalised(s)
    ensures s.filename == None && s.fileHandlerMode == None && s.fileHandler == None
  {
    CsvState(
      StringOrDefault(delimiter, ";"),
      StringOrDefault(enclosure, "\""),
      StringOrDefault(encoding, "CP1252"),
      LineEnding(NullableString(eol)),
      StringOrDefault(escape, "\\"),
      None, None, None)
  }

  /** The constructor's default arguments give the Excel settings. */
  lemma DefaultConstruction()
    ensures Configured(Some(";"), Some("\""), Some("CP1252"), Some("\r\n"), Some("\\"))
         == CsvState(";", "\"", "CP1252", "\r\n", "\\", None, None, None)
  {
  }

  /** A setting given as a non-empty string is kept verbatim; null, "" and "0" fall back to the default. */
  lemma ConfiguredKeepsGivenValues(delimiter: Option<Bytes>, enclosure: Option<Bytes>, encoding: Option<Bytes>, eol: Option<Bytes>, escape: Option<Bytes>)
    ensures var s := Configured(delimiter, enclosure, encoding, eol, escape);
            && (if delimiter.Some? && delimiter.value != "" && delimiter.value != "0" then s.delimiter == delimiter.value else s.delimiter == ";")
            && (if enclosure.Some? && enclosure.value != "" && enclosure.value != "0" then s.enclosure == enclosure.value else s.enclosure == "\"")
            && (if encoding.Some? && encoding.value != "" && encoding.value != "0" then s.encoding == encoding.value else s.encoding == "CP1252")
            && (if escape.Some? && escape.value != "" && escape.value != "0" then s.escape == escape.value else s.escape == "\\")
  {
  }

  /** `is_null($filename) || $filename == ''` negated. */
  predicate ValidFilename(filename: Option<Bytes>)
  {
    filename.Some? && filename.value != ""
  }

  /**
   * `openFile($mode)`: an empty mode means "rb"; an invalid file name throws
   * and changes nothing; otherwise the handle becomes fopen's result, and a
   * failed fopen throws after the handle has been overwritten with false.
   */
  function Opened(s: CsvState, mode: Option<Bytes>, fopen: Fopen): (r: (Result<Stream>, CsvState))
    ensures r.1 == s.(fileHandler := r.1.fileHandler)
    ensures r.0.Ok? <==> ValidFilename(s.filename) && fopen(s.filename.value, StringOrDefault(mode, "rb")).Some?
    ensures r.0.Ok? ==> r.1.fileHandler == Some(r.0.value)
    ensures r.0.Err? ==> r.0.error == InvalidArgument
    ensures !ValidFilename(s.filename) ==> r.1 == s
  {
    if !ValidFilename(s.filename) then (Err(InvalidArgument), s)
    else
      match fopen(s.filename.value, StringOrDefault(mode, "rb"))
      case None => (Err(InvalidArgument), s.(fileHandler := None))
      case Some(h) => (Ok(h), s.(fileHandler := Some(h)))
  }

  /** `closeFile()`: an open handle is closed and fclose's result returned; on a closed instance, false and no change. */
  function Closed(s: CsvState, fcloseResult: bool): (r: (bool, CsvState))
    ensures r.1 == s.(fileHandler := None)
    ensures r.0 <==> s.fileHandler.Some? && fcloseResult
  {
    if s.fileHandler.Some? then (fcloseResult, s.(fileHandler := None)) else (false, s)
  }

  /** Closing twice is closing once: the second close returns false and changes nothing. */
  lemma CloseIdempotent(s: CsvState, first: bool, second: bool)
    ensures Closed(Closed(s, first).1, second) == (false, Closed(s, first).1)
  {
  }

  /**
   * `isFileOpened` after an open attempt from a closed instance holds exactly
   * when the attempt succeeded; after a close it never holds.
   */
  lemma OpenedExactlyOnSuccess(s: CsvState, mode: Option<Bytes>, fopen: Fopen, fcloseResult: bool)
    requires s.fileHandler.None?
    ensures Opened(s, mode, fopen).1.fileHandler.Some? <==> Opened(s, mode, fopen).0.Ok?
    ensures Closed(Opened(s, mode, fopen).1, fcloseResult).1.fileHandler.None?
  {
  }

  /** `open($filename)` keeps the stored name unless given a non-null, non-empty one. */
  function ChosenFilename(current: Option<Bytes>, given: Option<Bytes>): (r: Option<Bytes>)
    ensures ValidFilename(given) ==> r == given
    ensures !ValidFilename(given) ==> r == current
  {
    if ValidFilename(given) then given else current
  }

  /** `if (!$this->isFileOpened()) $this->openFile($this->fileHandlerMode)`: the handle to use, opening one if there is none. */
  function OpenedIfNeeded(s: CsvState, fopen: Fopen): (Result<Stream>, CsvState)
  {
    if s.fileHandler.Some? then (Ok(s.fileHandler.value), s) else Opened(s, s.fileHandlerMode, fopen)
  }

  class AbstractCsv {
    var eol: Bytes
    var encoding: Bytes
    var enclosure: Bytes
    var escape: Bytes
    var delimiter: Bytes
    var filename: Option<Bytes>
    var fileHandlerMode: Option<Bytes>
    var fileHandler: Option<Stream>

    function State(): CsvState
      reads this
    {
      CsvState(delimiter, enclosure, encoding, eol, escape, filename, fileHandlerMode, fileHandler)
    }

    function Format(): RowCodec.Format
      reads this
    {
      RowCodec.Format(delimiter, enclosure, escape, eol, encoding)
    }

    /** `isFileOpened()` */
    predicate IsFileOpened()
      reads this
    {
      fileHandler.Some?
    }

    /** `__construct($delimiter, $enclosure, $encoding, $eol, $escape)`: the setters in source order. */
    constructor (delimiter: Option<Bytes>, enclosure: Option<Bytes>, encoding: Option<Bytes>, eol: Option<Bytes>, escape: Option<Bytes>)
      ensures State() == Configured(delimiter, enclosure, encoding, eol, escape)
    {
      filename := None;
      fileHandlerMode := None;
      fileHandler := None;
      new;
      var self := SetDelimiter(delimiter);
      self := SetEnclosure(enclosure);
      self := SetEncoding(encoding);
      self := SetLineEndings(eol);
      self := SetEscape(escape);
    }

    /** `setFilename`: stored verbatim, null and "" included. */
    method SetFilename(filename: Option<Bytes>) returns (self: AbstractCsv)
      modifies this
      ensures self == this && State() == old(State()).(filename := filename)
    {
      this.filename := filename;
      self := this;
    }

    method SetLineEndings(eol: Option<Bytes>) returns (self: AbstractCsv)
      modifies this
      ensures self == this && State() == old(State()).(eol := LineEnding(NullableString(eol)))
    {
      this.eol := LineEnding(NullableString(eol));
      self := this;
    }

    method SetEncoding(encoding: Option<Bytes>) returns (self: AbstractCsv)
      modifies this
      ensures self == this && State() == old(State()).(encoding := StringOrDefault(encoding, "CP1252"))
    {
      this.encoding := StringOrDefault(encoding, "CP1252");
      self := this;
    }

    method SetEnclosure(enclosure: Option<Bytes>) returns (self: AbstractCsv)
      modifies this
      ensures self == this && State() == old(State()).(enclosure := StringOrDefault(enclosure, "\""))
    {
      this.enclosure := StringOrDefault(enclosure, "\"");
      self := this;
    }

    method SetEscape(escape: Option<Bytes>) returns (self: AbstractCsv)
      modifies this
      ensures self == this && State() == old(State()).(escape := StringOrDefault(escape, "\\"))
    {
      this.escape := StringOrDefault(escape, "\\");
      self := this;
    }

    method SetDelimiter(delimiter: Option<Bytes>) returns (self: AbstractCsv)
      modifies this
      ensures self == this && State() == old(State()).(delimiter := StringOrDefault(delimiter, ";"))
    {
      this.delimiter := StringOrDefault(delimiter, ";");
      self := this;
    }

    /** `openFile($mode)` */
    method OpenFile(mode: Option<Bytes>, fopen: Fopen) returns (r: Result<Stream>)
      modifies this
      ensures (r, State()) == Opened(old(State()), mode, fopen)
    {
      var m := StringOrDefault(mode, "rb");
      if !ValidFilename(filename) {
        return Err(InvalidArgument);
      }
      fileHandler := fopen(filename.value, m);
      if fileHandler.None? {
        return Err(InvalidArgument);
      }
      r := Ok(fileHandler.value);
    }

    /** `closeFile()`, with fclose's result as a parameter. */
    method CloseFile(fcloseResult: bool) returns (ret: bool)
      modifies this
      ensures (ret, State()) == Closed(old(State()), fcloseResult)
    {
      if IsFileOpened() {
        ret := fcloseResult;
        fileHandler := None;
        return;
      }
      ret := false;
    }

    /** `open($filename)`: maybe replace the name, then open in the instance's own mode. */
    method Open(filename: Option<Bytes>, fopen: Fopen) returns (r: Result<()>)
      modifies this
      ensures var outcome := Opened(old(State()).(filename := ChosenFilename(old(this.filename), filename)), old(fileHandlerMode), fopen);
              State() == outcome.1 && r.Ok? == outcome.0.Ok?
    {
      if ValidFilename(filename) {
        var self := SetFilename(filename);
      }
      var h := OpenFile(fileHandlerMode, fopen);
      r := if h.Ok? then Ok(()) else Err(h.error);
    }

    /** `close()` */
    method Close(fcloseResult: bool)
      modifies this
      ensures State() == old(State()).(fileHandler := None)
    {
      var ret := CloseFile(fcloseResult);
    }
  }
}
