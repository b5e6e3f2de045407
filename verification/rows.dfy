/**
 * The field and line codecs of both library generations: the two-pass
 * unescape and optional conversion a reader applies to every tokenized field,
 * and the escape-enclose-join encoders of the two writers.
 */
module RowCodec {
  import opened Php
  import opened Converter

  /** The five settings a reader or writer encodes and decodes with. */
  datatype Format = Format(delimiter: Bytes, enclosure: Bytes, escape: Bytes, eol: Bytes, encoding: Bytes)

  type Row = seq<Bytes>

  const UTF8: Bytes := "UTF-8"

  /* ---------------------------------------------------------------- reading */

  /**
   * `str_replace(array(escape.enclosure, enclosure.enclosure), enclosure, $value)`:
   * two whole passes, the second over the output of the first.
   */
  function Unescape(value: Bytes, escape: Bytes, enclosure: Bytes): Bytes
  {
    Replace(Replace(value, escape + enclosure, enclosure), enclosure + enclosure, enclosure)
  }

  /** One tokenized field as a reader returns it: unescaped, then converted to UTF-8 unless the encoding already is UTF-8. */
  function DecodeField(fmt: Format, env: Backends, value: Bytes): Bytes
  {
    var unescaped := Unescape(value, fmt.escape, fmt.enclosure);
    if fmt.encoding != UTF8 then ConvertEncoding(env, unescaped, fmt.encoding, UTF8) else unescaped
  }

  function Decoded(fmt: Format, env: Backends, values: seq<Bytes>): Row
  {
    seq(|values|, i requires 0 <= i < |values| => DecodeField(fmt, env, values[i]))
  }

  /** The foreach of `readLine`: the row keeps the number and order of the tokenized fields, each decoded on its own. */
  method DecodeFields(fmt: Format, env: Backends, values: seq<Bytes>) returns (result: Row)
    ensures |result| == |values|
    ensures forall i :: 0 <= i < |values| ==> result[i] == DecodeField(fmt, env, values[i])
    ensures result == Decoded(fmt, env, values)
  {
    result := [];
    var escapes := [fmt.escape + fmt.enclosure, fmt.enclosure + fmt.enclosure];
    for i := 0 to |values|
      invariant |result| == i
      invariant forall k :: 0 <= k < i ==> result[k] == DecodeField(fmt, env, values[k])
    {
      var value := Replace(values[i], escapes[0], fmt.enclosure);
      value := Replace(value, escapes[1], fmt.enclosure);
      if fmt.encoding != UTF8 {
        value := ConvertEncoding(env, value, fmt.encoding, UTF8);
      }
      result := result + [value];
    }
  }

  /** A field without the enclosure's last byte passes both unescape passes unchanged. */
  lemma UnescapeWithoutEnclosure(value: Bytes, escape: Bytes, enclosure: Bytes)
    requires enclosure != [] && enclosure[|enclosure| - 1] !in value
    ensures Unescape(value, escape, enclosure) == value
  {
    var last := enclosure[|enclosure| - 1];
    assert (escape + enclosure)[|escape + enclosure| - 1] == last;
    ReplaceWithoutLastByte(value, escape + enclosure, enclosure);
    assert (enclosure + enclosure)[|enclosure + enclosure| - 1] == last;
    ReplaceWithoutLastByte(value, enclosure + enclosure, enclosure);
  }

  /* ---------------------------------------------------------------- writing */

  /** `str_replace($enclosure, $escape.$enclosure, $value)`: every enclosure gets the escape put in front of it. */
  function Escape(value: Bytes, escape: Bytes, enclosure: Bytes): Bytes
  {
    Replace(value, enclosure, escape + enclosure)
  }

  function Enclose(fmt: Format, payload: Bytes): Bytes
  {
    fmt.enclosure + payload + fmt.enclosure
  }

  /** One field as the older writer emits it: escaped, converted from UTF-8 unless the target is UTF-8, then enclosed. */
  function EncodeField(fmt: Format, env: Backends, value: Bytes): Bytes
  {
    var escaped := Escape(value, fmt.escape, fmt.enclosure);
    Enclose(fmt, if fmt.encoding != UTF8 then ConvertEncoding(env, escaped, UTF8, fmt.encoding) else escaped)
  }

  function EncodedFields(fmt: Format, env: Backends, row: Row): seq<Bytes>
  {
    seq(|row|, i requires 0 <= i < |row| => EncodeField(fmt, env, row[i]))
  }

  /** The line the older writer appends for a row. */
  function LegacyLine(fmt: Format, env: Backends, row: Row): Bytes
  {
    Implode(fmt.delimiter, EncodedFields(fmt, env, row)) + fmt.eol
  }

  /** `writeLine`'s foreach: a delimiter before every field but the first (the `$first` flag), the eol at the end. */
  method BuildLine(fmt: Format, env: Backends, row: Row) returns (line: Bytes)
    ensures line == LegacyLine(fmt, env, row)
  {
    ghost var fields := EncodedFields(fmt, env, row);
    line := [];
    var first := true;
    for i := 0 to |row|
      invariant first <==> i == 0
      invariant line == Implode(fmt.delimiter, fields[..i])
    {
      var value := Escape(row[i], fmt.escape, fmt.enclosure);
      if fmt.encoding != UTF8 {
        value := ConvertEncoding(env, value, UTF8, fmt.encoding);
      }
      assert fmt.enclosure + value + fmt.enclosure == fields[i];
      ghost var before := line;
      if !first {
        line := line + fmt.delimiter;
      } else {
        first := false;
      }
      line := line + (fmt.enclosure + value + fmt.enclosure);
      assert fields[..i + 1] == fields[..i] + [fields[i]];
      ImplodeSnoc(fmt.delimiter, fields[..i], fields[i]);
      assert line == if i == 0 then fields[i] else before + fmt.delimiter + fields[i];
    }
    assert fields[..|row|] == fields;
    line := line + fmt.eol;
  }

  /** The line the newer writer builds before converting it: escape and enclose every field, join, add the eol. */
  function LightLine(fmt: Format, row: Row): Bytes
  {
    Implode(fmt.delimiter, seq(|row|, i requires 0 <= i < |row| => Enclose(fmt, Escape(row[i], fmt.escape, fmt.enclosure)))) + fmt.eol
  }

  /** What the newer writer appends: the whole line, delimiters and eol included, converted from UTF-8 to the target encoding. */
  function LightBytes(fmt: Format, env: Backends, row: Row): Bytes
  {
    ConvertEncoding(env, LightLine(fmt, row), UTF8, fmt.encoding)
  }

  /** An empty row is written as the bare line ending, by both writers. */
  lemma EmptyRowIsEol(fmt: Format, env: Backends)
    ensures LegacyLine(fmt, env, []) == fmt.eol
    ensures LightLine(fmt, []) == fmt.eol
  {
    assert EncodedFields(fmt, env, []) == [];
  }

  /** For a UTF-8 target the older writer's line is the newer writer's line before conversion. */
  lemma LegacyIsLightOnUtf8(fmt: Format, env: Backends, row: Row)
    requires fmt.encoding == UTF8
    ensures LegacyLine(fmt, env, row) == LightLine(fmt, row)
  {
    assert EncodedFields(fmt, env, row)
        == seq(|row|, i requires 0 <= i < |row| => Enclose(fmt, Escape(row[i], fmt.escape, fmt.enclosure)));
  }

  /**
   * With neither iconv nor mbstring, conversion from UTF-8 is the identity, so
   * the two writers emit the same bytes for every target encoding.
   */
  lemma WritersAgreeWithoutBackends(fmt: Format, env: Backends, row: Row)
    requires !env.iconvEnabled && !env.mbstringEnabled
    ensures LegacyLine(fmt, env, row) == LightBytes(fmt, env, row) == LightLine(fmt, row)
  {
    assert EncodedFields(fmt, env, row)
        == seq(|row|, i requires 0 <= i < |row| => Enclose(fmt, Escape(row[i], fmt.escape, fmt.enclosure)));
  }

  /** The older writer converts only field contents: enclosures, delimiters and the eol are emitted as configured. */
  lemma LegacyConvertsContentsOnly(fmt: Format, env: Backends, row: Row, i: nat)
    requires i < |row| && fmt.encoding != UTF8
    ensures var f := EncodedFields(fmt, env, row)[i];
            && |f| >= 2 * |fmt.enclosure|
            && f[..|fmt.enclosure|] == fmt.enclosure
            && f[|f| - |fmt.enclosure|..] == fmt.enclosure
            && f[|fmt.enclosure|..|f| - |fmt.enclosure|]
               == ConvertEncoding(env, Escape(row[i], fmt.escape, fmt.enclosure), UTF8, fmt.encoding)
  {
  }

  /* ------------------------------------------------------------ byte-order mark */

  const Utf8Bom: Bytes := [0xEF as char, 0xBB as char, 0xBF as char]

  /** `writeBom`: the UTF-8 BOM when useBom is on and the encoding is UTF-8, nothing otherwise. */
  function BomFor(useBom: bool, encoding: Bytes): (bom: Bytes)
    ensures bom != [] <==> useBom && encoding == UTF8
    ensures bom == [] || bom == Utf8Bom
  {
    if useBom && encoding == UTF8 then Utf8Bom else []
  }

  /* ------------------------------------------------------------- HTTP headers */

  const DispositionPrefix: Bytes := "attachment;filename=\""

  /** `getHttpHeaders($filename)`: the content type and the attachment disposition naming the file. */
  function HttpHeaders(filename: Bytes): (h: seq<(Bytes, Bytes)>)
    ensures |h| == 2 && h[0] == ("Content-Type", "application/csv") && h[1].0 == "Content-Disposition"
  {
    [("Content-Type", "application/csv"),
     ("Content-Disposition", DispositionPrefix + filename + "\"")]
  }

  /** Reads the file name back out of a disposition value. */
  function DispositionFilename(value: Bytes): Option<Bytes>
  {
    var n := |DispositionPrefix|;
    if |value| >= n + 1 && value[..n] == DispositionPrefix && value[|value| - 1] == '"'
    then Some(value[n..|value| - 1])
    else None
  }

  /** The disposition header carries the file name verbatim, so it can be read back and distinct names give distinct headers. */
  lemma HttpHeadersNameTheFile(filename: Bytes, other: Bytes)
    ensures DispositionFilename(HttpHeaders(filename)[1].1) == Some(filename)
    ensures HttpHeaders(filename) == HttpHeaders(other) <==> filename == other
  {
    var v := HttpHeaders(filename)[1].1;
    var n := |DispositionPrefix|;
    assert v[..n] == DispositionPrefix;
    assert v[n..|v| - 1] == filename;
    if HttpHeaders(filename) == HttpHeaders(other) {
      var w := HttpHeaders(other)[1].1;
      assert w[n..|w| - 1] == other;
    }
  }

  /* ------------------------------------------------------- unescape and escape */

  /** The second pass's input with no two enclosure bytes side by side. */
  predicate NoDoubledByte(v: Bytes, e: byte)
  {
    forall k :: 0 <= k < |v| - 1 ==> !(v[k] == e && v[k + 1] == e)
  }

  /** An escaped field never starts with a bare enclosure byte. */
  lemma {:induction false} EscapedHead(v: Bytes, x: byte, e: byte)
    requires x != e && v != []
    ensures Replace(v, [e], [x, e]) != [] && Replace(v, [e], [x, e])[0] != e
  {
  }

  /** The first unescape pass undoes escaping exactly, for single-byte escape and enclosure. */
  lemma {:induction false} FirstPassUndoesEscape(v: Bytes, x: byte, e: byte)
    requires x != e
    ensures Replace(Replace(v, [e], [x, e]), [x, e], [e]) == v
    decreases |v|
  {
    if v != [] {
      var t := Replace(v[1..], [e], [x, e]);
      FirstPassUndoesEscape(v[1..], x, e);
      if v[0] == e {
        assert Replace(v, [e], [x, e]) == [x, e] + t;
        assert ([x, e] + t)[..2] == [x, e] && ([x, e] + t)[2..] == t;
      } else {
        assert Replace(v, [e], [x, e]) == [v[0]] + t;
        if t != [] {
          EscapedHead(v[1..], x, e);
        }
        assert ([v[0]] + t)[1..] == t;
        if |[v[0]] + t| >= 2 {
          assert ([v[0]] + t)[..2] != [x, e];
        }
      }
    }
  }

  /** The second unescape pass leaves a value with no doubled enclosure unchanged. */
  lemma {:induction false} SecondPassKeepsUndoubled(v: Bytes, e: byte)
    requires NoDoubledByte(v, e)
    ensures Replace(v, [e, e], [e]) == v
    decreases |v|
  {
    if |v| >= 2 {
      assert v[..2] != [e, e] by {
        assert !(v[0] == e && v[1] == e);
      }
      SecondPassKeepsUndoubled(v[1..], e);
    }
  }

  /**
   * Reading back what the writers escaped: with single-byte escape and
   * enclosure that differ, unescaping an escaped field gives the field back
   * whenever it has no two enclosures side by side.
   */
  lemma UnescapeEscaped(v: Bytes, x: byte, e: byte)
    requires x != e && NoDoubledByte(v, e)
    ensures Unescape(Escape(v, [x], [e]), [x], [e]) == v
  {
    assert [x] + [e] == [x, e] && [e] + [e] == [e, e];
    FirstPassUndoesEscape(v, x, e);
    SecondPassKeepsUndoubled(v, e);
  }

  /** Where it fails: a field holding two adjacent enclosures comes back with one. */
  lemma UnescapeMergesDoubledEnclosure()
    ensures Escape("\"\"", "\\", "\"") == "\\\"\\\""
    ensures Unescape(Escape("\"\"", "\\", "\""), "\\", "\"") == "\""
  {
    var q, b := '"', '\\';
    assert "\"\"" == [q, q] && "\\" == [b] && "\"" == [q];
    assert [b] + [q] == [b, q] && [q] + [q] == [q, q];
    assert Replace([q], [q], [b, q]) == [b, q] + Replace([], [q], [b, q]);
    assert Replace([q, q], [q], [b, q]) == [b, q] + Replace([q], [q], [b, q]);
    assert Escape([q, q], [b], [q]) == [b, q, b, q];
    assert Replace([b, q], [b, q], [q]) == [q] + Replace([], [b, q], [q]);
    assert Replace([b, q, b, q], [b, q], [q]) == [q] + Replace([b, q], [b, q], [q]);
    assert Replace([b, q, b, q], [b, q], [q]) == [q, q];
    assert Replace([q, q], [q, q], [q]) == [q] + Replace([], [q, q], [q]);
    assert Replace([q, q], [q, q], [q]) == [q];
  }

  /* ------------------------------------------------------ reference tokenizer */

  /** The first index at or after `from` holding the byte c. */
  function IndexOf(s: Bytes, c: byte, from: nat): (r: Option<nat>)
    ensures r.Some? ==> from <= r.value < |s| && s[r.value] == c && forall k :: from <= k < r.value ==> s[k] != c
    ensures r.None? ==> forall k :: from <= k < |s| ==> s[k] != c
    decreases |s| - from
  {
    if from >= |s| then None
    else if s[from] == c then Some(from)
    else IndexOf(s, c, from + 1)
  }

  /**
   * A plain tokenizer for lines the writers produce: enclosed fields without
   * embedded enclosures, separated by a single delimiter byte.
   */
  function ParseFields(s: Bytes, d: byte, e: byte): Option<Row>
    decreases |s|
  {
    if |s| == 0 || s[0] != e then None
    else match IndexOf(s, e, 1)
      case None => None
      case Some(j) =>
        if j + 1 == |s| then Some([s[1..j]])
        else if s[j + 1] != d then None
        else match ParseFields(s[j + 2..], d, e)
          case None => None
          case Some(rest) => Some([s[1..j]] + rest)
  }

  function ParseLine(d: byte, e: byte, eol: Bytes, line: Bytes): Option<Row>
  {
    if |line| < |eol| || line[|line| - |eol|..] != eol then None
    else
      var body := line[..|line| - |eol|];
      if body == [] then Some([]) else ParseFields(body, d, e)
  }

  predicate FreeOf(row: Row, e: byte)
  {
    forall i :: 0 <= i < |row| ==> e !in row[i]
  }

  function Wrapped(row: Row, e: byte): seq<Bytes>
  {
    seq(|row|, i requires 0 <= i < |row| => [e] + row[i] + [e])
  }

  /** The closing enclosure of a wrapped field is the first enclosure byte after the opening one. */
  lemma ClosingEnclosure(f: Bytes, t: Bytes, e: byte)
    requires e !in f
    ensures IndexOf([e] + f + [e] + t, e, 1) == Some(|f| + 1)
  {
    var s := [e] + f + [e] + t;
    assert forall k :: 1 <= k < |f| + 1 ==> s[k] == f[k - 1];
    assert s[|f| + 1] == e;
  }

  lemma ParseLastField(f: Bytes, d: byte, e: byte)
    requires e !in f
    ensures ParseFields([e] + f + [e], d, e) == Some([f])
  {
    ClosingEnclosure(f, [], e);
    assert [e] + f + [e] + [] == [e] + f + [e];
    assert ([e] + f + [e])[1..|f| + 1] == f;
  }

  lemma ParseNextField(f: Bytes, tail: Bytes, d: byte, e: byte)
    requires e !in f && d != e && ParseFields(tail, d, e).Some?
    ensures ParseFields([e] + f + [e] + [d] + tail, d, e) == Some([f] + ParseFields(tail, d, e).value)
  {
    var s := [e] + f + [e] + [d] + tail;
    ClosingEnclosure(f, [d] + tail, e);
    assert [e] + f + [e] + ([d] + tail) == s;
    var j := |f| + 1;
    assert s[1..j] == f;
    assert s[j + 1] == d;
    assert s[j + 2..] == tail;
  }

  /** The first wrapped field, and the rest of the wrapping is the wrapping of the rest. */
  lemma WrappedSplit(row: Row, e: byte)
    requires row != []
    ensures Wrapped(row, e)[0] == [e] + row[0] + [e]
    ensures Wrapped(row, e)[1..] == Wrapped(row[1..], e)
  {
  }

  lemma {:induction false} ParseImplode(row: Row, d: byte, e: byte)
    requires row != [] && d != e && FreeOf(row, e)
    ensures ParseFields(Implode([d], Wrapped(row, e)), d, e) == Some(row)
    decreases |row|
  {
    var head := row[0];
    assert e !in head;
    WrappedSplit(row, e);
    if |row| == 1 {
      ParseLastField(head, d, e);
      assert [head] == row;
    } else {
      var rest := row[1..];
      assert FreeOf(rest, e) by {
        forall i | 0 <= i < |rest|
          ensures e !in rest[i]
        {
          assert rest[i] == row[i + 1];
        }
      }
      var tail := Implode([d], Wrapped(rest, e));
      ParseImplode(rest, d, e);
      ParseNextField(head, tail, d, e);
      assert [head] + rest == row;
    }
  }

  /** A field that holds no enclosure is written enclosed and otherwise verbatim when the target is UTF-8. */
  lemma EncodeFieldVerbatim(fmt: Format, env: Backends, v: Bytes)
    requires |fmt.enclosure| == 1 && fmt.encoding == UTF8 && fmt.enclosure[0] !in v
    ensures EncodeField(fmt, env, v) == fmt.enclosure + v + fmt.enclosure
  {
    ReplaceWithoutLastByte(v, fmt.enclosure, fmt.escape + fmt.enclosure);
  }

  /** With a UTF-8 target, the older writer encodes enclosure-free fields by wrapping them. */
  lemma EncodedFieldsWrapped(fmt: Format, env: Backends, row: Row)
    requires |fmt.enclosure| == 1 && fmt.encoding == UTF8 && FreeOf(row, fmt.enclosure[0])
    ensures EncodedFields(fmt, env, row) == Wrapped(row, fmt.enclosure[0])
  {
    var e := fmt.enclosure[0];
    assert fmt.enclosure == [e];
    forall i | 0 <= i < |row|
      ensures EncodedFields(fmt, env, row)[i] == Wrapped(row, e)[i]
    {
      EncodeFieldVerbatim(fmt, env, row[i]);
    }
  }

  /** The body of a written non-empty row starts with the opening enclosure. */
  lemma WrappedBodyNonEmpty(row: Row, d: byte, e: byte)
    requires row != []
    ensures Implode([d], Wrapped(row, e)) != []
  {
    WrappedSplit(row, e);
    var w := Wrapped(row, e);
    if |row| > 1 {
      assert Implode([d], w) == w[0] + [d] + Implode([d], w[1..]);
    }
    assert Implode([d], w)[0] == e;
  }

  /** A reader decodes enclosure-free fields of a UTF-8 file to themselves. */
  lemma DecodedVerbatim(fmt: Format, env: Backends, row: Row)
    requires |fmt.enclosure| == 1 && fmt.encoding == UTF8 && FreeOf(row, fmt.enclosure[0])
    ensures Decoded(fmt, env, row) == row
  {
    forall i | 0 <= i < |row|
      ensures Decoded(fmt, env, row)[i] == row[i]
    {
      UnescapeWithoutEnclosure(row[i], fmt.escape, fmt.enclosure);
    }
  }

  /**
   * Round trip through the older writer: with single-byte delimiter and
   * enclosure that differ, a UTF-8 target and no enclosure inside any field,
   * tokenizing the written line gives the row back, and the reader's per-field
   * decoding leaves every field as it is.
   */
  lemma ParseWrittenLine(fmt: Format, env: Backends, row: Row)
    requires |fmt.delimiter| == 1 && |fmt.enclosure| == 1 && fmt.delimiter != fmt.enclosure
    requires fmt.encoding == UTF8 && FreeOf(row, fmt.enclosure[0])
    ensures ParseLine(fmt.delimiter[0], fmt.enclosure[0], fmt.eol, LegacyLine(fmt, env, row)) == Some(row)
    ensures Decoded(fmt, env, row) == row
  {
    var d, e := fmt.delimiter[0], fmt.enclosure[0];
    assert fmt.delimiter == [d];
    EncodedFieldsWrapped(fmt, env, row);
    var body := Implode([d], Wrapped(row, e));
    var line := LegacyLine(fmt, env, row);
    assert line == body + fmt.eol;
    assert line[|line| - |fmt.eol|..] == fmt.eol && line[..|line| - |fmt.eol|] == body;
    if row != [] {
      ParseImplode(row, d, e);
      WrappedBodyNonEmpty(row, d, e);
    }
    DecodedVerbatim(fmt, env, row);
  }

}
