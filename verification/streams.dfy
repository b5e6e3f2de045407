/**
 * An abstract PHP file handle: the file's physical lines with a read cursor,
 * and the bytes written through the handle. fopen and fgetcsv are builtins
 * whose code is not part of this model; they come in as function values.
 */
module Streams {
  import opened Php

  /** What `fgetcsv` returns: an array of fields, or false. */
  datatype Token = Fields(values: seq<Bytes>) | NoRecord

  /**
   * An open handle: `lines` are the strings successive `fgets` calls return,
   * `pos` is the cursor (counted in lines), `written` is everything `fwrite` appended.
   */
  datatype Stream = Stream(lines: seq<Bytes>, pos: nat, written: Bytes)

  /** `fopen($filename, $mode)`: a handle, or None for false. */
  type Fopen = (Bytes, Bytes) -> Option<Stream>

  /**
   * `fgetcsv($handle, 0, $delimiter, $enclosure)` as a tokenizer over the
   * remaining lines: given the lines, the cursor, the delimiter and the
   * enclosure, the token and the cursor after it.
   */
  type Fgetcsv = (seq<Bytes>, nat, Bytes, Bytes) -> (Token, nat)

  /** `feof`: the cursor is past the last line. */
  predicate Eof(s: Stream)
  {
    s.pos >= |s.lines|
  }

  /** `rewind`: the cursor goes back to the first line. */
  function Rewound(s: Stream): (r: Stream)
    ensures r.lines == s.lines && r.written == s.written && r.pos == 0
  {
    s.(pos := 0)
  }

  /** `fwrite`: the data is appended, nothing else changes. */
  function Written(s: Stream, data: Bytes): (r: Stream)
    ensures r.lines == s.lines && r.pos == s.pos && |r.written| == |s.written| + |data|
    ensures r.written[..|s.written|] == s.written && r.written[|s.written|..] == data
  {
    s.(written := s.written + data)
  }

  /** Chunks written one after the other, in order. */
  function Concat(chunks: seq<Bytes>): Bytes
    decreases |chunks|
  {
    if chunks == [] then [] else Concat(chunks[..|chunks| - 1]) + chunks[|chunks| - 1]
  }

  /** Writing the chunks one call at a time appends their concatenation. */
  lemma WrittenInTurn(s: Stream, chunks: seq<Bytes>, next: Bytes)
    ensures Written(Written(s, Concat(chunks)), next) == Written(s, Concat(chunks + [next]))
  {
    assert (chunks + [next])[..|chunks|] == chunks;
  }

  /** Writing the first i+1 chunks: the first chunk alone, or the first i and then chunk i. */
  lemma WrittenPrefix(s: Stream, chunks: seq<Bytes>, i: nat)
    requires i < |chunks|
    ensures Written(s, Concat(chunks[..i + 1]))
         == if i == 0 then Written(s, chunks[0]) else Written(Written(s, Concat(chunks[..i])), chunks[i])
  {
    assert chunks[..i + 1] == chunks[..i] + [chunks[i]];
    WrittenInTurn(s, chunks[..i], chunks[i]);
    if i == 0 {
      assert Concat(chunks[..0]) == [];
      assert Written(s, []) == s;
    }
  }

  /** `fgetcsv` on a handle that is not at the end: it consumes at least one line. */
  function ReadCsv(tokenize: Fgetcsv, s: Stream, delimiter: Bytes, enclosure: Bytes): (r: (Token, Stream))
    requires !Eof(s)
    ensures r.1.lines == s.lines && r.1.written == s.written && r.1.pos > s.pos
  {
    var (token, next) := tokenize(s.lines, s.pos, delimiter, enclosure);
    (token, s.(pos := if next > s.pos then next else s.pos + 1))
  }

  /** `fgets` on a handle that is not at the end: the current line, and the cursor moves past it. */
  function GetLine(s: Stream): (r: (Bytes, Stream))
    requires !Eof(s)
    ensures r.0 == s.lines[s.pos] && r.1 == s.(pos := s.pos + 1)
  {
    (s.lines[s.pos], s.(pos := s.pos + 1))
  }
}
