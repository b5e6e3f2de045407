/**
 * The few pieces of the PHP runtime the library leans on: byte strings,
 * loosely typed scalars, `empty()`, the `(bool)` cast, `strtolower`,
 * `str_replace` and `implode`.
 */
module Php {

  /** A PHP string is a byte string; a byte is modelled as a character below 256. */
  type byte = c: char | c as int < 256

  type Bytes = seq<byte>

  datatype Option<+T> = None | Some(value: T)

  /** The only exception the library throws is InvalidArgumentException; its message is not modelled. */
  datatype Error = InvalidArgument

  /** A call that either returns a value or throws. */
  datatype Result<+T> = Ok(value: T) | Err(error: Error)

  /** A loosely typed PHP scalar, as found in option arrays and setter arguments. */
  datatype Value = Null | Bool(b: bool) | Int(i: int) | Str(s: Bytes)

  /** PHP's `empty()` on a scalar: null, false, 0, "" and "0" are empty. */
  predicate Empty(v: Value)
  {
    match v
    case Null => true
    case Bool(b) => !b
    case Int(i) => i == 0
    case Str(s) => s == "" || s == "0"
  }

  /** PHP's `(bool)` cast on a scalar: exactly the values `empty()` rejects are true. */
  function ToBool(v: Value): (b: bool)
    ensures v == Null ==> !b
    ensures v.Bool? ==> b == v.b
  {
    !Empty(v)
  }

  /** A PHP value that is either null or a string. */
  function NullableString(o: Option<Bytes>): Value
  {
    match o
    case None => Null
    case Some(s) => Str(s)
  }

  function LowerByte(c: byte): byte
  {
    if 'A' <= c <= 'Z' then (c as int + 32) as char else c
  }

  /** PHP's `strtolower` (ASCII letters only). */
  function Lower(s: Bytes): (r: Bytes)
    ensures |r| == |s|
    ensures forall i :: 0 <= i < |s| ==> !('A' <= r[i] <= 'Z')
  {
    seq(|s|, i requires 0 <= i < |s| => LowerByte(s[i]))
  }

  /** A string without upper-case ASCII letters is its own lower-case form. */
  lemma LowerKeepsLowercase(s: Bytes)
    requires forall i :: 0 <= i < |s| ==> !('A' <= s[i] <= 'Z')
    ensures Lower(s) == s
  {
  }

  /** PHP's `str_replace` with one search string: a left-to-right scan that replaces non-overlapping occurrences. */
  function Replace(s: Bytes, search: Bytes, replacement: Bytes): Bytes
    decreases |s|
  {
    if search == [] || |s| < |search| then s
    else if s[..|search|] == search then replacement + Replace(s[|search|..], search, replacement)
    else [s[0]] + Replace(s[1..], search, replacement)
  }

  /** A subject that does not contain the last byte of the search string is left as it is. */
  lemma {:induction false} ReplaceWithoutLastByte(s: Bytes, search: Bytes, replacement: Bytes)
    requires search != [] && search[|search| - 1] !in s
    ensures Replace(s, search, replacement) == s
  {
    if |s| >= |search| && s[..|search|] != search {
      ReplaceWithoutLastByte(s[1..], search, replacement);
    }
  }

  /** PHP's `implode`: the parts joined by the separator, with no separator before the first part. */
  function Implode(separator: Bytes, parts: seq<Bytes>): Bytes
    decreases |parts|
  {
    if parts == [] then []
    else if |parts| == 1 then parts[0]
    else parts[0] + separator + Implode(separator, parts[1..])
  }

  /** Appending a part appends one separator and the part (the shape a building loop relies on). */
  lemma {:induction false} ImplodeSnoc(separator: Bytes, parts: seq<Bytes>, last: Bytes)
    ensures Implode(separator, parts + [last])
         == if parts == [] then last else Implode(separator, parts) + separator + last
    decreases |parts|
  {
    if |parts| > 1 {
      assert (parts + [last])[1..] == parts[1..] + [last];
      ImplodeSnoc(separator, parts[1..], last);
    } else if |parts| == 1 {
      assert (parts + [last])[1..] == [last];
    }
  }
}
