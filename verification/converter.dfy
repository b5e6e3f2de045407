/**
 * Spyrit\Csv\Utility\Converter: the encoding fallback chain and the manual
 * UTF-16 decoder used when neither iconv nor mbstring is available.
 */
module Converter {
  import opened Php

  /**
   * The conversion backends of the running PHP. Whether each extension is
   * enabled is what the runtime probes report; the conversions themselves
   * are foreign code and stay uninterpreted.
   */
  datatype Backends = Backends(
    iconvEnabled: bool,
    mbstringEnabled: bool,
    iconv: (Bytes, Bytes, Bytes) -> Bytes,     // iconv($from, $to, $value)
    mbConvert: (Bytes, Bytes, Bytes) -> Bytes) // mb_convert_encoding($value, $to, $from)

  const UTF16LE: Bytes := "UTF-16LE"
  const UTF16BE: Bytes := "UTF-16BE"

  /** `convertEncoding`: iconv if enabled, else mbstring if enabled, else the manual UTF-16 decoder, else the value itself. */
  function ConvertEncoding(env: Backends, value: Bytes, from: Bytes, to: Bytes): Bytes
  {
    if env.iconvEnabled then env.iconv(from, to, value)
    else if env.mbstringEnabled then env.mbConvert(value, to, from)
    else if from == UTF16LE then Utf16Decoded(value, false)
    else if from == UTF16BE then Utf16Decoded(value, true)
    else value
  }

  /** Once iconv is enabled, whatever mbstring's state, its result is the answer. */
  lemma IconvFirst(env: Backends, value: Bytes, from: Bytes, to: Bytes)
    requires env.iconvEnabled
    ensures ConvertEncoding(env, value, from, to) == env.iconv(from, to, value)
    ensures ConvertEncoding(env, value, from, to)
         == ConvertEncoding(env.(mbstringEnabled := !env.mbstringEnabled), value, from, to)
  {
  }

  /** Without iconv, mbstring's result is the answer; no later fallback is tried. */
  lemma MbstringSecond(env: Backends, value: Bytes, from: Bytes, to: Bytes)
    requires !env.iconvEnabled && env.mbstringEnabled
    ensures ConvertEncoding(env, value, from, to) == env.mbConvert(value, to, from)
  {
  }

  /**
   * With neither backend the target encoding plays no part: UTF-16LE input is
   * decoded little-endian, UTF-16BE input big-endian, anything else is returned as is.
   */
  lemma NoBackendFallback(env: Backends, value: Bytes, from: Bytes, to: Bytes, to': Bytes)
    requires !env.iconvEnabled && !env.mbstringEnabled
    ensures ConvertEncoding(env, value, from, to) == ConvertEncoding(env, value, from, to')
    ensures from == UTF16LE ==> ConvertEncoding(env, value, from, to) == Utf16Decoded(value, false)
    ensures from == UTF16BE ==> ConvertEncoding(env, value, from, to) == Utf16Decoded(value, true)
    ensures from != UTF16LE && from != UTF16BE ==> ConvertEncoding(env, value, from, to) == value
  {
  }

  function Ord(c: byte): (n: nat)
    ensures n < 256
  {
    c as int
  }

  /** PHP's `chr`: the byte whose value is n modulo 256. */
  function Chr(n: int): (c: byte)
    ensures Ord(c) == n % 256
  {
    (n % 256) as char
  }

  /** PHP's `$str{$i}` inside `ord()`: past the end of the string it reads as the byte 0. */
  function ByteAt(s: Bytes, i: nat): byte
  {
    if i < |s| then s[i] else 0 as char
  }

  /** One decoded unit: the high byte shifted left by 4 (not 8) plus the low byte, with 0x228 read as a newline. */
  function DecodeUnit(hi: byte, lo: byte): byte
  {
    var val := Ord(hi) * 16 + Ord(lo);
    if val == 0x228 then '\n' else Chr(val)
  }

  /** The byte pair starting at index i, put in (high, low) order by the endianness. */
  function PairAt(s: Bytes, i: nat, bigEndian: bool): (byte, byte)
  {
    if bigEndian then (ByteAt(s, i), ByteAt(s, i + 1)) else (ByteAt(s, i + 1), ByteAt(s, i))
  }

  function UnitAt(s: Bytes, k: nat, bigEndian: bool): byte
  {
    var (hi, lo) := PairAt(s, 2 * k, bigEndian);
    DecodeUnit(hi, lo)
  }

  predicate HasBigEndianBom(str: Bytes)
  {
    |str| >= 2 && Ord(str[0]) == 0xFE && Ord(str[1]) == 0xFF
  }

  predicate HasLittleEndianBom(str: Bytes)
  {
    |str| >= 2 && Ord(str[0]) == 0xFF && Ord(str[1]) == 0xFE
  }

  /** Decode every byte pair of a BOM-free body; a trailing odd byte is paired with 0. */
  function DecodePairs(body: Bytes, bigEndian: bool): Bytes
  {
    seq((|body| + 1) / 2, k requires 0 <= k < (|body| + 1) / 2 => UnitAt(body, k, bigEndian))
  }

  /** What `utf16_decode` returns: see the lemmas below for its properties. */
  function Utf16Decoded(str: Bytes, bomBe: bool): Bytes
  {
    if |str| < 2 then str
    else if HasBigEndianBom(str) then DecodePairs(str[2..], bomBe)
    else if HasLittleEndianBom(str) then DecodePairs(str[2..], false)
    else DecodePairs(str, bomBe)
  }

  /** `utf16_decode($str, $bom_be)`: strip a byte-order mark, then decode the input two bytes at a time. */
  method Utf16Decode(str: Bytes, bomBe: bool) returns (newstr: Bytes)
    ensures newstr == Utf16Decoded(str, bomBe)
  {
    if |str| < 2 {
      return str;
    }
    var s, bigEndian := str, bomBe;
    var c0, c1 := Ord(s[0]), Ord(s[1]);
    if c0 == 0xFE && c1 == 0xFF {
      s := s[2..];
    } else if c0 == 0xFF && c1 == 0xFE {
      s := s[2..];
      bigEndian := false;
    }
    var len := |s|;
    newstr := [];
    var i := 0;
    while i < len
      invariant 0 <= i <= len + 1 && i % 2 == 0
      invariant |newstr| == i / 2
      invariant forall k :: 0 <= k < i / 2 ==> newstr[k] == UnitAt(s, k, bigEndian)
    {
      var val;
      if bigEndian {
        val := Ord(ByteAt(s, i)) * 16;
        val := val + Ord(ByteAt(s, i + 1));
      } else {
        val := Ord(ByteAt(s, i + 1)) * 16;
        val := val + Ord(ByteAt(s, i));
      }
      newstr := newstr + [if val == 0x228 then '\n' else Chr(val)];
      i := i + 2;
    }
  }

  /** Inputs shorter than two bytes come back unchanged. */
  lemma Utf16ShortInput(str: Bytes, bomBe: bool)
    requires |str| < 2
    ensures Utf16Decoded(str, bomBe) == str
  {
  }

  /**
   * The shape of the output: a leading FE FF is dropped and the caller's order
   * kept, a leading FF FE is dropped and little-endian forced; then one byte
   * per input pair, ceil(n/2) in all, each the decoded unit of its pair.
   */
  lemma Utf16Shape(str: Bytes, bomBe: bool)
    requires |str| >= 2
    ensures var beBom := Ord(str[0]) == 0xFE && Ord(str[1]) == 0xFF;
            var leBom := Ord(str[0]) == 0xFF && Ord(str[1]) == 0xFE;
            var body := if beBom || leBom then str[2..] else str;
            var bigEndian := if leBom then false else bomBe;
            var r := Utf16Decoded(str, bomBe);
            && |r| == (|body| + 1) / 2
            && forall k :: 0 <= k < |r| ==>
                 r[k] == DecodeUnit(PairAt(body, 2 * k, bigEndian).0, PairAt(body, 2 * k, bigEndian).1)
  {
  }

  /** Each unit is ((hi << 4) + lo) mod 256, except that the value 0x228 gives a newline. */
  lemma DecodeUnitValue(hi: byte, lo: byte)
    ensures Ord(hi) * 16 + Ord(lo) == 0x228 ==> DecodeUnit(hi, lo) == '\n'
    ensures Ord(hi) * 16 + Ord(lo) != 0x228 ==> Ord(DecodeUnit(hi, lo)) == (Ord(hi) * 16 + Ord(lo)) % 256
  {
  }

  /**
   * Because the shift is by 4, several code units collide on 0x228: U+2028
   * (LINE SEPARATOR, bytes 20 28) and also U+2208 (ELEMENT OF, bytes 22 08)
   * both decode to a newline; U+0100 (bytes 01 00) decodes to the byte 0x10.
   */
  lemma Utf16Collisions()
    ensures Utf16Decoded([0x20 as char, 0x28 as char], true) == "\n"
    ensures Utf16Decoded([0x22 as char, 0x08 as char], true) == "\n"
    ensures Utf16Decoded([0x01 as char, 0x00 as char], true) == [0x10 as char]
  {
    assert UnitAt([0x20 as char, 0x28 as char], 0, true) == '\n';
    assert UnitAt([0x22 as char, 0x08 as char], 0, true) == '\n';
    assert UnitAt([0x01 as char, 0x00 as char], 0, true) == 0x10 as char;
  }

  /** Text whose bytes are code points below 256 (ISO-8859-1), written as UTF-16 code units without a BOM. */
  function Utf16Units(text: Bytes, bigEndian: bool): (r: Bytes)
    ensures |r| == 2 * |text|
    ensures forall k :: 0 <= k < |text| ==>
              if bigEndian then r[2 * k] == 0 as char && r[2 * k + 1] == text[k]
              else r[2 * k] == text[k] && r[2 * k + 1] == 0 as char
  {
    seq(2 * |text|, i requires 0 <= i < 2 * |text| =>
      if (i % 2 == 0) == bigEndian then 0 as char else text[i / 2])
  }

  /**
   * Where the decoder is right: for code units below U+0100 (high byte 0) it
   * recovers the ISO-8859-1 text, in either byte order.
   */
  lemma Utf16UnitsHaveNoBom(text: Bytes, bigEndian: bool)
    requires text != []
    ensures !HasBigEndianBom(Utf16Units(text, bigEndian)) && !HasLittleEndianBom(Utf16Units(text, bigEndian))
  {
    var units := Utf16Units(text, bigEndian);
    assert bigEndian ==> units[0] == 0 as char;
    assert !bigEndian ==> units[1] == 0 as char;
  }

  lemma Utf16UnitOfLatin1(text: Bytes, bigEndian: bool, k: nat)
    requires k < |text|
    ensures UnitAt(Utf16Units(text, bigEndian), k, bigEndian) == text[k]
  {
    var units := Utf16Units(text, bigEndian);
    var c := text[k];
    if bigEndian {
      assert units[2 * k] == 0 as char && units[2 * k + 1] == c;
    } else {
      assert units[2 * k] == c && units[2 * k + 1] == 0 as char;
    }
    assert ByteAt(units, 2 * k) == units[2 * k];
    assert ByteAt(units, 2 * k + 1) == units[2 * k + 1];
    assert PairAt(units, 2 * k, bigEndian) == (0 as char, c);
    DecodeUnitLatin1(c);
  }

  lemma DecodeUnitLatin1(c: byte)
    ensures DecodeUnit(0 as char, c) == c
  {
    assert Ord(0 as char) * 16 + Ord(c) == Ord(c);
  }

  /**
   * Where the decoder is right: for code units below U+0100 (high byte 0) it
   * recovers the ISO-8859-1 text, in either byte order.
   */
  lemma Utf16DecodesLatin1(text: Bytes, bigEndian: bool)
    ensures Utf16Decoded(Utf16Units(text, bigEndian), bigEndian) == text
  {
    var units := Utf16Units(text, bigEndian);
    if text != [] {
      Utf16UnitsHaveNoBom(text, bigEndian);
      var r := DecodePairs(units, bigEndian);
      assert |r| == |text|;
      forall k | 0 <= k < |text|
        ensures r[k] == text[k]
      {
        Utf16UnitOfLatin1(text, bigEndian, k);
      }
    }
  }
}
