/**
 * The per-field normalisation rules shared by LightCsv's Dialect and
 * AbstractCsv setters: empty input falls back to a default, line-ending
 * aliases collapse onto three terminators, and the translit mode is
 * whitelisted.
 */
module Normalise {
  import opened Php

  /** `empty($x) ? $default : $x`: the input itself, unless PHP calls it empty. */
  function OrDefault(v: Value, default: Value): (r: Value)
    ensures r == v || r == default
    ensures !Empty(v) ==> r == v
    ensures Empty(v) ==> r == default
    ensures !Empty(default) ==> !Empty(r)
  {
    if Empty(v) then default else v
  }

  /** Normalising an already normalised value changes nothing. */
  lemma OrDefaultFixedPoint(v: Value, default: Value)
    requires !Empty(default)
    ensures OrDefault(OrDefault(v, default), default) == OrDefault(v, default)
  {
  }

  /**
   * The same rule on a setter argument that is a string or null (AbstractCsv):
   * null, "" and "0" give the default, any other string is kept.
   */
  function StringOrDefault(o: Option<Bytes>, default: Bytes): (r: Bytes)
    requires !Empty(Str(default))
    ensures Str(r) == OrDefault(NullableString(o), Str(default))
    ensures r != "" && r != "0"
  {
    match o
    case None => default
    case Some(s) => if s == "" || s == "0" then default else s
  }

  predicate IsLineEnding(eol: Bytes)
  {
    eol == "\n" || eol == "\r" || eol == "\r\n"
  }

  /**
   * `setLineEndings`: "unix", "linux" and "\n" give "\n"; "mac", "macos" and
   * "\r" give "\r"; everything else gives "\r\n".
   */
  function LineEnding(v: Value): (eol: Bytes)
    ensures IsLineEnding(eol)
    ensures v.Str? && IsLineEnding(v.s) ==> eol == v.s
    ensures !v.Str? ==> eol == "\r\n"
  {
    if v == Str("unix") || v == Str("linux") || v == Str("\n") then "\n"
    else if v == Str("mac") || v == Str("macos") || v == Str("\r") then "\r"
    else "\r\n"
  }

  /** Each terminator is its own alias, so feeding the result back in changes nothing. */
  lemma LineEndingFixedPoint(v: Value)
    ensures LineEnding(Str(LineEnding(v))) == LineEnding(v)
  {
  }

  /** The aliases the tests check row by row, null and "" included. */
  lemma LineEndingAliases()
    ensures LineEnding(Null) == "\r\n" && LineEnding(Str("")) == "\r\n"
    ensures LineEnding(Str("windows")) == "\r\n" && LineEnding(Str("win")) == "\r\n"
    ensures LineEnding(Str("\r\n")) == "\r\n"
    ensures LineEnding(Str("unix")) == "\n" && LineEnding(Str("linux")) == "\n"
    ensures LineEnding(Str("mac")) == "\r" && LineEnding(Str("macos")) == "\r"
  {
  }

  /**
   * `setTranslit`: the lower-cased input if it is "translit" or "ignore",
   * otherwise null. strtolower of null, a bool or an int has no letters, so
   * only a string can match.
   */
  function Translit(v: Value): (r: Option<Bytes>)
    ensures r == None || r == Some("translit") || r == Some("ignore")
    ensures r.Some? <==> v.Str? && (Lower(v.s) == "translit" || Lower(v.s) == "ignore")
    ensures r.Some? ==> r.value == Lower(v.s)
  {
    match v
    case Str(s) =>
      var lowered := Lower(s);
      if lowered == "translit" || lowered == "ignore" then Some(lowered) else None
    case _ => None
  }

  /** The default mode is kept as it is. */
  lemma TranslitDefault()
    ensures Translit(Str("translit")) == Some("translit")
  {
    assert Lower("translit") == "translit";
  }

  /** The rows the tests check: null and an unknown mode give null, both modes are kept. */
  lemma TranslitWhitelist()
    ensures Translit(Null) == None && Translit(Str("foobar")) == None
    ensures Translit(Str("translit")) == Some("translit") && Translit(Str("ignore")) == Some("ignore")
  {
    assert Lower("ignore") == "ignore";
    assert Lower("translit") == "translit";
    assert Lower("foobar") == "foobar";
  }

  /** The whitelist ignores case: inputs equal up to case give the same mode. */
  lemma TranslitIgnoresCase(s: Bytes, t: Bytes)
    requires Lower(s) == Lower(t)
    ensures Translit(Str(s)) == Translit(Str(t))
  {
  }

  /** A kept mode is a fixed point: storing it again keeps it. */
  lemma TranslitFixedPoint(v: Value)
    requires Translit(v).Some?
    ensures Translit(Str(Translit(v).value)) == Translit(v)
  {
    var m := Translit(v).value;
    assert Lower(m) == m;
  }
}
