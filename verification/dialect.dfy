/**
 * Spyrit\LightCsv\Dialect: a configuration object built from a loosely typed
 * option array whose keys are matched case-insensitively, each field going
 * through its setter's normalisation rule.
 */
module LightDialect {
  import opened Php
  import opened Normalise

  /** The constructor's argument: a PHP array of key/value pairs in insertion order, or anything that is not an array. */
  datatype Options = NotArray | Entries(pairs: seq<(Bytes, Value)>)

  /** The values the ten fields hold once the setters have run. */
  datatype Config = Config(
    delimiter: Value,
    enclosure: Value,
    encoding: Value,
    eol: Bytes,
    escape: Value,
    translit: Option<Bytes>,
    useBom: bool,
    trim: bool,
    forceEncodingDetection: bool,
    skipEmptyLines: bool)

  /** The option names. */
  const KeyDelimiter: Bytes := "delimiter"
  const KeyEnclosure: Bytes := "enclosure"
  const KeyEncoding: Bytes := "encoding"
  const KeyEol: Bytes := "eol"
  const KeyEscape: Bytes := "escape"
  const KeyUseBom: Bytes := "use_bom"
  const KeyTranslit: Bytes := "translit"
  const KeyForceEncodingDetection: Bytes := "force_encoding_detection"
  const KeySkipEmptyLines: Bytes := "skip_empty_lines"
  const KeyTrim: Bytes := "trim"

  /** The fallbacks of the four setters that reject PHP-empty values. */
  const DelimiterFallback: Value := Str(";")
  const EnclosureFallback: Value := Str("\"")
  const EncodingFallback: Value := Str("CP1252")
  const EscapeFallback: Value := Str("\\")

  /** The defaults `array_merge` starts from. */
  const Defaults: map<Bytes, Value> := map[
    KeyDelimiter := Str(";"),
    KeyEnclosure := Str("\""),
    KeyEncoding := Str("CP1252"),
    KeyEol := Str("\r\n"),
    KeyEscape := Str("\\"),
    KeyUseBom := Bool(false),
    KeyTranslit := Str("translit"),
    KeyForceEncodingDetection := Bool(false),
    KeySkipEmptyLines := Bool(false),
    KeyTrim := Bool(false)]

  /** `$cleanedOptions`: every key lower-cased; a later pair overwrites an earlier one with the same lowered key. */
  function Cleaned(pairs: seq<(Bytes, Value)>): map<Bytes, Value>
    decreases |pairs|
  {
    if pairs == [] then map[]
    else Cleaned(pairs[..|pairs| - 1])[Lower(pairs[|pairs| - 1].0) := pairs[|pairs| - 1].1]
  }

  function Supplied(options: Options): seq<(Bytes, Value)>
  {
    match options
    case NotArray => []
    case Entries(pairs) => pairs
  }

  /** `array_merge($defaults, $cleanedOptions)`: supplied values override the defaults. */
  function Merged(options: Options): (m: map<Bytes, Value>)
    ensures Defaults.Keys <= m.Keys
  {
    Defaults + Cleaned(Supplied(options))
  }

  /** The configuration the constructor leaves behind. */
  function FromOptions(options: Options): Config
  {
    FromMerged(Merged(options))
  }

  /** Each setter applied to its entry of the merged options. */
  function FromMerged(m: map<Bytes, Value>): Config
    requires Defaults.Keys <= m.Keys
  {
    Config(
      OrDefault(m[KeyDelimiter], DelimiterFallback),
      OrDefault(m[KeyEnclosure], EnclosureFallback),
      OrDefault(m[KeyEncoding], EncodingFallback),
      LineEnding(m[KeyEol]),
      OrDefault(m[KeyEscape], EscapeFallback),
      Translit(m[KeyTranslit]),
      ToBool(m[KeyUseBom]),
      ToBool(m[KeyTrim]),
      ToBool(m[KeyForceEncodingDetection]),
      ToBool(m[KeySkipEmptyLines]))
  }

  /** A key is present after cleaning exactly when some supplied key lowers to it. */
  lemma {:induction false} CleanedKeys(pairs: seq<(Bytes, Value)>, k: Bytes)
    ensures k in Cleaned(pairs) <==> exists j :: 0 <= j < |pairs| && Lower(pairs[j].0) == k
    decreases |pairs|
  {
    if pairs != [] {
      var init := pairs[..|pairs| - 1];
      CleanedKeys(init, k);
      if k in Cleaned(init) {
        var j :| 0 <= j < |init| && Lower(init[j].0) == k;
        assert pairs[j] == init[j];
      }
      if exists j :: 0 <= j < |pairs| && Lower(pairs[j].0) == k {
        var j :| 0 <= j < |pairs| && Lower(pairs[j].0) == k;
        if j < |init| {
          assert init[j] == pairs[j];
        }
      }
    }
  }

  /** The value kept for a lowered key is that of the last pair carrying it. */
  lemma {:induction false} CleanedLastWins(pairs: seq<(Bytes, Value)>, j: nat)
    requires j < |pairs|
    requires forall j' :: j < j' < |pairs| ==> Lower(pairs[j'].0) != Lower(pairs[j].0)
    ensures Lower(pairs[j].0) in Cleaned(pairs) && Cleaned(pairs)[Lower(pairs[j].0)] == pairs[j].1
    decreases |pairs|
  {
    if j < |pairs| - 1 {
      var init := pairs[..|pairs| - 1];
      assert init[j] == pairs[j];
      CleanedLastWins(init, j);
    }
  }

  /** Keys that differ only in case give the same cleaned options. */
  lemma {:induction false} CleanedIgnoresCase(pairs: seq<(Bytes, Value)>, pairs': seq<(Bytes, Value)>)
    requires |pairs| == |pairs'|
    requires forall j :: 0 <= j < |pairs| ==> Lower(pairs[j].0) == Lower(pairs'[j].0) && pairs[j].1 == pairs'[j].1
    ensures Cleaned(pairs) == Cleaned(pairs')
    decreases |pairs|
  {
    if pairs != [] {
      CleanedIgnoresCase(pairs[..|pairs| - 1], pairs'[..|pairs'| - 1]);
    }
  }

  /** A key nobody supplied keeps its default. */
  lemma DefaultKept(options: Options, k: Bytes)
    requires k in Defaults
    requires forall j :: 0 <= j < |Supplied(options)| ==> Lower(Supplied(options)[j].0) != k
    ensures Merged(options)[k] == Defaults[k]
  {
    CleanedKeys(Supplied(options), k);
  }

  /** A supplied key, in any case, overrides the default with the last value given for it. */
  lemma SuppliedOverrides(options: Options, j: nat)
    requires j < |Supplied(options)|
    requires var pairs := Supplied(options);
             forall j' :: j < j' < |pairs| ==> Lower(pairs[j'].0) != Lower(pairs[j].0)
    ensures Lower(Supplied(options)[j].0) in Merged(options)
    ensures Merged(options)[Lower(Supplied(options)[j].0)] == Supplied(options)[j].1
  {
    CleanedLastWins(Supplied(options), j);
  }

  const DefaultConfig := Config(Str(";"), Str("\""), Str("CP1252"), "\r\n", Str("\\"), Some("translit"), false, false, false, false)

  /** The defaults, option by option. */
  lemma DefaultsLookup()
    ensures Defaults[KeyDelimiter] == Str(";") && Defaults[KeyEnclosure] == Str("\"")
    ensures Defaults[KeyEncoding] == Str("CP1252") && Defaults[KeyEol] == Str("\r\n")
    ensures Defaults[KeyEscape] == Str("\\") && Defaults[KeyTranslit] == Str("translit")
    ensures Defaults[KeyUseBom] == Bool(false) && Defaults[KeyTrim] == Bool(false)
    ensures Defaults[KeyForceEncodingDetection] == Bool(false) && Defaults[KeySkipEmptyLines] == Bool(false)
  {
    assert KeyDelimiter != KeyEnclosure by { assert KeyDelimiter[0] != KeyEnclosure[0]; }
    assert KeyEncoding != KeyTranslit by { assert KeyEncoding[0] != KeyTranslit[0]; }
  }

  /** An argument that supplies no pairs, a non-array or the empty array, gives every field its default. */
  lemma NotArrayIsEmpty(options: Options)
    requires Supplied(options) == []
    ensures FromOptions(options) == DefaultConfig
  {
    assert Merged(options) == Defaults;
    DefaultsSettle();
  }

  /** Every setter keeps its default as it is. */
  lemma DefaultsSettle()
    ensures FromMerged(Defaults) == DefaultConfig
  {
    DefaultsLookup();
    TranslitDefault();
  }

  /** The ten option names, in the order both presets list them. */
  const OptionKeys: seq<Bytes> := [
    KeyDelimiter, KeyEnclosure, KeyEncoding, KeyEol, KeyEscape,
    KeyUseBom, KeyTranslit, KeyForceEncodingDetection, KeySkipEmptyLines, KeyTrim]

  /** A preset's option array: the ten option names in the order above, each with its value. */
  function PresetOptions(values: seq<Value>): (pairs: seq<(Bytes, Value)>)
    requires |values| == |OptionKeys|
    ensures |pairs| == |OptionKeys|
    ensures forall i :: 0 <= i < |pairs| ==> pairs[i].0 == OptionKeys[i] && pairs[i].1 == values[i]
  {
    seq(|values|, i requires 0 <= i < |values| => (OptionKeys[i], values[i]))
  }

  lemma OptionKeysLowercase()
    ensures forall j :: 0 <= j < |OptionKeys| ==> Lower(OptionKeys[j]) == OptionKeys[j]
  {
    forall j | 0 <= j < |OptionKeys|
      ensures Lower(OptionKeys[j]) == OptionKeys[j]
    {
      LowerKeepsLowercase(OptionKeys[j]);
    }
  }

  lemma OptionKeysDistinct()
    ensures forall i, j :: 0 <= i < j < |OptionKeys| ==> OptionKeys[i] != OptionKeys[j]
  {
    forall i, j | 0 <= i < j < |OptionKeys|
      ensures OptionKeys[i] != OptionKeys[j]
    {
      var a, b := OptionKeys[i], OptionKeys[j];
      assert |a| != |b| || a[0] != b[0];
    }
  }

  /** In a preset's array each option takes the value given for it. */
  lemma PresetLookup(values: seq<Value>, j: nat)
    requires |values| == |OptionKeys| && j < |values|
    ensures Merged(Entries(PresetOptions(values)))[OptionKeys[j]] == values[j]
  {
    OptionKeysLowercase();
    OptionKeysDistinct();
    SuppliedOverrides(Entries(PresetOptions(values)), j);
  }

  /** Every option of a preset takes the preset's value, none the default. */
  lemma PresetMerged(values: seq<Value>)
    requires |values| == 10
    ensures var m := Merged(Entries(PresetOptions(values)));
            && m[KeyDelimiter] == values[0] && m[KeyEnclosure] == values[1]
            && m[KeyEncoding] == values[2] && m[KeyEol] == values[3]
            && m[KeyEscape] == values[4] && m[KeyUseBom] == values[5]
            && m[KeyTranslit] == values[6] && m[KeyForceEncodingDetection] == values[7]
            && m[KeySkipEmptyLines] == values[8] && m[KeyTrim] == values[9]
  {
    PresetLookup(values, 0);
    PresetLookup(values, 1);
    PresetLookup(values, 2);
    PresetLookup(values, 3);
    PresetLookup(values, 4);
    PresetLookup(values, 5);
    PresetLookup(values, 6);
    PresetLookup(values, 7);
    PresetLookup(values, 8);
    PresetLookup(values, 9);
  }

  /** Every field of a preset comes from the preset's own array, through its setter. */
  lemma PresetConfig(values: seq<Value>)
    requires |values| == |OptionKeys| == 10
    ensures FromOptions(Entries(PresetOptions(values))) == Config(
              OrDefault(values[0], DelimiterFallback), OrDefault(values[1], EnclosureFallback), OrDefault(values[2], EncodingFallback),
              LineEnding(values[3]), OrDefault(values[4], EscapeFallback), Translit(values[6]),
              ToBool(values[5]), ToBool(values[9]), ToBool(values[7]), ToBool(values[8]))
  {
    PresetMerged(values);
  }

  /** A preset whose values the setters keep as they are, apart from the line ending alias and translit mode. */
  lemma PresetSettles(values: seq<Value>, config: Config)
    requires |values| == 10
    requires !Empty(values[0]) && !Empty(values[1]) && !Empty(values[2]) && !Empty(values[4])
    requires config == Config(values[0], values[1], values[2], LineEnding(values[3]), values[4], Translit(values[6]),
                              ToBool(values[5]), ToBool(values[9]), ToBool(values[7]), ToBool(values[8]))
    ensures FromOptions(Entries(PresetOptions(values))) == config
  {
    PresetConfig(values);
  }

  /** `createExcelDialect`'s values, in option order. */
  const ExcelValues: seq<Value> :=
    [Str(";"), Str("\""), Str("CP1252"), Str("\r\n"), Str("\\"), Bool(false), Str("translit"), Bool(false), Bool(true), Bool(false)]

  /** `createStandardDialect`'s values, in option order. */
  const StandardValues: seq<Value> :=
    [Str(","), Str("\""), Str("UTF-8"), Str("\n"), Str("\\"), Bool(false), Str("translit"), Bool(false), Bool(true), Bool(true)]

  const ExcelConfig := Config(Str(";"), Str("\""), Str("CP1252"), "\r\n", Str("\\"), Some("translit"), false, false, false, true)

  const StandardConfig := Config(Str(","), Str("\""), Str("UTF-8"), "\n", Str("\\"), Some("translit"), false, true, false, true)

  /** The Excel preset: ";", CP1252, "\r\n", skip_empty_lines on, trim off. */
  lemma ExcelPreset()
    ensures FromOptions(Entries(PresetOptions(ExcelValues))) == ExcelConfig
  {
    PresetSettles(ExcelValues, ExcelConfig);
  }

  /** The standard preset: ",", UTF-8, "\n", skip_empty_lines on, trim on. */
  lemma StandardPreset()
    ensures FromOptions(Entries(PresetOptions(StandardValues))) == StandardConfig
  {
    PresetSettles(StandardValues, StandardConfig);
  }

  class Dialect {
    var translit: Option<Bytes>
    var eol: Bytes
    var encoding: Value
    var enclosure: Value
    var escape: Value
    var delimiter: Value
    var useBom: bool
    var trim: bool
    var forceEncodingDetection: bool
    var skipEmptyLines: bool

    function Current(): Config
      reads this
    {
      Config(delimiter, enclosure, encoding, eol, escape, translit, useBom, trim, forceEncodingDetection, skipEmptyLines)
    }

    /** `__construct($options)`: clean the keys, merge over the defaults, then run every setter. */
    constructor (options: Options)
      ensures Current() == FromOptions(options)
    {
      var pairs := Supplied(options);
      var cleaned: map<Bytes, Value> := map[];
      var i := 0;
      while i < |pairs|
        invariant 0 <= i <= |pairs|
        invariant cleaned == Cleaned(pairs[..i])
      {
        assert pairs[..i + 1][..i] == pairs[..i];
        cleaned := cleaned[Lower(pairs[i].0) := pairs[i].1];
        i := i + 1;
      }
      assert pairs[..|pairs|] == pairs;
      var merged := Defaults + cleaned;
      new;
      var self := SetDelimiter(merged[KeyDelimiter]);
      self := SetEnclosure(merged[KeyEnclosure]);
      self := SetEncoding(merged[KeyEncoding]);
      self := SetLineEndings(merged[KeyEol]);
      self := SetEscape(merged[KeyEscape]);
      self := SetTranslit(merged[KeyTranslit]);
      self := SetUseBom(merged[KeyUseBom]);
      self := SetTrim(merged[KeyTrim]);
      self := SetForceEncodingDetection(merged[KeyForceEncodingDetection]);
      self := SetSkipEmptyLines(merged[KeySkipEmptyLines]);
    }

    /** `createExcelDialect()` */
    static method CreateExcelDialect() returns (d: Dialect)
      ensures fresh(d) && d.Current() == ExcelConfig
    {
      d := new Dialect(Entries(PresetOptions(ExcelValues)));
      ExcelPreset();
    }

    /** `createStandardDialect()` */
    static method CreateStandardDialect() returns (d: Dialect)
      ensures fresh(d) && d.Current() == StandardConfig
    {
      d := new Dialect(Entries(PresetOptions(StandardValues)));
      StandardPreset();
    }

    method SetLineEndings(v: Value) returns (self: Dialect)
      modifies this
      ensures self == this && Current() == old(Current()).(eol := LineEnding(v))
    {
      eol := LineEnding(v);
      self := this;
    }

    method SetTranslit(v: Value) returns (self: Dialect)
      modifies this
      ensures self == this && Current() == old(Current()).(translit := Translit(v))
    {
      translit := Translit(v);
      self := this;
    }

    method SetEncoding(v: Value) returns (self: Dialect)
      modifies this
      ensures self == this && Current() == old(Current()).(encoding := OrDefault(v, EncodingFallback))
    {
      encoding := OrDefault(v, EncodingFallback);
      self := this;
    }

    method SetEnclosure(v: Value) returns (self: Dialect)
      modifies this
      ensures self == this && Current() == old(Current()).(enclosure := OrDefault(v, EnclosureFallback))
    {
      enclosure := OrDefault(v, EnclosureFallback);
      self := this;
    }

    method SetEscape(v: Value) returns (self: Dialect)
      modifies this
      ensures self == this && Current() == old(Current()).(escape := OrDefault(v, EscapeFallback))
    {
      escape := OrDefault(v, EscapeFallback);
      self := this;
    }

    method SetDelimiter(v: Value) returns (self: Dialect)
      modifies this
      ensures self == this && Current() == old(Current()).(delimiter := OrDefault(v, DelimiterFallback))
    {
      delimiter := OrDefault(v, DelimiterFallback);
      self := this;
    }

    method SetUseBom(v: Value) returns (self: Dialect)
      modifies this
      ensures self == this && Current() == old(Current()).(useBom := ToBool(v))
    {
      useBom := ToBool(v);
      self := this;
    }

    method SetTrim(v: Value) returns (self: Dialect)
      modifies this
      ensures self == this && Current() == old(Current()).(trim := ToBool(v))
    {
      trim := ToBool(v);
      self := this;
    }

    method SetForceEncodingDetection(v: Value) returns (self: Dialect)
      modifies this
      ensures self == this && Current() == old(Current()).(forceEncodingDetection := ToBool(v))
    {
      forceEncodingDetection := ToBool(v);
      self := this;
    }

    method SetSkipEmptyLines(v: Value) returns (self: Dialect)
      modifies this
      ensures self == this && Current() == old(Current()).(skipEmptyLines := ToBool(v))
    {
      skipEmptyLines := ToBool(v);
      self := this;
    }
  }
}
