# Spyrit CSV, modelled in Dafny

A model of the core of the Spyrit PHP CSV library in its two generations:
the older `Spyrit\Csv` classes and the `Spyrit\LightCsv` rewrite. It covers:

- **Option normalisation.** `LightCsv\Dialect` builds a configuration from a loosely typed option array. Keys are lower-cased and merged over the defaults, then every field goes through its setter. The `AbstractCsv` setters apply the same rules.
- **The file-handle state machine** of `LightCsv\AbstractCsv`: `openFile`, `open`, `closeFile`, `close` and `isFileOpened`.
- **The two readers** as iterators over the records of an open handle. `readLine` unescapes each field in two passes and converts its encoding. `LightCsv\CsvReader` adds `getRow`, `reset` and `count`.
- **The two writers.** `Csv\CsvWriter::writeLine` converts each field on its own. `LightCsv\CsvWriter::write` converts the whole line. Both writers have BOM rules, the implicit open on first write, and the HTTP headers.
- **`Converter`**: the iconv → mbstring → UTF-16 → identity fallback chain, and the byte-level `utf16_decode`, quirks included. Its shift is by 4 rather than 8, and the value 0x228 decodes to a newline.

## How the model is built

- PHP strings are `Php.Bytes`, a sequence of chars below 256.
- Loosely typed PHP values are `Php.Value` (null, bool, int, string). `Empty` is PHP's `empty()` and `ToBool` is the `(bool)` cast.
- Each source class whose fields change becomes a Dafny `class` with the same fields. Its setters and file operations are methods with `modifies` clauses. Each method is proved against a function of the old state, which also states what the next state is:
  - `CsvBase.Opened`, `CsvBase.Closed` and `CsvBase.OpenedIfNeeded` for the handle;
  - `Records.NextRecord` and `Records.RowsFrom` for the reader;
  - `RowCodec.LegacyLine`, `RowCodec.LightBytes` and `Streams.Written` for the writers.
- PHP inheritance becomes composition: each reader and writer holds its `AbstractCsv` as `csv`.
- A file handle is a `Streams.Stream` value: the physical lines, a cursor, and the bytes written so far.
- `fopen` is a parameter of type `Fopen`, which returns a handle or nothing. `fgetcsv` is a parameter of type `Fgetcsv`, a tokenizer over the remaining lines. `fclose`'s result is a boolean parameter.
- iconv and mbstring are function values inside `Converter.Backends`, next to the two "enabled" flags.
- Loops in the source stay loops: `Dialect`'s key cleaning, `readLine`'s foreach, `writeLine`'s foreach with its `$first` flag, `utf16_decode`, `count`, `addLines` and `writeRows`.
- `LightReader.ReadByGetRow` is the caller's `reset()`/`getRow()` walk from the reader tests. It shows that the two contracts chain into the same rows a foreach yields.
- `RowCodec.ParseLine` is a small reference tokenizer for single-byte delimiter and enclosure. It exists only to state that the older writer's output reads back.

## Model

| member | source | states |
|---|---|---|
| Converter.ConvertEncoding | src/Spyrit/Csv/Utility/Converter.php:107-127 | the conversion chain: iconv if enabled, else mbstring if enabled, else the manual decoder for UTF-16LE or UTF-16BE input, else the value unchanged; its promises are the three lemmas below |
| Converter.IconvFirst | src/Spyrit/Csv/Utility/Converter.php:109-113 | with iconv enabled the result is iconv's, whatever mbstring's state |
| Converter.MbstringSecond | src/Spyrit/Csv/Utility/Converter.php:115-119 | without iconv but with mbstring the result is mbstring's, with no further fallback |
| Converter.NoBackendFallback | src/Spyrit/Csv/Utility/Converter.php:120-126 | with neither backend the target encoding plays no part: UTF-16LE is decoded little-endian, UTF-16BE big-endian, and anything else is returned unchanged |
| Converter.Utf16Decode | src/Spyrit/Csv/Utility/Converter.php:144-170 | the stride-2 loop returns exactly the decoding that `Utf16Shape` describes |
| Converter.Utf16ShortInput | src/Spyrit/Csv/Utility/Converter.php:146-147 | input shorter than 2 bytes is returned unchanged |
| Converter.Utf16Shape | src/Spyrit/Csv/Utility/Converter.php:148-167 | FE FF is dropped and the given order kept; FF FE is dropped and little-endian forced; the output has ceil(n/2) bytes, one decoded unit per pair, and a missing last byte reads as 0 |
| Converter.DecodeUnitValue | src/Spyrit/Csv/Utility/Converter.php:159-166 | each unit is ((hi << 4) + lo) mod 256, except that 0x228 gives a newline |
| Converter.Utf16Collisions | src/Spyrit/Csv/Utility/Converter.php:160-166 | U+2028 and U+2208 both decode to a newline, and U+0100 decodes to 0x10 |
| Converter.Utf16DecodesLatin1 | src/Spyrit/Csv/Utility/Converter.php:156-167 | code units below U+0100 without a BOM decode back to their ISO-8859-1 text, in either byte order |
| Normalise.OrDefault | src/Spyrit/LightCsv/Dialect.php:262-303 | a PHP-empty input gives the default and any other input is kept verbatim; the result is never PHP-empty when the default is not |
| Normalise.OrDefaultFixedPoint | src/Spyrit/LightCsv/Dialect.php:262-303 | normalising a normalised value changes nothing |
| Normalise.StringOrDefault | src/Spyrit/LightCsv/AbstractCsv.php:143-184 | on a string-or-null argument, the same rule as `OrDefault`; the result is never "" or "0" |
| Normalise.LineEnding | src/Spyrit/LightCsv/Dialect.php:207-233 | the eol is always one of "\n", "\r" or "\r\n"; a terminator given as such is kept; a non-string gives "\r\n" |
| Normalise.LineEndingFixedPoint | src/Spyrit/LightCsv/Dialect.php:207-233 | feeding a stored eol back to the setter keeps it |
| Normalise.LineEndingAliases | src/Spyrit/LightCsv/Dialect.php:209-229 | unix and linux give "\n"; mac and macos give "\r"; windows, win, "\r\n", null and "" give "\r\n" |
| Normalise.Translit | src/Spyrit/LightCsv/Dialect.php:249-255 | the stored mode is null, "translit" or "ignore"; a mode is kept exactly when the input is a string whose lower-case form is "translit" or "ignore", and then it is that lower-case form; every other input gives null |
| Normalise.TranslitWhitelist | src/Spyrit/LightCsv/Dialect.php:249-255 | null and "foobar" give null; "translit" and "ignore" are kept |
| Normalise.TranslitDefault | src/Spyrit/LightCsv/Dialect.php:249-255 | the default "translit" is kept |
| Normalise.TranslitIgnoresCase | src/Spyrit/LightCsv/Dialect.php:251-252 | inputs that are equal up to case give the same mode |
| Normalise.TranslitFixedPoint | src/Spyrit/LightCsv/Dialect.php:249-255 | setting a kept mode again keeps it |
| LightDialect.Cleaned | src/Spyrit/LightCsv/Dialect.php:130-133 | the cleaned option map: keys lower-cased, a later pair overwriting an earlier one; its promises are `CleanedKeys`, `CleanedLastWins` and `CleanedIgnoresCase` |
| LightDialect.FromOptions | src/Spyrit/LightCsv/Dialect.php:126-158 | the configuration the constructor leaves: each setter applied to its entry of the merged options; the constructor is proved to reach it, and `NotArrayIsEmpty`, `PresetConfig` and the presets state what it gives |
| LightDialect.Merged | src/Spyrit/LightCsv/Dialect.php:135-146 | the merged options hold every default key |
| LightDialect.CleanedKeys | src/Spyrit/LightCsv/Dialect.php:130-133 | a key is present after cleaning exactly when some supplied key lowers to it |
| LightDialect.CleanedLastWins | src/Spyrit/LightCsv/Dialect.php:130-133 | a lowered key keeps the value of the last pair that carries it |
| LightDialect.CleanedIgnoresCase | src/Spyrit/LightCsv/Dialect.php:130-133 | arrays whose keys differ only in case clean to the same options |
| LightDialect.DefaultKept | src/Spyrit/LightCsv/Dialect.php:135-146 | a key that no pair supplies, in any case, keeps its default |
| LightDialect.SuppliedOverrides | src/Spyrit/LightCsv/Dialect.php:130-146 | a supplied key, in any case, overrides the default with the last value given for it |
| LightDialect.NotArrayIsEmpty | src/Spyrit/LightCsv/Dialect.php:128-157 | a non-array argument, or the empty array, gives ";", "\"", CP1252, "\r\n", "\\", translit, and all four flags false |
| LightDialect.PresetMerged | src/Spyrit/LightCsv/Dialect.php:130-146 | an array naming every option once, in lower case, overrides every default |
| LightDialect.PresetConfig | src/Spyrit/LightCsv/Dialect.php:148-157 | such an array fixes every field through its own setter, and no field comes from the defaults |
| LightDialect.ExcelPreset | src/Spyrit/LightCsv/Dialect.php:165-179 | the Excel preset is ";", CP1252, "\r\n", skip_empty_lines true, trim false |
| LightDialect.StandardPreset | src/Spyrit/LightCsv/Dialect.php:186-200 | the standard preset is ",", UTF-8, "\n", skip_empty_lines true, trim true |
| LightDialect.Dialect.constructor | src/Spyrit/LightCsv/Dialect.php:126-158 | the cleaning loop, merge and ten setter calls leave exactly `FromOptions(options)` |
| LightDialect.Dialect.CreateExcelDialect | src/Spyrit/LightCsv/Dialect.php:165-179 | a new dialect holding the Excel configuration |
| LightDialect.Dialect.CreateStandardDialect | src/Spyrit/LightCsv/Dialect.php:186-200 | a new dialect holding the standard configuration |
| LightDialect.Dialect.SetLineEndings | src/Spyrit/LightCsv/Dialect.php:207-233 | returns the same object and changes only eol, to the normalised terminator |
| LightDialect.Dialect.SetTranslit | src/Spyrit/LightCsv/Dialect.php:249-255 | returns the same object and changes only translit, to the whitelisted lower-case mode or null |
| LightDialect.Dialect.SetEncoding | src/Spyrit/LightCsv/Dialect.php:262-267 | returns the same object and changes only encoding; a PHP-empty input gives CP1252 |
| LightDialect.Dialect.SetEnclosure | src/Spyrit/LightCsv/Dialect.php:274-279 | returns the same object and changes only enclosure; a PHP-empty input gives "\"" |
| LightDialect.Dialect.SetEscape | src/Spyrit/LightCsv/Dialect.php:286-291 | returns the same object and changes only escape; a PHP-empty input gives "\\" |
| LightDialect.Dialect.SetDelimiter | src/Spyrit/LightCsv/Dialect.php:298-303 | returns the same object and changes only delimiter; a PHP-empty input gives ";" |
| LightDialect.Dialect.SetUseBom | src/Spyrit/LightCsv/Dialect.php:365-370 | returns the same object and changes only useBom, to the boolean cast |
| LightDialect.Dialect.SetTrim | src/Spyrit/LightCsv/Dialect.php:387-392 | returns the same object and changes only trim, to the boolean cast |
| LightDialect.Dialect.SetForceEncodingDetection | src/Spyrit/LightCsv/Dialect.php:408-413 | returns the same object and changes only forceEncodingDetection, to the boolean cast |
| LightDialect.Dialect.SetSkipEmptyLines | src/Spyrit/LightCsv/Dialect.php:429-434 | returns the same object and changes only skipEmptyLines, to the boolean cast |
| CsvBase.Configured | src/Spyrit/LightCsv/AbstractCsv.php:70-77 | after construction every format setting is normalised, and there is no file name, mode or handle |
| CsvBase.DefaultConstruction | src/Spyrit/LightCsv/AbstractCsv.php:70-77 | the default arguments give ";", "\"", CP1252, "\r\n" and "\\" |
| CsvBase.ConfiguredKeepsGivenValues | src/Spyrit/LightCsv/AbstractCsv.php:143-184 | a non-empty string argument is kept verbatim; null, "" and "0" give the default |
| CsvBase.Opened | src/Spyrit/LightCsv/AbstractCsv.php:238-253 | an empty mode means "rb"; success holds exactly when the name is valid and fopen succeeds; an invalid name changes nothing; only the handle ever changes |
| CsvBase.Closed | src/Spyrit/LightCsv/AbstractCsv.php:259-269 | the handle is cleared, and the result is fclose's only when a handle was open |
| CsvBase.CloseIdempotent | src/Spyrit/LightCsv/AbstractCsv.php:313-318 | a second close returns false and changes nothing |
| CsvBase.OpenedExactlyOnSuccess | src/Spyrit/LightCsv/AbstractCsv.php:275-278 | from a closed instance, `isFileOpened` holds after an open attempt exactly when it succeeded, and never after a close |
| CsvBase.ChosenFilename | src/Spyrit/LightCsv/AbstractCsv.php:297-301 | the stored name is replaced only by a non-null, non-empty argument |
| CsvBase.AbstractCsv.IsFileOpened | src/Spyrit/LightCsv/AbstractCsv.php:275-278 | a handle is held; `OpenedExactlyOnSuccess` states when |
| CsvBase.AbstractCsv.constructor | src/Spyrit/LightCsv/AbstractCsv.php:70-77 | the five setters in source order leave `Configured(...)` |
| CsvBase.AbstractCsv.SetFilename | src/Spyrit/LightCsv/AbstractCsv.php:89-94 | stores the name verbatim, null and "" included, and returns the same object |
| CsvBase.AbstractCsv.SetLineEndings | src/Spyrit/LightCsv/AbstractCsv.php:110-136 | changes only eol, to the normalised terminator |
| CsvBase.AbstractCsv.SetEncoding | src/Spyrit/LightCsv/AbstractCsv.php:143-148 | changes only encoding; empty input gives CP1252 |
| CsvBase.AbstractCsv.SetEnclosure | src/Spyrit/LightCsv/AbstractCsv.php:155-160 | changes only enclosure; empty input gives "\"" |
| CsvBase.AbstractCsv.SetEscape | src/Spyrit/LightCsv/AbstractCsv.php:167-172 | changes only escape; empty input gives "\\" |
| CsvBase.AbstractCsv.SetDelimiter | src/Spyrit/LightCsv/AbstractCsv.php:179-184 | changes only delimiter; empty input gives ";" |
| CsvBase.AbstractCsv.OpenFile | src/Spyrit/LightCsv/AbstractCsv.php:238-253 | result and new state are exactly `Opened` of the old state |
| CsvBase.AbstractCsv.CloseFile | src/Spyrit/LightCsv/AbstractCsv.php:259-269 | result and new state are exactly `Closed` of the old state |
| CsvBase.AbstractCsv.Open | src/Spyrit/LightCsv/AbstractCsv.php:297-306 | chooses the name, then opens in the instance's own mode |
| CsvBase.AbstractCsv.Close | src/Spyrit/LightCsv/AbstractCsv.php:313-318 | afterwards no handle is held and nothing else has changed |
| Records.NextRecord | src/Spyrit/LightCsv/CsvReader.php:50-76 | null at end of file or when the tokenizer gives false; otherwise the record decoded field by field; the cursor only moves forward |
| Records.RowsFromBound | src/Spyrit/LightCsv/CsvReader.php:57-60 | a handle yields at most as many rows as it has unread lines |
| Records.ReadLine | src/Spyrit/LightCsv/CsvReader.php:50-76 | no handle raises InvalidArgument and changes nothing; otherwise it returns `NextRecord` and advances the handle (also `readLine` at src/Spyrit/Csv/CsvReader.php:43-69) |
| RowCodec.Unescape | src/Spyrit/LightCsv/CsvReader.php:58-65 | the two whole `str_replace` passes, escape+enclosure then enclosure+enclosure to one enclosure; what they undo and lose is stated by `UnescapeWithoutEnclosure`, `UnescapeEscaped` and `UnescapeMergesDoubledEnclosure` |
| RowCodec.DecodeField | src/Spyrit/LightCsv/CsvReader.php:64-70 | one field as the reader returns it: unescaped, then converted to UTF-8 unless the encoding is UTF-8; `DecodedVerbatim` and `ParseWrittenLine` state when it is the identity |
| RowCodec.DecodeFields | src/Spyrit/LightCsv/CsvReader.php:58-71 | the row keeps the tokenized fields' number and order; each is unescaped in two passes, then converted to UTF-8 unless the encoding is UTF-8 |
| RowCodec.UnescapeWithoutEnclosure | src/Spyrit/LightCsv/CsvReader.php:58-65 | a field without the enclosure byte passes both passes unchanged |
| RowCodec.UnescapeEscaped | src/Spyrit/LightCsv/CsvReader.php:58-65 | for a single-byte escape distinct from a single-byte enclosure, unescape undoes the writers' escape on every field without two adjacent enclosures |
| RowCodec.UnescapeMergesDoubledEnclosure | src/Spyrit/LightCsv/CsvReader.php:58-65 | a field `""` is written as `\"\"` and read back as `"` |
| RowCodec.EncodeField | src/Spyrit/Csv/CsvWriter.php:115-128 | one field as the older writer emits it: escaped, converted from UTF-8 unless the target is UTF-8, enclosed; `LegacyConvertsContentsOnly` states that only the contents are converted |
| RowCodec.LegacyLine | src/Spyrit/Csv/CsvWriter.php:110-135 | the older writer's line: the encoded fields joined by the delimiter, then the eol; `BuildLine` is proved to build it and `ParseWrittenLine` reads it back |
| RowCodec.BuildLine | src/Spyrit/Csv/CsvWriter.php:110-135 | the `$first` loop builds the escaped, converted and enclosed fields, joined by exactly one delimiter, followed by eol |
| RowCodec.EmptyRowIsEol | src/Spyrit/Csv/CsvWriter.php:110-135 | both writers write an empty row as the bare eol |
| RowCodec.LegacyConvertsContentsOnly | src/Spyrit/Csv/CsvWriter.php:117-131 | the older writer converts only a field's escaped content; enclosures stay as configured |
| RowCodec.LightLine | src/Spyrit/LightCsv/CsvWriter.php:92-96 | the newer writer's line before conversion: escaped, enclosed fields joined by the delimiter, then the eol |
| RowCodec.LightBytes | src/Spyrit/LightCsv/CsvWriter.php:90-103 | what the newer writer appends: the whole line, delimiters and eol included, converted from UTF-8; `LegacyIsLightOnUtf8` and `WritersAgreeWithoutBackends` relate it to the older writer |
| RowCodec.LegacyIsLightOnUtf8 | src/Spyrit/LightCsv/CsvWriter.php:90-97 | for UTF-8 the two writers build the same line |
| RowCodec.WritersAgreeWithoutBackends | src/Spyrit/LightCsv/CsvWriter.php:90-100 | with neither backend, both writers emit the same bytes for any target encoding |
| RowCodec.ParseWrittenLine | src/Spyrit/Csv/CsvWriter.php:110-135 | a written line whose fields hold no enclosure tokenizes back to the row, and decoding leaves every field as it is |
| RowCodec.BomFor | src/Spyrit/Csv/CsvWriter.php:60-68 | the BOM is EF BB BF exactly when useBom is on and the encoding is UTF-8, and empty otherwise |
| RowCodec.HttpHeaders | src/Spyrit/Csv/CsvWriter.php:76-82 | exactly two headers: Content-Type application/csv, then Content-Disposition |
| RowCodec.HttpHeadersNameTheFile | src/Spyrit/LightCsv/CsvWriter.php:57-63 | the disposition carries the file name verbatim: it reads back, and distinct names give distinct headers |
| LightReader.NonEmptyCountAppend | src/Spyrit/LightCsv/CsvReader.php:159-166 | the line count adds up over a split of the file and never exceeds the number of lines |
| LightReader.NonEmptyCountIsSize | src/Spyrit/LightCsv/CsvReader.php:159-166 | the count is the number of positions holding a non-empty line |
| LightReader.CsvReader.constructor | src/Spyrit/LightCsv/CsvReader.php:37-41 | the parent's settings, mode "rb", key 0 and an empty current row |
| LightReader.CsvReader.HasCurrent | src/Spyrit/LightCsv/CsvReader.php:145-148 | `valid()`: the current row is not null, that is, rows remain |
| LightReader.CsvReader.Current | src/Spyrit/LightCsv/CsvReader.php:110-113 | `current()`: the current row |
| LightReader.CsvReader.Key | src/Spyrit/LightCsv/CsvReader.php:119-122 | `key()`: the position |
| LightReader.CsvReader.Next | src/Spyrit/LightCsv/CsvReader.php:124-128 | key + 1; the next record becomes current; a valid reader's remaining rows lose their head; no handle raises |
| LightReader.CsvReader.Rewind | src/Spyrit/LightCsv/CsvReader.php:130-139 | opens if needed, key 0, first record current; the remaining rows are all records from the start of the file |
| LightReader.CsvReader.Reset | src/Spyrit/LightCsv/CsvReader.php:98-101 | exactly `rewind()`'s outcome: opens if needed, key 0, the first record current, the handle just past it, and the remaining rows are all records from the start of the file |
| LightReader.CsvReader.GetRow | src/Spyrit/LightCsv/CsvReader.php:82-91 | when valid, returns the head of the remaining rows and leaves exactly `next()`'s state: key + 1, the next record current, the handle past it; without a handle the key still goes up before the throw; when not valid, false and nothing changes |
| LightReader.UntilEmpty | tests/Spyrit/LightCsv/Tests/Csv/CsvReaderTest.php:206-208 | what `while ($row = ...)` keeps of a sequence of rows: the longest prefix of non-empty rows, since PHP's test fails on an empty array as on false |
| LightReader.DrainByGetRow | tests/Spyrit/LightCsv/Tests/Csv/CsvReaderTest.php:206-208 | repeated `getRow()` on an open reader collects the rows iteration had left, in order, up to the first false or empty array |
| LightReader.ReadByGetRow | tests/Spyrit/LightCsv/Tests/Csv/CsvReaderTest.php:204-208 | `reset()` then the `getRow()` walk yields the records from the start of the file up to the first empty one, which is every row a foreach yields when no record is empty; it fails exactly when the open fails |
| LightReader.CsvReader.Count | src/Spyrit/LightCsv/CsvReader.php:153-169 | the number of non-empty lines of the whole file; the handle is left at end of file; key and current row are untouched |
| LegacyReader.CsvReader.constructor | src/Spyrit/Csv/CsvReader.php:37-41 | the parent's settings, mode "rb", key 0 and an empty current row |
| LegacyReader.CsvReader.HasCurrent | src/Spyrit/Csv/CsvReader.php:98-101 | `valid()`: the current row is not null; `ForeachStopsWhenExhausted` ties it to the rows left |
| LegacyReader.CsvReader.Current | src/Spyrit/Csv/CsvReader.php:72-75 | `current()`: the current row |
| LegacyReader.CsvReader.Key | src/Spyrit/Csv/CsvReader.php:77-80 | `key()`: the position |
| LegacyReader.CsvReader.Next | src/Spyrit/Csv/CsvReader.php:82-86 | key + 1 exactly; the next decoded record becomes current; a valid reader's remaining rows lose their head |
| LegacyReader.CsvReader.Rewind | src/Spyrit/Csv/CsvReader.php:88-96 | without a handle, InvalidArgument and nothing changes; otherwise key 0 and the remaining rows are all records from the start of the file |
| LegacyReader.ForeachStopsWhenExhausted | src/Spyrit/Csv/CsvReader.php:98-101 | bridge lemma: `valid()` fails exactly when no rows remain, so a foreach stops at the end of the rows `rewind` and `next` describe |
| LegacyWriter.CsvWriter.constructor | src/Spyrit/Csv/CsvWriter.php:26-31 | the parent's settings, mode "wb", and useBom as a boolean cast |
| LegacyWriter.CsvWriter.SetUseBom | src/Spyrit/Csv/CsvWriter.php:48-53 | stores the boolean cast and returns the same object |
| LegacyWriter.CsvWriter.WriteBom | src/Spyrit/Csv/CsvWriter.php:60-68 | appends `BomFor(useBom, encoding)` to the open handle |
| LegacyWriter.CsvWriter.AddLine | src/Spyrit/Csv/CsvWriter.php:149-156 | opens if needed and fails without a usable name; otherwise appends the row's line and nothing else |
| LegacyWriter.CsvWriter.AddLines | src/Spyrit/Csv/CsvWriter.php:164-171 | either the first open fails and nothing is written, or the file receives every row's line in input order |
| LightWriter.CsvWriter.constructor | src/Spyrit/LightCsv/CsvWriter.php:31-35 | the parent's settings and mode "wb"; the useBom argument is dropped, so useBom stays false |
| LightWriter.CsvWriter.Open | src/Spyrit/LightCsv/CsvWriter.php:43-49 | the parent's open, then exactly the BOM rule's bytes on the new handle; with useBom false, which every LightCsv writer has, nothing is written beyond the parent's open |
| LightWriter.CsvWriter.WriteRow | src/Spyrit/LightCsv/CsvWriter.php:112-119 | opens through `openFile`, so no BOM; otherwise appends the whole line converted from UTF-8 |
| LightWriter.CsvWriter.WriteRows | src/Spyrit/LightCsv/CsvWriter.php:128-135 | every row is written once, in input order, or the first open fails and nothing is written |

## Left out

- `fgetcsv` tokenisation is a parameter (`Streams.Fgetcsv`), because its code is not part of this model. `Streams.ReadCsv` assumes each call consumes at least one line.
- fopen, fclose, fwrite, feof, fgets and rewind act on `Streams.Stream`. Bytes written before a close cannot be observed after it, and file contents are not shared between handles.
- iconv and mbstring are uninterpreted functions. The runtime probes and their static caches are left out: foreign calls and environment sniffing become the `Backends` flags.
- `LightCsv\CsvReader` uses a `Spyrit\LightCsv\Utility\Converter` and `LightCsv\CsvWriter` calls `$this->convertEncoding`. Neither is part of this model; both are taken to be `Spyrit\Csv\Utility\Converter::convertEncoding`.
- `writeBom` is not defined in the LightCsv classes. `LightWriter.CsvWriter.Open` uses the older writer's rule.
- `Spyrit\Csv\AbstractCsv` is not part of this model. The older reader and writer are built on the LightCsv `AbstractCsv`, which they use by the same member names.
- `createHttpHeaders` sends `header()` output and is left out.
- The destructor and garbage-collected handle release are left out.
- Exception messages are left out, including the swapped `strpos` arguments that pick the message's wording. Every exception is `InvalidArgument`.
- The getters of `Dialect` and `AbstractCsv` (`getDelimiter`, `getTranslit`, `getFilename` and so on) are plain field reads of the Dafny classes, not separate members.
- PHP's loose `==` in `switch`, so that `setLineEndings(0)` or `setLineEndings(true)` would match "unix", is left out. Only strings and null are compared exactly.
- `setLineEndings` has three `default:` labels, which only PHP 5 accepts. It is modelled as "unrecognised input gives \r\n", which is what PHP 5 does with the last label.
- The documented Excel preset has skip_empty_lines off, but `createExcelDialect` turns it on (src/Spyrit/LightCsv/Dialect.php:176). The model follows the code.
- The LightCsv tests describe behaviour the source does not have. All of it is left out:
  - enclosing modes and `escape_double`;
  - trim and skip_empty_lines on read or write;
  - BOM stripping on read, and a BOM written by the LightCsv writer: its constructor hands `$useBom` to a parent that ignores it, so the writer never writes one;
  - encoding detection;
  - constructors that take a `Dialect`;
  - closing the old handle when `open` is called again: `openFile` overwrites the handle without closing it (src/Spyrit/LightCsv/AbstractCsv.php:246), and `CsvBase.Opened` does the same.
  The writers always enclose.
- `AbstractCsv` setters take a string or null (`Option<Bytes>`). Other PHP types are not modelled for these setters; `Dialect`'s setters take any `Value`.
- `LightDialect.Dialect.SetTranslit`: for a non-string argument, PHP's `strtolower` casts first. No int or bool casts to "translit" or "ignore", so the model returns null directly.
- `Streams.Fgetcsv` may return an empty field list, although PHP's `fgetcsv` never does: it gives a blank line as one null field. Null fields are not modelled. `LightReader.ReadByGetRow` therefore equals the foreach rows only when no record is empty, and says so.
- `RowCodec.ParseWrittenLine`: stated only for single-byte delimiter and enclosure, a UTF-8 target and fields without the enclosure byte. The reference tokenizer `ParseLine` does not cover more.
- `LightReader.CsvReader.Count`: a line counts when `fgets` returns something other than "". The final `fgets` that hits end of file returns `false` before `feof` turns true; it is not counted because `false != ''` is false under PHP's loose comparison. The model's handle has no such extra read.
