# go-i18nscan term extraction, modelled in Dafny

go-i18nscan scans Go sources for calls to translation functions (`t`,
`i18n.T`, `Translate`, or the names listed in `ci.yaml`) and collects the
Chinese string literals passed to them. The scanner's external Go parser
produces call records: a function name and the raw argument tokens. This
project models what happens to those records:

- which calls count as translation calls;
- how quotes are stripped from a literal;
- how a text is judged to contain Chinese. The rule counts UTF-16 code units
  inside configured ranges against a minimum.
- how occurrences are collected per file and per batch, with an error
  entry for each file that fails;
- how duplicate texts are merged into one entry with a list of locations;
- how terms that already have a translation are filtered out;
- how the `ci.yaml` document is validated, and how defaults are filled in;
- how the output document is built, including the projection without
  locations, the format choice and the CSV text.

Files:

- `js_value.dfy`: JavaScript values as parsed data, with truthiness,
  property lookup, `String()` and `trim`.
- `extractor_config.dfy`: the settings the extractor reads from its
  configuration, and how its constructor builds them (with the TypeErrors
  it can throw).
- `script_detector.dfy`: `containsChinese`.
- `function_matcher.dfy`: `buildFunctionPatterns` and `isI18nFunction`.
- `literal_resolver.dfy`: `extractChineseFromLiteral`,
  `extractChineseFromNode` and `extractChineseFromBinaryExpr`.
- `terms.dfy`: the term record.
- `deduplicator.dfy`: `deduplicateTerms`.
- `term_extractor.dfy`: `extractChineseFromArgs`, `extractFromAst` and
  `extractFromMultipleFiles`.
- `translation_filter.dfy`: `isTermTranslated` and
  `filterUntranslatedTerms`.
- `config_manager.dfy`: the `ConfigManager` class, with validation and
  getters.
- `output_writer.dfy`: `outputResults` (data and format choice) and
  `outputCsv`.

Where the tests and the code disagree, the model follows the code:

- `extractFromAst` reads `calls`, not `callExprs`.
- Function names are matched case-sensitively.
- Arguments are resolved from raw tokens by `extractChineseFromLiteral`.
- Deduplication reads the raw `output_config.deduplicate` flag, so a
  missing key means no merging.
- Merging removes only `file` and `position`.
- `isTermTranslated` returns a falsy own translation as it is, so
  `isTermTranslated('空翻译', {'空翻译': ''})` gives `''`, where
  test/chineseExtractor.test.js:327 expects `false`. The filter negates the
  result, so only its truthiness matters there.

## Model

| member | source | states |
|---|---|---|
| ExtractorConfig.EntryNames | src/chineseExtractor.js:38 | `map(f => f.name)` succeeds iff no entry is null or undefined, and then gives each entry's `name` in order |
| ExtractorConfig.NameStrings | src/chineseExtractor.js:41-42 | `name.replace` succeeds for every name iff every name is a string, and then gives those strings in order |
| ExtractorConfig.FunctionNamesOf | src/chineseExtractor.js:38-42 | the defaults iff `i18n_functions` is null or undefined; a TypeError iff it is anything else but an array, or some entry is nullish or has a non-string `name`; otherwise exactly the entries' names |
| ExtractorConfig.SettingsOf | src/chineseExtractor.js:9-47 | building the extractor throws iff the configuration is nullish, `unicode_ranges` is truthy but not an array, or the function names throw; otherwise the ranges, the effective threshold (absent or 0 becomes 1), the names and the raw `deduplicate` flag are those the configuration gives |
| ScriptDetector.ContainsChinese | src/chineseExtractor.js:191-199 | only a non-empty string can qualify, and only when at least one of its UTF-16 code units lies in a configured range |
| ScriptDetector.CountIsIndexSet | src/chineseExtractor.js:194-198 | the number compared with the threshold is the number of positions whose code unit lies in a range |
| ScriptDetector.Utf16OfBmp | src/chineseExtractor.js:194 | text of the Basic Multilingual Plane is scanned as one code unit per character, equal to its code point |
| ScriptDetector.TargetCountOfBmpText | src/chineseExtractor.js:194-198 | for such text, the number compared with the threshold is the number of characters that lie in a range |
| ScriptDetector.ThresholdTwo | test/chineseExtractor.test.js:59-72 | with `min_chinese_chars: 2` and the ideograph ranges, "你" is rejected and "你好" is accepted |
| ScriptDetector.DefaultThresholdIsOneUnit | src/chineseExtractor.js:197-198 | with `min_chinese_chars` missing or 0, one in-range code unit anywhere is necessary and sufficient |
| ScriptDetector.NoTargetUnitsRejected | src/chineseExtractor.js:194-195 | a text without any in-range unit is rejected whatever the threshold (no match means false) |
| ScriptDetector.ContainsChineseConcat | src/chineseExtractor.js:179-180 | qualification survives concatenation on either side, so the re-check of a joined binary expression always passes |
| ScriptDetector.DefaultRangesMissAstral | src/chineseExtractor.js:19-27 | under the default ranges (4E00-9FFF, 3400-4DBF, F900-FAFF, no `u` flag) text made of characters below U+3400 or outside the BMP is never detected |
| ScriptDetector.Utf16Append | src/chineseExtractor.js:194 | the UTF-16 encoding the regex scans distributes over concatenation |
| ScriptDetector.CountZeroIff | src/chineseExtractor.js:194-195 | the match count is zero iff no code unit lies in a range |
| FunctionMatcher.BuildFunctionPatterns | src/chineseExtractor.js:34-47 | one anchored exact pattern per configured name (defaults `t`, `i18n.T`, `Translate`), each accepting its own name |
| FunctionMatcher.IsI18nFunction | src/chineseExtractor.js:76-80 | a name is accepted iff it is truthy and its `String()` form is one of the configured names |
| FunctionMatcher.PatternsMatchIff | src/chineseExtractor.js:79 | some pattern accepts a string iff that string is a configured name |
| FunctionMatcher.IsI18nFunctionExact | src/chineseExtractor.js:76-80 | a string name is accepted iff it is non-empty and exactly, case-sensitively, one of the configured names |
| FunctionMatcher.DefaultFunctions | src/chineseExtractor.js:38 | without configured names `t`, `i18n.T`, `Translate` match; `i18n.t`, `translate`, `X.i18n.T`, "" and null do not |
| LiteralResolver.ExtractChineseFromLiteral | src/chineseExtractor.js:146-162 | returns text only for a non-empty string token; the text is the token without one pair of matching quotes, and it is returned iff it passes `containsChinese` |
| LiteralResolver.StripQuotesRoundTrip | src/chineseExtractor.js:151-155 | exactly one layer of `"…"` or `'…'` comes off |
| LiteralResolver.StripQuotes | src/chineseExtractor.js:150-154 | a token of two or more characters quoted with `"` or `'` is the result wrapped in that quote; a lone quote gives ""; backtick-quoted, mismatched and unquoted tokens are left as they are |
| LiteralResolver.LiteralOfQuotedString | src/chineseExtractor.js:146-162 | a quoted literal yields its contents iff they contain Chinese |
| LiteralResolver.ExtractChineseFromNode | src/chineseExtractor.js:115-139 | a null node and an `Ident` give nothing; any text returned passes `containsChinese` |
| LiteralResolver.FirstChildText | src/chineseExtractor.js:130-137 | another node gives the result of the first child that yields text, and nothing iff no child does |
| LiteralResolver.ExtractChineseFromBinaryExpr | src/chineseExtractor.js:169-184 | fewer than two children give nothing; any text returned passes `containsChinese` |
| LiteralResolver.BinaryExprResolution | src/chineseExtractor.js:175-183 | both sides resolved give left+right; otherwise the side that resolved; neither gives nothing |
| TermExtractor.ExtractChineseFromArgs | src/chineseExtractor.js:88-108 | for an array, the occurrences of `ArgOccurrences`; for anything else, the TypeError of `args.forEach` |
| TermExtractor.ArgOccurrencesSound | src/chineseExtractor.js:91-104 | every occurrence records the index of an argument that yields exactly its text, the file, position {0,0} and the timestamp |
| TermExtractor.ArgOccurrencesComplete | src/chineseExtractor.js:91-93 | every argument that yields text produces an occurrence |
| TermExtractor.ArgOccurrencesOrdered | src/chineseExtractor.js:91 | occurrences appear in strictly increasing argument order |
| TermExtractor.CallOccurrences | src/chineseExtractor.js:61-66 | a call contributes terms only when its name is accepted; it throws iff the element is null or undefined, or is accepted with a non-array `args` |
| TermExtractor.AstTerms | src/chineseExtractor.js:54-69 | a missing, non-array or empty `calls` never throws |
| TermExtractor.ExtractFromAst | src/chineseExtractor.js:54-69 | `[]` when `calls` is missing or not an array; otherwise equals `AstTerms`: accepted calls' occurrences in call order, or the first error thrown |
| TermExtractor.AstOccurrencesAppend | src/chineseExtractor.js:61-66 | the result over a concatenated call list is the two parts' results joined, with the first error winning |
| TermExtractor.OtherCallsContributeNothing | src/chineseExtractor.js:62 | removing a call whose name is not accepted leaves the result unchanged |
| TermExtractor.AstTermsFresh | src/chineseExtractor.js:54-69 | every term returned passes `containsChinese` and carries the file, a non-negative argument index, position {0,0}, the timestamp and no locations |
| TermExtractor.ExtractFromMultipleFiles | src/chineseExtractor.js:206-244 | totalFiles = input length; successFiles + errorFiles = totalFiles = successes + `errors` length; totalTerms is the pre-merge count; errors are the per-file errors in order; terms are merged iff the raw flag is truthy |
| TermExtractor.BatchAppend | src/chineseExtractor.js:216-237 | files are processed independently: terms, errors and success count of a concatenation are those of the parts joined or added |
| TermExtractor.FailureIsolated | src/chineseExtractor.js:230-236 | a file the parser failed on adds exactly one error with its file and message, and no terms |
| TermExtractor.BatchCountsPartition | src/chineseExtractor.js:216-237 | each file is counted either as a success or as one error entry |
| TermExtractor.BatchTermsFresh | src/chineseExtractor.js:217-222 | every collected term is an occurrence from some successfully processed file |
| Deduplicator.DeduplicateTerms | src/chineseExtractor.js:251-285 | the input unchanged when the raw flag is falsy, otherwise exactly `Deduplicated(terms)` |
| Deduplicator.FindByText | src/chineseExtractor.js:266 | the index of the first entry with that text, or -1 when there is none |
| Deduplicator.Deduplicated | src/chineseExtractor.js:259-282 | one entry per distinct text, the i-th entry carrying the i-th distinct text in order of first appearance |
| Deduplicator.DeduplicatedOrder | src/chineseExtractor.js:259-264 | the result has distinct texts, the same set of texts as the input, and lists them in order of first appearance |
| Deduplicator.DistinctTextsFirstAppearance | src/chineseExtractor.js:259-264 | a text listed later first appears in the input after every earlier-listed text |
| Deduplicator.DeduplicatedEntry | src/chineseExtractor.js:266-281 | an entry seen once is that term untouched; one seen k ≥ 2 times (first sighting without `locations`) is that first term without file or position, carrying k locations in input order |
| Deduplicator.MergedShape | src/chineseExtractor.js:267-281 | merging k ≥ 2 occurrences keeps every field of the first except file and position, and lists every occurrence's location in order |
| Deduplicator.DeduplicatedSnoc | src/chineseExtractor.js:259-282 | adding a term with a new text appends it; adding a seen text adds its location to the existing entry and changes nothing else |
| Deduplicator.DistinctTermsUnchanged | src/chineseExtractor.js:259-264 | input with no repeated text is returned unchanged |
| Deduplicator.DeduplicateIdempotent | src/chineseExtractor.js:251-285 | merging an already merged list changes nothing |
| TranslationFilter.TranslatedInObject | src/chineseExtractor.js:293-301 | for an object, a term is translated iff it is an own key whose value is a string with a non-whitespace character; the call throws iff that value is truthy but not a string |
| TranslationFilter.TermTranslatedValue | src/chineseExtractor.js:293-301 | a truthy result is `true`, for a non-blank string translation only; a falsy result is `false` or the falsy own translation itself; it throws only on object data, with one of the two TypeErrors |
| TranslationFilter.EmptyTranslationReturnedAsIs | src/chineseExtractor.js:298-300 | a key holding `''` gives `''` (test/chineseExtractor.test.js:327 expects `false`), which the filter still reads as untranslated |
| TranslationFilter.IsTermTranslated | src/chineseExtractor.js:293-301 | the truthiness of the result: true only for object data holding the term as an own key whose value is a string with a non-whitespace character; it throws only on object data, and only one of the two TypeErrors |
| TranslationFilter.NonObjectTranslatesNothing | src/chineseExtractor.js:294-296 | null, undefined and primitive data translate nothing |
| TranslationFilter.ArrayTranslatesNoChinese | src/chineseExtractor.js:298 | an array's own keys (indices and `length`) never equal a text with a non-ASCII character |
| TranslationFilter.ArrayIndex | src/chineseExtractor.js:298 | finds the array index a key names exactly when the key is the decimal form of an index in range |
| TranslationFilter.KeepUntranslated | src/chineseExtractor.js:316 | the filter never lengthens the list, and any error it throws is one of `isTermTranslated` |
| TranslationFilter.KeepUntranslatedExact | src/chineseExtractor.js:316 | the filter completes iff no check throws, and then keeps exactly the untranslated terms |
| TranslationFilter.KeepUntranslatedAppend | src/chineseExtractor.js:316 | filtering a concatenation filters each part in order, so the original order is kept |
| TranslationFilter.KeepUntranslatedIdempotent | src/chineseExtractor.js:316 | filtering the filtered list again changes nothing |
| TranslationFilter.KeepAllUntranslated | src/chineseExtractor.js:316 | a list without translated terms passes through unchanged |
| TranslationFilter.FilterUntranslatedTerms | src/chineseExtractor.js:309-321 | every term when the path is missing, the file is absent or unreadable, or a check throws; otherwise exactly the untranslated terms, in their original order |
| TranslationFilter.FilterWithObject | src/chineseExtractor.js:309-321 | with a JSON object, the kept terms are those without a non-blank string translation, or all terms if some translation is a truthy non-string |
| ConfigManager.ConfigManager.constructor | src/configManager.js:10-13 | no document is loaded yet (`config` is null) |
| ConfigManager.ConfigManager.ValidateConfig | src/configManager.js:67-100 | reports exactly `ValidationError(config)`, after the warnings of `ValidationWarnings(config)` |
| ConfigManager.ConfigManager.Load | src/configManager.js:43-62 | stores the parsed document, then fails with the prefixed validation message or returns the document; `getConfig` afterwards returns it whenever it is truthy |
| ConfigManager.ConfigManager.GetConfig | src/configManager.js:145-150 | throws the not-loaded message iff the stored document is falsy, and otherwise returns it |
| ConfigManager.ConfigManager.GetI18nFunctions | src/configManager.js:156-162 | throws iff no document is loaded; otherwise the configured list as it is when truthy, and the default list (`t`, `i18n.T`) when falsy |
| ConfigManager.ConfigManager.GetScanConfig | src/configManager.js:168-176 | each of the three lists is the configured value when truthy and its default (`./src`; `./vendor`, `./node_modules`; `.go`) otherwise; `recursive` is off iff configured as the literal `false` |
| ConfigManager.ConfigManager.GetTranslatedFiles | src/configManager.js:182-185 | the configured map as it is when truthy, `{}` otherwise |
| ConfigManager.ConfigManager.GetOutputConfig | src/configManager.js:191-199 | file and format are the configured values when truthy, `./extracted_terms.json` and `json` otherwise; `include_location` and `deduplicate` are off iff configured as the literal `false` |
| ConfigManager.ConfigManager.GetChineseDetectionConfig | src/configManager.js:205-216 | ranges and threshold are the configured values when truthy, the three default ranges and 1 otherwise; `ignore_numbers_only` is off iff configured as the literal `false` |
| ConfigManager.ConfigManager.GetTranslatedFilePath | src/configManager.js:223-226 | the language defaults to `zh_cn`; the result is the entry of `getTranslatedFiles()` for it when truthy, and null otherwise |
| ConfigManager.ValidationError | src/configManager.js:67-100 | a non-object document gives the invalid-format message; a truthy non-array `i18n_functions` gives the array message; an entry error gives the first failing entry's message; after those pass, a truthy non-array `scan_config.source_dirs` gives the `source_dirs` message; no other message is possible |
| ConfigManager.ValidationAcceptsIff | src/configManager.js:67-100 | accepted iff an object-typed document whose truthy `i18n_functions` is an array of entries with truthy `name`, and whose truthy `scan_config.source_dirs` is an array |
| ConfigManager.FirstEntryErrorIsFirst | src/configManager.js:86-90 | the entry check fails iff some entry fails, and then reports the lowest failing index |
| ConfigManager.MissingNameReported | src/configManager.js:86-90 | in any document whose `i18n_functions` has valid entries and then one without `name`, that entry is reported with its own index |
| ConfigManager.MissingSectionsOnlyWarn | src/configManager.js:73-78 | missing `i18n_functions` and `scan_config` produce two warnings and no error |
| ConfigManager.NonObjectRejected | src/configManager.js:68-70 | a primitive or undefined document is rejected before any warning |
| ConfigManager.GettersOnBareDocument | src/configManager.js:156-226 | an object document without any of the five sections yields every documented default; the default language's path is null |
| ConfigManager.OnlyLiteralFalseDisables | src/configManager.js:174-214 | in any object document, `recursive`, `include_location`, `deduplicate` and `ignore_numbers_only` are off iff configured as the literal `false`; 0, "" and null leave them on |
| ConfigManager.ThresholdAgreesWithExtractor | src/configManager.js:213 | for any loaded document whose threshold is an integer or absent, the getter's threshold equals the extractor's effective one (0 and absent become 1) |
| ConfigManager.ConstructionThrowsAfterValidation | src/configManager.js:81-90 | documents that validation accepts can still make the extractor throw: `i18n_functions: false`, a numeric `name`, and a string `unicode_ranges` |
| ConfigManager.DefaultFunctionListsDiffer | src/configManager.js:158-161 | in any document without `i18n_functions`, the getter's list has only `t` and `i18n.T`, while the extractor's default also has `Translate` |
| ConfigManager.RawDedupFlagDiffers | src/configManager.js:197 | without `output_config` the getter reports deduplication on, while the raw flag the extractor reads is falsy |
| ConfigManager.TranslatedFilePathDefaults | src/configManager.js:223 | an omitted language gives the same result as `zh_cn` |
| ConfigManager.TranslatedFilePathOf | src/configManager.js:223-226 | for any object document whose `translated_files` is an object and any language, the path is that language's entry when truthy and null otherwise |
| OutputWriter.OutputDataOf | src/index.js:145-155 | `totalTerms` is the number of terms; with locations the terms are unchanged, without them each keeps only text and timestamp, in the same order |
| OutputWriter.ShortFormStable | src/index.js:151-154 | reducing to the short form twice is the same as once |
| OutputWriter.SelectFormat | src/index.js:142-176 | a format is chosen only for a missing, empty or string format; CSV and YAML only for names that lower-case to `csv` and `yaml`; JSON for `json` or a missing format |
| OutputWriter.FormatDefault | src/index.js:142 | a missing or empty format means JSON |
| OutputWriter.FormatCaseInsensitive | src/index.js:161-176 | a format name selects the same format as its lower-case spelling; an unknown name is reported as written |
| OutputWriter.FormatNotAString | src/index.js:161 | a truthy non-string format throws |
| OutputWriter.SelectFormatOfConfig | src/index.js:142-167 | in any loaded document whose `output_config.format` is a string spelled `csv` in any case, CSV output is selected |
| OutputWriter.GetterFormatAgrees | src/index.js:142 | choosing from the getter's format (already defaulted to `json`) gives the same outcome as choosing from the raw configured value |
| OutputWriter.OutputCsv | src/index.js:188-204 | the text is the header line followed by one `CsvRow` per term, joined by line breaks |
| OutputWriter.CsvRow | src/index.js:193-200 | a row is the quoted text field followed by a comma and the other four fields |
| OutputWriter.TextFieldRoundTrip | src/index.js:194 | undoing the quote doubling in the first field recovers the term's text exactly, and leaves the rest of the row |
| OutputWriter.ReadQuotedBodyRoundTrip | src/index.js:194 | reading back a doubled-quote body gives the original text and the rest of the line |
| OutputWriter.SplitJoin | src/index.js:203 | splitting lines joined by `\n` gives the lines back when none contains a line break |
| OutputWriter.CsvLines | src/index.js:189-203 | without line breaks in fields, the text has exactly 1 + (number of terms) lines, the header first |
| OutputWriter.FalsyFieldsPrintEmpty | src/index.js:195-198 | position {0,0} and a missing position both print `"-"`; argument index 0 prints like a missing one; a merged term's file prints as `"undefined"` |

## Left out

- Reading files, parsing YAML and JSON, writing output, console messages
  and the CLI are not modelled. The parsed documents and the outcomes of
  file-system checks are inputs.
- src/goAstParser.js is not part of this model. Its call records are
  inputs: a `function` name and an `args` array of raw tokens.
- `new Date().toISOString()` is not modelled. The timestamp is a string
  parameter, and one value serves the whole batch: `ExtractFromMultipleFiles`
  passes the same `now` to every file. The source reads the clock once per
  occurrence (src/chineseExtractor.js:102), so its occurrences may carry
  different times.
- The regex source strings are not modelled. `unicode_ranges` is a list of
  code-unit pairs, so malformed or inverted range strings (which make
  `new RegExp` throw) have no counterpart. Function patterns are exact
  string equality, which assumes names hold no regex metacharacter other
  than `.`.
- `ExtractorConfig.SettingsOf`: the code-unit ranges of a configured
  `unicode_ranges` array are a parameter, for the reason above. It also
  requires a threshold that is absent, falsy or a number: JavaScript
  compares a string or boolean threshold loosely, which the model does not
  express. The rest of the model takes `Settings` as a parameter, so
  `FunctionMatcher.BuildFunctionPatterns` and the code that uses it assume
  that construction succeeded.
- Lone surrogates cannot occur in a Dafny `string`, so text holding one is
  not modelled.
- Numbers are integers. Fractions, NaN and exponent notation in `String()`
  are not modelled.
- Messages of TypeErrors follow V8's wording.
- `extractFromMultipleFiles` assumes every successful parse result has an
  `ast`. A success entry without one is not modelled.
- `deduplicateTerms` mutates the term objects it merges, and so the
  caller's array. The model returns new values, so aliasing between input
  and output is not modelled.
- The `isTermTranslated` own-key lookup ignores the prototype.
  `getTranslatedFilePath` likewise reads only an object's own fields, so
  inherited names such as `constructor` and array indices give null.
- `SelectFormat` folds only ASCII letters in `toLowerCase`. No other
  character lowercases to a letter of `json`, `csv` or `yaml`, so the
  choice of format is the same.
- `resolveRelativePaths`, `findConfigFile`, `createDefaultConfig` and
  `validateConfigFile` depend on the file system and `path`. They are not
  modelled, and `Load` stores the document as parsed.
- `ConfigManager.ConfigManager.Load`: the failure path of
  `resolveRelativePaths` is lost with it. In the source, a truthy
  non-array `exclude_dirs` such as `"./vendor"` makes `.map` throw
  (src/configManager.js:126-127), and a non-string path makes
  `path.isAbsolute` throw. `loadConfig` then fails with the
  `加载配置文件失败: ` prefix (src/configManager.js:56, 60), while `Load`
  succeeds.
