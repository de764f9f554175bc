/** The configuration manager: it holds the parsed `ci.yaml` document,
    validates it, and answers the scanner's questions about it with the
    documented defaults filled in. Reading and parsing the file is outside
    the model; `Load` receives the parsed document. */
module ConfigManager {
  import opened JsValue
  import opened ExtractorConfig

  const InvalidFormatMessage: string := "配置文件格式无效"
  const FunctionsNotArrayMessage: string := "i18n_functions 必须是数组格式"
  const SourceDirsNotArrayMessage: string := "scan_config.source_dirs 必须是数组格式"
  const NotLoadedMessage: string := "配置尚未加载，请先调用 loadConfig()"
  const LoadFailedPrefix: string := "加载配置文件失败: "

  function MissingNameMessage(index: nat): string {
    "i18n_functions[" + NatToString(index) + "] 缺少 name 字段"
  }

  function MissingSectionWarning(section: string): string {
    "警告: 缺少配置节 '" + section + "'，将使用默认值"
  }

  /** The sections whose absence is only warned about, in checking order. */
  const RequiredSections: seq<string> := ["i18n_functions", "scan_config"]

  /** The document passes the first check: it is a truthy value of object
      type (an object or an array). */
  predicate WellFormedDocument(config: Value) {
    Truthy(config) && IsObjectType(config)
  }

  /** One warning per listed section the document leaves falsy. */
  function SectionWarnings(config: Value, sections: seq<string>): seq<string> {
    if sections == [] then []
    else
      var n := |sections| - 1;
      SectionWarnings(config, sections[..n]) +
      (if Truthy(Get(config, sections[n])) then [] else [MissingSectionWarning(sections[n])])
  }

  /** The warnings `validateConfig` prints before it reaches any error. */
  function ValidationWarnings(config: Value): seq<string> {
    if WellFormedDocument(config) then SectionWarnings(config, RequiredSections) else []
  }

  /** What checking one `i18n_functions` entry throws, if anything. */
  function EntryError(func: Value, index: nat): Option<string> {
    if func.Undef? || func.Null? then Some(ReadPropertyError(func, "name"))
    else if !Truthy(Get(func, "name")) then Some(MissingNameMessage(index))
    else None
  }

  /** The error of the first failing entry at or after `from`. */
  function FirstEntryError(entries: seq<Value>, from: nat): Option<string>
    decreases |entries| - from
  {
    if from >= |entries| then None
    else if EntryError(entries[from], from).Some? then EntryError(entries[from], from)
    else FirstEntryError(entries, from + 1)
  }

  /** The message `validateConfig` throws, or None when it returns: the
      format message for anything but a truthy object or array, and
      otherwise the array message for `i18n_functions`, the error of one of
      its entries, or the `source_dirs` message. */
  function ValidationError(config: Value): (r: Option<string>)
    ensures !WellFormedDocument(config) ==> r == Some(InvalidFormatMessage)
    ensures r.Some? && WellFormedDocument(config) ==>
      || r.value == FunctionsNotArrayMessage
      || r.value == SourceDirsNotArrayMessage
      || (Get(config, "i18n_functions").Arr?
          && exists i :: 0 <= i < |Get(config, "i18n_functions").elems|
               && r == EntryError(Get(config, "i18n_functions").elems[i], i))
    ensures WellFormedDocument(config) && Truthy(Get(config, "i18n_functions"))
            && !Get(config, "i18n_functions").Arr? ==>
      r == Some(FunctionsNotArrayMessage)
    ensures WellFormedDocument(config) && Get(config, "i18n_functions").Arr?
            && FirstEntryError(Get(config, "i18n_functions").elems, 0).Some? ==>
      r == FirstEntryError(Get(config, "i18n_functions").elems, 0)
    ensures WellFormedDocument(config)
            && (!Truthy(Get(config, "i18n_functions"))
                || (Get(config, "i18n_functions").Arr? && FirstEntryError(Get(config, "i18n_functions").elems, 0).None?))
            && Truthy(Get(config, "scan_config"))
            && Truthy(Get(Get(config, "scan_config"), "source_dirs"))
            && !Get(Get(config, "scan_config"), "source_dirs").Arr? ==>
      r == Some(SourceDirsNotArrayMessage)
  {
    if !WellFormedDocument(config) then Some(InvalidFormatMessage)
    else
      var functions := Get(config, "i18n_functions");
      if Truthy(functions) && !functions.Arr? then Some(FunctionsNotArrayMessage)
      else if Truthy(functions) && FirstEntryError(functions.elems, 0).Some? then
        FirstEntryErrorIsFirst(functions.elems, 0);
        FirstEntryError(functions.elems, 0)
      else
        var sourceDirs := Get(Get(config, "scan_config"), "source_dirs");
        if Truthy(Get(config, "scan_config")) && Truthy(sourceDirs) && !sourceDirs.Arr? then
          Some(SourceDirsNotArrayMessage)
        else None
  }

  /** The configuration `getScanConfig` returns. */
  datatype ScanConfig = ScanConfig(sourceDirs: Value, excludeDirs: Value, fileExtensions: Value, recursive: bool)

  /** The configuration `getOutputConfig` returns. */
  datatype OutputConfig = OutputConfig(outputFile: Value, format: Value, includeLocation: bool, deduplicate: bool)

  /** The configuration `getChineseDetectionConfig` returns. */
  datatype DetectionConfig = DetectionConfig(unicodeRanges: Value, minChineseChars: Value, ignoreNumbersOnly: bool)

  /** `configured || fallback` as a getter returns it: the configured value
      itself when it is truthy, the documented default otherwise. */
  predicate FilledIn(result: Value, configured: Value, fallback: Value) {
    (Truthy(configured) ==> result == configured) && (!Truthy(configured) ==> result == fallback)
  }

  function StrList(items: seq<string>): (r: Value)
    ensures r.Arr? && |r.elems| == |items|
    ensures forall i :: 0 <= i < |items| ==> r.elems[i] == Str(items[i])
  {
    Arr(seq(|items|, i requires 0 <= i < |items| => Str(items[i])))
  }

  function FunctionEntry(name: string, description: string): Value {
    Obj(map["name" := Str(name), "description" := Str(description)])
  }

  const DefaultI18nFunctions: Value :=
    Arr([FunctionEntry("t", "基础翻译函数"), FunctionEntry("i18n.T", "i18n包的翻译函数")])

  const DefaultSourceDirs: Value := StrList(["./src"])
  const DefaultExcludeDirs: Value := StrList(["./vendor", "./node_modules"])
  const DefaultFileExtensions: Value := StrList([".go"])
  const DefaultOutputFile: Value := Str("./extracted_terms.json")
  const DefaultFormat: Value := Str("json")
  const DefaultUnicodeRanges: Value := StrList(["\\u4e00-\\u9fff", "\\u3400-\\u4dbf", "\\uf900-\\ufaff"])
  const DefaultLanguage: string := "zh_cn"

  class ConfigManager {
    /** `this.config`: null until a document is loaded. */
    var config: Value

    constructor()
      ensures config == Null
    {
      config := Null;
    }

    /** `validateConfig()`: the first violated rule is reported; the
        warnings are those printed before returning or throwing. */
    method ValidateConfig() returns (error: Option<string>, warnings: seq<string>)
      ensures error == ValidationError(config)
      ensures warnings == ValidationWarnings(config)
    {
      if !Truthy(config) || !IsObjectType(config) {
        return Some(InvalidFormatMessage), [];
      }
      warnings := [];
      var s := 0;
      while s < |RequiredSections|
        invariant 0 <= s <= |RequiredSections|
        invariant warnings == SectionWarnings(config, RequiredSections[..s])
      {
        assert RequiredSections[..s + 1][..s] == RequiredSections[..s];
        var section := RequiredSections[s];
        if !Truthy(Get(config, section)) {
          warnings := warnings + [MissingSectionWarning(section)];
        }
        s := s + 1;
      }
      assert RequiredSections[..s] == RequiredSections;
      var functions := Get(config, "i18n_functions");
      if Truthy(functions) {
        if !functions.Arr? {
          return Some(FunctionsNotArrayMessage), warnings;
        }
        var index := 0;
        while index < |functions.elems|
          invariant 0 <= index <= |functions.elems|
          invariant FirstEntryError(functions.elems, 0) == FirstEntryError(functions.elems, index)
        {
          var func := functions.elems[index];
          if func.Undef? || func.Null? {
            return Some(ReadPropertyError(func, "name")), warnings;
          }
          if !Truthy(Get(func, "name")) {
            return Some(MissingNameMessage(index)), warnings;
          }
          index := index + 1;
        }
      }
      var scanConfig := Get(config, "scan_config");
      if Truthy(scanConfig) {
        var sourceDirs := Get(scanConfig, "source_dirs");
        if Truthy(sourceDirs) && !sourceDirs.Arr? {
          return Some(SourceDirsNotArrayMessage), warnings;
        }
      }
      error := None;
    }

    /** `loadConfig()` once the file has been read and parsed into `parsed`:
        the document is stored before it is validated, so it stays stored
        (and `getConfig` returns it, when truthy) even if validation fails. */
    method Load(parsed: Value) returns (r: Result<Value, string>, warnings: seq<string>)
      modifies this
      ensures config == parsed
      ensures r == match ValidationError(parsed)
                   case Some(e) => Err(LoadFailedPrefix + e)
                   case None => Ok(parsed)
      ensures warnings == ValidationWarnings(parsed)
      ensures GetConfig() == if Truthy(parsed) then Ok(parsed) else Err(NotLoadedMessage)
    {
      config := parsed;
      var error;
      error, warnings := ValidateConfig();
      if error.Some? {
        return Err(LoadFailedPrefix + error.value), warnings;
      }
      r := Ok(config);
    }

    /** `getConfig()` */
    function GetConfig(): (r: Result<Value, string>)
      reads this
      ensures r.Ok? <==> Truthy(config)
      ensures r.Ok? ==> r.value == config
      ensures r.Err? ==> r.error == NotLoadedMessage
    {
      if !Truthy(config) then Err(NotLoadedMessage) else Ok(config)
    }

    /** `getI18nFunctions()`: the configured list when truthy, else the
        two-entry default; never falsy. */
    function GetI18nFunctions(): (r: Result<Value, string>)
      reads this
      ensures r.Ok? <==> GetConfig().Ok?
      ensures r.Ok? ==> Truthy(r.value)
      ensures r.Ok? ==> FilledIn(r.value, Get(config, "i18n_functions"), DefaultI18nFunctions)
    {
      match GetConfig()
      case Err(e) => Err(e)
      case Ok(c) => Ok(Or(Get(c, "i18n_functions"), DefaultI18nFunctions))
    }

    /** `getScanConfig()`: each list is the configured one when truthy and
        the default otherwise, so never falsy; `recursive` is off only for a
        configured literal `false`. */
    function GetScanConfig(): (r: Result<ScanConfig, string>)
      reads this
      ensures r.Ok? <==> GetConfig().Ok?
      ensures r.Ok? ==> Truthy(r.value.sourceDirs) && Truthy(r.value.excludeDirs) && Truthy(r.value.fileExtensions)
      ensures r.Ok? ==>
        var scan := Get(config, "scan_config");
        && FilledIn(r.value.sourceDirs, Get(scan, "source_dirs"), DefaultSourceDirs)
        && FilledIn(r.value.excludeDirs, Get(scan, "exclude_dirs"), DefaultExcludeDirs)
        && FilledIn(r.value.fileExtensions, Get(scan, "file_extensions"), DefaultFileExtensions)
        && (!r.value.recursive <==> Get(scan, "recursive") == Bool(false))
    {
      match GetConfig()
      case Err(e) => Err(e)
      case Ok(c) =>
        var scan := Get(c, "scan_config");
        Ok(ScanConfig(
          Or(Get(scan, "source_dirs"), DefaultSourceDirs),
          Or(Get(scan, "exclude_dirs"), DefaultExcludeDirs),
          Or(Get(scan, "file_extensions"), DefaultFileExtensions),
          Get(scan, "recursive") != Bool(false)))
    }

    /** `getTranslatedFiles()`: the configured map when truthy, else an
        empty object; never falsy. */
    function GetTranslatedFiles(): (r: Result<Value, string>)
      reads this
      ensures r.Ok? <==> GetConfig().Ok?
      ensures r.Ok? ==> Truthy(r.value)
      ensures r.Ok? ==> FilledIn(r.value, Get(config, "translated_files"), Obj(map[]))
    {
      match GetConfig()
      case Err(e) => Err(e)
      case Ok(c) => Ok(Or(Get(c, "translated_files"), Obj(map[])))
    }

    /** `getOutputConfig()`: file and format are the configured ones when
        truthy and the defaults otherwise, so never falsy; each flag is off
        only for a configured literal `false`. */
    function GetOutputConfig(): (r: Result<OutputConfig, string>)
      reads this
      ensures r.Ok? <==> GetConfig().Ok?
      ensures r.Ok? ==> Truthy(r.value.outputFile) && Truthy(r.value.format)
      ensures r.Ok? ==>
        var output := Get(config, "output_config");
        && FilledIn(r.value.outputFile, Get(output, "output_file"), DefaultOutputFile)
        && FilledIn(r.value.format, Get(output, "format"), DefaultFormat)
        && (!r.value.includeLocation <==> Get(output, "include_location") == Bool(false))
        && (!r.value.deduplicate <==> Get(output, "deduplicate") == Bool(false))
    {
      match GetConfig()
      case Err(e) => Err(e)
      case Ok(c) =>
        var output := Get(c, "output_config");
        Ok(OutputConfig(
          Or(Get(output, "output_file"), DefaultOutputFile),
          Or(Get(output, "format"), DefaultFormat),
          Get(output, "include_location") != Bool(false),
          Get(output, "deduplicate") != Bool(false)))
    }

    /** `getChineseDetectionConfig()`: ranges and threshold are the
        configured ones when truthy and the defaults otherwise, so never
        falsy; `ignore_numbers_only` is off only for a literal `false`. */
    function GetChineseDetectionConfig(): (r: Result<DetectionConfig, string>)
      reads this
      ensures r.Ok? <==> GetConfig().Ok?
      ensures r.Ok? ==> Truthy(r.value.unicodeRanges) && Truthy(r.value.minChineseChars)
      ensures r.Ok? ==>
        var detection := Get(config, "chinese_detection");
        && FilledIn(r.value.unicodeRanges, Get(detection, "unicode_ranges"), DefaultUnicodeRanges)
        && FilledIn(r.value.minChineseChars, Get(detection, "min_chinese_chars"), Num(1))
        && (!r.value.ignoreNumbersOnly <==> Get(detection, "ignore_numbers_only") == Bool(false))
    {
      match GetConfig()
      case Err(e) => Err(e)
      case Ok(c) =>
        var detection := Get(c, "chinese_detection");
        Ok(DetectionConfig(
          Or(Get(detection, "unicode_ranges"), DefaultUnicodeRanges),
          Or(Get(detection, "min_chinese_chars"), Num(1)),
          Get(detection, "ignore_numbers_only") != Bool(false)))
    }

    /** `getTranslatedFilePath(language)`; None stands for an omitted
        argument, which means 'zh_cn'. The result is the truthy path that
        `getTranslatedFiles()` holds for that language, or null. */
    function GetTranslatedFilePath(language: Option<string>): (r: Result<Value, string>)
      reads this
      ensures r.Ok? <==> GetConfig().Ok?
      ensures r.Ok? ==> r.value.Null? || Truthy(r.value)
      ensures r.Ok? ==>
        var lang := if language.Some? then language.value else DefaultLanguage;
        FilledIn(r.value, Get(GetTranslatedFiles().value, lang), Null)
    {
      match GetTranslatedFiles()
      case Err(e) => Err(e)
      case Ok(files) =>
        var lang := match language case Some(l) => l case None => DefaultLanguage;
        Ok(Or(Get(files, lang), Null))
    }
  }

  /** Validation accepts exactly the documents of object type whose
      `i18n_functions`, when truthy, is an array of entries with a truthy
      `name`, and whose `scan_config.source_dirs`, when truthy, is an array. */
  lemma ValidationAcceptsIff(config: Value)
    ensures ValidationError(config).None? <==>
      && WellFormedDocument(config)
      && (Truthy(Get(config, "i18n_functions")) ==>
            && Get(config, "i18n_functions").Arr?
            && forall i :: 0 <= i < |Get(config, "i18n_functions").elems| ==>
                 var f := Get(config, "i18n_functions").elems[i];
                 !f.Undef? && !f.Null? && Truthy(Get(f, "name")))
      && (Truthy(Get(config, "scan_config")) && Truthy(Get(Get(config, "scan_config"), "source_dirs")) ==>
            Get(Get(config, "scan_config"), "source_dirs").Arr?)
  {
    var functions := Get(config, "i18n_functions");
    if functions.Arr? {
      FirstEntryErrorIsFirst(functions.elems, 0);
    }
  }

  /** The entry check reports the lowest failing index, and only when some
      entry fails. */
  lemma {:induction false} FirstEntryErrorIsFirst(entries: seq<Value>, from: nat)
    ensures FirstEntryError(entries, from).None? <==>
      forall i :: from <= i < |entries| ==> EntryError(entries[i], i).None?
    ensures FirstEntryError(entries, from).Some? ==>
      exists i :: from <= i < |entries| && FirstEntryError(entries, from) == EntryError(entries[i], i)
        && forall j :: from <= j < i ==> EntryError(entries[j], j).None?
    decreases |entries| - from
  {
    if from < |entries| && EntryError(entries[from], from).None? {
      FirstEntryErrorIsFirst(entries, from + 1);
      if FirstEntryError(entries, from).Some? {
        var i :| from + 1 <= i < |entries| && FirstEntryError(entries, from + 1) == EntryError(entries[i], i)
          && forall j :: from + 1 <= j < i ==> EntryError(entries[j], j).None?;
        assert forall j :: from <= j < i ==> EntryError(entries[j], j).None?;
      }
    }
  }

  /** An entry without a name is reported by its index, provided every entry
      before it is well formed, whatever else the document holds. */
  lemma MissingNameReported(config: Value, entries: seq<Value>, k: nat)
    requires config.Obj? && "i18n_functions" in config.fields && config.fields["i18n_functions"] == Arr(entries)
    requires k < |entries| && entries[k].Obj? && "name" !in entries[k].fields
    requires forall j :: 0 <= j < k ==> EntryError(entries[j], j).None?
    ensures ValidationError(config) == Some(MissingNameMessage(k))
  {
    FirstEntryErrorIsFirst(entries, 0);
    var e := FirstEntryError(entries, 0);
    assert EntryError(entries[k], k) == Some(MissingNameMessage(k));
    var i :| 0 <= i < |entries| && e == EntryError(entries[i], i)
      && forall j :: 0 <= j < i ==> EntryError(entries[j], j).None?;
    assert i == k;
  }

  /** Leaving out both sections is accepted, with one warning for each. */
  lemma MissingSectionsOnlyWarn(fields: map<string, Value>)
    requires "i18n_functions" !in fields && "scan_config" !in fields
    ensures ValidationError(Obj(fields)) == None
    ensures ValidationWarnings(Obj(fields)) ==
      [MissingSectionWarning("i18n_functions"), MissingSectionWarning("scan_config")]
  {
    var c := Obj(fields);
    assert RequiredSections[..1][..0] == [];
    assert RequiredSections[..1] == ["i18n_functions"];
    assert SectionWarnings(c, RequiredSections[..1]) == [MissingSectionWarning("i18n_functions")];
  }

  /** A document that is not of object type is rejected before any warning. */
  lemma NonObjectRejected(config: Value)
    requires config.Undef? || config.Bool? || config.Num? || config.Str?
    ensures ValidationError(config) == Some(InvalidFormatMessage)
    ensures ValidationWarnings(config) == []
  {
  }

  /** A loaded document without any of the optional sections yields every
      documented default, whatever other keys it has. */
  lemma GettersOnBareDocument(m: ConfigManager)
    requires m.config.Obj?
    requires forall k :: k in ["i18n_functions", "scan_config", "translated_files", "output_config", "chinese_detection"] ==>
      k !in m.config.fields
    ensures m.GetI18nFunctions() == Ok(DefaultI18nFunctions)
    ensures m.GetScanConfig() == Ok(ScanConfig(DefaultSourceDirs, DefaultExcludeDirs, DefaultFileExtensions, true))
    ensures m.GetTranslatedFiles() == Ok(Obj(map[]))
    ensures m.GetOutputConfig() == Ok(OutputConfig(DefaultOutputFile, DefaultFormat, true, true))
    ensures m.GetChineseDetectionConfig() == Ok(DetectionConfig(DefaultUnicodeRanges, Num(1), true))
    ensures m.GetTranslatedFilePath(None) == Ok(Null)
  {
    assert "i18n_functions" in ["i18n_functions", "scan_config", "translated_files", "output_config", "chinese_detection"];
    assert "scan_config" in ["i18n_functions", "scan_config", "translated_files", "output_config", "chinese_detection"];
    assert "translated_files" in ["i18n_functions", "scan_config", "translated_files", "output_config", "chinese_detection"];
    assert "output_config" in ["i18n_functions", "scan_config", "translated_files", "output_config", "chinese_detection"];
    assert "chinese_detection" in ["i18n_functions", "scan_config", "translated_files", "output_config", "chinese_detection"];
  }

  /** `section.key` of a document is set to the literal `false`. */
  predicate LiteralFalse(fields: map<string, Value>, section: string, key: string) {
    section in fields && fields[section].Obj? && key in fields[section].fields
    && fields[section].fields[key] == Bool(false)
  }

  /** For every object document, only the literal `false` turns a boolean
      option off: any other value, falsy ones such as 0, "" or null
      included, and an absent key or section leave it on. */
  lemma OnlyLiteralFalseDisables(m: ConfigManager, fields: map<string, Value>)
    requires m.config == Obj(fields)
    ensures m.GetScanConfig().Ok? && m.GetOutputConfig().Ok? && m.GetChineseDetectionConfig().Ok?
    ensures !m.GetScanConfig().value.recursive <==> LiteralFalse(fields, "scan_config", "recursive")
    ensures !m.GetOutputConfig().value.includeLocation <==> LiteralFalse(fields, "output_config", "include_location")
    ensures !m.GetOutputConfig().value.deduplicate <==> LiteralFalse(fields, "output_config", "deduplicate")
    ensures !m.GetChineseDetectionConfig().value.ignoreNumbersOnly <==>
      LiteralFalse(fields, "chinese_detection", "ignore_numbers_only")
  {
  }

  /** The threshold `getChineseDetectionConfig` reports equals the one the
      extractor uses (0 and an absent value both become 1), for every loaded
      document that sets an integer threshold or leaves it out. */
  lemma ThresholdAgreesWithExtractor(m: ConfigManager, cfg: Settings)
    requires Truthy(m.config)
    requires var v := Get(Get(m.config, "chinese_detection"), "min_chinese_chars");
      (v.Num? && cfg.minChineseChars == Some(v.n)) || (v.Undef? && cfg.minChineseChars.None?)
    ensures m.GetChineseDetectionConfig().Ok?
    ensures m.GetChineseDetectionConfig().value.minChineseChars == Num(MinChineseChars(cfg))
  {
  }

  /** Validation accepts documents on which building the extractor throws:
      a falsy non-null `i18n_functions` has no `map`, a non-string `name`
      has no `replace`, and a string `unicode_ranges` has no `join`. */
  lemma ConstructionThrowsAfterValidation(classRanges: seq<CodeRange>)
    ensures var doc := Obj(map["i18n_functions" := Bool(false)]);
      ValidationError(doc) == None && SettingsOf(doc, classRanges) == Err(FunctionsMapError)
    ensures var doc := Obj(map["i18n_functions" := Arr([Obj(map["name" := Num(5)])])]);
      ValidationError(doc) == None && SettingsOf(doc, classRanges) == Err(NameReplaceError)
    ensures var doc := Obj(map["chinese_detection" := Obj(map["unicode_ranges" := Str("\\u4e00-\\u9fff")])]);
      ValidationError(doc) == None && SettingsOf(doc, classRanges) == Err(RangesJoinError)
  {
    var entries := [Obj(map["name" := Num(5)])];
    assert FirstEntryError(entries, 1) == None;
    assert FirstEntryError(entries, 0) == None;
    var names := [Num(5)];
    assert names[1..] == [];
  }

  /** The getter's default function list names only `t` and `i18n.T`, while
      the extractor, reading the same missing key, also accepts `Translate`. */
  lemma DefaultFunctionListsDiffer(m: ConfigManager)
    requires m.config.Obj? && "i18n_functions" !in m.config.fields
    ensures m.GetI18nFunctions().Ok?
    ensures |m.GetI18nFunctions().value.elems| == 2
    ensures forall i :: 0 <= i < 2 ==>
      Get(m.GetI18nFunctions().value.elems[i], "name") == Str(DefaultFunctionNames[i])
    ensures |DefaultFunctionNames| == 3 && DefaultFunctionNames[2] == "Translate"
  {
  }

  /** Without an `output_config`, `getOutputConfig` reports deduplication as
      on, while the extractor, which reads the raw flag, does not merge. */
  lemma RawDedupFlagDiffers(m: ConfigManager, cfg: Settings)
    requires m.config.Obj? && "output_config" !in m.config.fields
    requires cfg.deduplicate == Get(Get(m.config, "output_config"), "deduplicate")
    ensures m.GetOutputConfig().Ok? && m.GetOutputConfig().value.deduplicate
    ensures !Truthy(cfg.deduplicate)
  {
  }

  /** For every object document with a `translated_files` object and every
      language, the path is that language's truthy entry, or null. */
  lemma TranslatedFilePathOf(m: ConfigManager, files: map<string, Value>, lang: string)
    requires m.config.Obj? && "translated_files" in m.config.fields && m.config.fields["translated_files"] == Obj(files)
    ensures m.GetTranslatedFilePath(Some(lang)) == Ok(if lang in files && Truthy(files[lang]) then files[lang] else Null)
  {
  }

  /** An omitted language argument means 'zh_cn'. */
  lemma TranslatedFilePathDefaults(m: ConfigManager)
    ensures m.GetTranslatedFilePath(None) == m.GetTranslatedFilePath(Some("zh_cn"))
  {
  }
}
