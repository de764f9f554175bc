/** The term extractor's reading of its configuration object: which code
    units count as Chinese, how many of them a text needs, which functions
    are translation functions, and whether duplicates are merged. Each
    optional field is None when the configuration leaves the key out. */
module ExtractorConfig {
  import opened JsValue

  /** One `\uXXXX-\uYYYY` entry of `chinese_detection.unicode_ranges`: the
      inclusive range of UTF-16 code units it admits. */
  datatype CodeRange = CodeRange(lo: int, hi: int)

  datatype Settings = Settings(
    // chinese_detection.unicode_ranges
    unicodeRanges: Option<seq<CodeRange>>,
    // chinese_detection.min_chinese_chars
    minChineseChars: Option<int>,
    // the `name` of every i18n_functions entry
    functionNames: Option<seq<string>>,
    // output_config.deduplicate, exactly as configured
    deduplicate: Value)

  /** Basic CJK ideographs, extension A, compatibility ideographs. */
  const DefaultRanges: seq<CodeRange> :=
    [CodeRange(0x4E00, 0x9FFF), CodeRange(0x3400, 0x4DBF), CodeRange(0xF900, 0xFAFF)]

  const DefaultFunctionNames: seq<string> := ["t", "i18n.T", "Translate"]

  /** `unicode_ranges || defaults`: an empty list is kept (it is truthy). */
  function Ranges(cfg: Settings): seq<CodeRange> {
    match cfg.unicodeRanges
    case Some(rs) => rs
    case None => DefaultRanges
  }

  /** `min_chinese_chars || 1`: both an absent value and 0 mean 1. */
  function MinChineseChars(cfg: Settings): int {
    match cfg.minChineseChars
    case Some(n) => if n == 0 then 1 else n
    case None => 1
  }

  /** `i18n_functions?.map(f => f.name) || defaults` */
  function FunctionNames(cfg: Settings): seq<string> {
    match cfg.functionNames
    case Some(names) => names
    case None => DefaultFunctionNames
  }

  // ---------------------------------------------------------------------
  // Building the settings: the `ChineseExtractor` constructor

  /** `ranges.join('')` on a truthy value that is not an array. */
  const RangesJoinError: string := "ranges.join is not a function"
  /** `this.config.i18n_functions?.map(...)` on a value that is neither
      null, undefined nor an array. */
  const FunctionsMapError: string := "this.config.i18n_functions?.map is not a function"
  /** `name.replace(...)` on a name that is neither a string, null nor
      undefined. */
  const NameReplaceError: string := "name.replace is not a function"

  /** `entries.map(f => f.name)`: every entry's `name`, or the TypeError of
      the first entry that is null or undefined. */
  function EntryNames(entries: seq<Value>): (r: Result<seq<Value>, string>)
    ensures r.Ok? <==> forall i :: 0 <= i < |entries| ==> !entries[i].Undef? && !entries[i].Null?
    ensures r.Ok? ==> |r.value| == |entries|
    ensures r.Ok? ==> forall i :: 0 <= i < |entries| ==> r.value[i] == Get(entries[i], "name")
  {
    if entries == [] then Ok([])
    else if entries[0].Undef? || entries[0].Null? then Err(ReadPropertyError(entries[0], "name"))
    else
      match EntryNames(entries[1..])
      case Err(e) =>
        assert exists i :: 1 <= i < |entries| && (entries[i].Undef? || entries[i].Null?) by {
          var j :| 0 <= j < |entries[1..]| && (entries[1..][j].Undef? || entries[1..][j].Null?);
          assert entries[j + 1] == entries[1..][j];
        }
        Err(e)
      case Ok(rest) =>
        assert forall i :: 1 <= i < |entries| ==> entries[i] == entries[1..][i - 1];
        Ok([Get(entries[0], "name")] + rest)
  }

  /** `names.forEach(name => name.replace(...))`: the names as strings, or
      the TypeError of the first name that is not a string. */
  function NameStrings(names: seq<Value>): (r: Result<seq<string>, string>)
    ensures r.Ok? <==> forall i :: 0 <= i < |names| ==> names[i].Str?
    ensures r.Ok? ==> |r.value| == |names|
    ensures r.Ok? ==> forall i :: 0 <= i < |names| ==> names[i] == Str(r.value[i])
  {
    if names == [] then Ok([])
    else if !names[0].Str? then
      Err(if names[0].Undef? || names[0].Null? then ReadPropertyError(names[0], "replace") else NameReplaceError)
    else
      match NameStrings(names[1..])
      case Err(e) =>
        assert exists i :: 1 <= i < |names| && !names[i].Str? by {
          var j :| 0 <= j < |names[1..]| && !names[1..][j].Str?;
          assert names[j + 1] == names[1..][j];
        }
        Err(e)
      case Ok(rest) =>
        assert forall i :: 1 <= i < |names| ==> names[i] == names[1..][i - 1];
        Ok([names[0].s] + rest)
  }

  /** The names `buildFunctionPatterns` turns into patterns: None (the
      defaults) when `i18n_functions` is null or undefined, otherwise every
      entry's `name`, each of which must be a string. */
  function FunctionNamesOf(config: Value): (r: Result<Option<seq<string>>, string>)
    ensures r == Ok(None) <==> Get(config, "i18n_functions").Undef? || Get(config, "i18n_functions").Null?
    ensures r.Err? <==>
      var fs := Get(config, "i18n_functions");
      && !fs.Undef? && !fs.Null?
      && (!fs.Arr?
          || exists i :: 0 <= i < |fs.elems| &&
               (fs.elems[i].Undef? || fs.elems[i].Null? || !Get(fs.elems[i], "name").Str?))
    ensures r.Ok? && r.value.Some? ==>
      var fs := Get(config, "i18n_functions");
      && fs.Arr? && |r.value.value| == |fs.elems|
      && forall i :: 0 <= i < |fs.elems| ==> Get(fs.elems[i], "name") == Str(r.value.value[i])
  {
    var fs := Get(config, "i18n_functions");
    if fs.Undef? || fs.Null? then Ok(None)
    else if !fs.Arr? then Err(FunctionsMapError)
    else
      match EntryNames(fs.elems)
      case Err(e) => Err(e)
      case Ok(names) =>
        match NameStrings(names)
        case Err(e) =>
          assert exists i :: 0 <= i < |fs.elems| && !Get(fs.elems[i], "name").Str? by {
            var j :| 0 <= j < |names| && !names[j].Str?;
            assert names[j] == Get(fs.elems[j], "name");
          }
          Err(e)
        case Ok(strings) => Ok(Some(strings))
  }

  /** The threshold is one the model reads: absent, falsy or a number. */
  predicate ThresholdModelled(config: Value) {
    var m := Get(Get(config, "chinese_detection"), "min_chinese_chars");
    !Truthy(m) || m.Num?
  }

  /** `new ChineseExtractor(config)`: `buildChineseRegex` and then
      `buildFunctionPatterns`, each of which may throw a TypeError.
      `classRanges` stands for the code units admitted by the character
      class built from a configured `unicode_ranges` array, whose regex
      source strings are not modelled. */
  function SettingsOf(config: Value, classRanges: seq<CodeRange>): (r: Result<Settings, string>)
    requires ThresholdModelled(config)
    ensures r.Err? <==>
      || config.Undef? || config.Null?
      || (Truthy(Get(Get(config, "chinese_detection"), "unicode_ranges"))
          && !Get(Get(config, "chinese_detection"), "unicode_ranges").Arr?)
      || FunctionNamesOf(config).Err?
    ensures r.Ok? ==>
      && r.value.functionNames == FunctionNamesOf(config).value
      && Ranges(r.value) == (if Truthy(Get(Get(config, "chinese_detection"), "unicode_ranges")) then classRanges else DefaultRanges)
      && MinChineseChars(r.value) == Or(Get(Get(config, "chinese_detection"), "min_chinese_chars"), Num(1)).n
      && r.value.deduplicate == Get(Get(config, "output_config"), "deduplicate")
  {
    if config.Undef? || config.Null? then Err(ReadPropertyError(config, "chinese_detection"))
    else
      var detection := Get(config, "chinese_detection");
      var ranges := Get(detection, "unicode_ranges");
      if Truthy(ranges) && !ranges.Arr? then Err(RangesJoinError)
      else
        match FunctionNamesOf(config)
        case Err(e) => Err(e)
        case Ok(names) =>
          var m := Get(detection, "min_chinese_chars");
          Ok(Settings(
            if Truthy(ranges) then Some(classRanges) else None,
            if m.Num? then Some(m.n) else None,
            names,
            Get(Get(config, "output_config"), "deduplicate")))
  }
}
