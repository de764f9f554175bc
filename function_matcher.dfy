/** `buildFunctionPatterns` and `isI18nFunction`: a call is a translation
    call when its function name equals one of the configured names. Each
    name becomes the pattern `^name$` with its dots escaped; for names made
    of identifier characters and dots such a pattern matches that exact
    string and nothing else, so a pattern is represented by its literal. */
module FunctionMatcher {
  import opened JsValue
  import opened ExtractorConfig

  /** The anchored, dot-escaped pattern built from one configured name. */
  datatype ExactPattern = ExactPattern(literal: string)

  /** `pattern.test(s)` */
  predicate Test(p: ExactPattern, s: string) {
    s == p.literal
  }

  /** One pattern per configured name, in configuration order. */
  function BuildFunctionPatterns(cfg: Settings): (ps: seq<ExactPattern>)
    ensures |ps| == |FunctionNames(cfg)|
    ensures forall i :: 0 <= i < |ps| ==> Test(ps[i], FunctionNames(cfg)[i])
  {
    var names := FunctionNames(cfg);
    seq(|names|, i requires 0 <= i < |names| => ExactPattern(names[i]))
  }

  /** `isI18nFunction(functionName)`: a falsy name never matches; anything
      else is converted to a string, as `RegExp.test` does. */
  predicate IsI18nFunction(cfg: Settings, functionName: Value)
    ensures IsI18nFunction(cfg, functionName) <==>
      Truthy(functionName) && ToJsString(functionName) in FunctionNames(cfg)
  {
    Truthy(functionName)
    && var ps := BuildFunctionPatterns(cfg);
       PatternsMatchIff(cfg, ToJsString(functionName));
       exists i :: 0 <= i < |ps| && Test(ps[i], ToJsString(functionName))
  }

  /** Some pattern accepts `s` exactly when `s` is a configured name. */
  lemma PatternsMatchIff(cfg: Settings, s: string)
    ensures (exists i :: 0 <= i < |BuildFunctionPatterns(cfg)| && Test(BuildFunctionPatterns(cfg)[i], s))
      <==> s in FunctionNames(cfg)
  {
    var ps := BuildFunctionPatterns(cfg);
    if s in FunctionNames(cfg) {
      var i :| 0 <= i < |FunctionNames(cfg)| && FunctionNames(cfg)[i] == s;
      assert Test(ps[i], s);
    }
  }

  /** For a string name: matching is exact, whole-string and case-sensitive
      membership in the configured list. */
  lemma IsI18nFunctionExact(cfg: Settings, name: string)
    ensures IsI18nFunction(cfg, Str(name)) <==> name != "" && name in FunctionNames(cfg)
  {
    var ps := BuildFunctionPatterns(cfg);
    if name != "" && name in FunctionNames(cfg) {
      var i :| 0 <= i < |FunctionNames(cfg)| && FunctionNames(cfg)[i] == name;
      assert Test(ps[i], ToJsString(Str(name)));
    }
  }

  /** Without an `i18n_functions` key the names are `t`, `i18n.T` and
      `Translate`; a different case or a longer selector does not match. */
  lemma DefaultFunctions(cfg: Settings)
    requires cfg.functionNames.None?
    ensures IsI18nFunction(cfg, Str("t")) && IsI18nFunction(cfg, Str("i18n.T"))
    ensures IsI18nFunction(cfg, Str("Translate"))
    ensures !IsI18nFunction(cfg, Str("i18n.t")) && !IsI18nFunction(cfg, Str("translate"))
    ensures !IsI18nFunction(cfg, Str("X.i18n.T")) && !IsI18nFunction(cfg, Str("fmt.Println"))
    ensures !IsI18nFunction(cfg, Str("")) && !IsI18nFunction(cfg, Null) && !IsI18nFunction(cfg, Undef)
  {
    IsI18nFunctionExact(cfg, "t");
    IsI18nFunctionExact(cfg, "i18n.T");
    IsI18nFunctionExact(cfg, "Translate");
    IsI18nFunctionExact(cfg, "i18n.t");
    IsI18nFunctionExact(cfg, "translate");
    IsI18nFunctionExact(cfg, "X.i18n.T");
    IsI18nFunctionExact(cfg, "fmt.Println");
  }
}
