/** `isTermTranslated` and `filterUntranslatedTerms`: dropping the terms that
    an existing translation file already covers. The translation file's
    contents are parsed JSON (`Value`). */
module TranslationFilter {
  import opened JsValue
  import opened Terms
  import opened TermExtractor

  /** The array index a property key names, if it is a canonical index
      below `count`. */
  function ArrayIndex(key: string, count: nat): (r: Option<nat>)
    ensures r.Some? ==> r.value < count && key == NatToString(r.value)
    ensures r.None? ==> forall i :: 0 <= i < count ==> key != NatToString(i)
  {
    if count == 0 then None
    else if key == NatToString(count - 1) then Some(count - 1)
    else ArrayIndex(key, count - 1)
  }

  /** `data.hasOwnProperty(key) ? data[key] : absent`, for a value of
      object type: an object's own fields; an array's indices and `length`. */
  function OwnProperty(data: Value, key: string): Option<Value> {
    match data
    case Obj(fields) => if key in fields then Some(fields[key]) else None
    case Arr(elems) =>
      if key == "length" then Some(Num(|elems|))
      else (
        match ArrayIndex(key, |elems|)
        case Some(i) => Some(elems[i])
        case None => None)
    case _ => None
  }

  /** What `isTermTranslated(term, translatedData)` returns. `&&` yields its
      first falsy operand, so a falsy own translation ('', null, 0, false)
      is returned as it is; otherwise the result is a boolean. An `Err` is
      the TypeError the call throws: a JSON object whose own
      `hasOwnProperty` field shadows the method, or a translation that is
      truthy but not a string. */
  function TermTranslatedValue(term: string, data: Value): (r: Result<Value, string>)
    ensures r.Ok? && Truthy(r.value) ==>
      && r.value == Bool(true)
      && Truthy(data) && IsObjectType(data)
      && OwnProperty(data, term).Some? && OwnProperty(data, term).value.Str?
      && !AllWhitespace(OwnProperty(data, term).value.s)
    ensures r.Ok? && !Truthy(r.value) ==> r.value == Bool(false) || OwnProperty(data, term) == Some(r.value)
    ensures r.Err? ==> IsObjectType(data) && (r.error == HasOwnPropertyError || r.error == TrimError)
  {
    if !Truthy(data) || !IsObjectType(data) then Ok(Bool(false))
    else if data.Obj? && "hasOwnProperty" in data.fields then Err(HasOwnPropertyError)
    else
      match OwnProperty(data, term)
      case None => Ok(Bool(false))
      case Some(v) =>
        if !Truthy(v) then Ok(v)
        else if v.Str? then
          TrimEmptyIff(v.s);
          Ok(Bool(Trim(v.s) != ""))
        else Err(TrimError)
  }

  /** `!!isTermTranslated(term, translatedData)`: the truthiness the
      filter's `!` reads. */
  function IsTermTranslated(term: string, data: Value): (r: Result<bool, string>)
    ensures r == Ok(true) ==>
      && Truthy(data) && IsObjectType(data)
      && OwnProperty(data, term).Some? && OwnProperty(data, term).value.Str?
      && !AllWhitespace(OwnProperty(data, term).value.s)
    ensures r.Err? ==> IsObjectType(data) && (r.error == HasOwnPropertyError || r.error == TrimError)
  {
    match TermTranslatedValue(term, data)
    case Err(e) => Err(e)
    case Ok(v) => Ok(Truthy(v))
  }

  /** A key holding the empty string is returned as that string, which is
      falsy, so the term counts as untranslated. */
  lemma EmptyTranslationReturnedAsIs()
    ensures TermTranslatedValue("空翻译", Obj(map["空翻译" := Str("")])) == Ok(Str(""))
    ensures IsTermTranslated("空翻译", Obj(map["空翻译" := Str("")])) == Ok(false)
  {
  }

  const HasOwnPropertyError: string := "translatedData.hasOwnProperty is not a function"
  const TrimError: string := "translatedData[term].trim is not a function"

  /** For a JSON object, a term counts as translated exactly when the object
      has it as a key whose value is a string with a non-whitespace
      character; the call throws exactly when that value is truthy but not a
      string. */
  lemma TranslatedInObject(term: string, fields: map<string, Value>)
    requires "hasOwnProperty" !in fields
    ensures IsTermTranslated(term, Obj(fields)) == Ok(true) <==>
      term in fields && fields[term].Str? && fields[term].s != "" && !AllWhitespace(fields[term].s)
    ensures IsTermTranslated(term, Obj(fields)).Err? <==>
      term in fields && Truthy(fields[term]) && !fields[term].Str?
  {
    if term in fields && fields[term].Str? {
      TrimEmptyIff(fields[term].s);
    }
  }

  /** Data that is missing, falsy or not of object type translates nothing. */
  lemma NonObjectTranslatesNothing(term: string, data: Value)
    requires !data.Obj? && !data.Arr?
    ensures IsTermTranslated(term, data) == Ok(false)
  {
  }

  /** Chinese text never names an array index or `length`, so an array
      translates no term whose text holds a non-ASCII character. */
  lemma ArrayTranslatesNoChinese(term: string, elems: seq<Value>, j: nat)
    requires j < |term| && term[j] as int >= 0x80
    ensures IsTermTranslated(term, Arr(elems)) == Ok(false)
  {
    forall i: nat | i < |elems| ensures term != NatToString(i) {
      NotDecimal(term, j, i);
    }
    assert ArrayIndex(term, |elems|).None?;
    assert term != "length" by {
      assert "length"[..] == "length";
      if |term| == 6 {
        assert term[j] != "length"[j];
      }
    }
  }

  lemma NotDecimal(term: string, j: nat, n: nat)
    requires j < |term| && term[j] as int >= 0x80
    ensures term != NatToString(n)
  {
    DigitsOnly(n);
    if j < |NatToString(n)| {
      assert NatToString(n)[j] in "0123456789";
      assert term[j] != NatToString(n)[j];
    }
  }

  lemma {:induction false} DigitsOnly(n: nat)
    ensures forall k :: 0 <= k < |NatToString(n)| ==> NatToString(n)[k] in "0123456789"
    decreases n
  {
    if n >= 10 {
      DigitsOnly(n / 10);
    }
  }

  /** `terms.filter(term => !isTermTranslated(term.text, data))`; the first
      term whose check throws aborts the whole filter. */
  function KeepUntranslated(terms: seq<Term>, data: Value): (r: Result<seq<Term>, string>)
    ensures r.Ok? ==> |r.value| <= |terms|
    ensures r.Err? ==> r.error == HasOwnPropertyError || r.error == TrimError
  {
    if terms == [] then Ok([])
    else
      var n := |terms| - 1;
      Then(KeepUntranslated(terms[..n], data),
           match IsTermTranslated(terms[n].text, data)
           case Err(e) => Err(e)
           case Ok(translated) => Ok(if translated then [] else [terms[n]]))
  }

  /** Filtering a concatenation filters each part, keeping their order. */
  lemma {:induction false} KeepUntranslatedAppend(a: seq<Term>, b: seq<Term>, data: Value)
    ensures KeepUntranslated(a + b, data) == Then(KeepUntranslated(a, data), KeepUntranslated(b, data))
    decreases |b|
  {
    if b == [] {
      assert a + b == a;
      var r := KeepUntranslated(a, data);
      if r.Ok? {
        assert r.value + [] == r.value;
      }
    } else {
      var n := |b| - 1;
      assert (a + b)[..|a + b| - 1] == a + b[..n];
      assert (a + b)[|a + b| - 1] == b[n];
      KeepUntranslatedAppend(a, b[..n], data);
      var last := match IsTermTranslated(b[n].text, data)
        case Err(e) => Err(e)
        case Ok(translated) => Ok(if translated then [] else [b[n]]);
      ThenAssociative(KeepUntranslated(a, data), KeepUntranslated(b[..n], data), last);
    }
  }

  /** When the filter completes, it keeps exactly the untranslated terms
      (membership both ways), and it completes exactly when no check throws. */
  lemma {:induction false} KeepUntranslatedExact(terms: seq<Term>, data: Value)
    ensures KeepUntranslated(terms, data).Ok? <==>
      forall k :: 0 <= k < |terms| ==> IsTermTranslated(terms[k].text, data).Ok?
    ensures KeepUntranslated(terms, data).Ok? ==>
      forall t :: t in KeepUntranslated(terms, data).value <==>
        t in terms && IsTermTranslated(t.text, data) == Ok(false)
  {
    if terms != [] {
      var n := |terms| - 1;
      var pre := terms[..n];
      KeepUntranslatedExact(pre, data);
      assert terms == pre + [terms[n]];
      KeepExactStep(pre, terms[n], data);
    }
  }

  lemma {:induction false} KeepExactStep(pre: seq<Term>, last: Term, data: Value)
    requires KeepUntranslated(pre, data).Ok? <==>
      forall k :: 0 <= k < |pre| ==> IsTermTranslated(pre[k].text, data).Ok?
    requires KeepUntranslated(pre, data).Ok? ==>
      forall t :: t in KeepUntranslated(pre, data).value <==>
        t in pre && IsTermTranslated(t.text, data) == Ok(false)
    ensures KeepUntranslated(pre + [last], data).Ok? <==>
      forall k :: 0 <= k < |pre + [last]| ==> IsTermTranslated((pre + [last])[k].text, data).Ok?
    ensures KeepUntranslated(pre + [last], data).Ok? ==>
      forall t :: t in KeepUntranslated(pre + [last], data).value <==>
        t in pre + [last] && IsTermTranslated(t.text, data) == Ok(false)
  {
    var terms := pre + [last];
    assert terms[..|pre|] == pre;
    assert forall k :: 0 <= k < |pre| ==> terms[k] == pre[k];
    var lastKept := match IsTermTranslated(last.text, data)
      case Err(e) => Err(e)
      case Ok(translated) => Ok(if translated then [] else [last]);
    assert KeepUntranslated(terms, data) == Then(KeepUntranslated(pre, data), lastKept);
    if KeepUntranslated(terms, data).Ok? {
      var kept := KeepUntranslated(terms, data).value;
      var keptPre := KeepUntranslated(pre, data).value;
      assert kept == keptPre + lastKept.value;
      assert lastKept.value == if IsTermTranslated(last.text, data) == Ok(false) then [last] else [];
      forall t ensures t in kept <==> t in terms && IsTermTranslated(t.text, data) == Ok(false) {
        assert t in kept <==> t in keptPre || t in lastKept.value;
        assert t in terms <==> t in pre || t == last;
      }
    }
  }

  /** Filtering again changes nothing. */
  lemma KeepUntranslatedIdempotent(terms: seq<Term>, data: Value)
    requires KeepUntranslated(terms, data).Ok?
    ensures KeepUntranslated(KeepUntranslated(terms, data).value, data) == KeepUntranslated(terms, data)
  {
    var kept := KeepUntranslated(terms, data).value;
    KeepUntranslatedExact(terms, data);
    KeepAllUntranslated(kept, data);
  }

  /** A list of untranslated terms passes through unchanged. */
  lemma {:induction false} KeepAllUntranslated(terms: seq<Term>, data: Value)
    requires forall k :: 0 <= k < |terms| ==> IsTermTranslated(terms[k].text, data) == Ok(false)
    ensures KeepUntranslated(terms, data) == Ok(terms)
  {
    if terms != [] {
      var n := |terms| - 1;
      var pre := terms[..n];
      forall k | 0 <= k < n
        ensures IsTermTranslated(pre[k].text, data) == Ok(false)
      {
        assert pre[k] == terms[k];
      }
      KeepAllUntranslated(pre, data);
      KeepOneMore(pre, terms[n], data);
      assert pre + [terms[n]] == terms;
    }
  }

  lemma {:induction false} KeepOneMore(pre: seq<Term>, t: Term, data: Value)
    requires KeepUntranslated(pre, data) == Ok(pre)
    requires IsTermTranslated(t.text, data) == Ok(false)
    ensures KeepUntranslated(pre + [t], data) == Ok(pre + [t])
  {
    assert (pre + [t])[..|pre|] == pre;
  }

  /** What `filterUntranslatedTerms` finds at the translation file path. */
  datatype TranslationSource =
    | NoPath                        // the path is empty, null or undefined
    | FileMissing                   // `fs.pathExists` is false
    | ReadFailed(message: string)   // `fs.readJson` rejects
    | Loaded(data: Value)           // the parsed JSON

  /** `filterUntranslatedTerms(terms, translatedFilePath)`: every term when
      there is no usable translation file or when filtering throws (the
      error is only reported as a warning). */
  function FilterUntranslatedTerms(terms: seq<Term>, source: TranslationSource): (r: seq<Term>)
    ensures !source.Loaded? ==> r == terms
    ensures source.Loaded? && KeepUntranslated(terms, source.data).Err? ==> r == terms
    ensures source.Loaded? && KeepUntranslated(terms, source.data).Ok? ==>
      forall t :: t in r <==> t in terms && IsTermTranslated(t.text, source.data) == Ok(false)
    ensures source.Loaded? && KeepUntranslated(terms, source.data).Ok? ==>
      r == KeepUntranslated(terms, source.data).value
  {
    match source
    case Loaded(data) =>
      KeepUntranslatedExact(terms, data);
      (match KeepUntranslated(terms, data)
       case Ok(kept) => kept
       case Err(_) => terms)
    case _ => terms
  }

  /** With a loaded JSON object, the returned terms are exactly those whose
      text has no non-blank string translation, unless some translation is a
      truthy non-string, in which case every term is returned. */
  lemma FilterWithObject(terms: seq<Term>, fields: map<string, Value>)
    requires "hasOwnProperty" !in fields
    ensures (forall k :: 0 <= k < |terms| ==>
               terms[k].text !in fields || !Truthy(fields[terms[k].text]) || fields[terms[k].text].Str?) ==>
      forall t :: t in FilterUntranslatedTerms(terms, Loaded(Obj(fields))) <==>
        t in terms && !(t.text in fields && fields[t.text].Str? && fields[t.text].s != ""
                        && !AllWhitespace(fields[t.text].s))
    ensures (exists k :: 0 <= k < |terms| &&
               terms[k].text in fields && Truthy(fields[terms[k].text]) && !fields[terms[k].text].Str?) ==>
      FilterUntranslatedTerms(terms, Loaded(Obj(fields))) == terms
  {
    var data := Obj(fields);
    KeepUntranslatedExact(terms, data);
    forall k | 0 <= k < |terms| {
      TranslatedInObject(terms[k].text, fields);
    }
    forall t | t in terms {
      TranslatedInObject(t.text, fields);
    }
  }
}
