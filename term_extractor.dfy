/** `extractChineseFromArgs`, `extractFromAst` and `extractFromMultipleFiles`:
    collecting term occurrences from the call records of one file, then from
    the parse outcomes of many files. A call record is parsed data (`Value`):
    an object with a `function` name and an `args` array of raw tokens. What
    JavaScript would throw on malformed data is an `Err` carrying the
    message. */
module TermExtractor {
  import opened JsValue
  import opened ExtractorConfig
  import opened ScriptDetector
  import opened FunctionMatcher
  import opened LiteralResolver
  import opened Terms
  import opened Deduplicator

  /** The TypeError of `args.forEach(...)` when `args` is not an array. */
  function ForEachError(args: Value): string {
    if args.Undef? || args.Null? then ReadPropertyError(args, "forEach")
    else "args.forEach is not a function"
  }

  /** The occurrences collected from an argument list: one per argument that
      yields Chinese text, carrying that argument's index. */
  function ArgOccurrences(cfg: Settings, args: seq<Value>, file: string, now: string): seq<Term>
  {
    if args == [] then []
    else
      var n := |args| - 1;
      ArgOccurrences(cfg, args[..n], file, now) +
      match ExtractChineseFromLiteral(cfg, args[n])
      case Some(text) => [Occurrence(text, file, n, now)]
      case None => []
  }

  /** `extractChineseFromArgs(args, filePath)`; `now` stands for the
      timestamp each occurrence records. */
  method ExtractChineseFromArgs(cfg: Settings, args: Value, file: string, now: string)
    returns (r: Result<seq<Term>, string>)
    ensures args.Arr? ==> r == Ok(ArgOccurrences(cfg, args.elems, file, now))
    ensures !args.Arr? ==> r == Err(ForEachError(args))
  {
    if !args.Arr? {
      return Err(ForEachError(args));
    }
    var elems := args.elems;
    var chineseTerms: seq<Term> := [];
    var index := 0;
    while index < |elems|
      invariant 0 <= index <= |elems|
      invariant chineseTerms == ArgOccurrences(cfg, elems[..index], file, now)
    {
      var chineseText := ExtractChineseFromLiteral(cfg, elems[index]);
      ArgOccurrencesStep(cfg, elems, index, file, now);
      if chineseText.Some? {
        chineseTerms := chineseTerms + [Occurrence(chineseText.value, file, index, now)];
      }
      index := index + 1;
    }
    assert elems[..index] == elems;
    r := Ok(chineseTerms);
  }

  /** One more argument adds its occurrence, if it yields text. */
  lemma ArgOccurrencesStep(cfg: Settings, elems: seq<Value>, index: nat, file: string, now: string)
    requires index < |elems|
    ensures ArgOccurrences(cfg, elems[..index + 1], file, now) ==
      ArgOccurrences(cfg, elems[..index], file, now) +
      match ExtractChineseFromLiteral(cfg, elems[index])
      case Some(text) => [Occurrence(text, file, index, now)]
      case None => []
  {
    assert elems[..index + 1][..index] == elems[..index];
  }

  /** Every occurrence comes from an argument that yields exactly its text,
      and records that argument's index, the file, the {0, 0} position and
      the timestamp. */
  lemma {:induction false} ArgOccurrencesSound(cfg: Settings, args: seq<Value>, file: string, now: string)
    ensures forall k :: 0 <= k < |ArgOccurrences(cfg, args, file, now)| ==>
      var t := ArgOccurrences(cfg, args, file, now)[k];
      && t.argumentIndex.Some? && 0 <= t.argumentIndex.value < |args|
      && ExtractChineseFromLiteral(cfg, args[t.argumentIndex.value]) == Some(t.text)
      && t == Occurrence(t.text, file, t.argumentIndex.value, now)
  {
    if args != [] {
      var n := |args| - 1;
      ArgOccurrencesSound(cfg, args[..n], file, now);
      var pre := ArgOccurrences(cfg, args[..n], file, now);
      forall k | 0 <= k < |pre| ensures args[pre[k].argumentIndex.value] == args[..n][pre[k].argumentIndex.value] {
      }
    }
  }

  /** Every argument that yields text produces an occurrence. */
  lemma {:induction false} ArgOccurrencesComplete(cfg: Settings, args: seq<Value>, file: string, now: string, j: nat)
    requires j < |args| && ExtractChineseFromLiteral(cfg, args[j]).Some?
    ensures exists k :: (0 <= k < |ArgOccurrences(cfg, args, file, now)|
      && ArgOccurrences(cfg, args, file, now)[k].argumentIndex == Some(j))
  {
    var n := |args| - 1;
    var pre := ArgOccurrences(cfg, args[..n], file, now);
    var all := ArgOccurrences(cfg, args, file, now);
    ArgOccurrencesLast(cfg, args, file, now);
    if j == n {
      assert all[|pre|].argumentIndex == Some(j);
    } else {
      assert args[..n][j] == args[j];
      ArgOccurrencesComplete(cfg, args[..n], file, now, j);
      var k :| 0 <= k < |pre| && pre[k].argumentIndex == Some(j);
      assert all[k] == pre[k];
    }
  }

  /** The occurrences of a non-empty list extend those of its prefix by at
      most the last argument's occurrence. */
  lemma ArgOccurrencesLast(cfg: Settings, args: seq<Value>, file: string, now: string)
    requires args != []
    ensures var n := |args| - 1;
      var pre := ArgOccurrences(cfg, args[..n], file, now);
      var all := ArgOccurrences(cfg, args, file, now);
      && all[..|pre|] == pre
      && (ExtractChineseFromLiteral(cfg, args[n]).Some? ==>
            |all| == |pre| + 1 && all[|pre|].argumentIndex == Some(n))
  {
  }

  function IndexOf(t: Term): int {
    match t.argumentIndex
    case Some(i) => i
    case None => -1
  }

  /** Occurrences follow argument order. */
  lemma {:induction false} ArgOccurrencesOrdered(cfg: Settings, args: seq<Value>, file: string, now: string)
    ensures forall k1, k2 :: 0 <= k1 < k2 < |ArgOccurrences(cfg, args, file, now)| ==>
      IndexOf(ArgOccurrences(cfg, args, file, now)[k1]) < IndexOf(ArgOccurrences(cfg, args, file, now)[k2])
  {
    if args != [] {
      var n := |args| - 1;
      ArgOccurrencesOrdered(cfg, args[..n], file, now);
      ArgOccurrencesSound(cfg, args[..n], file, now);
    }
  }

  /** The outcome of one element of `calls`: reading `function` of null
      throws; a call not accepted by `isI18nFunction` contributes nothing;
      an accepted call contributes its argument occurrences. */
  function CallOccurrences(cfg: Settings, call: Value, file: string, now: string): (r: Result<seq<Term>, string>)
    ensures r.Ok? && r.value != [] ==> IsI18nFunction(cfg, Get(call, "function"))
    ensures r.Err? <==> call.Undef? || call.Null? || (IsI18nFunction(cfg, Get(call, "function")) && !Get(call, "args").Arr?)
  {
    if call.Undef? || call.Null? then Err(ReadPropertyError(call, "function"))
    else if !IsI18nFunction(cfg, Get(call, "function")) then Ok([])
    else
      var args := Get(call, "args");
      if args.Arr? then Ok(ArgOccurrences(cfg, args.elems, file, now)) else Err(ForEachError(args))
  }

  /** Sequencing of two steps that may throw: the first error wins. */
  function Then(a: Result<seq<Term>, string>, b: Result<seq<Term>, string>): Result<seq<Term>, string> {
    match a
    case Err(e) => Err(e)
    case Ok(xs) =>
      match b
      case Err(e) => Err(e)
      case Ok(ys) => Ok(xs + ys)
  }

  /** The `calls.forEach` loop of `extractFromAst` over an array of calls. */
  function AstOccurrences(cfg: Settings, calls: seq<Value>, file: string, now: string): Result<seq<Term>, string> {
    if calls == [] then Ok([])
    else
      var n := |calls| - 1;
      Then(AstOccurrences(cfg, calls[..n], file, now), CallOccurrences(cfg, calls[n], file, now))
  }

  /** A parse result for one file: its path and its (parsed) `calls`. */
  datatype AstResult = AstResult(file: string, calls: Value)

  /** What `extractFromAst` returns or throws: a missing, non-array or empty
      `calls` never throws. */
  function AstTerms(cfg: Settings, ast: AstResult, now: string): (r: Result<seq<Term>, string>)
    ensures r.Err? ==> ast.calls.Arr? && |ast.calls.elems| > 0
  {
    if !ast.calls.Arr? then Ok([]) else AstOccurrences(cfg, ast.calls.elems, ast.file, now)
  }

  lemma ThenAssociative(a: Result<seq<Term>, string>, b: Result<seq<Term>, string>, c: Result<seq<Term>, string>)
    ensures Then(Then(a, b), c) == Then(a, Then(b, c))
  {
    if a.Ok? && b.Ok? && c.Ok? {
      assert (a.value + b.value) + c.value == a.value + (b.value + c.value);
    }
  }

  /** Splitting the call list splits the result: the calls of one part do
      not influence what the other part yields. */
  lemma {:induction false} AstOccurrencesAppend(cfg: Settings, a: seq<Value>, b: seq<Value>, file: string, now: string)
    ensures AstOccurrences(cfg, a + b, file, now) ==
      Then(AstOccurrences(cfg, a, file, now), AstOccurrences(cfg, b, file, now))
    decreases |b|
  {
    if b == [] {
      assert a + b == a;
      var r := AstOccurrences(cfg, a, file, now);
      if r.Ok? {
        assert r.value + [] == r.value;
      }
    } else {
      var n := |b| - 1;
      assert (a + b)[..|a + b| - 1] == a + b[..n];
      assert (a + b)[|a + b| - 1] == b[n];
      AstOccurrencesAppend(cfg, a, b[..n], file, now);
      ThenAssociative(AstOccurrences(cfg, a, file, now), AstOccurrences(cfg, b[..n], file, now),
                      CallOccurrences(cfg, b[n], file, now));
    }
  }

  /** Only calls accepted by `isI18nFunction` contribute: removing any other
      (non-null) call leaves the result unchanged. */
  lemma OtherCallsContributeNothing(cfg: Settings, a: seq<Value>, call: Value, b: seq<Value>, file: string, now: string)
    requires !call.Undef? && !call.Null? && !IsI18nFunction(cfg, Get(call, "function"))
    ensures AstOccurrences(cfg, a + [call] + b, file, now) == AstOccurrences(cfg, a + b, file, now)
  {
    AstOccurrencesAppend(cfg, a + [call], b, file, now);
    AstOccurrencesAppend(cfg, a, [call], file, now);
    AstOccurrencesAppend(cfg, a, b, file, now);
    assert AstOccurrences(cfg, [call], file, now) == Ok([]) by {
      assert [call][..0] == [];
    }
    var r := AstOccurrences(cfg, a, file, now);
    if r.Ok? {
      assert r.value + [] == r.value;
    }
  }

  /** A freshly extracted occurrence: Chinese text, the given file and
      timestamp, a non-negative argument index, the {0, 0} position. */
  predicate FreshOccurrence(cfg: Settings, t: Term, file: string, now: string) {
    && ContainsChinese(cfg, Str(t.text))
    && t.argumentIndex.Some? && t.argumentIndex.value >= 0
    && t == Occurrence(t.text, file, t.argumentIndex.value, now)
  }

  lemma {:induction false} AstOccurrencesFresh(cfg: Settings, calls: seq<Value>, file: string, now: string)
    ensures AstOccurrences(cfg, calls, file, now).Ok? ==>
      forall k :: 0 <= k < |AstOccurrences(cfg, calls, file, now).value| ==>
        FreshOccurrence(cfg, AstOccurrences(cfg, calls, file, now).value[k], file, now)
  {
    if calls != [] {
      var n := |calls| - 1;
      AstOccurrencesFresh(cfg, calls[..n], file, now);
      var call := calls[n];
      if !call.Undef? && !call.Null? && Get(call, "args").Arr? {
        ArgOccurrencesSound(cfg, Get(call, "args").elems, file, now);
      }
    }
  }

  /** Whatever `extractFromAst` returns is a list of fresh occurrences of
      that file's Chinese arguments. */
  lemma AstTermsFresh(cfg: Settings, ast: AstResult, now: string)
    ensures AstTerms(cfg, ast, now).Ok? ==>
      forall k :: 0 <= k < |AstTerms(cfg, ast, now).value| ==>
        FreshOccurrence(cfg, AstTerms(cfg, ast, now).value[k], ast.file, now)
  {
    if ast.calls.Arr? {
      AstOccurrencesFresh(cfg, ast.calls.elems, ast.file, now);
    }
  }

  /** `extractFromAst(astResult)`: nothing when `calls` is missing or not an
      array; otherwise the occurrences of every accepted call, in call order
      and then argument order, unless some call throws. */
  method ExtractFromAst(cfg: Settings, ast: AstResult, now: string) returns (r: Result<seq<Term>, string>)
    ensures r == AstTerms(cfg, ast, now)
    ensures !ast.calls.Arr? ==> r == Ok([])
  {
    if !ast.calls.Arr? {
      return Ok([]);
    }
    var calls := ast.calls.elems;
    var extractedTerms: seq<Term> := [];
    var i := 0;
    while i < |calls|
      invariant 0 <= i <= |calls|
      invariant AstOccurrences(cfg, calls[..i], ast.file, now) == Ok(extractedTerms)
    {
      var callExpr := calls[i];
      assert calls[..i + 1][..i] == calls[..i];
      assert calls == calls[..i + 1] + calls[i + 1..];
      AstOccurrencesAppend(cfg, calls[..i + 1], calls[i + 1..], ast.file, now);
      assert AstOccurrences(cfg, calls[..i + 1], ast.file, now) ==
        Then(Ok(extractedTerms), CallOccurrences(cfg, callExpr, ast.file, now));
      if callExpr.Undef? || callExpr.Null? {
        return Err(ReadPropertyError(callExpr, "function"));
      }
      if IsI18nFunction(cfg, Get(callExpr, "function")) {
        var chineseTerms := ExtractChineseFromArgs(cfg, Get(callExpr, "args"), ast.file, now);
        if chineseTerms.Err? {
          return Err(chineseTerms.error);
        }
        extractedTerms := extractedTerms + chineseTerms.value;
      } else {
        assert extractedTerms + [] == extractedTerms;
      }
      i := i + 1;
    }
    assert calls[..i] == calls;
    r := Ok(extractedTerms);
  }

  /** One element of the parser's result list. */
  datatype FileOutcome =
    | Success(file: string, ast: AstResult)
    | Failure(file: string, error: string)

  datatype ErrorEntry = ErrorEntry(file: string, error: string)

  datatype Summary = Summary(totalFiles: nat, successFiles: nat, errorFiles: nat, totalTerms: nat)

  datatype Extraction = Extraction(terms: seq<Term>, errors: seq<ErrorEntry>, summary: Summary)

  /** What one file contributes: its occurrences, or the error it reports
      (the parser's own, or the message `extractFromAst` threw). */
  function FileTerms(cfg: Settings, o: FileOutcome, now: string): Result<seq<Term>, string> {
    match o
    case Success(_, ast) => AstTerms(cfg, ast, now)
    case Failure(_, error) => Err(error)
  }

  /** All occurrences of the batch, before deduplication. */
  function BatchTerms(cfg: Settings, results: seq<FileOutcome>, now: string): seq<Term> {
    if results == [] then []
    else
      var n := |results| - 1;
      BatchTerms(cfg, results[..n], now) +
      match FileTerms(cfg, results[n], now)
      case Ok(terms) => terms
      case Err(_) => []
  }

  function BatchErrors(cfg: Settings, results: seq<FileOutcome>, now: string): seq<ErrorEntry> {
    if results == [] then []
    else
      var n := |results| - 1;
      BatchErrors(cfg, results[..n], now) +
      match FileTerms(cfg, results[n], now)
      case Ok(_) => []
      case Err(e) => [ErrorEntry(results[n].file, e)]
  }

  function SuccessCount(cfg: Settings, results: seq<FileOutcome>, now: string): nat {
    if results == [] then 0
    else
      var n := |results| - 1;
      SuccessCount(cfg, results[..n], now) + if FileTerms(cfg, results[n], now).Ok? then 1 else 0
  }

  /** `extractFromMultipleFiles(astResults)` */
  method ExtractFromMultipleFiles(cfg: Settings, results: seq<FileOutcome>, now: string) returns (r: Extraction)
    ensures r.summary.totalFiles == |results|
    ensures r.summary.successFiles == SuccessCount(cfg, results, now)
    ensures r.summary.successFiles + r.summary.errorFiles == r.summary.totalFiles
    ensures r.summary.errorFiles == |r.errors|
    ensures r.errors == BatchErrors(cfg, results, now)
    ensures r.summary.totalTerms == |BatchTerms(cfg, results, now)|
    ensures !Truthy(cfg.deduplicate) ==> r.terms == BatchTerms(cfg, results, now)
    ensures Truthy(cfg.deduplicate) ==> r.terms == Deduplicated(BatchTerms(cfg, results, now))
  {
    var allTerms: seq<Term> := [];
    var errors: seq<ErrorEntry> := [];
    var successFiles, errorFiles, totalTerms := 0, 0, 0;
    var i := 0;
    while i < |results|
      invariant 0 <= i <= |results|
      invariant allTerms == BatchTerms(cfg, results[..i], now)
      invariant errors == BatchErrors(cfg, results[..i], now)
      invariant successFiles == SuccessCount(cfg, results[..i], now)
      invariant errorFiles == |errors| && successFiles + errorFiles == i
      invariant totalTerms == |allTerms|
    {
      var result := results[i];
      assert results[..i + 1][..i] == results[..i];
      match result {
        case Success(file, ast) =>
          var terms := ExtractFromAst(cfg, ast, now);
          if terms.Ok? {
            allTerms := allTerms + terms.value;
            successFiles := successFiles + 1;
            totalTerms := totalTerms + |terms.value|;
          } else {
            errors := errors + [ErrorEntry(file, terms.error)];
            errorFiles := errorFiles + 1;
          }
        case Failure(file, error) =>
          errors := errors + [ErrorEntry(file, error)];
          errorFiles := errorFiles + 1;
      }
      i := i + 1;
    }
    assert results[..i] == results;
    var terms := DeduplicateTerms(cfg, allTerms);
    r := Extraction(terms, errors, Summary(|results|, successFiles, errorFiles, totalTerms));
  }

  /** Batch isolation: the outcome of a batch is the outcomes of its parts
      put together. */
  lemma {:induction false} BatchAppend(cfg: Settings, a: seq<FileOutcome>, b: seq<FileOutcome>, now: string)
    ensures BatchTerms(cfg, a + b, now) == BatchTerms(cfg, a, now) + BatchTerms(cfg, b, now)
    ensures BatchErrors(cfg, a + b, now) == BatchErrors(cfg, a, now) + BatchErrors(cfg, b, now)
    ensures SuccessCount(cfg, a + b, now) == SuccessCount(cfg, a, now) + SuccessCount(cfg, b, now)
    decreases |b|
  {
    if b == [] {
      assert a + b == a;
    } else {
      var n := |b| - 1;
      assert (a + b)[..|a + b| - 1] == a + b[..n];
      assert (a + b)[|a + b| - 1] == b[n];
      BatchAppend(cfg, a, b[..n], now);
    }
  }

  /** A file the parser could not handle adds exactly one error, carrying its
      file and message, and no terms; the files around it are unaffected. */
  lemma {:induction false} FailureIsolated(cfg: Settings, a: seq<FileOutcome>, file: string, error: string, b: seq<FileOutcome>, now: string)
    ensures BatchTerms(cfg, a + [Failure(file, error)] + b, now) == BatchTerms(cfg, a, now) + BatchTerms(cfg, b, now)
    ensures BatchErrors(cfg, a + [Failure(file, error)] + b, now) ==
      BatchErrors(cfg, a, now) + [ErrorEntry(file, error)] + BatchErrors(cfg, b, now)
    ensures SuccessCount(cfg, a + [Failure(file, error)] + b, now) == SuccessCount(cfg, a, now) + SuccessCount(cfg, b, now)
  {
    var f := [Failure(file, error)];
    SingleFailure(cfg, file, error, now);
    BatchAppend(cfg, a, f, now);
    BatchAppend(cfg, a + f, b, now);
  }

  lemma SingleFailure(cfg: Settings, file: string, error: string, now: string)
    ensures BatchTerms(cfg, [Failure(file, error)], now) == []
    ensures BatchErrors(cfg, [Failure(file, error)], now) == [ErrorEntry(file, error)]
    ensures SuccessCount(cfg, [Failure(file, error)], now) == 0
  {
    var f := [Failure(file, error)];
    assert f[..0] == [];
  }

  /** The error list has one entry per file that did not succeed. */
  lemma {:induction false} BatchCountsPartition(cfg: Settings, results: seq<FileOutcome>, now: string)
    ensures SuccessCount(cfg, results, now) + |BatchErrors(cfg, results, now)| == |results|
  {
    if results != [] {
      BatchCountsPartition(cfg, results[..|results| - 1], now);
    }
  }

  /** `t` is a fresh occurrence from some file of `results` that succeeded. */
  predicate FromSucceededFile(cfg: Settings, results: seq<FileOutcome>, t: Term, now: string) {
    exists j :: 0 <= j < |results| && results[j].Success? && FreshOccurrence(cfg, t, results[j].ast.file, now)
  }

  /** Every collected term is a fresh occurrence from a file that succeeded. */
  lemma BatchTermsFresh(cfg: Settings, results: seq<FileOutcome>, now: string)
    ensures forall k :: 0 <= k < |BatchTerms(cfg, results, now)| ==>
      FromSucceededFile(cfg, results, BatchTerms(cfg, results, now)[k], now)
  {
    forall k | 0 <= k < |BatchTerms(cfg, results, now)|
      ensures FromSucceededFile(cfg, results, BatchTerms(cfg, results, now)[k], now)
    {
      BatchTermFresh(cfg, results, now, k);
    }
  }

  lemma {:induction false} BatchTermFresh(cfg: Settings, results: seq<FileOutcome>, now: string, k: nat)
    requires k < |BatchTerms(cfg, results, now)|
    ensures FromSucceededFile(cfg, results, BatchTerms(cfg, results, now)[k], now)
  {
    assert results != [];
    var n := |results| - 1;
    var pre := results[..n];
    var prefixTerms := BatchTerms(cfg, pre, now);
    var last := FileTerms(cfg, results[n], now);
    var lastTerms := if last.Ok? then last.value else [];
    assert BatchTerms(cfg, results, now) == prefixTerms + lastTerms;
    var t := BatchTerms(cfg, results, now)[k];
    if k < |prefixTerms| {
      BatchTermFresh(cfg, pre, now, k);
      var j :| 0 <= j < |pre| && pre[j].Success? && FreshOccurrence(cfg, prefixTerms[k], pre[j].ast.file, now);
      assert results[j] == pre[j] && t == prefixTerms[k];
      assert 0 <= j < |results| && results[j].Success? && FreshOccurrence(cfg, t, results[j].ast.file, now);
    } else {
      assert last.Ok? && results[n].Success?;
      AstTermsFresh(cfg, results[n].ast, now);
      assert t == last.value[k - |prefixTerms|];
      assert FreshOccurrence(cfg, t, results[n].ast.file, now);
    }
  }
}
