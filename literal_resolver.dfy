/** `extractChineseFromLiteral`, `extractChineseFromNode` and
    `extractChineseFromBinaryExpr`: turning a literal token, or a small
    expression tree, into the Chinese text it carries, if any. */
module LiteralResolver {
  import opened JsValue
  import opened ExtractorConfig
  import opened ScriptDetector

  predicate QuotedBy(text: string, q: char) {
    |text| >= 1 && text[0] == q && text[|text| - 1] == q
  }

  /** Removes one surrounding pair of `"` or `'` (`text.slice(1, -1)`; on a
      lone quote character that gives ""). Backticks, mismatched quotes and
      unquoted text are left alone. */
  function StripQuotes(text: string): (r: string)
    ensures (QuotedBy(text, '"') || QuotedBy(text, '\'')) && |text| >= 2 ==> text == [text[0]] + r + [text[0]]
    ensures (QuotedBy(text, '"') || QuotedBy(text, '\'')) && |text| == 1 ==> r == ""
    ensures !QuotedBy(text, '"') && !QuotedBy(text, '\'') ==> r == text
  {
    if QuotedBy(text, '"') || QuotedBy(text, '\'') then
      (if |text| == 1 then "" else text[1..|text| - 1])
    else text
  }

  /** Exactly one layer of matching quotes comes off. */
  lemma StripQuotesRoundTrip(s: string)
    ensures StripQuotes("\"" + s + "\"") == s
    ensures StripQuotes("'" + s + "'") == s
  {
    assert ("\"" + s + "\"")[1..|s| + 1] == s;
    assert ("'" + s + "'")[1..|s| + 1] == s;
  }

  /** `extractChineseFromLiteral(literal)`: only a non-empty string is
      considered; the unquoted text is returned when it contains Chinese. */
  function ExtractChineseFromLiteral(cfg: Settings, literal: Value): (r: Option<string>)
    ensures r.Some? ==> ContainsChinese(cfg, Str(r.value))
    ensures r.Some? <==> Truthy(literal) && literal.Str? && ContainsChinese(cfg, Str(StripQuotes(literal.s)))
    ensures r.Some? ==> r.value == StripQuotes(literal.s)
  {
    if !Truthy(literal) || !literal.Str? then None
    else
      var text := StripQuotes(literal.s);
      if ContainsChinese(cfg, Str(text)) then Some(text) else None
  }

  /** A quoted Go string literal yields its contents exactly when they
      contain Chinese. */
  lemma LiteralOfQuotedString(cfg: Settings, s: string)
    ensures ExtractChineseFromLiteral(cfg, Str("\"" + s + "\"")) ==
      (if ContainsChinese(cfg, Str(s)) then Some(s) else None)
    ensures ExtractChineseFromLiteral(cfg, Str("'" + s + "'")) ==
      (if ContainsChinese(cfg, Str(s)) then Some(s) else None)
  {
    StripQuotesRoundTrip(s);
  }

  /** An expression node as the resolver inspects it: by its `type`, and
      for the other kinds by its `children`. A missing or non-array
      `children` behaves exactly like an empty one, so both are []. `NoNode`
      is a null or undefined node. */
  datatype Node =
    | NoNode
    | BasicLit(value: Value)
    | BinaryExpr(children: seq<Node>)
    | Ident
    | OtherNode(children: seq<Node>)

  /** `extractChineseFromNode(node)` */
  function ExtractChineseFromNode(cfg: Settings, node: Node): (r: Option<string>)
    ensures r.Some? ==> ContainsChinese(cfg, Str(r.value))
    ensures node.NoNode? || node.Ident? ==> r.None?
    decreases node, 1
  {
    match node
    case NoNode => None
    case BasicLit(v) => ExtractChineseFromLiteral(cfg, v)
    case BinaryExpr(_) => ExtractChineseFromBinaryExpr(cfg, node)
    case Ident => None
    case OtherNode(children) =>
      FirstChildText(cfg, children)
  }

  /** The `for ... of node.children` loop: the first child that yields text. */
  function FirstChildText(cfg: Settings, children: seq<Node>): (r: Option<string>)
    ensures r.Some? ==> ContainsChinese(cfg, Str(r.value))
    ensures r.Some? <==> exists i :: 0 <= i < |children| && ExtractChineseFromNode(cfg, children[i]).Some?
    ensures r.Some? ==> exists i :: 0 <= i < |children| && ExtractChineseFromNode(cfg, children[i]) == r
                          && forall j :: 0 <= j < i ==> ExtractChineseFromNode(cfg, children[j]).None?
    decreases children
  {
    if children == [] then None
    else
      var first := ExtractChineseFromNode(cfg, children[0]);
      if first.Some? then first else FirstChildText(cfg, children[1..])
  }

  /** `extractChineseFromBinaryExpr(node)`: concatenates both sides when both
      yield text (and the result is checked again), otherwise takes the side
      that does (`leftText || rightText`; a resolved text is never empty). */
  function ExtractChineseFromBinaryExpr(cfg: Settings, node: Node): (r: Option<string>)
    requires node.BinaryExpr?
    ensures r.Some? ==> ContainsChinese(cfg, Str(r.value))
    ensures |node.children| < 2 ==> r.None?
    decreases node, 0
  {
    if |node.children| < 2 then None
    else
      var left := ExtractChineseFromNode(cfg, node.children[0]);
      var right := ExtractChineseFromNode(cfg, node.children[1]);
      if left.Some? && right.Some? then
        var combined := left.value + right.value;
        if ContainsChinese(cfg, Str(combined)) then Some(combined) else None
      else if left.Some? then left
      else right
  }

  /** Concatenation resolves additively: the re-check of the combined text
      always passes, and a single resolved side is returned on its own. */
  lemma BinaryExprResolution(cfg: Settings, left: Node, right: Node, rest: seq<Node>)
    ensures var l := ExtractChineseFromNode(cfg, left);
            var r := ExtractChineseFromNode(cfg, right);
            ExtractChineseFromNode(cfg, BinaryExpr([left, right] + rest)) ==
              if l.Some? && r.Some? then Some(l.value + r.value)
              else if l.Some? then l
              else r
  {
    var l := ExtractChineseFromNode(cfg, left);
    var r := ExtractChineseFromNode(cfg, right);
    if l.Some? && r.Some? {
      ContainsChineseConcat(cfg, l.value, r.value);
    }
  }
}
