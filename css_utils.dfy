/** The node-classification helpers of prettier's CSS printer
    (src/language-css/utils.js): questions about the node being printed and
    its ancestors, asked for CSS, SCSS and Less alike. Nothing here changes
    the tree. Answers that JavaScript gives as "truthy" values are modelled
    as booleans. */
module CssUtils {
  import opened Wrappers
  import opened JsStrings
  import opened JsPatterns
  import opened CssNodes

  // ---------------------------------------------------------------------
  // Ancestor search

  /** `i` is the nearest ancestor whose kind is one of `types`. */
  predicate NearestAt(ancestors: seq<Node>, types: seq<Kind>, i: int)
  {
    0 <= i < |ancestors| && ancestors[i].kind in types
    && forall j :: 0 <= j < i ==> ancestors[j].kind !in types
  }

  /** The index `getAncestorCounter` computes, defined by recursion on the
      ancestors. */
  function AncestorIndex(ancestors: seq<Node>, types: seq<Kind>): (r: int)
    ensures -1 <= r < |ancestors|
    ensures r >= 0 ==> NearestAt(ancestors, types, r)
    ensures r == -1 ==> forall j :: 0 <= j < |ancestors| ==> ancestors[j].kind !in types
  {
    if ancestors == [] then -1
    else if ancestors[0].kind in types then 0
    else
      var r := AncestorIndex(ancestors[1..], types);
      assert forall j :: 1 <= j < |ancestors| ==> ancestors[j] == ancestors[1..][j - 1];
      if r == -1 then -1 else r + 1
  }

  /** `getAncestorCounter(path, types)`: probes `getParentNode(0)`,
      `getParentNode(1)`, ... until an ancestor of one of `types` turns up or
      the root has been passed. */
  method GetAncestorCounter(path: Path, types: seq<Kind>) returns (counter: int)
    ensures counter == AncestorIndex(path.ancestors, types)
  {
    counter := -1;
    while true
      invariant -1 <= counter < |path.ancestors|
      invariant forall j :: 0 <= j <= counter ==> path.ancestors[j].kind !in types
      decreases |path.ancestors| - counter
    {
      counter := counter + 1;
      var ancestorNode := GetParentNode(path, counter);
      if ancestorNode.None? {
        return -1;
      }
      if ancestorNode.value.kind in types {
        return;
      }
    }
  }

  /** `getAncestorNode(path, types)`: the nearest ancestor of one of
      `types`, or nothing. */
  function GetAncestorNode(path: Path, types: seq<Kind>): (r: Option<Node>)
    ensures r.None? <==> forall j :: 0 <= j < |path.ancestors| ==> path.ancestors[j].kind !in types
    ensures r.Some? <==> exists i :: NearestAt(path.ancestors, types, i)
    ensures forall i :: NearestAt(path.ancestors, types, i) ==> r == Some(path.ancestors[i])
  {
    var counter := AncestorIndex(path.ancestors, types);
    if counter == -1 then None else GetParentNode(path, counter)
  }

  /** `getPropOfDeclNode(path)`: the lower-cased property of the nearest
      declaration. An empty property comes back as the empty string. */
  function GetPropOfDeclNode(path: Path): (r: Option<string>)
    ensures r.Some? ==> IsLowerCase(r.value)
    ensures r.Some? <==> exists i :: NearestAt(path.ancestors, [CssDecl], i) && path.ancestors[i].prop.Some?
    ensures forall i :: NearestAt(path.ancestors, [CssDecl], i) && path.ancestors[i].prop.Some? ==>
      r == Some(Lower(path.ancestors[i].prop.value))
  {
    var declAncestorNode := GetAncestorNode(path, [CssDecl]);
    if declAncestorNode.None? then None
    else if !Truthy(declAncestorNode.value.prop) then
      if declAncestorNode.value.prop == Some("") then Some("") else None
    else
      var prop := declAncestorNode.value.prop.value;
      LowerIdempotent(prop);
      Some(Lower(prop))
  }

  // ---------------------------------------------------------------------
  // Dialect guess

  /** `isSCSS(parser, text)`: an explicit `scss` or `less` parser decides;
      otherwise the text is searched for SCSS-looking syntax. */
  function IsSCSS(parser: string, text: string): (r: bool)
    ensures parser == "scss" ==> r
    ensures parser == "less" ==> !r
    ensures parser != "scss" && parser != "less" ==> (r <==> PossiblySCSS(text))
  {
    var hasExplicitParserChoice := parser == "less" || parser == "scss";
    if hasExplicitParserChoice then parser == "scss" else PossiblySCSS(text)
  }

  /** Without a parser choice, a text that contains SCSS-looking text is
      guessed to be SCSS however it continues. */
  lemma IsSCSSInLargerText(parser: string, t: string, u: string, o: nat)
    requires parser != "less"
    requires o + |t| <= |u| && u[o..o + |t|] == t
    requires IsSCSS(parser, t)
    ensures IsSCSS(parser, u)
  {
    if parser != "scss" {
      PossiblySCSSInLargerText(t, u, o);
    }
  }

  /** An `@import` followed on its line by a comma is SCSS. */
  lemma ImportListIsSCSS(parser: string)
    requires parser != "less"
    ensures IsSCSS(parser, "@import \"a\", \"b\";")
  {
    var t := "@import \"a\", \"b\";";
    assert ImportListAt(t, 0, 11);
  }

  // ---------------------------------------------------------------------
  // Case and keyword normalisation

  /** `isWideKeywords(value)`: a CSS-wide keyword, in any case. */
  function IsWideKeywords(value: string): (r: bool)
    ensures r <==> Lower(value) in {"initial", "inherit", "unset", "revert"}
  {
    IndexOf(["initial", "inherit", "unset", "revert"], Lower(value)) != -1
  }

  lemma WideKeywordsIgnoreCase(value: string)
    ensures IsWideKeywords(value) == IsWideKeywords(Lower(value))
  {
    LowerIdempotent(value);
  }

  /** The nearest at-rule is some kind of `@keyframes`. */
  predicate IsKeyframesAtRule(atRule: Node)
  {
    Truthy(atRule.name) && EndsWith(Lower(atRule.name.value), "keyframes")
  }

  /** `isKeyframeAtRuleKeywords(path, value)`: `from` or `to` (in any case)
      directly inside some `@...keyframes` at-rule. */
  function IsKeyframeAtRuleKeywords(path: Path, value: string): (r: bool)
    ensures r <==>
      && (exists i :: NearestAt(path.ancestors, [CssAtRule], i) && IsKeyframesAtRule(path.ancestors[i]))
      && Lower(value) in {"from", "to"}
  {
    var atRuleAncestorNode := GetAncestorNode(path, [CssAtRule]);
    atRuleAncestorNode.Some?
    && Truthy(atRuleAncestorNode.value.name)
    && EndsWith(Lower(atRuleAncestorNode.value.name.value), "keyframes")
    && IndexOf(["from", "to"], Lower(value)) != -1
  }

  lemma KeyframeKeywordsIgnoreCase(path: Path, value: string)
    ensures IsKeyframeAtRuleKeywords(path, value) == IsKeyframeAtRuleKeywords(path, Lower(value))
  {
    LowerIdempotent(value);
  }

  /** The identifier's case may matter: it holds a variable sigil, an
      interpolation marker, is a placeholder or custom property, or holds
      both parentheses. */
  predicate KeepsCase(value: string)
  {
    '$' in value || '@' in value || '#' in value
    || StartsWith(value, "%") || StartsWith(value, "--") || StartsWith(value, ":--")
    || ('(' in value && ')' in value)
  }

  /** `maybeToLowerCase(value)`: the input when its case may matter,
      otherwise its lower case. Either way only case changes. */
  function MaybeToLowerCase(value: string): (r: string)
    ensures |r| == |value| && Lower(r) == Lower(value)
    ensures KeepsCase(value) ==> r == value
    ensures !KeepsCase(value) ==> IsLowerCase(r)
  {
    LowerIdempotent(value);
    if KeepsCase(value) then value else Lower(value)
  }

  lemma MaybeToLowerCaseIdempotent(value: string)
    ensures MaybeToLowerCase(MaybeToLowerCase(value)) == MaybeToLowerCase(value)
  {
  }

  /** Whether case is kept does not depend on case. */
  lemma KeepsCaseIgnoresCase(value: string)
    ensures KeepsCase(Lower(value)) <==> KeepsCase(value)
  {
  }

  /** Folding case first and then normalising gives the same as normalising
      and then folding case. */
  lemma MaybeToLowerCaseCommutesWithLower(value: string)
    ensures MaybeToLowerCase(Lower(value)) == Lower(MaybeToLowerCase(value))
  {
  }

  // ---------------------------------------------------------------------
  // Questions about the enclosing nodes

  /** The nearest `value-func` ancestor, if any, has no node as its value
      (on which `toLowerCase` would fail). */
  predicate FuncAncestorValueIsText(path: Path)
  {
    var funcAncestorNode := GetAncestorNode(path, [ValueFunc]);
    funcAncestorNode.None? || !funcAncestorNode.value.value.Child?
  }

  /** `insideValueFunctionNode(path, functionName)`: the nearest function's
      name, lower-cased, equals `functionName`. Only the node side is
      lower-cased, so an argument with an upper-case letter never matches. */
  function InsideValueFunctionNode(path: Path, functionName: string): (r: bool)
    requires FuncAncestorValueIsText(path)
    ensures r ==> IsLowerCase(functionName)
    ensures r <==> exists i ::
      && NearestAt(path.ancestors, [ValueFunc], i)
      && path.ancestors[i].value.Text? && path.ancestors[i].value.text != ""
      && Lower(path.ancestors[i].value.text) == functionName
  {
    var funcAncestorNode := GetAncestorNode(path, [ValueFunc]);
    if funcAncestorNode.Some? && funcAncestorNode.value.value.Truthy() then
      var name := funcAncestorNode.value.value.text;
      LowerIdempotent(name);
      Lower(name) == functionName
    else
      false
  }

  /** The selector of an ICSS `:import` or `:export` block. */
  predicate IsICSSSelector(raws: Option<Raws>)
  {
    raws.Some? && raws.value.selector.Some?
    && (StartsWith(raws.value.selector.value, ":import") || StartsWith(raws.value.selector.value, ":export"))
  }

  /** `insideICSSRuleNode(path)`: the nearest rule's raw selector starts with
      `:import` or `:export`. */
  function InsideICSSRuleNode(path: Path): (r: bool)
    ensures r <==> exists i :: NearestAt(path.ancestors, [CssRule], i) && IsICSSSelector(path.ancestors[i].raws)
  {
    var ruleAncestorNode := GetAncestorNode(path, [CssRule]);
    ruleAncestorNode.Some?
    && ruleAncestorNode.value.raws.Some?
    && Truthy(ruleAncestorNode.value.raws.value.selector)
    && (StartsWith(ruleAncestorNode.value.raws.value.selector.value, ":import")
        || StartsWith(ruleAncestorNode.value.raws.value.selector.value, ":export"))
  }

  /** The nearest at-rule, if any, has a name (`toLowerCase` is called on it
      unguarded). */
  predicate AtRuleAncestorHasName(path: Path)
  {
    var atRuleAncestorNode := GetAncestorNode(path, [CssAtRule]);
    atRuleAncestorNode.None? || atRuleAncestorNode.value.name.Some?
  }

  /** `insideAtRuleNode(path, atRuleName)`: the nearest at-rule's name,
      lower-cased, equals `atRuleName` (which is not lower-cased). */
  function InsideAtRuleNode(path: Path, atRuleName: string): (r: bool)
    requires AtRuleAncestorHasName(path)
    ensures r ==> IsLowerCase(atRuleName)
    ensures r <==> exists i ::
      && NearestAt(path.ancestors, [CssAtRule], i)
      && path.ancestors[i].name.Some? && Lower(path.ancestors[i].name.value) == atRuleName
  {
    var atRuleAncestorNode := GetAncestorNode(path, [CssAtRule]);
    if atRuleAncestorNode.Some? then
      var name := atRuleAncestorNode.value.name.value;
      LowerIdempotent(name);
      Lower(name) == atRuleName
    else
      false
  }

  /** Inside an at-rule named exactly `import`, the current node has a first
      group to look at. */
  predicate ImportNodeHasGroups(path: Path)
  {
    var atRuleAncestorNode := GetAncestorNode(path, [CssAtRule]);
    atRuleAncestorNode.Some? && atRuleAncestorNode.value.name == Some("import")
    ==> path.node.groups.Some? && |path.node.groups.value| > 0
  }

  /** `insideURLFunctionInImportAtRuleNode(path)`: the current node has two
      groups, the first with value `url`, inside an at-rule named `import`;
      both names compared as written. */
  function InsideURLFunctionInImportAtRuleNode(path: Path): (r: bool)
    requires ImportNodeHasGroups(path)
    ensures r ==> AtRuleAncestorHasName(path) && InsideAtRuleNode(path, "import")
    ensures r <==>
      && (exists i :: NearestAt(path.ancestors, [CssAtRule], i) && path.ancestors[i].name == Some("import"))
      && path.node.groups.Some? && |path.node.groups.value| == 2 && path.node.groups.value[0].value == Text("url")
  {
    var node := GetValue(path);
    var atRuleAncestorNode := GetAncestorNode(path, [CssAtRule]);
    if atRuleAncestorNode.Some? then
      var i := AncestorIndex(path.ancestors, [CssAtRule]);
      assert NearestAt(path.ancestors, [CssAtRule], i);
      if atRuleAncestorNode.value.name == Some("import") then
        assert Lower("import") == "import";
        node.groups.value[0].value == Text("url") && |node.groups.value| == 2
      else
        false
    else
      false
  }

  /** The at-rule name is compared case-sensitively: under `@IMPORT` the
      current node is never the `url` of an import, though the at-rule
      counts as `import` for insideAtRuleNode. */
  lemma ImportAtRuleNameIsCaseSensitive(path: Path)
    requires GetAncestorNode(path, [CssAtRule]).Some?
    requires GetAncestorNode(path, [CssAtRule]).value.name == Some("IMPORT")
    ensures ImportNodeHasGroups(path) && !InsideURLFunctionInImportAtRuleNode(path)
    ensures AtRuleAncestorHasName(path) && InsideAtRuleNode(path, "import")
  {
  }

  /** `isURLFunctionNode(node)`: a function named `url` in any case. */
  function IsURLFunctionNode(node: Node): (r: bool)
    requires node.kind == ValueFunc ==> node.value.Text?
    ensures r <==> (node.kind == ValueFunc
      && node.value.text in {"url", "urL", "uRl", "uRL", "Url", "UrL", "URl", "URL"})
  {
    if node.kind == ValueFunc then
      UrlSpellings(node.value.text);
      Lower(node.value.text) == "url"
    else
      false
  }

  /** The strings that fold to `url` are its eight case spellings. */
  lemma UrlSpellings(t: string)
    ensures Lower(t) == "url" <==> t in {"url", "urL", "uRl", "uRL", "Url", "UrL", "URl", "URL"}
  {
    if Lower(t) == "url" {
      assert |t| == 3 && t == [t[0], t[1], t[2]];
      assert Lower(t)[0] == 'u' && Lower(t)[1] == 'r' && Lower(t)[2] == 'l';
      assert LowerChar(t[0]) == 'u' && LowerChar(t[1]) == 'r' && LowerChar(t[2]) == 'l';
      assert t[0] in "uU" && t[1] in "rR" && t[2] in "lL";
    }
    if t in {"url", "urL", "uRl", "uRL", "Url", "UrL", "URl", "URL"} {
      assert |t| == 3 && t[0] in "uU" && t[1] in "rR" && t[2] in "lL";
      assert Lower(t)[0] == 'u' && Lower(t)[1] == 'r' && Lower(t)[2] == 'l';
    }
  }

  /** Being inside `url(...)` is being inside a function node that is a URL
      function. */
  lemma InsideURLFunctionIffAncestorIsURLFunction(path: Path)
    requires FuncAncestorValueIsText(path)
    ensures InsideValueFunctionNode(path, "url") <==>
      var f := GetAncestorNode(path, [ValueFunc]);
      f.Some? && f.value.value.Text? && IsURLFunctionNode(f.value)
  {
  }

  /** `isLastNode(path, node)`: the first occurrence of `node` among the
      parent's `nodes` is the last position, which holds vacuously of an
      empty list. */
  function IsLastNode(path: Path, node: Node): (r: bool)
    ensures path.ancestors == [] ==> !r
    ensures path.ancestors != [] ==> (r <==>
      var nodes := path.ancestors[0].nodes;
      nodes.Some? && (nodes.value == [] ||
        (nodes.value[|nodes.value| - 1] == node && node !in nodes.value[..|nodes.value| - 1])))
  {
    var parentNode := GetParentNode(path, 0);
    if parentNode.None? then false
    else
      var nodes := parentNode.value.nodes;
      nodes.Some? && IndexOf(nodes.value, node) == |nodes.value| - 1
  }

  /** `isHTMLTag(value)` against the list of known tag names `tags`. */
  function IsHTMLTag(tags: seq<string>, value: string): (r: bool)
    ensures r <==> Lower(value) in tags
  {
    IndexOf(tags, Lower(value)) != -1
  }

  lemma HTMLTagIgnoresCase(tags: seq<string>, value: string)
    ensures IsHTMLTag(tags, Lower(value)) == IsHTMLTag(tags, value)
  {
    LowerIdempotent(value);
  }

  // ---------------------------------------------------------------------
  // Grammar predicates

  /** The text the two tests of isDetachedRulesetDeclarationNode look at:
      the selector string, or the `value` string of a parsed selector. */
  function SelectorText(node: Node): Option<string>
  {
    match node.selector
    case Text(s) => Some(s)
    case Child(c) => if c.value.Text? then Some(c.value.text) else None
    case Absent => None
  }

  /** `isDetachedRulesetDeclarationNode(node)`: the selector looks like
      `@name: ...`, a Less variable that a parser took for a rule. */
  function IsDetachedRulesetDeclarationNode(node: Node): (r: bool)
    ensures r <==> SelectorText(node).Some? && AtNameColonShape(SelectorText(node).value)
    ensures r ==>
      var s := SelectorText(node).value;
      |s| >= 3 && s[0] == '@' && ':' in s[2..] && forall m :: 0 <= m < |s| ==> !IsLineTerminator(s[m])
  {
    if !node.selector.Truthy() then false
    else
      var s := SelectorText(node);
      AtNameColonShapeIff(if s.Some? then s.value else "");
      (node.selector.Text? && AtNameColonShape(node.selector.text))
      || (node.selector.Child? && node.selector.child.value.Truthy()
          && node.selector.child.value.Text? && AtNameColonShape(node.selector.child.value.text))
  }

  /** `isParenGroupNode(node)`. */
  predicate IsParenGroupNode(node: Node)
  {
    node.kind == ValueParenGroup
  }

  /** `isForKeywordNode(node)`: a word `from`, `through` or `end`, as written. */
  function IsForKeywordNode(node: Node): (r: bool)
    ensures r <==> node.kind == ValueWord && node.value.Text? && node.value.text in {"from", "through", "end"}
  {
    node.kind == ValueWord && IndexOf([Text("from"), Text("through"), Text("end")], node.value) != -1
  }

  /** `isIfElseKeywordNode(node)`: a word `and`, `or` or `not`, as written. */
  function IsIfElseKeywordNode(node: Node): (r: bool)
    ensures r <==> node.kind == ValueWord && node.value.Text? && node.value.text in {"and", "or", "not"}
  {
    node.kind == ValueWord && IndexOf([Text("and"), Text("or"), Text("not")], node.value) != -1
  }

  /** `isEachKeywordNode(node)`: the word `in`. */
  function IsEachKeywordNode(node: Node): (r: bool)
    ensures r <==> node.kind == ValueWord && node.value.Text? && node.value.text == "in"
  {
    node.kind == ValueWord && node.value == Text("in")
  }

  /** `isMathOperatorNode(node)`: an operator node `+`, `-`, `/`, `*` or `%`. */
  function IsMathOperatorNode(node: Node): (r: bool)
    ensures r <==> node.kind == ValueOperator && node.value.Text? && node.value.text in {"+", "-", "/", "*", "%"}
  {
    node.kind == ValueOperator && IndexOf([Text("+"), Text("-"), Text("/"), Text("*"), Text("%")], node.value) != -1
  }

  /** `isEqualityOperatorNode(node)`: a word (not an operator node) `==` or `!=`. */
  function IsEqualityOperatorNode(node: Node): (r: bool)
    ensures r <==> node.kind == ValueWord && node.value.Text? && node.value.text in {"==", "!="}
  {
    node.kind == ValueWord && IndexOf([Text("=="), Text("!=")], node.value) != -1
  }

  /** `isRelationalOperatorNode(node)`: a word `<`, `>`, `<=` or `>=`. */
  function IsRelationalOperatorNode(node: Node): (r: bool)
    ensures r <==> node.kind == ValueWord && node.value.Text? && node.value.text in {"<", ">", "<=", ">="}
  {
    node.kind == ValueWord && IndexOf([Text("<"), Text(">"), Text("<="), Text(">=")], node.value) != -1
  }

  /** A parenthesised group is no keyword, no operator and no key-value
      pair. */
  lemma ParenGroupIsNoOtherClass(node: Node)
    ensures IsParenGroupNode(node) ==>
      && !IsKeyValuePairNode(node) && !IsForKeywordNode(node) && !IsIfElseKeywordNode(node)
      && !IsEachKeywordNode(node) && !IsMathOperatorNode(node) && !IsEqualityOperatorNode(node)
      && !IsRelationalOperatorNode(node)
  {
  }

  /** No node falls in two of the keyword and operator classes. */
  lemma NodeClassesDisjoint(node: Node)
    ensures IsForKeywordNode(node) ==> !IsIfElseKeywordNode(node) && !IsEachKeywordNode(node)
    ensures IsIfElseKeywordNode(node) ==> !IsEachKeywordNode(node)
    ensures IsEqualityOperatorNode(node) ==> !IsRelationalOperatorNode(node) && !IsMathOperatorNode(node)
    ensures IsEqualityOperatorNode(node) ==>
      !IsForKeywordNode(node) && !IsIfElseKeywordNode(node) && !IsEachKeywordNode(node)
    ensures IsRelationalOperatorNode(node) ==>
      !IsForKeywordNode(node) && !IsIfElseKeywordNode(node) && !IsEachKeywordNode(node)
    ensures IsMathOperatorNode(node) ==>
      !IsForKeywordNode(node) && !IsIfElseKeywordNode(node) && !IsEachKeywordNode(node) && !IsRelationalOperatorNode(node)
  {
  }

  /** The control keywords match only lower-case spellings. */
  lemma ControlKeywordsAreLowerCase(node: Node)
    ensures IsForKeywordNode(node) || IsIfElseKeywordNode(node) || IsEachKeywordNode(node) ==>
      IsLowerCase(node.value.text)
  {
  }

  /** `isSCSSControlDirectiveNode(node)`: an at-rule `@if`, `@else`, `@for`,
      `@each` or `@while`, as written. */
  function IsSCSSControlDirectiveNode(node: Node): (r: bool)
    ensures r <==> node.kind == CssAtRule && node.name.Some? && node.name.value in {"if", "else", "for", "each", "while"}
  {
    node.kind == CssAtRule && IndexOf([Some("if"), Some("else"), Some("for"), Some("each"), Some("while")], node.name) != -1
  }

  /** `isSCSSNestedPropertyNode(node)`: with the first block comment and the
      first line comment taken out and the ends trimmed, the selector ends
      with a colon (`font: { ... }`). */
  function IsSCSSNestedPropertyNode(node: Node): (r: bool)
    requires !node.selector.Child?
    ensures r ==> node.selector.Text? && ':' in node.selector.text
    ensures node.selector.Text? && '/' !in node.selector.text ==>
      (r <==> EndsWith(Trim(node.selector.text), ":"))
    ensures node.selector.Text? ==>
      (r <==> && node.selector.text != ""
              && EndsWith(Trim(StripFirstLineComment(StripFirstBlockComment(node.selector.text))), ":"))
  {
    if !node.selector.Truthy() then false
    else
      var selector := node.selector.text;
      var stripped := Trim(StripFirstLineComment(StripFirstBlockComment(selector)));
      assert EndsWith(stripped, ":") ==> stripped[|stripped| - 1] == ':';
      assert '/' !in selector ==> forall a, c :: !BlockCommentAt(selector, a, c);
      assert '/' !in selector ==> forall a, e :: !LineCommentAt(selector, a, e);
      EndsWith(stripped, ":")
  }

  /** `isDetachedRulesetCallNode(node)`: the raw parameters are `()` with
      only whitespace inside. */
  function IsDetachedRulesetCallNode(node: Node): (r: bool)
    ensures r <==> node.raws.Some? && node.raws.value.params.Some? && EmptyParensShape(node.raws.value.params.value)
    ensures r ==>
      var params := node.raws.value.params.value;
      |params| >= 2 && Trim(params[1..|params| - 1]) == []
  {
    if node.raws.Some? && node.raws.value.params.Some? then
      EmptyParensShapeIff(node.raws.value.params.value);
      Truthy(node.raws.value.params) && EmptyParensShape(node.raws.value.params.value)
    else
      false
  }

  /** `raws.before` is read unguarded once the other tests have passed. */
  predicate NextNodeHasRaws(currentNode: Node, nextNode: Option<Node>)
  {
    currentNode.value == Text("$$") && currentNode.kind == ValueFunc
    && nextNode.Some? && nextNode.value.kind == ValueWord
    ==> nextNode.value.raws.Some?
  }

  /** `isPostcssSimpleVarNode(currentNode, nextNode)`: `$$` parsed as a
      function, followed by a word with no whitespace before it. */
  function IsPostcssSimpleVarNode(currentNode: Node, nextNode: Option<Node>): (r: bool)
    requires NextNodeHasRaws(currentNode, nextNode)
    ensures nextNode.None? ==> !r
    ensures nextNode.Some? && nextNode.value.kind != ValueWord ==> !r
    ensures nextNode.Some? && nextNode.value.raws.Some? && Truthy(nextNode.value.raws.value.before) ==> !r
    ensures currentNode.kind != ValueFunc || currentNode.value != Text("$$") ==> !r
    ensures
      (&& currentNode.kind == ValueFunc && currentNode.value == Text("$$")
       && nextNode.Some? && nextNode.value.kind == ValueWord
       && !Truthy(nextNode.value.raws.value.before)) ==> r
  {
    currentNode.value == Text("$$")
    && currentNode.kind == ValueFunc
    && nextNode.Some?
    && nextNode.value.kind == ValueWord
    && !Truthy(nextNode.value.raws.value.before)
  }

  /** `node.value.group.group`, when the path exists. */
  function ValueGroupGroup(node: Node): Option<Node>
  {
    if node.value.Child? && node.value.child.group.Some? then node.value.child.group.value.group else None
  }

  /** `hasLessExtendValueNode(node)`: the value is a root holding a value
      whose first node is a function `extend` (Less `&:extend(...)`). */
  function HasLessExtendValueNode(node: Node): (r: bool)
    ensures r ==>
      && ValueGroupGroup(node).Some? && ValueGroupGroup(node).value.kind == ValueFunc
      && ValueGroupGroup(node).value.value == Text("extend")
    ensures r ==> node.value.child.kind == ValueRoot && node.value.child.group.value.kind == ValueValue
    ensures
      (&& HasValueRootOfValue(node) && ValueGroupGroup(node).Some?
       && ValueGroupGroup(node).value.kind == ValueFunc && ValueGroupGroup(node).value.value == Text("extend")) ==> r
    ensures r ==> !HasParensAroundValueNode(node)
  {
    node.value.Truthy()
    && node.value.Child? && node.value.child.kind == ValueRoot
    && node.value.child.group.Some?
    && node.value.child.group.value.kind == ValueValue
    && node.value.child.group.value.group.Some?
    && node.value.child.group.value.group.value.kind == ValueFunc
    && node.value.child.group.value.group.value.value == Text("extend")
  }

  /** The value is a root holding a value node. */
  predicate HasValueRootOfValue(node: Node)
  {
    node.value.Child? && node.value.child.kind == ValueRoot
    && node.value.child.group.Some? && node.value.child.group.value.kind == ValueValue
  }

  /** `hasComposesValueNode(node)`: a parsed value under the property
      `composes`, in any case (CSS modules). */
  function HasComposesValueNode(node: Node): (r: bool)
    requires HasValueRootOfValue(node) ==> node.prop.Some?
    ensures r <==> HasValueRootOfValue(node) && Lower(node.prop.value) == "composes"
  {
    node.value.Truthy()
    && node.value.Child? && node.value.child.kind == ValueRoot
    && node.value.child.group.Some?
    && node.value.child.group.value.kind == ValueValue
    && Lower(node.prop.value) == "composes"
  }

  /** `hasParensAroundValueNode(node)`: the first node of the value is a
      parenthesised group with both parentheses present. */
  function HasParensAroundValueNode(node: Node): (r: bool)
    ensures r <==>
      && ValueGroupGroup(node).Some? && IsParenGroupNode(ValueGroupGroup(node).value)
      && ValueGroupGroup(node).value.open.Some? && ValueGroupGroup(node).value.close.Some?
  {
    node.value.Truthy()
    && node.value.Child?
    && node.value.child.group.Some?
    && node.value.child.group.value.group.Some?
    && node.value.child.group.value.group.value.kind == ValueParenGroup
    && node.value.child.group.value.group.value.open.Some?
    && node.value.child.group.value.group.value.close.Some?
  }

  /** `isKeyValuePairNode(node)`: a comma group whose second member is a
      colon (`key: value`). */
  function IsKeyValuePairNode(node: Node): (r: bool)
    ensures r <==>
      && node.kind == ValueCommaGroup && node.groups.Some? && |node.groups.value| >= 2
      && node.groups.value[1].kind == ValueColon
  {
    node.kind == ValueCommaGroup
    && node.groups.Some?
    && |node.groups.value| > 1
    && node.groups.value[1].kind == ValueColon
  }

  /** `isKeyValuePairInParenGroupNode(node)`: a parenthesised group whose
      first member is a key-value pair (`(key: value, ...)`). */
  function IsKeyValuePairInParenGroupNode(node: Node): (r: bool)
    ensures r ==>
      && IsParenGroupNode(node) && node.groups.Some? && |node.groups.value| >= 1
      && IsKeyValuePairNode(node.groups.value[0])
    ensures
      (&& IsParenGroupNode(node) && node.groups.Some? && |node.groups.value| >= 1
       && IsKeyValuePairNode(node.groups.value[0])) ==> r
    ensures r ==> !IsKeyValuePairNode(node)
  {
    node.kind == ValueParenGroup
    && node.groups.Some?
    && |node.groups.value| > 0
    && IsKeyValuePairNode(node.groups.value[0])
  }

  /** The nearest declaration's property starts with `$`: an SCSS variable. */
  predicate DeclIsSCSSVariable(path: Path)
  {
    var declNode := GetAncestorNode(path, [CssDecl]);
    declNode.Some? && Truthy(declNode.value.prop) && StartsWith(declNode.value.prop.value, "$")
  }

  /** The same question asked through getPropOfDeclNode: lower-casing does
      not touch the `$`. */
  lemma DeclIsSCSSVariableIffProp(path: Path)
    ensures DeclIsSCSSVariable(path) <==>
      GetPropOfDeclNode(path).Some? && StartsWith(GetPropOfDeclNode(path).value, "$")
  {
  }

  /** The tests of isSCSSMapItemNode that do not return early read the
      grandparent, so it must exist when they are reached. */
  predicate MapItemGrandparentReached(path: Path)
  {
    path.node.groups.Some?
    && |path.node.groups.value| > 0
    && IsKeyValuePairInParenGroupNode(path.node)
    && !DeclIsSCSSVariable(path)
  }

  /** `isSCSSMapItemNode(path)`: tells an SCSS map `(key: value, ...)` from a
      parenthesised list that merely contains a colon. */
  function IsSCSSMapItemNode(path: Path): (r: bool)
    requires path.node.groups.Some?
    requires MapItemGrandparentReached(path) ==> |path.ancestors| >= 2
    ensures |path.node.groups.value| == 0 ==> !r
    ensures
      (&& !IsKeyValuePairInParenGroupNode(path.node)
       && !(|path.ancestors| >= 2 && IsKeyValuePairInParenGroupNode(path.ancestors[1]))) ==> !r
    ensures |path.node.groups.value| > 0
      && (IsKeyValuePairInParenGroupNode(path.node) || (|path.ancestors| >= 2 && IsKeyValuePairInParenGroupNode(path.ancestors[1])))
      ==> (r <==> DeclIsSCSSVariable(path)
                  || IsKeyValuePairInParenGroupNode(path.ancestors[1])
                  || path.ancestors[1].kind == ValueFunc)
  {
    var node := GetValue(path);
    if |node.groups.value| == 0 then false
    else
      var parentParentNode := GetParentNode(path, 1);
      if !IsKeyValuePairInParenGroupNode(node)
         && !(parentParentNode.Some? && IsKeyValuePairInParenGroupNode(parentParentNode.value)) then
        false
      else
        var declNode := GetAncestorNode(path, [CssDecl]);
        if declNode.Some? && Truthy(declNode.value.prop) && StartsWith(declNode.value.prop.value, "$") then true
        else if IsKeyValuePairInParenGroupNode(parentParentNode.value) then true
        else if parentParentNode.value.kind == ValueFunc then true
        else false
  }
}
