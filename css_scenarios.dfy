/** Concrete trees for the situations the CSS utilities exist to tell
    apart, and what each helper answers on them. */
module CssScenarios {
  import opened Wrappers
  import opened JsStrings
  import opened CssNodes
  import opened CssUtils

  function Bare(kind: Kind): Node
  {
    Node(kind, Absent, Absent, None, None, None, None, None, None, None, None, 0)
  }

  /** A value word with the whitespace the parser saw before it. */
  function Word(text: string, before: string): Node
  {
    Bare(ValueWord).(value := Text(text), raws := Some(Raws(None, None, Some(before))))
  }

  function Colon(): Node
  {
    Bare(ValueColon).(value := Text(":"))
  }

  function CommaGroup(groups: seq<Node>): Node
  {
    Bare(ValueCommaGroup).(groups := Some(groups))
  }

  function ParenGroup(groups: seq<Node>): Node
  {
    Bare(ValueParenGroup).(groups := Some(groups), open := Some("("), close := Some(")"))
  }

  function Func(name: string, groups: seq<Node>): Node
  {
    Bare(ValueFunc).(value := Text(name), groups := Some(groups))
  }

  /** A declaration whose value parses to root -> value -> `first`. */
  function Decl(prop: string, first: Node): Node
  {
    Bare(CssDecl).(prop := Some(prop), value := Child(Bare(ValueRoot).(group := Some(Bare(ValueValue).(group := Some(first))))))
  }

  function AtRule(name: string): Node
  {
    Bare(CssAtRule).(name := Some(name))
  }

  /** `(a: 1, b: 2)` */
  function MapLiteral(): Node
  {
    ParenGroup([CommaGroup([Word("a", ""), Colon(), Word("1", " ")]),
                CommaGroup([Word("b", " "), Colon(), Word("2", " ")])])
  }

  /** `$map: (a: 1, b: 2)`: the parenthesised group is a map. */
  lemma VariableMapIsMapItem()
    ensures
      var path := Path(MapLiteral(), [Bare(ValueValue), Bare(ValueRoot), Decl("$map", MapLiteral()), Bare(CssRoot)]);
      IsSCSSMapItemNode(path)
  {
    var path := Path(MapLiteral(), [Bare(ValueValue), Bare(ValueRoot), Decl("$map", MapLiteral()), Bare(CssRoot)]);
    assert NearestAt(path.ancestors, [CssDecl], 2);
    assert IsKeyValuePairInParenGroupNode(MapLiteral());
  }

  /** `@media (a: 1)`: the same shape is not a map. */
  lemma MediaQueryIsNotMapItem()
    ensures
      var query := ParenGroup([CommaGroup([Word("a", ""), Colon(), Word("1", " ")])]);
      var path := Path(query, [Bare(ValueValue), Bare(ValueRoot), AtRule("media"), Bare(CssRoot)]);
      !IsSCSSMapItemNode(path)
  {
  }

  /** `&:extend(.foo)` is a Less extend; the same function one level deeper
      is not. */
  lemma ExtendOnlyAtFixedDepth()
    ensures HasLessExtendValueNode(Decl("&", Func("extend", [Word(".foo", "")])))
    ensures !HasLessExtendValueNode(Decl("&", CommaGroup([Func("extend", [Word(".foo", "")])])))
  {
  }

  /** `COMPOSES: a from "./b.css"` is a CSS-modules composition in any
      case; `compose` is not. */
  lemma ComposesInAnyCase()
    ensures HasComposesValueNode(Decl("COMPOSES", Word("a", "")))
    ensures !HasComposesValueNode(Decl("compose", Word("a", "")))
  {
  }

  /** `$$name` is one token; `$$ name` is two. */
  lemma PostcssSimpleVar()
    ensures IsPostcssSimpleVarNode(Func("$$", []), Some(Word("name", "")))
    ensures !IsPostcssSimpleVarNode(Func("$$", []), Some(Word("name", " ")))
    ensures !IsPostcssSimpleVarNode(Func("$$", []), None)
  {
  }

  lemma KeyValuePairs()
    ensures IsKeyValuePairNode(CommaGroup([Word("a", ""), Colon(), Word("1", " ")]))
    ensures !IsKeyValuePairNode(CommaGroup([Word("a", ""), Word("1", " ")]))
  {
  }

  /** Tag names are looked up in lower case. */
  lemma UpperCaseTagIsKnown(tags: seq<string>)
    requires "div" in tags
    ensures IsHTMLTag(tags, "DIV")
  {
    assert Lower("DIV") == "div";
  }

  /** Only the function's name is lower-cased: `URL` as the argument never
      matches, even inside `url(...)`. */
  lemma FunctionNameArgumentNotLowerCased()
    ensures
      var path := Path(Word("x.png", ""), [Func("URL", [Word("x.png", "")]), Bare(ValueRoot)]);
      InsideValueFunctionNode(path, "url") && !InsideValueFunctionNode(path, "URL")
  {
  }

  /** A parent with no children makes any node "last". */
  lemma LastOfEmptyList(node: Node)
    ensures IsLastNode(Path(node, [Bare(CssRule).(nodes := Some([]))]), node)
  {
  }

  /** `a{color:red;color:red}`: of two equal declarations the second object
      is the last node, the first is not. */
  lemma RepeatedDeclarationIsLast()
    ensures
      var first := Bare(CssDecl).(prop := Some("color"), value := Text("red"));
      var second := first.(id := 1);
      var rule := Bare(CssRule).(nodes := Some([first, second]));
      IsLastNode(Path(second, [rule]), second) && !IsLastNode(Path(first, [rule]), first)
  {
  }

  /** Both parentheses anywhere keep the case, balanced or not; one alone
      does not. */
  lemma MaybeToLowerCaseParentheses()
    ensures MaybeToLowerCase("A)B(") == "A)B("
    ensures MaybeToLowerCase("A(B") == "a(b"
    ensures MaybeToLowerCase("$Var") == "$Var"
  {
  }
}
