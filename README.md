# CSS printer node helpers, modelled in Dafny

This project models `src/language-css/utils.js` of prettier. That file holds the
helper predicates the CSS, SCSS and Less printer uses to classify the node it is
printing. Some questions are about the node's ancestors: the nearest declaration,
at-rule, rule or value function. Some are about the dialect: is this text SCSS? Some
decide whether an identifier keeps its case. The rest are about the node's own
shape: keyword, operator, key-value pair, SCSS map, Less extend or detached ruleset.

Files:
- `wrappers.dfy`: `Option`.
- `js_strings.dfy`: the parts of the JavaScript library the helpers call. These are
  `toLowerCase` (ASCII letters), `startsWith`, `endsWith`, `Array.prototype.indexOf`
  (first occurrence, -1 when absent), the `\s` class and `trim`.
- `js_patterns.dfy`: the five regular expressions of the file, each written out as a
  predicate over positions. The two lazy first-occurrence replacements are leftmost,
  shortest searches, with the match they find proved to be the one the regular
  expression picks.
- `css_nodes.dfy`: the tree. A `Node` holds postcss and postcss-value-parser
  fields. `Field` is a `value` or `selector` that is a string on some nodes and a
  parsed node on others. `Path` is the node being printed plus its ancestors, parent
  first.
- `css_utils.dfy`: every function of `utils.js`.
- `css_scenarios.dfy`: concrete trees (an SCSS map, a media query, a Less extend,
  postcss-simple-vars, `url(...)`) and what the helpers answer on them.

Three things follow the code rather than a looser reading of it:
- `maybeToLowerCase` keeps the case when `(` and `)` both occur anywhere in the
  value. The two need not be balanced or in order.
- `insideValueFunctionNode` and `insideAtRuleNode` lower-case only the node's name,
  never the argument. An upper-case argument therefore never matches.
- `insideURLFunctionInImportAtRuleNode` compares the at-rule name with `import` as
  written. It also reads `groups` of the current node, not of the function ancestor.

Where the code would throw (a property read on `undefined` or `null`, or
`toLowerCase` on a node), the model has a precondition that excludes exactly those
inputs.

## Model

| member | source | states |
|---|---|---|
| JsStrings.IndexOf | src/language-css/utils.js:123 | The result is -1 exactly when the element is absent. Otherwise it is a position holding the element with no earlier occurrence. |
| JsStrings.Lower | src/language-css/utils.js:31 | The length is kept. Each upper-case ASCII letter becomes its lower-case partner, and every other character stays. No upper-case letter is left. The same function stands for every `toLowerCase` call of the file. |
| JsStrings.LowerIdempotent | src/language-css/utils.js:31 | Lower-casing twice is the same as lower-casing once. |
| JsStrings.Trim | src/language-css/utils.js:199 | The result is the contiguous slice of the input left after cutting whitespace from both ends. It has no whitespace at either end and is empty exactly when the input is all whitespace. |
| CssUtils.AncestorIndex | src/language-css/utils.js:5-18 | The index lies in -1 up to the number of ancestors minus one. A non-negative index is the nearest ancestor of one of the kinds; -1 means no ancestor has one. |
| CssUtils.GetAncestorCounter | src/language-css/utils.js:5-18 | The loop probing `getParentNode(0)`, `getParentNode(1)`, ... returns the nearest-ancestor index, or -1 once the root is passed. |
| CssUtils.GetAncestorNode | src/language-css/utils.js:20-23 | Nothing exactly when no ancestor has one of the kinds. Otherwise it is the nearest ancestor that has one. |
| CssUtils.GetPropOfDeclNode | src/language-css/utils.js:25-33 | A result exists exactly when the nearest declaration has a property; it is that property lower-cased, and an empty property gives "". |
| CssUtils.IsSCSS | src/language-css/utils.js:35-41 | Parser `scss` gives true and `less` gives false. Any other parser gives true exactly when the text contains the SCSS pattern somewhere. |
| JsPatterns.PossiblySCSSInLargerText | src/language-css/utils.js:37 | The SCSS pattern is unanchored: a text containing a matching text matches. |
| CssUtils.IsSCSSInLargerText | src/language-css/utils.js:35-41 | Unless the parser is `less`, a text that contains a text guessed to be SCSS is guessed to be SCSS. |
| CssUtils.ImportListIsSCSS | src/language-css/utils.js:37 | `@import "a", "b";` is guessed to be SCSS by any parser except `less`. |
| CssUtils.IsWideKeywords | src/language-css/utils.js:43-48 | True exactly when the lower-cased value is `initial`, `inherit`, `unset` or `revert`. |
| CssUtils.WideKeywordsIgnoreCase | src/language-css/utils.js:43-48 | The answer does not depend on the value's case. |
| CssUtils.IsKeyframeAtRuleKeywords | src/language-css/utils.js:50-58 | True exactly when the nearest at-rule has a non-empty name ending (lower-cased) in `keyframes` and the value is `from` or `to` in any case. |
| CssUtils.KeyframeKeywordsIgnoreCase | src/language-css/utils.js:50-58 | The answer does not depend on the value's case. |
| CssUtils.MaybeToLowerCase | src/language-css/utils.js:60-70 | Only case changes, and the length is kept. A value marked as case-sensitive is returned unchanged; any other value comes back in lower case. |
| CssUtils.MaybeToLowerCaseIdempotent | src/language-css/utils.js:60-70 | Applying it twice is the same as applying it once. |
| CssUtils.KeepsCaseIgnoresCase | src/language-css/utils.js:61-67 | Whether the case is kept does not depend on the value's case: every marker it looks for is a non-letter. |
| CssUtils.MaybeToLowerCaseCommutesWithLower | src/language-css/utils.js:60-70 | Lower-casing before or after it gives the same string. |
| CssUtils.InsideValueFunctionNode | src/language-css/utils.js:72-79 | True exactly when the nearest function ancestor has a non-empty name whose lower case is the argument. A true answer implies the argument is lower case. |
| CssUtils.InsideURLFunctionIffAncestorIsURLFunction | src/language-css/utils.js:72-79 | Being inside a function named `url` is the same as the nearest function ancestor being a URL function node. |
| CssUtils.InsideICSSRuleNode | src/language-css/utils.js:81-91 | True exactly when the nearest rule's raw selector starts with `:import` or `:export`. |
| CssUtils.InsideAtRuleNode | src/language-css/utils.js:93-99 | True exactly when the nearest at-rule's lower-cased name equals the argument. A true answer implies the argument is lower case. |
| CssUtils.InsideURLFunctionInImportAtRuleNode | src/language-css/utils.js:101-111 | True exactly when the nearest at-rule is named `import` exactly as written and the current node has exactly two groups, the first with value `url`. A true answer implies `insideAtRuleNode(path, "import")`. |
| CssUtils.ImportAtRuleNameIsCaseSensitive | src/language-css/utils.js:101-111 | Under `@IMPORT` the answer is false, although `insideAtRuleNode` counts that at-rule as `import`. |
| CssUtils.IsURLFunctionNode | src/language-css/utils.js:113-115 | True exactly when the node is a function whose name is one of the eight case spellings of `url`. |
| CssUtils.UrlSpellings | src/language-css/utils.js:114 | A string lower-cases to `url` exactly when it is one of the eight case spellings of `url`. |
| CssUtils.IsLastNode | src/language-css/utils.js:117-124 | False without a parent. Otherwise true exactly when the parent has a child list that is empty, or whose last element is the node and occurs nowhere earlier. |
| CssUtils.IsHTMLTag | src/language-css/utils.js:126-128 | True exactly when the lower-cased value is among the known tag names. |
| CssUtils.HTMLTagIgnoresCase | src/language-css/utils.js:126-128 | The answer does not depend on the value's case. |
| JsPatterns.AtNameColonShapeIff | src/language-css/utils.js:139-140 | `/^@.+:.*$/` holds exactly of one-line texts that start with `@` and have a colon after at least one more character. |
| CssUtils.IsDetachedRulesetDeclarationNode | src/language-css/utils.js:130-142 | True exactly when the selector string, or the parsed selector's value, has the `@name:` shape. A true answer implies that text has at least three characters, starts with `@` and has no line break. |
| CssUtils.ParenGroupIsNoOtherClass | src/language-css/utils.js:144-146 | A parenthesised group is no keyword, no operator and no key-value pair. |
| CssUtils.NodeClassesDisjoint | src/language-css/utils.js:148-182 | No node is in two of the six keyword and operator classes; all fifteen pairs are covered. |
| CssUtils.ControlKeywordsAreLowerCase | src/language-css/utils.js:148-164 | The `@for`, `@if`/`@else` and `@each` keywords match only lower-case spellings. |
| CssUtils.IsForKeywordNode | src/language-css/utils.js:148-153 | True exactly when the node is a word `from`, `through` or `end`, with case as written. |
| CssUtils.IsIfElseKeywordNode | src/language-css/utils.js:155-160 | True exactly when the node is a word `and`, `or` or `not`. |
| CssUtils.IsEachKeywordNode | src/language-css/utils.js:162-164 | True exactly when the node is the word `in`. |
| CssUtils.IsMathOperatorNode | src/language-css/utils.js:166-171 | True exactly when the node is an operator node `+`, `-`, `/`, `*` or `%`. |
| CssUtils.IsEqualityOperatorNode | src/language-css/utils.js:173-175 | True exactly when the node is a word `==` or `!=`. |
| CssUtils.IsRelationalOperatorNode | src/language-css/utils.js:177-182 | True exactly when the node is a word `<`, `>`, `<=` or `>=`. |
| CssUtils.IsSCSSControlDirectiveNode | src/language-css/utils.js:184-189 | True exactly when the node is an at-rule named `if`, `else`, `for`, `each` or `while`. |
| JsPatterns.FirstBlockComment | src/language-css/utils.js:197 | The match `/\/\*.*?\*\//` finds: the leftmost start, and at that start the nearest close. No match means no block comment exists on one line. |
| JsPatterns.StripFirstBlockComment | src/language-css/utils.js:197 | Without a block comment the text is unchanged. With one, there is a leftmost, shortest one, and the result is the text with exactly that comment cut out. At least four characters go and none is introduced. |
| JsPatterns.FirstLineComment | src/language-css/utils.js:198 | The leftmost match of `/\/\/.*?\n/`; no match means no `//` is followed on its line by a newline. |
| JsPatterns.LineCommentEndUnique | src/language-css/utils.js:198 | A line comment starting at a given position has only one possible end. |
| JsPatterns.StripFirstLineComment | src/language-css/utils.js:198 | Without a line comment the text is unchanged. With one, there is a leftmost one, and the result is the text with exactly that comment, newline included, cut out. At least three characters go and none is introduced. |
| CssUtils.IsSCSSNestedPropertyNode | src/language-css/utils.js:191-201 | True exactly when the selector is a non-empty string that ends with `:` once the first block comment and then the first line comment are cut and the ends trimmed. A true answer implies the selector holds a colon. For a selector without `/`, the answer is whether the trimmed selector ends with `:`. |
| JsPatterns.EmptyParensShapeIff | src/language-css/utils.js:204 | `/^\(\s*\)$/` holds exactly when the text is parenthesised and what lies between trims to nothing. |
| CssUtils.IsDetachedRulesetCallNode | src/language-css/utils.js:203-205 | True exactly when the raw parameters are `(` and `)` with only whitespace between. |
| CssUtils.IsPostcssSimpleVarNode | src/language-css/utils.js:207-215 | False without a next node. False when the next node is not a word or has whitespace before it. False when the current node is not the `$$` function. True in the one remaining case. |
| CssUtils.HasLessExtendValueNode | src/language-css/utils.js:217-227 | True exactly when the value is a root holding a value whose first node is a function `extend`. Such a value never counts as parenthesised. |
| CssUtils.HasComposesValueNode | src/language-css/utils.js:229-237 | True exactly when the value is a root holding a value and the property lower-cases to `composes`. |
| CssUtils.HasParensAroundValueNode | src/language-css/utils.js:239-248 | True exactly when the value's first node is a parenthesised group with both an opening and a closing parenthesis. |
| CssUtils.IsKeyValuePairNode | src/language-css/utils.js:250-257 | True exactly when the node is a comma group whose second member is a colon. |
| CssUtils.IsKeyValuePairInParenGroupNode | src/language-css/utils.js:259-266 | True exactly when the node is a parenthesised group whose first member is a key-value pair. Such a group is not itself a key-value pair. |
| CssUtils.DeclIsSCSSVariableIffProp | src/language-css/utils.js:286-289 | The nearest declaration's property starts with `$` exactly when its lower-cased property does. |
| CssUtils.IsSCSSMapItemNode | src/language-css/utils.js:268-304 | An empty group is never a map item. Neither the node nor its grandparent being a parenthesised key-value group gives false. Otherwise it is true exactly when the declaration is an SCSS variable, the grandparent is such a group, or the grandparent is a function. |
| CssScenarios.VariableMapIsMapItem | src/language-css/utils.js:288-290 | `$map: (a: 1, b: 2)`: the parenthesised group is a map item. |
| CssScenarios.MediaQueryIsNotMapItem | src/language-css/utils.js:268-304 | `@media (a: 1)`: the same shape outside a variable declaration is not a map item. |
| CssScenarios.ExtendOnlyAtFixedDepth | src/language-css/utils.js:217-227 | `&:extend(.foo)` is a Less extend; the same function one group deeper is not. |
| CssScenarios.ComposesInAnyCase | src/language-css/utils.js:229-237 | `COMPOSES` counts as `composes`; `compose` does not. |
| CssScenarios.PostcssSimpleVar | src/language-css/utils.js:207-215 | `$$name` is one variable. `$$ name` and a trailing `$$` are not. |
| CssScenarios.KeyValuePairs | src/language-css/utils.js:250-257 | `a: 1` is a key-value pair; `a 1` is not. |
| CssScenarios.UpperCaseTagIsKnown | src/language-css/utils.js:126-128 | `DIV` is a tag when `div` is one. |
| CssScenarios.FunctionNameArgumentNotLowerCased | src/language-css/utils.js:72-79 | Inside `URL(...)` the answer is true for `url` and false for `URL`. |
| CssScenarios.LastOfEmptyList | src/language-css/utils.js:123 | Under a parent whose child list is empty, every node counts as last. |
| CssScenarios.RepeatedDeclarationIsLast | src/language-css/utils.js:117-124 | In `a{color:red;color:red}` the second declaration is the last node and the first, though equal in content, is not. |
| CssScenarios.MaybeToLowerCaseParentheses | src/language-css/utils.js:60-70 | `A)B(` keeps its case, `A(B` is lower-cased, and `$Var` keeps its case. |

## Left out

- Lower-casing covers only the ASCII letters `A`-`Z`. JavaScript's `toLowerCase` also folds other Unicode letters, and that is not modelled.
- The `html-tag-names` package (`utils.js:3`) is not part of this model. Its list becomes the parameter `tags` of `IsHTMLTag`.
- `path.getValue()` and `path.getParentNode(level)` are modelled on a `Path` holding the node and its ancestors. The printer's own path object, with its non-node stack entries, is not modelled.
- `nodes.indexOf(node)` compares by object identity. The model compares nodes with an `id` field that stands for that identity. That distinct objects of one tree carry distinct ids is assumed of the input, not checked.
- `open` and `close` are `Option` values, with `None` standing for `null`. A missing (`undefined`) parenthesis is therefore not told apart from `null`, although `!== null` would treat it as present.
- The parser option is a string, so an absent parser is any string other than `scss` and `less`.
- Functions that return a truthy value in JavaScript (a node, a string or `undefined`) return a boolean here.
- A selector node whose `value` is itself a node is treated as not matching `/^@.+:.*$/`. JavaScript would test that node's `String()` form.
- Inputs on which the code throws are excluded by preconditions rather than modelled as exceptions.
