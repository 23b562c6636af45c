/** The tree the CSS printer walks: postcss nodes (`css-*`) holding
    postcss-value-parser nodes (`value-*`), and the traversal path. */
module CssNodes {
  import opened Wrappers

  /** The node's `type` string. */
  datatype Kind =
    | CssRoot | CssRule | CssDecl | CssAtRule | CssComment
    | ValueRoot | ValueValue | ValueComment | ValueFunc | ValueParenGroup
    | ValueCommaGroup | ValueWord | ValueColon | ValueComma | ValueString
    | ValueNumber | ValueOperator | ValueAtword | ValueUnicodeRange | ValueUnknown
    | OtherKind(tag: string)

  /** The `raws` object: source text the parser kept verbatim. */
  datatype Raws = Raws(selector: Option<string>, params: Option<string>, before: Option<string>)

  /** A field that is a string on some nodes and a node on others: `value`
      is the text of a `value-*` node but the parsed `value-root` of a
      declaration; `selector` is a string or a parsed selector node. */
  datatype Field = Absent | Text(text: string) | Child(child: Node)
  {
    /** JavaScript truthiness: a missing field and the empty string are false. */
    predicate Truthy()
    {
      match this
      case Absent => false
      case Text(t) => t != ""
      case Child(_) => true
    }
  }

  /** One node. Fields a node of a given kind does not have are `Absent` or
      `None`; `open` and `close` are `None` where the parser stores `null`.
      `id` stands for the object's identity: two distinct objects of a tree
      carry distinct ids, so comparing nodes compares objects. */
  datatype Node = Node(
    kind: Kind,
    value: Field,
    selector: Field,
    name: Option<string>,
    prop: Option<string>,
    raws: Option<Raws>,
    group: Option<Node>,
    groups: Option<seq<Node>>,
    nodes: Option<seq<Node>>,
    open: Option<string>,
    close: Option<string>,
    id: nat)

  /** JavaScript truthiness of an optional string. */
  predicate Truthy(s: Option<string>)
  {
    s.Some? && s.value != ""
  }

  /** The printer's path: the node being printed and its ancestors,
      `ancestors[0]` being the immediate parent and the last one the root. */
  datatype Path = Path(node: Node, ancestors: seq<Node>)

  /** `path.getValue()`. */
  function GetValue(path: Path): Node
  {
    path.node
  }

  /** `path.getParentNode(level)`: the ancestor `level` steps above the
      parent, or nothing past the root. */
  function GetParentNode(path: Path, level: nat): (r: Option<Node>)
    ensures r.Some? <==> level < |path.ancestors|
  {
    if level < |path.ancestors| then Some(path.ancestors[level]) else None
  }
}
