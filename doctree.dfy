/** The parsed document tree the translators walk: one kind per node class the visitors
    distinguish, with the attributes they read, and the node's children in document order. */
module DocTree {

  /** The inline elements docutils renders as one unbreakable span. */
  datatype InlineKind =
    | Emphasis
    | Strong
    | Reference
    | CitationReference
    | NoLineBreak      // a span matched by one of the configured no-line-break patterns

  datatype Kind =
    | Document
    | Section
    | Title
    | Paragraph
    | Text(text: string)
    | BulletList(bullet: string)
    | ListItem
    | Target(rawsource: string)
    | Citation
    | Label
    | Directive(name: string, arguments: seq<string>, options: seq<(string, string)>, content: seq<string>)
    | SystemMessage
    | Transition
    | Inline(inline: InlineKind, rawsource: string)
    | Other(tagname: string)   // any node class without a rule of its own (literal, table, ...)

  /** A node and its children. The directive placeholder docutils builds never has
      children; the type allows them and the walk visits them like any other node's. */
  datatype Node = Node(kind: Kind, children: seq<Node>)

  /** The options of a directive come from a dict: no key occurs twice. */
  predicate DistinctKeys(options: seq<(string, string)>) {
    forall i, j :: 0 <= i < j < |options| ==> options[i].0 != options[j].0
  }
}
