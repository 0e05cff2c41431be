/** The earlier `RstTranslator` of the root rst_formatter.py as functions on the renderer
    state, with its `format_rst`. It shares the output primitives (Layout), the title,
    bullet-list and paragraph rules (RenderSpec) with the current renderer; it differs in
    the rules below: titles do not flush a pending blank line, non-breakable spans are
    re-emitted between delimiters from a fixed table, directives reflow their content, and
    node kinds without a rule are reported and walked through instead of raising. */
module PrototypeSpec {
  import opened Strings
  import opened Results
  import opened Layout
  import opened DocTree
  import opened OptionOrder
  import RenderSpec
  import Normalize

  /** `non_breakable_nodes`: the opening and closing delimiter of each span kind the
      prototype re-synthesises; citation references are not among them. */
  function Delimiters(k: Kind): Option<(string, string)> {
    match k
    case Inline(Strong, _) => Some(("**", "**"))
    case Inline(Emphasis, _) => Some(("*", "*"))
    case Inline(NoLineBreak, _) => Some(("", ""))
    case Inline(Reference, _) => Some(("`", "`_"))
    case Target(_) => Some(("_`", "`"))
    case _ => None
  }

  /** visit_DirectivePlaceholder: the cursor must be at the start of a line; header and
      arguments, the options sorted by key, a blank line when there are options or content,
      then all content lines wrapped together as words and one newline. */
  function VisitDirective(m: int, s: St, name: string, args: seq<string>, opts: seq<(string, string)>,
                          content: seq<string>): Result<St> {
    var h :- RenderSpec.DirectiveOpen(m, s, name, args);
    var o := RenderSpec.EmitOptions(m, h, SortByKey(opts));
    var b := if |opts| > 0 || |content| > 0 then Emit(m, o, [], 1) else o;
    Ok(if |content| > 0 then Emit(m, b, content, 1) else b)
  }

  /** unknown_visit: the document is ignored, a span of the table enters a non-breakable
      element, any other kind is reported (not modelled) and its children are walked. */
  function VisitUnknown(s: St, k: Kind): St {
    if k.Document? then s else if Delimiters(k).Some? then Enter(s) else s
  }

  /** unknown_departure: a span of the table is written as its held text between the
      delimiters; anything else leaves the state alone. */
  function DepartUnknown(m: int, s: St, k: Kind): Result<St> {
    if k.Document? then Ok(s)
    else
      match Delimiters(k)
      case Some(d) =>
        var popped :- Exit(s);
        Append(m, popped.1, [d.0 + popped.0 + d.1], 0)
      case None => Ok(s)
  }

  /** dispatch_visit of the prototype. */
  function Visit(cfg: RenderSpec.Config, s: St, n: Node): Result<St> {
    var m := cfg.maxLineLength;
    match n.kind
    case Section => Ok(s.(sectionDepth := s.sectionDepth + 1))
    case Title => Ok(Enter(s))
    case Paragraph => PossibleNewline(m, s)
    case Text(text) => Append(m, s, SplitText(text), 0)
    case BulletList(b) => RenderSpec.VisitBulletList(m, s, b)
    case ListItem => RenderSpec.VisitListItem(m, s)
    case SystemMessage => Ok(s)
    case Directive(name, args, opts, content) => VisitDirective(m, s, name, args, opts, content)
    case _ => Ok(VisitUnknown(s, n.kind))
  }

  /** dispatch_departure of the prototype. */
  function Depart(cfg: RenderSpec.Config, s: St, n: Node): Result<St> {
    var m := cfg.maxLineLength;
    match n.kind
    case Section => Ok(s.(sectionDepth := s.sectionDepth - 1))
    case Title => RenderSpec.DepartTitle(cfg, s)
    case Paragraph => var t :- Append(m, s, [], 1); Ok(t.(needNewline := true))
    case Text(_) => Ok(s)
    case BulletList(_) => RenderSpec.DepartBulletList(s)
    case ListItem => Ok(s.(indentLevel := s.indentLevel - 1))
    case SystemMessage => Ok(s)
    case Directive(_, _, _, _) => Ok(s.(indentLevel := s.indentLevel - 1))
    case _ => DepartUnknown(m, s, n.kind)
  }

  function WalkNode(cfg: RenderSpec.Config, s: St, n: Node): Result<St>
    decreases n
  {
    var t :- Visit(cfg, s, n);
    var u :- if RenderSpec.SkipsChildren(n.kind) then Ok(t) else WalkChildren(cfg, t, n.children);
    Depart(cfg, u, n)
  }

  function WalkChildren(cfg: RenderSpec.Config, s: St, children: seq<Node>): Result<St>
    decreases children
  {
    if children == [] then Ok(s)
    else
      var t :- WalkNode(cfg, s, children[0]);
      WalkChildren(cfg, t, children[1..])
  }

  function Render(cfg: RenderSpec.Config, root: Node): Result<string> {
    var t :- WalkNode(cfg, Initial, root);
    Ok(Concat(t.output))
  }

  // ---------------------------------------------------------------------------
  // format_rst of the prototype

  /** `s.replace(pat, rep)`: every occurrence, leftmost first, none overlapping. */
  function ReplaceAll(s: string, pat: string, rep: string): string
    requires pat != []
    decreases |s|
  {
    if s == [] then []
    else if |pat| <= |s| && s[..|pat|] == pat then rep + ReplaceAll(s[|pat|..], pat, rep)
    else [s[0]] + ReplaceAll(s[1..], pat, rep)
  }

  /** `pat` occurs somewhere in `s`. */
  predicate Contains(s: string, pat: string)
    decreases |s|
  {
    |pat| <= |s| && (s[..|pat|] == pat || Contains(s[1..], pat))
  }

  /** `format_rst` of the prototype with the document parser as a parameter. Its
      `no_newline_bulletlist` is a class attribute that is always set, so both replace
      passes always run. */
  function FormatRst(cfg: RenderSpec.Config, input: string, parse: string -> Node): Result<string> {
    var spaced := ReplaceAll(input, ":\n-", ":\n\n-");
    var fixed := Normalize.FixHeadings(cfg.titleOrder, spaced);
    var out :- Render(cfg, parse(fixed));
    Ok(Normalize.TrimNewlines(ReplaceAll(out, ":\n\n-", ":\n-")))
  }
}
