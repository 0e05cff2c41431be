/** The current renderer (`RstTranslator` of src/rst_formatter.py) as functions on the
    renderer state: one function per visit_/depart_ rule, the dispatch over node kinds, and
    the depth-first walk. The class Render.Translator is proved to compute exactly these. */
module RenderSpec {
  import opened Strings
  import opened Results
  import opened Layout
  import opened DocTree
  import opened OptionOrder

  /** `RstFormatterConfig` as far as rendering and the text passes use it. */
  datatype Config = Config(
    maxLineLength: int,
    titleOrder: seq<string>,     // underline (1 char) or overline-and-underline (2 chars) per depth
    newlineAfterTitle: int,      // titles at a depth up to this one are followed by a blank line
    newlineBulletList: bool)     // keep the blank line between a ':' line and a bullet list

  const Default: Config := Config(120, ["==", "=", "-", "^"], 2, false)

  // ---------------------------------------------------------------------------
  // Titles

  /** `title_order[section_depth - 1]` with Python's indexing: a depth of 0 reads the last
      entry, a depth beyond the list raises. */
  function TitleChars(order: seq<string>, depth: int): (r: Result<string>)
    ensures r.Ok? <==> -|order| <= depth - 1 < |order|
    ensures 1 <= depth <= |order| ==> r == Ok(order[depth - 1])
    ensures depth == 0 && |order| > 0 ==> r == Ok(order[|order| - 1])
    ensures r.Err? ==> r.error == NotEnoughTitleChars
  {
    var i := depth - 1;
    if 0 <= i < |order| then Ok(order[i])
    else if -|order| <= i < 0 then Ok(order[|order| + i])
    else Err(NotEnoughTitleChars)
  }

  /** depart_title: the held title text, framed by an overline (two-character entries only)
      and an underline as long as the text. */
  function DepartTitle(cfg: Config, s: St): Result<St> {
    var popped :- Exit(s);
    var text, t := popped.0, popped.1;
    var sep :- TitleChars(cfg.titleOrder, t.sectionDepth);
    var m := cfg.maxLineLength;
    var t1 :- if |sep| == 2 then Append(m, t, [Repeat(sep[0], |text|)], 1) else Ok(t);
    var t2 :- Append(m, t1, [text], 1);
    if |sep| == 0 then Err(EmptyTitleChars)
    else
      var t3 :- Append(m, t2, [Repeat(sep[|sep| - 1], |text|)], 1);
      Ok(if t3.sectionDepth <= cfg.newlineAfterTitle then t3.(needNewline := true) else t3)
  }

  // ---------------------------------------------------------------------------
  // Bullet lists

  /** visit_bullet_list: a newline before a nested list or when a blank line is pending. */
  function VisitBulletList(m: int, s: St, bullet: string): Result<St> {
    var t :- if |s.bullets| > 0 || s.needNewline then Append(m, s, [], 1) else Ok(s);
    Ok(t.(bullets := t.bullets + [bullet]))
  }

  function DepartBulletList(s: St): Result<St> {
    if s.bullets == [] then Err(PopFromEmptyList)
    else Ok(s.(bullets := s.bullets[..|s.bullets| - 1]))
  }

  /** What visit_list_item emits: the bullet and `self.indent[1:-1]`, which is "". */
  function BulletWord(bullet: string): string {
    bullet + IndentUnit[1..|IndentUnit| - 1]
  }

  /** visit_list_item: the bullet, one more indentation level, no pending blank line. */
  function VisitListItem(m: int, s: St): Result<St> {
    if s.bullets == [] then Err(NoEnclosingBulletList)
    else
      var t :- Append(m, s, [BulletWord(s.bullets[|s.bullets| - 1])], 0);
      Ok(t.(indentLevel := t.indentLevel + 1, needNewline := false))
  }

  // ---------------------------------------------------------------------------
  // Targets, citations, labels and the generic non-breakable spans

  /** depart_target: a hyperlink target (".. _name: url") on a line of its own, an inline
      target with children in the running text, anything else not at all. */
  function DepartTarget(m: int, s: St, raw: string, hasChildren: bool): Result<St> {
    var popped :- Exit(s);
    var t := popped.1;
    if StartsWith(raw, ".. _") then
      var t1 :- PossibleNewline(m, t);
      var t2 :- Append(m, t1, [raw], 1);
      Ok(t2.(needNewline := true))
    else if hasChildren then Append(m, t, [raw], 0)
    else Ok(t)
  }

  function VisitCitation(m: int, s: St): Result<St> {
    var t :- PossibleNewline(m, s);
    Append(m, t, [".."], 0)
  }

  /** depart_label: the held label text in square brackets. */
  function DepartLabel(m: int, s: St): Result<St> {
    var popped :- Exit(s);
    Append(m, popped.1, ["[" + popped.0 + "]"], 0)
  }

  /** unknown_departure of a non-breakable node: the node's own source text, not what
      was held while inside it. */
  function DepartInline(m: int, s: St, raw: string): Result<St> {
    var popped :- Exit(s);
    Append(m, popped.1, [raw], 0)
  }

  // ---------------------------------------------------------------------------
  // Directives

  function OptionWords(opt: (string, string)): seq<string> {
    [":" + opt.0 + ":", opt.1]
  }

  /** One `append([f":{key}:", value], newlines=1)` per option, in the given order. */
  function EmitOptions(m: int, s: St, opts: seq<(string, string)>): St
    decreases |opts|
  {
    if opts == [] then s else EmitOptions(m, Emit(m, s, OptionWords(opts[0]), 1), opts[1..])
  }

  /** One `append([line], newlines=1)` per content line. */
  function EmitLines(m: int, s: St, lines: seq<string>): St
    decreases |lines|
  {
    if lines == [] then s else EmitLines(m, Emit(m, s, [lines[0]], 1), lines[1..])
  }

  function DirectiveHeader(name: string, args: seq<string>): seq<string> {
    [".. " + name + "::"] + args
  }

  /** The directive line: raises unless the cursor is at the start of a line, then the
      header and arguments end their line and the indentation grows by one level. */
  function DirectiveOpen(m: int, t: St, name: string, args: seq<string>): Result<St> {
    if t.lineLength != 0 then Err(DirectiveWhileIndented)
    else
      var h :- Append(m, t, DirectiveHeader(name, args), 1);
      Ok(h.(indentLevel := h.indentLevel + 1))
  }

  /** visit_DirectivePlaceholder up to and including the options. */
  function DirectiveHead(m: int, s: St, name: string, args: seq<string>, opts: seq<(string, string)>): Result<St> {
    var t :- PossibleNewline(m, s);
    var h :- DirectiveOpen(m, t, name, args);
    Ok(EmitOptions(m, h, SortByKey(opts)))
  }

  /** visit_DirectivePlaceholder: header, options sorted by key, a blank line when there are
      both options and content, then the content lines. */
  function VisitDirective(m: int, s: St, name: string, args: seq<string>, opts: seq<(string, string)>,
                          content: seq<string>): Result<St> {
    var head :- DirectiveHead(m, s, name, args, opts);
    var mid := if |opts| > 0 && |content| > 0 then Emit(m, head, [], 1) else head;
    Ok(EmitLines(m, mid, content))
  }

  // ---------------------------------------------------------------------------
  // Dispatch and walk

  /** Kinds whose visit enters a non-breakable element and whose departure leaves it. */
  predicate HoldKind(k: Kind) {
    k.Title? || k.Target? || k.Label? || k.Inline?
  }

  /** visit_system_message raises SkipChildren: its subtree is not walked. */
  predicate SkipsChildren(k: Kind) {
    k.SystemMessage?
  }

  /** dispatch_visit: the visit_ rule of the node's kind, or unknown_visit. */
  function Visit(cfg: Config, s: St, n: Node): Result<St> {
    var m := cfg.maxLineLength;
    match n.kind
    case Document => Ok(s)
    case Transition => Ok(s)
    case Section => Ok(s.(sectionDepth := s.sectionDepth + 1))
    case Title => var t :- PossibleNewline(m, s); Ok(Enter(t))
    case Paragraph => PossibleNewline(m, s)
    case Text(text) => Append(m, s, SplitText(text), 0)
    case BulletList(b) => VisitBulletList(m, s, b)
    case ListItem => VisitListItem(m, s)
    case Target(_) => Ok(Enter(s))
    case Citation => VisitCitation(m, s)
    case Label => Ok(Enter(s))
    case SystemMessage => Ok(s)
    case Directive(name, args, opts, content) => VisitDirective(m, s, name, args, opts, content)
    case Inline(_, _) => Ok(Enter(s))
    case Other(tag) => Err(UnknownVisit(tag))
  }

  /** dispatch_departure: the depart_ rule of the node's kind, or unknown_departure. */
  function Depart(cfg: Config, s: St, n: Node): Result<St> {
    var m := cfg.maxLineLength;
    match n.kind
    case Document => Ok(s)
    case Transition => Ok(s)
    case Section => Ok(s.(sectionDepth := s.sectionDepth - 1))
    case Title => DepartTitle(cfg, s)
    case Paragraph => var t :- Append(m, s, [], 1); Ok(t.(needNewline := true))
    case Text(_) => Ok(s)
    case BulletList(_) => DepartBulletList(s)
    case ListItem => Ok(s.(indentLevel := s.indentLevel - 1))
    case Target(raw) => DepartTarget(m, s, raw, n.children != [])
    case Citation => Ok(s.(needNewline := true))
    case Label => DepartLabel(m, s)
    case SystemMessage => Ok(s)
    case Directive(_, _, _, _) => Ok(s.(indentLevel := s.indentLevel - 1, needNewline := true))
    case Inline(_, raw) => DepartInline(m, s, raw)
    case Other(tag) => Err(UnknownDeparture(tag))
  }

  /** `node.walkabout(visitor)`: visit, walk the children in order (unless skipped), depart;
      the first exception aborts the walk. */
  function WalkNode(cfg: Config, s: St, n: Node): Result<St>
    decreases n
  {
    var t :- Visit(cfg, s, n);
    var u :- if SkipsChildren(n.kind) then Ok(t) else WalkChildren(cfg, t, n.children);
    Depart(cfg, u, n)
  }

  function WalkChildren(cfg: Config, s: St, children: seq<Node>): Result<St>
    decreases children
  {
    if children == [] then Ok(s)
    else
      var t :- WalkNode(cfg, s, children[0]);
      WalkChildren(cfg, t, children[1..])
  }

  /** What `RstFormattingWriter.translate` produces from a document tree. */
  function Render(cfg: Config, root: Node): Result<string> {
    var t :- WalkNode(cfg, Initial, root);
    Ok(Concat(t.output))
  }
}
