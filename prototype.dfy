/** The earlier `RstTranslator` of the root rst_formatter.py as a class. Its fields and its
    output primitives (`_append_word_wrap`, `append`, the hold-space push and pop) and the
    rules it has in common with the current renderer are those of Render.Translator, which
    it holds as `core`; the methods here are the prototype's own rules and its dispatch,
    each proved to change the fields exactly as PrototypeSpec says. */
module Prototype {
  import opened Strings
  import opened Results
  import opened Layout
  import opened DocTree
  import opened OptionOrder
  import RenderSpec
  import Render
  import PrototypeSpec

  class Translator {
    const core: Render.Translator

    function State(): St
      reads core
    {
      core.State()
    }

    constructor(config: RenderSpec.Config)
      ensures fresh(core) && core.config == config && State() == Initial
    {
      core := new Render.Translator(config);
    }

    /** visit_DirectivePlaceholder of the prototype. */
    method VisitDirective(name: string, arguments: seq<string>, options: seq<(string, string)>,
                          content: seq<string>) returns (r: Outcome)
      modifies core
      ensures Agrees(r, PrototypeSpec.VisitDirective(core.config.maxLineLength, old(State()), name, arguments,
                                                     options, content), State())
    {
      ghost var m := core.config.maxLineLength;
      r := core.OpenDirective(name, arguments);
      if r.Fail? {
        return;
      }
      ghost var h := State();
      core.AppendOptions(SortByKey(options));
      ghost var o := State();
      assert o == RenderSpec.EmitOptions(m, h, SortByKey(options));
      if |options| > 0 || |content| > 0 {
        r := core.Append([], 1);
      }
      ghost var b := State();
      assert b == if |options| > 0 || |content| > 0 then Emit(m, o, [], 1) else o;
      if |content| > 0 {
        r := core.Append(content, 1);
      }
      r := Pass;
    }

    method DepartDirective()
      modifies core
      ensures State() == old(State()).(indentLevel := old(core.indentLevel) - 1)
    {
      core.indentLevel := core.indentLevel - 1;
    }

    /** `unknown_visit`: the document is ignored, a span of the delimiter table enters a
        non-breakable element, anything else is reported and walked into. */
    method UnknownVisit(n: Node)
      modifies core
      ensures State() == PrototypeSpec.VisitUnknown(old(State()), n.kind)
    {
      if n.kind.Document? {
        return;
      }
      if PrototypeSpec.Delimiters(n.kind).Some? {
        core.EnterNonbreakable();
      }
    }

    /** `unknown_departure`: a span of the delimiter table is written back between its
        delimiters. */
    method UnknownDeparture(n: Node) returns (r: Outcome)
      modifies core
      ensures Agrees(r, PrototypeSpec.DepartUnknown(core.config.maxLineLength, old(State()), n.kind), State())
    {
      if n.kind.Document? {
        return Pass;
      }
      var delimiters := PrototypeSpec.Delimiters(n.kind);
      if delimiters.Some? {
        var text;
        r, text := core.ExitNonbreakable();
        if r.Fail? {
          return;
        }
        var (open, close) := delimiters.value;
        r := core.Append([open + text + close], 0);
        return;
      }
      r := Pass;
    }

    /** `dispatch_visit` of the prototype. */
    method DispatchVisit(n: Node) returns (r: Outcome, skipChildren: bool)
      modifies core
      ensures Agrees(r, PrototypeSpec.Visit(core.config, old(State()), n), State())
      ensures skipChildren == RenderSpec.SkipsChildren(n.kind)
    {
      skipChildren := false;
      r := Pass;
      ghost var s0, m := State(), core.config.maxLineLength;
      ghost var spec := PrototypeSpec.Visit(core.config, s0, n);
      match n.kind {
        case Section =>
          core.VisitSection();
        case Title =>
          core.EnterNonbreakable();
        case Paragraph =>
          assert spec == PossibleNewline(m, s0);
          r := core.VisitParagraph();
        case Text(text) =>
          assert spec == Layout.Append(m, s0, SplitText(text), 0);
          r := core.VisitText(text);
        case BulletList(bullet) =>
          assert spec == RenderSpec.VisitBulletList(m, s0, bullet);
          r := core.VisitBulletList(bullet);
        case ListItem =>
          assert spec == RenderSpec.VisitListItem(m, s0);
          r := core.VisitListItem();
        case SystemMessage =>
          skipChildren := true;
        case Directive(name, arguments, options, content) =>
          assert spec == PrototypeSpec.VisitDirective(m, s0, name, arguments, options, content);
          r := VisitDirective(name, arguments, options, content);
        case _ =>
          UnknownVisit(n);
      }
    }

    /** `dispatch_departure` of the prototype. */
    method DispatchDeparture(n: Node) returns (r: Outcome)
      modifies core
      ensures Agrees(r, PrototypeSpec.Depart(core.config, old(State()), n), State())
    {
      r := Pass;
      match n.kind {
        case Section =>
          core.DepartSection();
        case Title =>
          r := core.DepartTitle();
        case Paragraph =>
          r := core.DepartParagraph();
        case Text(_) =>
        case BulletList(_) =>
          r := core.DepartBulletList();
        case ListItem =>
          core.DepartListItem();
        case SystemMessage =>
        case Directive(_, _, _, _) =>
          DepartDirective();
        case _ =>
          r := UnknownDeparture(n);
      }
    }

    /** `node.walkabout(self)` with the prototype's rules. */
    method Walk(n: Node) returns (r: Outcome)
      modifies core
      ensures Agrees(r, PrototypeSpec.WalkNode(core.config, old(State()), n), State())
      decreases n
    {
      var skipChildren;
      r, skipChildren := DispatchVisit(n);
      if r.Fail? {
        return;
      }
      if !skipChildren {
        ghost var t := State();
        var i := 0;
        while i < |n.children|
          invariant 0 <= i <= |n.children|
          invariant PrototypeSpec.WalkChildren(core.config, t, n.children)
                    == PrototypeSpec.WalkChildren(core.config, State(), n.children[i..])
        {
          r := Walk(n.children[i]);
          assert n.children[i..][0] == n.children[i];
          if r.Fail? {
            return;
          }
          assert n.children[i..][1..] == n.children[i + 1..];
          i := i + 1;
        }
      }
      r := DispatchDeparture(n);
    }
  }

  /** `RstFormattingWriter.translate` of the prototype. */
  method Translate(config: RenderSpec.Config, document: Node) returns (r: Result<string>)
    ensures r == PrototypeSpec.Render(config, document)
  {
    var visitor := new Translator(config);
    var outcome := visitor.Walk(document);
    if outcome.Fail? {
      return Err(outcome.error);
    }
    r := Ok(Concat(visitor.core.output));
  }
}
