/** `RstTranslator` of src/rst_formatter.py as a class: the visitor's fields, its output
    primitives and its visit_/depart_ methods, each proved to change the fields exactly as
    the corresponding function of RenderSpec says (`Agrees`: success and failure as the
    function says, and on success the new state is the function's). */
module Render {
  import opened Strings
  import opened Results
  import opened Layout
  import opened DocTree
  import opened OptionOrder
  import RenderSpec

  class Translator {
    const config: RenderSpec.Config
    var output: seq<string>
    var holdSpace: seq<seq<string>>
    var lineLength: int
    var indentLevel: int
    var sectionDepth: int
    var bulletChar: seq<string>
    var needNewline: bool

    /** The fields as a value of the state the specification functions work on. */
    function State(): St
      reads this
    {
      St(output, holdSpace, lineLength, indentLevel, sectionDepth, bulletChar, needNewline)
    }

    constructor(config: RenderSpec.Config)
      ensures this.config == config && State() == Initial
    {
      this.config := config;
      output := [];
      holdSpace := [];
      lineLength := 0;
      indentLevel := 0;
      sectionDepth := 0;
      bulletChar := [];
      needNewline := false;
    }

    // -------------------------------------------------------------------------
    // Output primitives

    /** `_append_word_wrap`; only `append` calls it, with an empty hold space. */
    method AppendWordWrap(words: seq<string>)
      requires holdSpace == []
      modifies this
      ensures State() == WrapWords(config.maxLineLength, old(State()), words)
      decreases |words|, 1
    {
      ghost var s0 := State();
      ghost var m := config.maxLineLength;
      for i := 0 to |words|
        invariant holdSpace == []
        invariant WrapWords(m, s0, words) == WrapWords(m, State(), words[i..])
      {
        AppendWord(words[i]);
        assert words[i..][1..] == words[i + 1..];
      }
    }

    /** One pass of the loop of `_append_word_wrap`: a line break when the word would
        overflow the line, then the indentation or a separating space, then the word. */
    method AppendWord(word: string)
      requires holdSpace == []
      modifies this
      ensures State() == WrapWord(config.maxLineLength, old(State()), word) && holdSpace == []
      decreases 1, 0
    {
      if word != "" {
        ghost var broken := State().(output := output + ["\n"], lineLength := 0);
        if lineLength + 1 + |word| > config.maxLineLength {
          var r := Append([], 1);
          assert Repeat('\n', 1) == "\n";
          assert State() == broken;
        }
        if lineLength == 0 {
          var indent := Indent(indentLevel);
          lineLength := lineLength + |indent| + |word|;
          output := output + [indent, word];
        } else {
          lineLength := lineLength + 1 + |word|;
          if !StartsWithPunct(word) {
            output := output + [" "];
          }
          output := output + [word];
        }
      }
    }

    /** `append(text, newlines=...)` */
    method Append(words: seq<string>, newlines: int) returns (r: Outcome)
      modifies this
      ensures Agrees(r, Layout.Append(config.maxLineLength, old(State()), words, newlines), State())
      ensures r.Pass? && newlines != 0 ==> holdSpace == []
      decreases |words|, 2
    {
      if holdSpace == [] {
        AppendWordWrap(words);
        if newlines > 0 {
          output := output + [Repeat('\n', newlines)];
          lineLength := 0;
        }
        r := Pass;
      } else {
        if newlines != 0 {
          return Fail(NewlineInHoldSpace);
        }
        var k := |holdSpace| - 1;
        holdSpace := holdSpace[..k] + [holdSpace[k] + words];
        r := Pass;
      }
    }

    /** `enter_nonbreakable_element` */
    method EnterNonbreakable()
      modifies this
      ensures State() == Enter(old(State()))
    {
      holdSpace := holdSpace + [[]];
    }

    /** `exit_nonbreakable_element`: the popped list joined with single spaces. */
    method ExitNonbreakable() returns (r: Outcome, text: string)
      modifies this
      ensures (r.Pass? <==> old(holdSpace) != []) && (r.Fail? ==> r.error == PopFromEmptyList)
      ensures r.Pass? ==> Exit(old(State())) == Ok((text, State()))
    {
      if holdSpace == [] {
        return Fail(PopFromEmptyList), "";
      }
      var k := |holdSpace| - 1;
      text := Join(" ", holdSpace[k]);
      holdSpace := holdSpace[..k];
      r := Pass;
    }

    /** `append_possible_newline` */
    method AppendPossibleNewline() returns (r: Outcome)
      modifies this
      ensures Agrees(r, PossibleNewline(config.maxLineLength, old(State())), State())
    {
      r := Pass;
      if needNewline {
        r := Append([], 1);
        if r.Fail? {
          return;
        }
        needNewline := false;
      }
    }

    // -------------------------------------------------------------------------
    // visit_ and depart_ methods

    method VisitSection()
      modifies this
      ensures State() == old(State()).(sectionDepth := old(sectionDepth) + 1)
    {
      sectionDepth := sectionDepth + 1;
    }

    method DepartSection()
      modifies this
      ensures State() == old(State()).(sectionDepth := old(sectionDepth) - 1)
    {
      sectionDepth := sectionDepth - 1;
    }

    method VisitTitle() returns (r: Outcome)
      modifies this
      ensures Agrees(r, RenderSpec.Visit(config, old(State()), Node(Title, [])), State())
    {
      r := AppendPossibleNewline();
      if r.Fail? {
        return;
      }
      EnterNonbreakable();
    }

    method DepartTitle() returns (r: Outcome)
      modifies this
      ensures Agrees(r, RenderSpec.DepartTitle(config, old(State())), State())
    {
      ghost var m := config.maxLineLength;
      ghost var spec := RenderSpec.DepartTitle(config, State());
      var titleText;
      r, titleText := ExitNonbreakable();
      if r.Fail? {
        return;
      }
      ghost var t := State();
      var chars := RenderSpec.TitleChars(config.titleOrder, sectionDepth);
      if chars.Err? {
        return Fail(chars.error);
      }
      var sepChars := chars.value;
      ghost var after2 := if |sepChars| == 2 then Layout.Append(m, t, [Repeat(sepChars[0], |titleText|)], 1) else Ok(t);
      if |sepChars| == 2 {
        r := Append([Repeat(sepChars[0], |titleText|)], 1);
        if r.Fail? {
          return;
        }
      }
      ghost var t1 := State();
      assert after2 == Ok(t1);
      r := Append([titleText], 1);
      if r.Fail? {
        assert spec == Err(r.error);
        return;
      }
      ghost var t2 := State();
      if |sepChars| == 0 {
        return Fail(EmptyTitleChars);
      }
      ghost var last := Layout.Append(m, t2, [Repeat(sepChars[|sepChars| - 1], |titleText|)], 1);
      assert last.Ok? && spec == Ok(if last.value.sectionDepth <= config.newlineAfterTitle
                                    then last.value.(needNewline := true) else last.value);
      r := Append([Repeat(sepChars[|sepChars| - 1], |titleText|)], 1);
      if r.Fail? {
        return;
      }
      if sectionDepth <= config.newlineAfterTitle {
        needNewline := true;
      }
    }

    method VisitParagraph() returns (r: Outcome)
      modifies this
      ensures Agrees(r, PossibleNewline(config.maxLineLength, old(State())), State())
    {
      r := AppendPossibleNewline();
    }

    method DepartParagraph() returns (r: Outcome)
      modifies this
      ensures Agrees(r, RenderSpec.Depart(config, old(State()), Node(Paragraph, [])), State())
    {
      r := Append([], 1);
      if r.Fail? {
        return;
      }
      needNewline := true;
    }

    method VisitText(text: string) returns (r: Outcome)
      modifies this
      ensures Agrees(r, Layout.Append(config.maxLineLength, old(State()), SplitText(text), 0), State())
    {
      r := Append(SplitText(text), 0);
    }

    method VisitBulletList(bullet: string) returns (r: Outcome)
      modifies this
      ensures Agrees(r, RenderSpec.VisitBulletList(config.maxLineLength, old(State()), bullet), State())
    {
      r := Pass;
      if |bulletChar| > 0 || needNewline {
        r := Append([], 1);
        if r.Fail? {
          return;
        }
      }
      bulletChar := bulletChar + [bullet];
    }

    method DepartBulletList() returns (r: Outcome)
      modifies this
      ensures Agrees(r, RenderSpec.DepartBulletList(old(State())), State())
    {
      if bulletChar == [] {
        return Fail(PopFromEmptyList);
      }
      bulletChar := bulletChar[..|bulletChar| - 1];
      r := Pass;
    }

    method VisitListItem() returns (r: Outcome)
      modifies this
      ensures Agrees(r, RenderSpec.VisitListItem(config.maxLineLength, old(State())), State())
    {
      if bulletChar == [] {
        return Fail(NoEnclosingBulletList);
      }
      r := Append([RenderSpec.BulletWord(bulletChar[|bulletChar| - 1])], 0);
      if r.Fail? {
        return;
      }
      indentLevel := indentLevel + 1;
      needNewline := false;
    }

    method DepartListItem()
      modifies this
      ensures State() == old(State()).(indentLevel := old(indentLevel) - 1)
    {
      indentLevel := indentLevel - 1;
    }

    method VisitCitation() returns (r: Outcome)
      modifies this
      ensures Agrees(r, RenderSpec.VisitCitation(config.maxLineLength, old(State())), State())
    {
      r := AppendPossibleNewline();
      if r.Fail? {
        return;
      }
      r := Append([".."], 0);
    }

    method DepartCitation()
      modifies this
      ensures State() == old(State()).(needNewline := true)
    {
      needNewline := true;
    }

    method DepartTarget(rawsource: string, hasChildren: bool) returns (r: Outcome)
      modifies this
      ensures Agrees(r, RenderSpec.DepartTarget(config.maxLineLength, old(State()), rawsource, hasChildren), State())
    {
      var ignored;
      r, ignored := ExitNonbreakable();
      if r.Fail? {
        return;
      }
      if StartsWith(rawsource, ".. _") {
        r := AppendPossibleNewline();
        if r.Fail? {
          return;
        }
        r := Append([rawsource], 1);
        if r.Fail? {
          return;
        }
        needNewline := true;
      } else if hasChildren {
        r := Append([rawsource], 0);
      }
    }

    method DepartLabel() returns (r: Outcome)
      modifies this
      ensures Agrees(r, RenderSpec.DepartLabel(config.maxLineLength, old(State())), State())
    {
      var text;
      r, text := ExitNonbreakable();
      if r.Fail? {
        return;
      }
      r := Append(["[" + text + "]"], 0);
    }

    method VisitDirective(name: string, arguments: seq<string>, options: seq<(string, string)>,
                          content: seq<string>) returns (r: Outcome)
      modifies this
      ensures Agrees(r, RenderSpec.VisitDirective(config.maxLineLength, old(State()), name, arguments, options, content),
                     State())
    {
      ghost var m := config.maxLineLength;
      ghost var s0 := State();
      r := VisitDirectiveHead(name, arguments, options);
      if r.Fail? {
        return;
      }
      ghost var head := State();
      assert RenderSpec.DirectiveHead(m, s0, name, arguments, options) == Ok(head);
      if |options| > 0 && |content| > 0 {
        r := Append([], 1);
      }
      assert State() == if |options| > 0 && |content| > 0 then Emit(m, head, [], 1) else head;
      AppendLines(content);
      r := Pass;
    }

    /** The directive visit up to and including the options. */
    method VisitDirectiveHead(name: string, arguments: seq<string>, options: seq<(string, string)>)
      returns (r: Outcome)
      modifies this
      ensures Agrees(r, RenderSpec.DirectiveHead(config.maxLineLength, old(State()), name, arguments, options), State())
      ensures r.Pass? ==> holdSpace == []
    {
      r := AppendPossibleNewline();
      if r.Fail? {
        return;
      }
      r := OpenDirective(name, arguments);
      if r.Fail? {
        return;
      }
      AppendOptions(SortByKey(options));
    }

    /** The directive line: the cursor must be at the start of a line. */
    method OpenDirective(name: string, arguments: seq<string>) returns (r: Outcome)
      modifies this
      ensures Agrees(r, RenderSpec.DirectiveOpen(config.maxLineLength, old(State()), name, arguments), State())
      ensures r.Pass? ==> holdSpace == []
    {
      if lineLength != 0 {
        return Fail(DirectiveWhileIndented);
      }
      r := Append(RenderSpec.DirectiveHeader(name, arguments), 1);
      if r.Fail? {
        return;
      }
      indentLevel := indentLevel + 1;
    }

    /** The `for key, value in sorted(node.options.items())` loop of the directive visit. */
    method AppendOptions(options: seq<(string, string)>)
      requires holdSpace == []
      modifies this
      ensures State() == RenderSpec.EmitOptions(config.maxLineLength, old(State()), options)
      ensures holdSpace == []
    {
      ghost var m := config.maxLineLength;
      ghost var h := State();
      for i := 0 to |options|
        invariant holdSpace == []
        invariant RenderSpec.EmitOptions(m, h, options) == RenderSpec.EmitOptions(m, State(), options[i..])
      {
        var r := Append(RenderSpec.OptionWords(options[i]), 1);
        assert options[i..][1..] == options[i + 1..];
      }
    }

    /** The `for line in node.content` loop of the directive visit. */
    method AppendLines(lines: seq<string>)
      requires holdSpace == []
      modifies this
      ensures State() == RenderSpec.EmitLines(config.maxLineLength, old(State()), lines)
      ensures holdSpace == []
    {
      ghost var m := config.maxLineLength;
      ghost var c := State();
      for i := 0 to |lines|
        invariant holdSpace == []
        invariant RenderSpec.EmitLines(m, c, lines) == RenderSpec.EmitLines(m, State(), lines[i..])
      {
        var r := Append([lines[i]], 1);
        assert lines[i..][1..] == lines[i + 1..];
      }
    }

    method DepartDirective()
      modifies this
      ensures State() == old(State()).(indentLevel := old(indentLevel) - 1, needNewline := true)
    {
      indentLevel := indentLevel - 1;
      needNewline := true;
    }

    /** `unknown_visit`: reached for the kinds without a visit_ method of their own. */
    method UnknownVisit(n: Node) returns (r: Outcome)
      requires n.kind.Document? || n.kind.Transition? || n.kind.Inline? || n.kind.Other?
      modifies this
      ensures Agrees(r, RenderSpec.Visit(config, old(State()), n), State())
    {
      if n.kind.Document? || n.kind.Transition? {
        return Pass;
      }
      if n.kind.Inline? {
        EnterNonbreakable();
        return Pass;
      }
      r := Fail(Error.UnknownVisit(n.kind.tagname));
    }

    /** `unknown_departure`: a non-breakable span is replaced by its source text. */
    method UnknownDeparture(n: Node) returns (r: Outcome)
      requires n.kind.Document? || n.kind.Transition? || n.kind.Inline? || n.kind.Other?
      modifies this
      ensures Agrees(r, RenderSpec.Depart(config, old(State()), n), State())
    {
      if n.kind.Document? || n.kind.Transition? {
        return Pass;
      }
      if n.kind.Inline? {
        var ignored;
        r, ignored := ExitNonbreakable();
        if r.Fail? {
          return;
        }
        r := Append([n.kind.rawsource], 0);
        return;
      }
      r := Fail(Error.UnknownDeparture(n.kind.tagname));
    }

    // -------------------------------------------------------------------------
    // Dispatch and walk

    /** `dispatch_visit`; `skipChildren` is the SkipChildren raised by visit_system_message. */
    method DispatchVisit(n: Node) returns (r: Outcome, skipChildren: bool)
      modifies this
      ensures Agrees(r, RenderSpec.Visit(config, old(State()), n), State())
      ensures skipChildren == RenderSpec.SkipsChildren(n.kind)
    {
      skipChildren := false;
      match n.kind {
        case Section =>
          VisitSection();
          r := Pass;
        case Title =>
          r := VisitTitle();
        case Paragraph =>
          r := VisitParagraph();
        case Text(text) =>
          r := VisitText(text);
        case BulletList(bullet) =>
          r := VisitBulletList(bullet);
        case ListItem =>
          r := VisitListItem();
        case Target(_) =>
          EnterNonbreakable();
          r := Pass;
        case Citation =>
          r := VisitCitation();
        case Label =>
          EnterNonbreakable();
          r := Pass;
        case SystemMessage =>
          skipChildren := true;
          r := Pass;
        case Directive(name, arguments, options, content) =>
          r := VisitDirective(name, arguments, options, content);
        case _ =>
          r := UnknownVisit(n);
      }
    }

    /** `dispatch_departure` */
    method DispatchDeparture(n: Node) returns (r: Outcome)
      modifies this
      ensures Agrees(r, RenderSpec.Depart(config, old(State()), n), State())
    {
      r := Pass;
      match n.kind {
        case Section =>
          DepartSection();
        case Title =>
          r := DepartTitle();
        case Paragraph =>
          r := DepartParagraph();
        case Text(_) =>
        case BulletList(_) =>
          r := DepartBulletList();
        case ListItem =>
          DepartListItem();
        case Target(rawsource) =>
          r := DepartTarget(rawsource, n.children != []);
        case Citation =>
          DepartCitation();
        case Label =>
          r := DepartLabel();
        case SystemMessage =>
        case Directive(_, _, _, _) =>
          DepartDirective();
        case _ =>
          r := UnknownDeparture(n);
      }
    }

    /** `node.walkabout(self)`: visit, the children in order unless skipped, depart; an
        exception ends the walk. */
    method Walk(n: Node) returns (r: Outcome)
      modifies this
      ensures Agrees(r, RenderSpec.WalkNode(config, old(State()), n), State())
      decreases n
    {
      var skipChildren;
      r, skipChildren := DispatchVisit(n);
      if r.Fail? {
        return;
      }
      if !skipChildren {
        ghost var t := State();
        var i := 0;
        while i < |n.children|
          invariant 0 <= i <= |n.children|
          invariant RenderSpec.WalkChildren(config, t, n.children)
                    == RenderSpec.WalkChildren(config, State(), n.children[i..])
        {
          ghost var before := State();
          r := Walk(n.children[i]);
          assert n.children[i..][0] == n.children[i];
          if r.Fail? {
            return;
          }
          assert n.children[i..][1..] == n.children[i + 1..];
          i := i + 1;
        }
      }
      r := DispatchDeparture(n);
    }
  }

  /** `RstFormattingWriter.translate`: walk the document with a fresh translator and join
      its output. */
  method Translate(config: RenderSpec.Config, document: Node) returns (r: Result<string>)
    ensures r == RenderSpec.Render(config, document)
  {
    var visitor := new Translator(config);
    var outcome := visitor.Walk(document);
    if outcome.Fail? {
      return Err(outcome.error);
    }
    r := Ok(Concat(visitor.output));
  }
}
