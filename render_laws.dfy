/** What the current renderer guarantees, proved about the functions of RenderSpec:
    every node leaves the renderer's stacks and counters as it found them, nothing reaches
    the output from inside a non-breakable element, titles get over- and underlines as long
    as their text, directives keep their words and put content on lines of their own, and
    prose keeps its words in order. */
module RenderLaws {
  import opened Strings
  import opened Results
  import opened Layout
  import opened DocTree
  import opened OptionOrder
  import opened RenderSpec

  // ---------------------------------------------------------------------------
  // Balance: what a complete walk of a node leaves unchanged

  /** Two hold stacks of the same height that differ at most in their innermost list. */
  predicate SameFrame(a: seq<seq<string>>, b: seq<seq<string>>) {
    |a| == |b| && (|a| > 0 ==> a[..|a| - 1] == b[..|b| - 1])
  }

  /** The output only grows, and not at all (nor moves the cursor) while something is held. */
  predicate Quiet(s: St, t: St) {
    s.output <= t.output
    && (s.hold != [] ==> t.output == s.output && t.lineLength == s.lineLength)
  }

  /** A step that only writes text: stacks and counters are as before. */
  predicate Steady(s: St, t: St) {
    SameFrame(s.hold, t.hold) && Quiet(s, t)
    && t.bullets == s.bullets && t.indentLevel == s.indentLevel && t.sectionDepth == s.sectionDepth
  }

  lemma PrefixTrans(a: seq<string>, b: seq<string>, c: seq<string>)
    requires a <= b && b <= c
    ensures a <= c
  {
    assert c[..|a|] == b[..|a|];
  }

  lemma SteadyTrans(s: St, t: St, u: St)
    requires Steady(s, t) && Steady(t, u)
    ensures Steady(s, u)
  {
    PrefixTrans(s.output, t.output, u.output);
  }

  lemma AppendSteady(m: int, s: St, words: seq<string>, newlines: int)
    requires Append(m, s, words, newlines).Ok?
    ensures Steady(s, Append(m, s, words, newlines).value)
    ensures Append(m, s, words, newlines).value.needNewline == s.needNewline
  {
  }

  lemma PossibleNewlineSteady(m: int, s: St)
    requires PossibleNewline(m, s).Ok?
    ensures Steady(s, PossibleNewline(m, s).value)
  {
    if s.needNewline {
      AppendSteady(m, s, [], 1);
    }
  }

  lemma EmitOptionsMoves(m: int, s: St, opts: seq<(string, string)>)
    ensures OnlyCursorMoved(s, EmitOptions(m, s, opts)) && s.output <= EmitOptions(m, s, opts).output
    decreases |opts|
  {
    if opts != [] {
      var t := Emit(m, s, OptionWords(opts[0]), 1);
      EmitOptionsMoves(m, t, opts[1..]);
      PrefixTrans(s.output, t.output, EmitOptions(m, t, opts[1..]).output);
    }
  }

  lemma EmitLinesMoves(m: int, s: St, lines: seq<string>)
    ensures OnlyCursorMoved(s, EmitLines(m, s, lines)) && s.output <= EmitLines(m, s, lines).output
    decreases |lines|
  {
    if lines != [] {
      var t := Emit(m, s, [lines[0]], 1);
      EmitLinesMoves(m, t, lines[1..]);
      PrefixTrans(s.output, t.output, EmitLines(m, t, lines[1..]).output);
    }
  }

  /** The directive line writes text only, and opens one level of indentation. */
  lemma DirectiveOpenSteady(m: int, t: St, name: string, args: seq<string>)
    requires DirectiveOpen(m, t, name, args).Ok?
    ensures var h := DirectiveOpen(m, t, name, args).value;
      Steady(t, h.(indentLevel := t.indentLevel)) && h.indentLevel == t.indentLevel + 1
  {
    AppendSteady(m, t, DirectiveHeader(name, args), 1);
  }

  /** At the start of a line and outside every non-breakable element, the directive line
      succeeds: it adds the words of the header, ends its line and indents one level more. */
  lemma DirectiveOpenLaw(m: int, t: St, name: string, args: seq<string>)
    requires t.hold == [] && t.lineLength == 0
    ensures DirectiveOpen(m, t, name, args).Ok?
    ensures var h := DirectiveOpen(m, t, name, args).value;
      && h == t.(output := h.output, indentLevel := t.indentLevel + 1)
      && Tokens(h.output) == Tokens(t.output) + Tokens(DirectiveHeader(name, args))
  {
    var hdr := DirectiveHeader(name, args);
    var h := Emit(m, t, hdr, 1);
    assert Append(m, t, hdr, 1) == Ok(h);
    EmitTokens(m, t, hdr, 1);
  }

  /** A directive can only be rendered outside every non-breakable element. */
  lemma DirectiveSteady(m: int, s: St, name: string, args: seq<string>, opts: seq<(string, string)>,
                        content: seq<string>)
    requires VisitDirective(m, s, name, args, opts, content).Ok?
    ensures s.hold == []
    ensures var t := VisitDirective(m, s, name, args, opts, content).value;
      Steady(s, t.(indentLevel := s.indentLevel)) && t.indentLevel == s.indentLevel + 1
  {
    var p := PossibleNewline(m, s).value;
    PossibleNewlineSteady(m, s);
    var h := DirectiveOpen(m, p, name, args).value;
    DirectiveOpenSteady(m, p, name, args);
    var o := EmitOptions(m, h, SortByKey(opts));
    EmitOptionsMoves(m, h, SortByKey(opts));
    var mid := if |opts| > 0 && |content| > 0 then Emit(m, o, [], 1) else o;
    EmitLinesMoves(m, mid, content);
    PrefixTrans(s.output, p.output, h.output);
    PrefixTrans(s.output, h.output, o.output);
    PrefixTrans(s.output, o.output, mid.output);
    PrefixTrans(s.output, mid.output, EmitLines(m, mid, content).output);
  }

  /** What the visit of a node of kind `k` does to the stacks and counters. */
  predicate VisitEffect(s: St, t: St, k: Kind) {
    (if HoldKind(k) then t.hold == s.hold + [[]] else SameFrame(s.hold, t.hold))
    && Quiet(s, t)
    && t.bullets == (if k.BulletList? then s.bullets + [k.bullet] else s.bullets)
    && t.indentLevel == s.indentLevel + (if k.ListItem? || k.Directive? then 1 else 0)
    && t.sectionDepth == s.sectionDepth + (if k.Section? then 1 else 0)
  }

  /** What the departure from a node of kind `k` does: exactly the reverse. */
  predicate DepartEffect(u: St, v: St, k: Kind) {
    (if HoldKind(k) then |u.hold| > 0 && SameFrame(u.hold[..|u.hold| - 1], v.hold) else SameFrame(u.hold, v.hold))
    && u.output <= v.output
    && (|u.hold| > (if HoldKind(k) then 1 else 0) ==> v.output == u.output && v.lineLength == u.lineLength)
    && (if k.BulletList? then |u.bullets| > 0 && v.bullets == u.bullets[..|u.bullets| - 1] else v.bullets == u.bullets)
    && v.indentLevel == u.indentLevel - (if k.ListItem? || k.Directive? then 1 else 0)
    && v.sectionDepth == u.sectionDepth - (if k.Section? then 1 else 0)
  }

  lemma VisitLaw(cfg: Config, s: St, n: Node)
    requires Visit(cfg, s, n).Ok?
    ensures VisitEffect(s, Visit(cfg, s, n).value, n.kind)
  {
    var m := cfg.maxLineLength;
    match n.kind
    case Title => TitleVisitLaw(m, s);
    case Paragraph => PossibleNewlineSteady(m, s);
    case Text(text) => AppendSteady(m, s, SplitText(text), 0);
    case BulletList(b) => BulletListVisitLaw(m, s, b);
    case ListItem => ListItemVisitLaw(m, s);
    case Citation => CitationVisitLaw(m, s);
    case Directive(name, args, opts, content) => DirectiveSteady(m, s, name, args, opts, content);
    case _ =>
  }

  lemma TitleVisitLaw(m: int, s: St)
    requires PossibleNewline(m, s).Ok?
    ensures VisitEffect(s, Enter(PossibleNewline(m, s).value), Title)
  {
    PossibleNewlineSteady(m, s);
  }

  lemma BulletListVisitLaw(m: int, s: St, b: string)
    requires VisitBulletList(m, s, b).Ok?
    ensures VisitEffect(s, VisitBulletList(m, s, b).value, BulletList(b))
  {
    if |s.bullets| > 0 || s.needNewline {
      AppendSteady(m, s, [], 1);
    }
  }

  lemma ListItemVisitLaw(m: int, s: St)
    requires VisitListItem(m, s).Ok?
    ensures VisitEffect(s, VisitListItem(m, s).value, ListItem)
  {
    AppendSteady(m, s, [BulletWord(s.bullets[|s.bullets| - 1])], 0);
  }

  lemma CitationVisitLaw(m: int, s: St)
    requires VisitCitation(m, s).Ok?
    ensures Steady(s, VisitCitation(m, s).value)
  {
    var p := PossibleNewline(m, s).value;
    PossibleNewlineSteady(m, s);
    AppendSteady(m, p, [".."], 0);
    SteadyTrans(s, p, Append(m, p, [".."], 0).value);
  }

  /** Leaving a non-breakable element: pop, then a step that only writes text. */
  lemma ExitThenSteady(u: St, v: St, k: Kind)
    requires HoldKind(k) && Exit(u).Ok?
    requires Steady(Exit(u).value.1, v)
    ensures DepartEffect(u, v, k)
  {
  }

  lemma DepartTargetSteady(m: int, u: St, raw: string, hasChildren: bool)
    requires DepartTarget(m, u, raw, hasChildren).Ok?
    ensures Steady(Exit(u).value.1, DepartTarget(m, u, raw, hasChildren).value)
  {
    var t := Exit(u).value.1;
    if StartsWith(raw, ".. _") {
      var p := PossibleNewline(m, t).value;
      PossibleNewlineSteady(m, t);
      AppendSteady(m, p, [raw], 1);
      SteadyTrans(t, p, Append(m, p, [raw], 1).value);
    } else if hasChildren {
      AppendSteady(m, t, [raw], 0);
    }
  }

  lemma DepartHoldLaw(cfg: Config, u: St, n: Node)
    requires HoldKind(n.kind) && Depart(cfg, u, n).Ok?
    ensures DepartEffect(u, Depart(cfg, u, n).value, n.kind)
  {
    var m := cfg.maxLineLength;
    var v := Depart(cfg, u, n).value;
    match n.kind {
      case Title => TitleSteady(cfg, u);
      case Target(raw) => DepartTargetSteady(m, u, raw, n.children != []);
      case Label =>
        var e := Exit(u).value;
        AppendSteady(m, e.1, ["[" + e.0 + "]"], 0);
      case Inline(_, raw) => AppendSteady(m, Exit(u).value.1, [raw], 0);
    }
    ExitThenSteady(u, v, n.kind);
  }

  lemma DepartLaw(cfg: Config, u: St, n: Node)
    requires Depart(cfg, u, n).Ok?
    ensures DepartEffect(u, Depart(cfg, u, n).value, n.kind)
  {
    if HoldKind(n.kind) {
      DepartHoldLaw(cfg, u, n);
    } else if n.kind.Paragraph? {
      AppendSteady(cfg.maxLineLength, u, [], 1);
    }
  }

  /** depart_title writes its lines only when no outer element is held. */
  lemma TitleSteady(cfg: Config, u: St)
    requires DepartTitle(cfg, u).Ok?
    ensures |u.hold| > 0
    ensures Steady(Exit(u).value.1, DepartTitle(cfg, u).value)
  {
    var t := Exit(u).value.1;
    var sep := TitleChars(cfg.titleOrder, t.sectionDepth).value;
    var text := Exit(u).value.0;
    var m := cfg.maxLineLength;
    var t1 := if |sep| == 2 then Append(m, t, [Repeat(sep[0], |text|)], 1).value else t;
    if |sep| == 2 {
      AppendSteady(m, t, [Repeat(sep[0], |text|)], 1);
    }
    var t2 := Append(m, t1, [text], 1).value;
    AppendSteady(m, t1, [text], 1);
    var t3 := Append(m, t2, [Repeat(sep[|sep| - 1], |text|)], 1).value;
    AppendSteady(m, t2, [Repeat(sep[|sep| - 1], |text|)], 1);
    SteadyTrans(t, t1, t2);
    SteadyTrans(t, t2, t3);
  }

  // Every node that is walked without error leaves the hold stack (up to its innermost
  // list), the bullet stack, the indentation and the section depth as it found them; the
  // output only grows, and does not change at all inside a non-breakable element.

  lemma {:induction false} WalkNodeBalanced(cfg: Config, s: St, n: Node)
    requires WalkNode(cfg, s, n).Ok?
    ensures Steady(s, WalkNode(cfg, s, n).value)
    decreases n
  {
    var t := Visit(cfg, s, n).value;
    VisitLaw(cfg, s, n);
    var u := if SkipsChildren(n.kind) then t else WalkChildren(cfg, t, n.children).value;
    if !SkipsChildren(n.kind) {
      WalkChildrenBalanced(cfg, t, n.children);
    }
    var v := Depart(cfg, u, n).value;
    DepartLaw(cfg, u, n);
    PrefixTrans(s.output, t.output, u.output);
    PrefixTrans(s.output, u.output, v.output);
    if HoldKind(n.kind) {
      assert u.hold[..|u.hold| - 1] == s.hold;
    }
  }

  lemma {:induction false} WalkChildrenBalanced(cfg: Config, s: St, children: seq<Node>)
    requires WalkChildren(cfg, s, children).Ok?
    ensures Steady(s, WalkChildren(cfg, s, children).value)
    decreases children
  {
    if children != [] {
      var t := WalkNode(cfg, s, children[0]).value;
      WalkNodeBalanced(cfg, s, children[0]);
      WalkChildrenBalanced(cfg, t, children[1..]);
      SteadyTrans(s, t, WalkChildren(cfg, t, children[1..]).value);
    }
  }

  // ---------------------------------------------------------------------------
  // Non-breakable elements: what reaches the output when one closes

  /** The children of a non-breakable element opened outside any other leave the state as
      it was when the element opened, except for the one held list and the blank-line
      request. */
  lemma HeldChildren(cfg: Config, s: St, cs: seq<Node>)
    requires s.hold == [] && WalkChildren(cfg, Enter(s), cs).Ok?
    ensures var u := WalkChildren(cfg, Enter(s), cs).value;
      |u.hold| == 1 && u.(hold := []) == s.(needNewline := u.needNewline)
  {
    var u := WalkChildren(cfg, Enter(s), cs).value;
    WalkChildrenBalanced(cfg, Enter(s), cs);
    assert Enter(s).hold != [];
    assert u.output == s.output && u.lineLength == s.lineLength;
    assert u.bullets == s.bullets && u.indentLevel == s.indentLevel && u.sectionDepth == s.sectionDepth;
    assert |u.hold| == 1;
    var a, b := u.(hold := []), s.(needNewline := u.needNewline);
    assert a.output == b.output && a.hold == b.hold && a.lineLength == b.lineLength;
    assert a.indentLevel == b.indentLevel && a.sectionDepth == b.sectionDepth;
    assert a.bullets == b.bullets && a.needNewline == b.needNewline;
    assert a == b;
  }

  /** A generic non-breakable span (emphasis, strong, reference, citation reference,
      no-line-break span) opened outside any other writes its stored source text as one
      word, and nothing of what its children wrote while it was held. */
  lemma InlineSpanLaw(cfg: Config, s: St, k: InlineKind, raw: string, cs: seq<Node>)
    requires s.hold == [] && WalkChildren(cfg, Enter(s), cs).Ok?
    ensures var u := WalkChildren(cfg, Enter(s), cs).value;
      var r := WalkNode(cfg, s, Node(Inline(k, raw), cs));
      && r == Ok(Emit(cfg.maxLineLength, s.(needNewline := u.needNewline), [raw], 0))
      && Tokens(r.value.output) == Tokens(s.output) + Tokens([raw])
  {
    var n := Node(Inline(k, raw), cs);
    HeldChildren(cfg, s, cs);
    WalkNodeUnfold(cfg, s, n);
    var u := WalkChildren(cfg, Enter(s), cs).value;
    EmitTokens(cfg.maxLineLength, s.(needNewline := u.needNewline), [raw], 0);
  }

  /** A label opened outside any non-breakable element writes the text its children held,
      joined by single spaces, between square brackets. */
  lemma LabelLaw(cfg: Config, s: St, cs: seq<Node>)
    requires s.hold == [] && WalkChildren(cfg, Enter(s), cs).Ok?
    ensures var u := WalkChildren(cfg, Enter(s), cs).value;
      && |u.hold| == 1
      && WalkNode(cfg, s, Node(Label, cs))
        == Ok(Emit(cfg.maxLineLength, s.(needNewline := u.needNewline), ["[" + Join(" ", u.hold[0]) + "]"], 0))
  {
    HeldChildren(cfg, s, cs);
    WalkNodeUnfold(cfg, s, Node(Label, cs));
  }

  /** A target opened outside any non-breakable element writes its stored source text and
      nothing of what its children held: a hyperlink target (".. _") on a line of its own
      after any pending blank line, with a blank line requested after it; an inline target
      (one with children) in the running text; any other target nothing at all. */
  lemma TargetLaw(cfg: Config, s: St, raw: string, cs: seq<Node>)
    requires s.hold == [] && WalkChildren(cfg, Enter(s), cs).Ok?
    ensures var m := cfg.maxLineLength;
      var t := s.(needNewline := WalkChildren(cfg, Enter(s), cs).value.needNewline);
      var p := if t.needNewline then Emit(m, t, [], 1).(needNewline := false) else t;
      var r := WalkNode(cfg, s, Node(Target(raw), cs));
      && r == (if StartsWith(raw, ".. _") then Ok(Emit(m, p, [raw], 1).(needNewline := true))
               else if cs != [] then Ok(Emit(m, t, [raw], 0))
               else Ok(t))
      && Tokens(r.value.output) == Tokens(s.output) + (if StartsWith(raw, ".. _") || cs != [] then Tokens([raw]) else [])
  {
    var m := cfg.maxLineLength;
    var t := s.(needNewline := WalkChildren(cfg, Enter(s), cs).value.needNewline);
    HeldChildren(cfg, s, cs);
    WalkNodeUnfold(cfg, s, Node(Target(raw), cs));
    if StartsWith(raw, ".. _") {
      var p := if t.needNewline then Emit(m, t, [], 1).(needNewline := false) else t;
      EmitTokens(m, t, [], 1);
      EmitTokens(m, p, [raw], 1);
      assert Tokens([]) == [];
    } else if cs != [] {
      EmitTokens(m, t, [raw], 0);
    }
  }

  // ---------------------------------------------------------------------------
  // Lines: what `append([w], newlines=1)` writes at the start of a line

  /** The fragments of one output line holding the single word `w` at indentation `level`:
      an empty word leaves an empty line; a word too long for the line is still preceded by
      a line break (the cursor is at 0, but `0 + 1 + len(word)` exceeds the maximum). */
  function Line(m: int, level: int, w: string): seq<string> {
    if w == "" then ["\n"]
    else (if 1 + |w| > m then ["\n"] else []) + [Indent(level), w, "\n"]
  }

  function Lines(m: int, level: int, lines: seq<string>): seq<string>
    decreases |lines|
  {
    if lines == [] then [] else Line(m, level, lines[0]) + Lines(m, level, lines[1..])
  }

  lemma EmitLine(m: int, s: St, w: string)
    requires s.lineLength == 0
    ensures Emit(m, s, [w], 1) == s.(output := s.output + Line(m, s.indentLevel, w))
  {
    assert Repeat('\n', 1) == "\n";
    assert WrapWords(m, s, [w]) == WrapWord(m, s, w);
  }

  /** Content lines emitted at column 0 each become a line of their own. */
  lemma {:induction false} EmitLinesLaw(m: int, s: St, lines: seq<string>)
    requires s.lineLength == 0
    ensures EmitLines(m, s, lines) == s.(output := s.output + Lines(m, s.indentLevel, lines))
    decreases |lines|
  {
    if lines != [] {
      var lvl := s.indentLevel;
      var t := Emit(m, s, [lines[0]], 1);
      EmitLine(m, s, lines[0]);
      EmitLinesLaw(m, t, lines[1..]);
      assert EmitLines(m, s, lines) == EmitLines(m, t, lines[1..]);
      assert Lines(m, lvl, lines) == Line(m, lvl, lines[0]) + Lines(m, lvl, lines[1..]);
      AppendAssoc(s.output, Line(m, lvl, lines[0]), Lines(m, lvl, lines[1..]));
    } else {
      assert s.output + Lines(m, s.indentLevel, lines) == s.output;
    }
  }

  // ---------------------------------------------------------------------------
  // Titles

  /** depart_title on a title whose text was held as `words`, at the start of a line: the
      title text on a line of its own, underlined (and, for a two-character entry of
      `title_order`, overlined) with the entry's characters, exactly as long as the text; a
      blank line is requested after titles up to depth `newline_after_title`. A depth with
      no entry, and an empty entry, are errors. */
  lemma TitleLaw(cfg: Config, s: St, words: seq<string>)
    requires s.hold == [words] && s.lineLength == 0
    ensures var text := Join(" ", words);
      var sep := TitleChars(cfg.titleOrder, s.sectionDepth);
      var r := DepartTitle(cfg, s);
      var m, lvl := cfg.maxLineLength, s.indentLevel;
      && (r.Ok? <==> sep.Ok? && sep.value != "")
      && (sep.Err? ==> r == Err(NotEnoughTitleChars))
      && (sep == Ok("") ==> r == Err(EmptyTitleChars))
      && (r.Ok? ==> r.value == s.(hold := [],
            output := s.output
              + (if |sep.value| == 2 then Line(m, lvl, Repeat(sep.value[0], |text|)) else [])
              + Line(m, lvl, text)
              + Line(m, lvl, Repeat(sep.value[|sep.value| - 1], |text|)),
            needNewline := s.needNewline || s.sectionDepth <= cfg.newlineAfterTitle))
  {
    var text := Join(" ", words);
    var t := s.(hold := []);
    assert Exit(s) == Ok((text, t));
    var m, lvl := cfg.maxLineLength, s.indentLevel;
    var sep := TitleChars(cfg.titleOrder, s.sectionDepth);
    if sep.Ok? {
      var c := sep.value;
      var t1 := if |c| == 2 then Emit(m, t, [Repeat(c[0], |text|)], 1) else t;
      if |c| == 2 {
        EmitLine(m, t, Repeat(c[0], |text|));
      }
      assert t1 == t.(output := t.output + (if |c| == 2 then Line(m, lvl, Repeat(c[0], |text|)) else []));
      EmitLine(m, t1, text);
      var t2 := Emit(m, t1, [text], 1);
      if |c| > 0 {
        EmitLine(m, t2, Repeat(c[|c| - 1], |text|));
      }
    }
  }

  // ---------------------------------------------------------------------------
  // Directives

  /** The words of the option lines, in order. */
  function OptionsWords(opts: seq<(string, string)>): seq<string>
    decreases |opts|
  {
    if opts == [] then [] else OptionWords(opts[0]) + OptionsWords(opts[1..])
  }

  lemma {:induction false} EmitOptionsLaw(m: int, s: St, opts: seq<(string, string)>)
    ensures Tokens(EmitOptions(m, s, opts).output) == Tokens(s.output) + Tokens(OptionsWords(opts))
    ensures opts == [] ==> EmitOptions(m, s, opts) == s
    ensures opts != [] ==> EmitOptions(m, s, opts).lineLength == 0
    decreases |opts|
  {
    if opts != [] {
      var t := Emit(m, s, OptionWords(opts[0]), 1);
      EmitTokens(m, s, OptionWords(opts[0]), 1);
      EmitOptionsLaw(m, t, opts[1..]);
      TokensAppend(OptionWords(opts[0]), OptionsWords(opts[1..]));
    }
  }

  /** The fragments of the line `append([":key:", value], newlines=1)` writes at the start of
      a line at indentation `level`: the key marker after the indentation (preceded by a line
      break when even the marker alone is too long), then the value after a space, directly
      after the marker when it starts with `,` or `.`, on a line of its own when it does not
      fit, or nothing when it is empty; then the end of the line. */
  function OptionLine(m: int, level: int, opt: (string, string)): seq<string> {
    var key, value := ":" + opt.0 + ":", opt.1;
    var col := |Indent(level)| + |key|;
    (if 1 + |key| > m then ["\n"] else []) + [Indent(level), key]
    + (if value == "" then []
       else if col + 1 + |value| > m then ["\n", Indent(level), value]
       else if StartsWithPunct(value) then [value]
       else [" ", value])
    + ["\n"]
  }

  function OptionLines(m: int, level: int, opts: seq<(string, string)>): seq<string>
    decreases |opts|
  {
    if opts == [] then [] else OptionLine(m, level, opts[0]) + OptionLines(m, level, opts[1..])
  }

  lemma EmitOptionLine(m: int, s: St, opt: (string, string))
    requires s.lineLength == 0
    ensures Emit(m, s, OptionWords(opt), 1) == s.(output := s.output + OptionLine(m, s.indentLevel, opt))
  {
    var key, value := ":" + opt.0 + ":", opt.1;
    var lvl := s.indentLevel;
    var s1 := WrapWord(m, s, key);
    var pre: seq<string> := (if 1 + |key| > m then ["\n"] else []) + [Indent(lvl), key];
    assert s1 == s.(output := s.output + pre, lineLength := |Indent(lvl)| + |key|);
    var s2 := WrapWord(m, s1, value);
    var post: seq<string> :=
      if value == "" then []
      else if |Indent(lvl)| + |key| + 1 + |value| > m then ["\n", Indent(lvl), value]
      else if StartsWithPunct(value) then [value]
      else [" ", value];
    assert s2.output == s1.output + post;
    assert WrapWords(m, s, [key, value]) == s2 by {
      assert [key, value][1..] == [value];
      assert WrapWords(m, s1, [value]) == WrapWords(m, s2, []);
    }
    assert Repeat('\n', 1) == "\n";
    assert OptionLine(m, lvl, opt) == pre + post + ["\n"];
    AppendAssoc(s.output, pre, post);
    AppendAssoc(s.output, pre + post, ["\n"]);
  }

  /** Options emitted at column 0 each become a line of their own, in the given order. */
  lemma {:induction false} EmitOptionsLines(m: int, s: St, opts: seq<(string, string)>)
    requires s.lineLength == 0
    ensures EmitOptions(m, s, opts) == s.(output := s.output + OptionLines(m, s.indentLevel, opts))
    decreases |opts|
  {
    if opts != [] {
      var lvl := s.indentLevel;
      var t := Emit(m, s, OptionWords(opts[0]), 1);
      EmitOptionLine(m, s, opts[0]);
      EmitOptionsLines(m, t, opts[1..]);
      assert EmitOptions(m, s, opts) == EmitOptions(m, t, opts[1..]);
      assert OptionLines(m, lvl, opts) == OptionLine(m, lvl, opts[0]) + OptionLines(m, lvl, opts[1..]);
      AppendAssoc(s.output, OptionLine(m, lvl, opts[0]), OptionLines(m, lvl, opts[1..]));
    } else {
      assert s.output + OptionLines(m, s.indentLevel, opts) == s.output;
    }
  }

  /** An option whose key and value fit the line, and whose value does not start with `,`
      or `.`, is the single text line `:key: value` after the indentation. */
  lemma OneOptionLine(m: int, level: int, key: string, value: string)
    requires value != "" && !StartsWithPunct(value)
    requires |Indent(level)| + |key| + 3 + |value| <= m
    ensures OptionLine(m, level, (key, value)) == [Indent(level), ":" + key + ":", " ", value, "\n"]
    ensures Concat(OptionLine(m, level, (key, value))) == Indent(level) + (":" + key + ":") + " " + value + "\n"
  {
    var k := ":" + key + ":";
    var frags := [Indent(level), k, " ", value, "\n"];
    assert OptionLine(m, level, (key, value)) == frags;
    ConcatFive(Indent(level), k, " ", value, "\n");
  }

  lemma ConcatFive(a: string, b: string, c: string, d: string, e: string)
    ensures Concat([a, b, c, d, e]) == a + b + c + d + e
  {
    assert [a, b, c, d, e][1..] == [b, c, d, e];
    assert [b, c, d, e][1..] == [c, d, e];
    assert [c, d, e][1..] == [d, e];
    assert [d, e][1..] == [e];
    assert Concat([e]) == e + Concat([]) == e;
    assert Concat([d, e]) == d + e;
    assert Concat([c, d, e]) == c + (d + e);
    assert Concat([b, c, d, e]) == b + (c + (d + e));
    AppendAssoc(a, b, c + (d + e));
    AppendAssoc(a + b, c, d + e);
    AppendAssoc(a + b + c, d, e);
  }

  /** visit_DirectivePlaceholder outside any non-breakable element fails exactly when the
      cursor is not at the start of a line and no pending blank line moves it there. */
  lemma DirectiveIndentedFails(m: int, s: St, name: string, args: seq<string>, opts: seq<(string, string)>,
                               content: seq<string>)
    requires s.hold == []
    ensures var r := VisitDirective(m, s, name, args, opts, content);
      && (r.Err? <==> !s.needNewline && s.lineLength != 0)
      && (r.Err? ==> r.error == DirectiveWhileIndented)
  {
    var p := PossibleNewline(m, s).value;
    assert p.lineLength == (if s.needNewline then 0 else s.lineLength);
  }

  /** The directive line at the start of a line: the header and the arguments wrapped from
      the start of the line, then the end of the line; one more level of indentation. */
  lemma DirectiveOpenLines(m: int, t: St, name: string, args: seq<string>)
    requires t.hold == [] && t.lineLength == 0
    ensures DirectiveOpen(m, t, name, args)
            == Ok(t.(output := t.output + Wrapped(m, t.indentLevel, DirectiveHeader(name, args)) + ["\n"],
                     indentLevel := t.indentLevel + 1))
  {
    var hdr := DirectiveHeader(name, args);
    WrapWordsFromStart(m, t, hdr);
    assert Repeat('\n', 1) == "\n";
    assert Append(m, t, hdr, 1) == Ok(Emit(m, t, hdr, 1));
  }

  /** The pending blank line if any, the directive line, then one line per option sorted by
      key, one level deeper. */
  lemma DirectiveHeadLines(m: int, s: St, name: string, args: seq<string>, opts: seq<(string, string)>)
    requires s.hold == [] && (s.needNewline || s.lineLength == 0)
    ensures DirectiveHead(m, s, name, args, opts).Ok?
    ensures DirectiveHead(m, s, name, args, opts).value.output
            == s.output + (if s.needNewline then ["\n"] else [])
               + Wrapped(m, s.indentLevel, DirectiveHeader(name, args)) + ["\n"]
               + OptionLines(m, s.indentLevel + 1, SortByKey(opts))
  {
    var nl: seq<string> := if s.needNewline then ["\n"] else [];
    FlushAtStart(m, s, nl);
    var p := s.(output := s.output + nl, lineLength := 0, needNewline := false);
    DirectiveOpenLines(m, p, name, args);
    var h1 := DirectiveOpen(m, p, name, args).value;
    var sorted := SortByKey(opts);
    EmitOptionsLines(m, h1, sorted);
    var o := EmitOptions(m, h1, sorted);
    assert DirectiveHead(m, s, name, args, opts) == Ok(o);
    HeadOutput(s.output, nl, Wrapped(m, s.indentLevel, DirectiveHeader(name, args)),
               OptionLines(m, s.indentLevel + 1, sorted), p.output, h1.output, o.output);
  }

  /** append_possible_newline at the start of a line writes the pending blank line, if any. */
  lemma FlushAtStart(m: int, s: St, nl: seq<string>)
    requires s.hold == [] && (s.needNewline || s.lineLength == 0)
    requires nl == if s.needNewline then ["\n"] else []
    ensures PossibleNewline(m, s) == Ok(s.(output := s.output + nl, lineLength := 0, needNewline := false))
  {
    if s.needNewline {
      assert Repeat('\n', 1) == "\n";
    } else {
      assert s.output + nl == s.output;
    }
  }

  lemma HeadOutput(out: seq<string>, nl: seq<string>, w: seq<string>, ol: seq<string>,
                   p: seq<string>, h: seq<string>, o: seq<string>)
    requires p == out + nl && h == p + w + ["\n"] && o == h + ol
    ensures o == out + nl + w + ["\n"] + ol
  {
  }

  /** The pending blank line if any, the directive line and one line per option sorted by
      key (DirectiveHeadLines), which keep all the words of the header, the arguments and
      the options; the cursor ends at the start of a line, one more level of indentation
      applies and no blank line is pending. */
  lemma DirectiveHeadLaw(m: int, s: St, name: string, args: seq<string>, opts: seq<(string, string)>)
    requires s.hold == [] && (s.needNewline || s.lineLength == 0)
    ensures DirectiveHead(m, s, name, args, opts).Ok?
    ensures DirectiveHead(m, s, name, args, opts).value.output
            == s.output + (if s.needNewline then ["\n"] else [])
               + Wrapped(m, s.indentLevel, DirectiveHeader(name, args)) + ["\n"]
               + OptionLines(m, s.indentLevel + 1, SortByKey(opts))
    ensures var head := DirectiveHead(m, s, name, args, opts).value;
      && head == s.(output := head.output, lineLength := 0, indentLevel := s.indentLevel + 1, needNewline := false)
      && Tokens(head.output)
         == Tokens(s.output) + Tokens(DirectiveHeader(name, args)) + Tokens(OptionsWords(SortByKey(opts)))
  {
    DirectiveHeadLines(m, s, name, args, opts);
    var p := PossibleNewline(m, s).value;
    if s.needNewline {
      assert Repeat('\n', 1) == "\n";
      NewlineTokens(s.output);
    }
    assert p == s.(output := p.output, lineLength := 0, needNewline := false);
    assert Tokens(p.output) == Tokens(s.output);
    DirectiveOpenLaw(m, p, name, args);
    var h1 := DirectiveOpen(m, p, name, args).value;
    var sorted := SortByKey(opts);
    EmitOptionsLaw(m, h1, sorted);
    EmitOptionsMoves(m, h1, sorted);
    assert DirectiveHead(m, s, name, args, opts) == Ok(EmitOptions(m, h1, sorted));
  }

  /** After the options: a blank line when there are both options and content, then every
      content line on a line of its own, indented one level deeper than the directive. */
  lemma DirectiveContentLaw(m: int, s: St, name: string, args: seq<string>, opts: seq<(string, string)>,
                            content: seq<string>)
    requires s.hold == [] && (s.needNewline || s.lineLength == 0)
    ensures VisitDirective(m, s, name, args, opts, content).Ok?
    ensures var head := DirectiveHead(m, s, name, args, opts).value;
      VisitDirective(m, s, name, args, opts, content).value
      == head.(output := head.output
                 + (if |opts| > 0 && |content| > 0 then ["\n"] else [])
                 + Lines(m, s.indentLevel + 1, content))
  {
    DirectiveHeadLaw(m, s, name, args, opts);
    var head := DirectiveHead(m, s, name, args, opts).value;
    var gap := if |opts| > 0 && |content| > 0 then ["\n"] else [];
    var mid := if |opts| > 0 && |content| > 0 then Emit(m, head, [], 1) else head;
    assert mid == head.(output := head.output + gap) by {
      if |opts| > 0 && |content| > 0 {
        assert WrapWords(m, head, []) == head;
        assert Repeat('\n', 1) == "\n";
      }
    }
    EmitLinesLaw(m, mid, content);
  }

  // ---------------------------------------------------------------------------
  // Prose keeps its words

  /** Trees of sections, paragraphs and text only. */
  predicate Prose(n: Node)
    decreases n
  {
    (n.kind.Document? || n.kind.Section? || n.kind.Paragraph? || n.kind.Text? || n.kind.Transition?)
    && AllProse(n.children)
  }

  predicate AllProse(cs: seq<Node>)
    decreases cs
  {
    cs == [] || (Prose(cs[0]) && AllProse(cs[1..]))
  }

  /** The words of the text nodes, in document order, as visit_Text splits them. */
  function Words(n: Node): seq<string>
    decreases n
  {
    OwnWords(n.kind) + AllWords(n.children)
  }

  function AllWords(cs: seq<Node>): seq<string>
    decreases cs
  {
    if cs == [] then [] else Words(cs[0]) + AllWords(cs[1..])
  }

  lemma NewlineTokens(out: seq<string>)
    ensures Tokens(out + ["\n"]) == Tokens(out)
  {
    TokensAppend(out, ["\n"]);
    assert Tokens(["\n"]) == [];
  }

  function OwnWords(k: Kind): seq<string> {
    if k.Text? then SplitText(k.text) else []
  }

  lemma ProseVisit(cfg: Config, s: St, n: Node)
    requires s.hold == [] && Prose(n)
    ensures Visit(cfg, s, n).Ok? && Visit(cfg, s, n).value.hold == []
    ensures Tokens(Visit(cfg, s, n).value.output) == Tokens(s.output) + Tokens(OwnWords(n.kind))
  {
    if n.kind.Paragraph? && s.needNewline {
      assert Repeat('\n', 1) == "\n";
      NewlineTokens(s.output);
    } else if n.kind.Text? {
      EmitTokens(cfg.maxLineLength, s, SplitText(n.kind.text), 0);
    }
  }

  lemma ProseDepart(cfg: Config, u: St, n: Node)
    requires u.hold == [] && Prose(n)
    ensures Depart(cfg, u, n).Ok? && Depart(cfg, u, n).value.hold == []
    ensures Tokens(Depart(cfg, u, n).value.output) == Tokens(u.output)
  {
    if n.kind.Paragraph? {
      assert Repeat('\n', 1) == "\n";
      NewlineTokens(u.output);
    }
  }

  /** A node whose visit and children succeed is rendered as its departure after them. */
  lemma WalkNodeUnfold(cfg: Config, s: St, n: Node)
    requires Visit(cfg, s, n).Ok? && !SkipsChildren(n.kind)
    requires WalkChildren(cfg, Visit(cfg, s, n).value, n.children).Ok?
    ensures WalkNode(cfg, s, n) == Depart(cfg, WalkChildren(cfg, Visit(cfg, s, n).value, n.children).value, n)
  {
  }

  lemma WalkChildrenCons(cfg: Config, s: St, cs: seq<Node>)
    requires cs != [] && WalkNode(cfg, s, cs[0]).Ok?
    ensures WalkChildren(cfg, s, cs) == WalkChildren(cfg, WalkNode(cfg, s, cs[0]).value, cs[1..])
  {
  }

  /** Rendering prose outside any non-breakable element never fails, and the non-blank
      fragments it adds to the output are exactly the words of the text, in order: line
      breaking, indentation and blank lines add only whitespace. */
  lemma {:induction false} ProseKeepsWords(cfg: Config, s: St, n: Node)
    requires s.hold == [] && Prose(n)
    ensures WalkNode(cfg, s, n).Ok?
    ensures WalkNode(cfg, s, n).value.hold == []
    ensures Tokens(WalkNode(cfg, s, n).value.output) == Tokens(s.output) + Tokens(Words(n))
    decreases n
  {
    ProseVisit(cfg, s, n);
    var t := Visit(cfg, s, n).value;
    AllProseKeepWords(cfg, t, n.children);
    var u := WalkChildren(cfg, t, n.children).value;
    ProseDepart(cfg, u, n);
    WalkNodeUnfold(cfg, s, n);
    TokensChain(s.output, t.output, u.output, Depart(cfg, u, n).value.output, OwnWords(n.kind), AllWords(n.children));
  }

  /** Output that grows by the tokens of `own`, then of `rest`, then by no token, has grown
      by the tokens of `own + rest`. */
  lemma {:induction false} TokensChain(a: seq<string>, b: seq<string>, c: seq<string>, d: seq<string>, own: seq<string>,
                    rest: seq<string>)
    requires Tokens(b) == Tokens(a) + Tokens(own)
    requires Tokens(c) == Tokens(b) + Tokens(rest)
    requires Tokens(d) == Tokens(c)
    ensures Tokens(d) == Tokens(a) + Tokens(own + rest)
  {
    TokensAppend(own, rest);
  }

  lemma {:induction false} AllProseKeepWords(cfg: Config, s: St, cs: seq<Node>)
    requires s.hold == [] && AllProse(cs)
    ensures WalkChildren(cfg, s, cs).Ok?
    ensures WalkChildren(cfg, s, cs).value.hold == []
    ensures Tokens(WalkChildren(cfg, s, cs).value.output) == Tokens(s.output) + Tokens(AllWords(cs))
    decreases cs
  {
    if cs != [] {
      ProseKeepsWords(cfg, s, cs[0]);
      var t := WalkNode(cfg, s, cs[0]).value;
      AllProseKeepWords(cfg, t, cs[1..]);
      WalkChildrenCons(cfg, s, cs);
      assert AllWords(cs) == Words(cs[0]) + AllWords(cs[1..]);
      TokensAppend(Words(cs[0]), AllWords(cs[1..]));
      AppendAssoc(Tokens(s.output), Tokens(Words(cs[0])), Tokens(AllWords(cs[1..])));
    } else {
      assert Tokens(AllWords(cs)) == [];
      assert Tokens(s.output) + [] == Tokens(s.output);
    }
  }
}
