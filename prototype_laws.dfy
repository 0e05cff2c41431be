/** What the prototype renderer of the root rst_formatter.py guarantees, and where it parts
    from the current one: it renders the shared node kinds identically, re-emits spans
    between the delimiters of its table, reflows directive content, walks through unknown
    kinds, and its bullet-list replace passes undo each other unless the input already
    had the blank line. */
module PrototypeLaws {
  import opened Strings
  import opened Results
  import opened Layout
  import opened DocTree
  import opened OptionOrder
  import RenderSpec
  import RenderLaws
  import Normalize
  import opened PrototypeSpec

  // ---------------------------------------------------------------------------
  // The kinds both renderers treat alike

  /** Trees of the kinds whose rules the two renderers share. */
  predicate Shared(n: Node)
    decreases n
  {
    (n.kind.Document? || n.kind.Section? || n.kind.Paragraph? || n.kind.Text? || n.kind.BulletList?
     || n.kind.ListItem? || n.kind.SystemMessage? || n.kind.Transition?)
    && AllShared(n.children)
  }

  predicate AllShared(cs: seq<Node>)
    decreases cs
  {
    cs == [] || (Shared(cs[0]) && AllShared(cs[1..]))
  }

  /** On a tree of shared kinds the prototype renders exactly as the current renderer, from
      any state: same output, same state, same errors. */
  lemma {:induction false} SharedWalkAgrees(cfg: RenderSpec.Config, s: St, n: Node)
    requires Shared(n)
    ensures WalkNode(cfg, s, n) == RenderSpec.WalkNode(cfg, s, n)
    decreases n
  {
    assert Visit(cfg, s, n) == RenderSpec.Visit(cfg, s, n);
    if Visit(cfg, s, n).Ok? && !RenderSpec.SkipsChildren(n.kind) {
      var t := Visit(cfg, s, n).value;
      SharedChildrenAgree(cfg, t, n.children);
      if WalkChildren(cfg, t, n.children).Ok? {
        var u := WalkChildren(cfg, t, n.children).value;
        assert Depart(cfg, u, n) == RenderSpec.Depart(cfg, u, n);
      }
    } else if Visit(cfg, s, n).Ok? {
      var t := Visit(cfg, s, n).value;
      assert Depart(cfg, t, n) == RenderSpec.Depart(cfg, t, n);
    }
  }

  lemma {:induction false} SharedChildrenAgree(cfg: RenderSpec.Config, s: St, cs: seq<Node>)
    requires AllShared(cs)
    ensures WalkChildren(cfg, s, cs) == RenderSpec.WalkChildren(cfg, s, cs)
    decreases cs
  {
    if cs != [] {
      SharedWalkAgrees(cfg, s, cs[0]);
      if WalkNode(cfg, s, cs[0]).Ok? {
        SharedChildrenAgree(cfg, WalkNode(cfg, s, cs[0]).value, cs[1..]);
      }
    }
  }

  lemma {:induction false} ProseIsShared(n: Node)
    requires RenderLaws.Prose(n)
    ensures Shared(n)
    decreases n
  {
    AllProseIsShared(n.children);
  }

  lemma {:induction false} AllProseIsShared(cs: seq<Node>)
    requires RenderLaws.AllProse(cs)
    ensures AllShared(cs)
    decreases cs
  {
    if cs != [] {
      ProseIsShared(cs[0]);
      AllProseIsShared(cs[1..]);
    }
  }

  /** Prose rendered by the prototype outside any non-breakable element never fails and
      keeps the words of its text nodes, in order. */
  lemma ProseKeepsWords(cfg: RenderSpec.Config, s: St, n: Node)
    requires s.hold == [] && RenderLaws.Prose(n)
    ensures WalkNode(cfg, s, n).Ok?
    ensures Tokens(WalkNode(cfg, s, n).value.output) == Tokens(s.output) + Tokens(RenderLaws.Words(n))
  {
    ProseIsShared(n);
    SharedWalkAgrees(cfg, s, n);
    RenderLaws.ProseKeepsWords(cfg, s, n);
  }

  // ---------------------------------------------------------------------------
  // Spans between delimiters

  /** A span of the table: entering it, collecting its words in the hold space and leaving
      it writes the words, joined by single spaces, between the span's delimiters. */
  lemma DelimitedSpan(cfg: RenderSpec.Config, s: St, n: Node, words: seq<string>)
    requires s.hold == [] && Delimiters(n.kind).Some?
    ensures Visit(cfg, s, n) == Ok(Enter(s))
    ensures Depart(cfg, Append(cfg.maxLineLength, Enter(s), words, 0).value, n)
            == Ok(Emit(cfg.maxLineLength, s,
                       [Delimiters(n.kind).value.0 + Join(" ", words) + Delimiters(n.kind).value.1], 0))
  {
    HoldRoundTrip(cfg.maxLineLength, s, words);
    var inside := Append(cfg.maxLineLength, Enter(s), words, 0).value;
    assert Depart(cfg, inside, n) == DepartUnknown(cfg.maxLineLength, inside, n.kind);
  }

  /** Strong emphasis is written back as `**text**`. */
  lemma StrongSpan(cfg: RenderSpec.Config, s: St, raw: string, words: seq<string>)
    requires s.hold == []
    ensures var n := Node(Inline(Strong, raw), []);
      var inside := Append(cfg.maxLineLength, Enter(s), words, 0).value;
      Depart(cfg, inside, n) == Ok(Emit(cfg.maxLineLength, s, ["**" + Join(" ", words) + "**"], 0))
  {
    DelimitedSpan(cfg, s, Node(Inline(Strong, raw), []), words);
  }

  /** A reference is written back as `` `text`_ ``. */
  lemma ReferenceSpan(cfg: RenderSpec.Config, s: St, raw: string, words: seq<string>)
    requires s.hold == []
    ensures Depart(cfg, Append(cfg.maxLineLength, Enter(s), words, 0).value, Node(Inline(Reference, raw), []))
            == Ok(Emit(cfg.maxLineLength, s, ["`" + Join(" ", words) + "`_"], 0))
  {
    DelimitedSpan(cfg, s, Node(Inline(Reference, raw), []), words);
  }

  /** An inline target is written back as ``_`text` ``. */
  lemma TargetSpan(cfg: RenderSpec.Config, s: St, raw: string, words: seq<string>)
    requires s.hold == []
    ensures Depart(cfg, Append(cfg.maxLineLength, Enter(s), words, 0).value, Node(Target(raw), []))
            == Ok(Emit(cfg.maxLineLength, s, ["_`" + Join(" ", words) + "`"], 0))
  {
    DelimitedSpan(cfg, s, Node(Target(raw), []), words);
  }

  // ---------------------------------------------------------------------------
  // Unknown kinds

  /** Node kinds without a rule of their own in the prototype. */
  predicate Reported(k: Kind) {
    k.Other? || k.Citation? || k.Label? || k.Transition? || (k.Inline? && k.inline.CitationReference?)
  }

  /** A node of a kind without a rule in the prototype is walked through: its children are
      rendered as if they stood in its place. On a kind neither version has a rule for
      (`Other`) the current renderer raises; transitions, citations, labels and citation
      references have rules of their own there. */
  lemma UnknownWalkedThrough(cfg: RenderSpec.Config, s: St, n: Node)
    requires Reported(n.kind)
    ensures WalkNode(cfg, s, n) == WalkChildren(cfg, s, n.children)
    ensures n.kind.Other? ==> RenderSpec.WalkNode(cfg, s, n) == Err(Error.UnknownVisit(n.kind.tagname))
  {
    assert Visit(cfg, s, n) == Ok(s);
    if WalkChildren(cfg, s, n.children).Ok? {
      var u := WalkChildren(cfg, s, n.children).value;
      assert Depart(cfg, u, n) == Ok(u);
    }
  }

  // ---------------------------------------------------------------------------
  // Directives

  /** The prototype's directive outside any non-breakable element: it fails exactly when
      the cursor is not at the start of a line (a pending blank line is not flushed first).
      Otherwise it writes the lines DirectiveLines gives, keeps the words of the header, the
      sorted options and the content, ends at the start of a line one level deeper, and
      leaves the pending blank line as it was. */
  lemma DirectiveLaw(m: int, s: St, name: string, args: seq<string>, opts: seq<(string, string)>,
                     content: seq<string>)
    requires s.hold == []
    ensures s.lineLength == 0 ==>
      && VisitDirective(m, s, name, args, opts, content).Ok?
      && VisitDirective(m, s, name, args, opts, content).value.output
         == s.output + Wrapped(m, s.indentLevel, RenderSpec.DirectiveHeader(name, args)) + ["\n"]
            + RenderLaws.OptionLines(m, s.indentLevel + 1, SortByKey(opts))
            + (if |opts| > 0 || |content| > 0 then ["\n"] else [])
            + (if |content| > 0 then Wrapped(m, s.indentLevel + 1, content) + ["\n"] else [])
    ensures var r := VisitDirective(m, s, name, args, opts, content);
      && (r.Err? <==> s.lineLength != 0)
      && (r.Err? ==> r.error == DirectiveWhileIndented)
      && (r.Ok? ==>
            && r.value == s.(output := r.value.output, lineLength := 0, indentLevel := s.indentLevel + 1)
            && Tokens(r.value.output)
               == Tokens(s.output) + Tokens(RenderSpec.DirectiveHeader(name, args))
                  + Tokens(RenderLaws.OptionsWords(SortByKey(opts))) + Tokens(content))
  {
    if s.lineLength == 0 {
      DirectiveLines(m, s, name, args, opts, content);
      RenderLaws.DirectiveOpenLaw(m, s, name, args);
      var h1 := RenderSpec.DirectiveOpen(m, s, name, args).value;
      var sorted := SortByKey(opts);
      var o := RenderSpec.EmitOptions(m, h1, sorted);
      RenderLaws.EmitOptionsLaw(m, h1, sorted);
      RenderLaws.EmitOptionsMoves(m, h1, sorted);
      var b := if |opts| > 0 || |content| > 0 then Emit(m, o, [], 1) else o;
      EmitTokens(m, o, [], 1);
      assert Tokens(b.output) == Tokens(o.output);
      EmitTokens(m, b, content, 1);
      var r := if |content| > 0 then Emit(m, b, content, 1) else b;
      assert Tokens(r.output) == Tokens(b.output) + Tokens(content);
      assert VisitDirective(m, s, name, args, opts, content) == Ok(r);
    }
  }

  /** The prototype's directive at the start of a line, line by line: the directive line, one
      line per option sorted by key one level deeper, a blank line when there are options or
      content, then all content lines wrapped together as words one level deeper and ended
      by a single newline. */
  lemma DirectiveLines(m: int, s: St, name: string, args: seq<string>, opts: seq<(string, string)>,
                       content: seq<string>)
    requires s.hold == [] && s.lineLength == 0
    ensures VisitDirective(m, s, name, args, opts, content).Ok?
    ensures VisitDirective(m, s, name, args, opts, content).value.output
            == s.output + Wrapped(m, s.indentLevel, RenderSpec.DirectiveHeader(name, args)) + ["\n"]
               + RenderLaws.OptionLines(m, s.indentLevel + 1, SortByKey(opts))
               + (if |opts| > 0 || |content| > 0 then ["\n"] else [])
               + (if |content| > 0 then Wrapped(m, s.indentLevel + 1, content) + ["\n"] else [])
  {
    var w := Wrapped(m, s.indentLevel, RenderSpec.DirectiveHeader(name, args));
    RenderLaws.DirectiveOpenLines(m, s, name, args);
    var h1 := s.(output := s.output + w + ["\n"], indentLevel := s.indentLevel + 1);
    var sorted := SortByKey(opts);
    var ol := RenderLaws.OptionLines(m, s.indentLevel + 1, sorted);
    RenderLaws.EmitOptionsLines(m, h1, sorted);
    var o := h1.(output := h1.output + ol);
    var gap: seq<string> := if |opts| > 0 || |content| > 0 then ["\n"] else [];
    var b := if |opts| > 0 || |content| > 0 then Emit(m, o, [], 1) else o;
    BlankLine(m, o);
    assert b == o.(output := o.output + gap);
    var tail: seq<string> := if |content| > 0 then Wrapped(m, s.indentLevel + 1, content) + ["\n"] else [];
    var r := if |content| > 0 then Emit(m, b, content, 1) else b;
    ContentWrapped(m, b, content, tail);
    assert VisitDirective(m, s, name, args, opts, content) == Ok(r);
    DirectiveOutput(s.output, w, ol, gap, tail, h1.output, o.output, b.output, r.output);
  }

  /** `append(newlines=1)` at the start of a line writes one newline. */
  lemma BlankLine(m: int, o: St)
    ensures Emit(m, o, [], 1) == o.(output := o.output + ["\n"], lineLength := 0)
  {
    assert Repeat('\n', 1) == "\n";
  }

  /** The prototype's content: all lines wrapped together from the start of the line. */
  lemma ContentWrapped(m: int, b: St, content: seq<string>, tail: seq<string>)
    requires b.lineLength == 0
    requires tail == if |content| > 0 then Wrapped(m, b.indentLevel, content) + ["\n"] else []
    ensures (if |content| > 0 then Emit(m, b, content, 1) else b).output == b.output + tail
  {
    if |content| > 0 {
      WrapWordsFromStart(m, b, content);
      assert Repeat('\n', 1) == "\n";
    }
  }

  lemma DirectiveOutput(out: seq<string>, w: seq<string>, ol: seq<string>, gap: seq<string>, tail: seq<string>,
                        h: seq<string>, o: seq<string>, b: seq<string>, r: seq<string>)
    requires h == out + w + ["\n"] && o == h + ol && b == o + gap && r == b + tail
    ensures r == out + w + ["\n"] + ol + gap + tail
  {
  }

  // ---------------------------------------------------------------------------
  // The replace passes of format_rst

  lemma {:induction false} ReplaceHead(s: string, pat: string, rep: string)
    requires pat != [] && rep != [] && rep[0] == pat[0] && s != []
    ensures ReplaceAll(s, pat, rep) != [] && ReplaceAll(s, pat, rep)[0] == s[0]
  {
  }

  lemma {:induction false} NotContainsTail(s: string, pat: string)
    requires s != [] && !Contains(s, pat)
    ensures !Contains(s[1..], pat)
  {
  }

  /** Where the text does not start with ":\n-", the blank-line pass leaves no ":\n\n-"
      at its start unless the text already started with one. */
  lemma {:induction false} NoCloseAtKeptChar(x: string)
    requires x != [] && !(|x| >= 3 && x[..3] == ":\n-") && !(|x| >= 4 && x[..4] == ":\n\n-")
    ensures var y := [x[0]] + ReplaceAll(x[1..], ":\n-", ":\n\n-");
      !(|y| >= 4 && y[..4] == ":\n\n-")
  {
    var y := [x[0]] + ReplaceAll(x[1..], ":\n-", ":\n\n-");
    if |x| == 1 {
      assert ReplaceAll(x[1..], ":\n-", ":\n\n-") == [];
      assert |y| == 1;
    } else if x[0] != ':' {
      assert |y| < 4 || y[..4][0] != ':';
    } else if x[1] != '\n' {
      ReplaceHead(x[1..], ":\n-", ":\n\n-");
      assert y[1] == x[1];
      assert |y| < 4 || y[..4][1] != '\n';
    } else if |x| == 2 {
      assert ReplaceAll(x[1..], ":\n-", ":\n\n-") == ['\n'] + ReplaceAll(x[2..], ":\n-", ":\n\n-");
      assert ReplaceAll(x[2..], ":\n-", ":\n\n-") == [];
      assert |y| == 2;
    } else {
      assert ReplaceAll(x[1..], ":\n-", ":\n\n-") == ['\n'] + ReplaceAll(x[2..], ":\n-", ":\n\n-");
      ReplaceHead(x[2..], ":\n-", ":\n\n-");
      assert y[2] == x[2];
      if x[2] != '\n' {
        assert |y| < 4 || y[..4][2] != '\n';
      } else if |x| == 3 {
        assert ReplaceAll(x[2..], ":\n-", ":\n\n-") == ['\n'] + ReplaceAll(x[3..], ":\n-", ":\n\n-");
        assert ReplaceAll(x[3..], ":\n-", ":\n\n-") == [];
        assert |y| == 3;
      } else {
        assert ReplaceAll(x[2..], ":\n-", ":\n\n-") == ['\n'] + ReplaceAll(x[3..], ":\n-", ":\n\n-");
        ReplaceHead(x[3..], ":\n-", ":\n\n-");
        assert y[3] == x[3];
        assert x[..4] == ":\n\n" + [x[3]];
        assert |y| < 4 || y[..4][3] != '-';
      }
    }
  }

  /** The step of the round trip where the text starts with ":\n-". */
  lemma {:induction false} RoundTripAtColon(x: string)
    requires |x| >= 3 && x[..3] == ":\n-"
    requires ReplaceAll(ReplaceAll(x[3..], ":\n-", ":\n\n-"), ":\n\n-", ":\n-") == x[3..]
    ensures ReplaceAll(ReplaceAll(x, ":\n-", ":\n\n-"), ":\n\n-", ":\n-") == x
  {
    var rest := ReplaceAll(x[3..], ":\n-", ":\n\n-");
    var y := ":\n\n-" + rest;
    assert ReplaceAll(x, ":\n-", ":\n\n-") == y;
    assert y[..4] == ":\n\n-" && y[4..] == rest;
    assert x == ":\n-" + x[3..];
  }

  /** The step of the round trip where the first character is copied. */
  lemma {:induction false} RoundTripAtOther(x: string)
    requires x != [] && !(|x| >= 3 && x[..3] == ":\n-") && !(|x| >= 4 && x[..4] == ":\n\n-")
    requires ReplaceAll(ReplaceAll(x[1..], ":\n-", ":\n\n-"), ":\n\n-", ":\n-") == x[1..]
    ensures ReplaceAll(ReplaceAll(x, ":\n-", ":\n\n-"), ":\n\n-", ":\n-") == x
  {
    var y1 := ReplaceAll(x[1..], ":\n-", ":\n\n-");
    var y := [x[0]] + y1;
    assert ReplaceAll(x, ":\n-", ":\n\n-") == y;
    NoCloseAtKeptChar(x);
    assert y[1..] == y1;
    assert x == [x[0]] + x[1..];
  }

  /** Unless the text already contains ":\n\n-", the pass after rendering removes exactly
      the blank lines the pass before parsing inserted. */
  lemma {:induction false} BulletBlankRoundTrip(x: string)
    requires !Contains(x, ":\n\n-")
    ensures ReplaceAll(ReplaceAll(x, ":\n-", ":\n\n-"), ":\n\n-", ":\n-") == x
    decreases |x|
  {
    if x != [] {
      NotContainsTail(x, ":\n\n-");
      assert !(|x| >= 4 && x[..4] == ":\n\n-");
      if |x| >= 3 && x[..3] == ":\n-" {
        assert x[1..][1..] == x[2..];
        NotContainsTail(x[1..], ":\n\n-");
        assert x[2..][1..] == x[3..];
        NotContainsTail(x[2..], ":\n\n-");
        BulletBlankRoundTrip(x[3..]);
        RoundTripAtColon(x);
      } else {
        BulletBlankRoundTrip(x[1..]);
        RoundTripAtOther(x);
      }
    }
  }

  /** A blank line the author wrote between a ':' line and a list is removed all the same. */
  lemma BulletBlankLost()
    ensures ReplaceAll(ReplaceAll(":\n\n-", ":\n-", ":\n\n-"), ":\n\n-", ":\n-") == ":\n-"
  {
    var x := ":\n\n-";
    assert x[..3][2] == '\n' && x[1..][..3][0] == '\n';
    assert ReplaceAll(x[3..], ":\n-", ":\n\n-") == "-";
    assert ReplaceAll(x[2..], ":\n-", ":\n\n-") == "\n-";
    assert ReplaceAll(x[1..], ":\n-", ":\n\n-") == "\n\n-";
    assert ReplaceAll(x, ":\n-", ":\n\n-") == x;
    assert x[..4] == ":\n\n-" && x[4..] == [];
  }

  /** The prototype's `format_rst` fails exactly when rendering the parsed document fails,
      and its result neither starts nor ends with a newline. */
  lemma FormatRstLaw(cfg: RenderSpec.Config, input: string, parse: string -> Node)
    ensures var doc := parse(Normalize.FixHeadings(cfg.titleOrder, ReplaceAll(input, ":\n-", ":\n\n-")));
      && (FormatRst(cfg, input, parse).Err? <==> Render(cfg, doc).Err?)
      && (FormatRst(cfg, input, parse).Ok? ==>
            var r := FormatRst(cfg, input, parse).value;
            r == [] || (r[0] != '\n' && r[|r| - 1] != '\n'))
  {
  }
}
