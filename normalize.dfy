/** The text passes of `format_rst` (src/rst_formatter.py) around parsing and rendering:
    heading-line normalisation, the blank line before bullet lists and its removal after
    rendering, the blank line before directives, and the final newline trim. Each regular
    expression is written out as the scan `re.sub` performs: leftmost match first, the next
    search starting after the previous match. */
module Normalize {
  import opened Strings
  import opened Results
  import opened DocTree
  import RenderSpec

  // ---------------------------------------------------------------------------
  // fix_heading_line_length: `^([CHARS]){3,}$` -> `\1\1\1\1`, line by line

  /** The characters of the `title_order` entries, in any mix. */
  function HeadingChars(order: seq<string>): set<char> {
    set i, j | 0 <= i < |order| && 0 <= j < |order[i]| :: order[i][j]
  }

  predicate IsHeadingLine(chars: set<char>, line: string) {
    |line| >= 3 && forall i :: 0 <= i < |line| ==> line[i] in chars
  }

  /** A heading line becomes four copies of its last character; any other line stays. */
  function FixHeadingLine(chars: set<char>, line: string): (r: string)
    ensures IsHeadingLine(chars, line) ==> |r| == 4 && forall i :: 0 <= i < 4 ==> r[i] == line[|line| - 1]
    ensures !IsHeadingLine(chars, line) ==> r == line
    ensures '\n' !in line ==> '\n' !in r
  {
    if IsHeadingLine(chars, line) then Repeat(line[|line| - 1], 4) else line
  }

  function FixHeadingLines(chars: set<char>, lines: seq<string>): (r: seq<string>)
    ensures |r| == |lines|
    ensures forall k :: 0 <= k < |r| ==> r[k] == FixHeadingLine(chars, lines[k])
  {
    seq(|lines|, k requires 0 <= k < |lines| => FixHeadingLine(chars, lines[k]))
  }

  /** `fix_heading_line_length(text, config)` */
  function FixHeadings(order: seq<string>, text: string): string {
    Join("\n", FixHeadingLines(HeadingChars(order), SplitLines(text)))
  }

  lemma FixHeadingLineIdempotent(chars: set<char>, line: string)
    ensures FixHeadingLine(chars, FixHeadingLine(chars, line)) == FixHeadingLine(chars, line)
  {
    if IsHeadingLine(chars, line) {
      var r := FixHeadingLine(chars, line);
      assert IsHeadingLine(chars, r);
      assert r == Repeat(r[3], 4);
    }
  }

  lemma FixedLinesNoNewline(chars: set<char>, text: string)
    ensures forall k :: 0 <= k < |FixHeadingLines(chars, SplitLines(text))| ==>
      '\n' !in FixHeadingLines(chars, SplitLines(text))[k]
  {
    var lines := SplitLines(text);
    SplitLinesNoNewline(text);
    forall k | 0 <= k < |lines|
      ensures '\n' !in FixHeadingLines(chars, lines)[k]
    {
      assert '\n' !in lines[k];
    }
  }

  /** The text keeps its lines: every line made of three or more heading characters
      becomes exactly four copies of its last character, and every other line is kept. */
  lemma FixHeadingsLines(order: seq<string>, text: string)
    ensures var chars := HeadingChars(order);
      var before := SplitLines(text);
      var after := SplitLines(FixHeadings(order, text));
      && |after| == |before|
      && forall k :: 0 <= k < |after| ==>
           if IsHeadingLine(chars, before[k]) then after[k] == Repeat(before[k][|before[k]| - 1], 4)
           else after[k] == before[k]
  {
    var chars := HeadingChars(order);
    var fixed := FixHeadingLines(chars, SplitLines(text));
    FixedLinesNoNewline(chars, text);
    SplitJoinLines(fixed);
  }

  /** Normalising heading lines a second time changes nothing. */
  lemma FixHeadingsIdempotent(order: seq<string>, text: string)
    ensures FixHeadings(order, FixHeadings(order, text)) == FixHeadings(order, text)
  {
    var chars := HeadingChars(order);
    var fixed := FixHeadingLines(chars, SplitLines(text));
    FixedLinesNoNewline(chars, text);
    SplitJoinLines(fixed);
    forall k | 0 <= k < |fixed|
      ensures FixHeadingLine(chars, fixed[k]) == fixed[k]
    {
      FixHeadingLineIdempotent(chars, SplitLines(text)[k]);
    }
    assert FixHeadingLines(chars, fixed) == fixed;
  }

  // ---------------------------------------------------------------------------
  // The blank line between a ':' line and a bullet list

  /** Length of a match of `\s*[-*] ` at the start of `s`, or 0 when there is none. */
  function BulletPrefix(s: string): (g: nat)
    ensures g <= |s|
  {
    if s == [] then 0
    else if IsSpace(s[0]) then (if BulletPrefix(s[1..]) > 0 then 1 + BulletPrefix(s[1..]) else 0)
    else if (s[0] == '-' || s[0] == '*') && |s| >= 2 && s[1] == ' ' then 2
    else 0
  }

  /** `re.sub(r":\n(\s*[-*] )", r":\n\n\1", s)`: a blank line after a line ending in ':'
      that is followed by a bullet item. */
  function OpenBulletLists(s: string): string
    decreases |s|
  {
    if s == [] then []
    else if |s| >= 2 && s[0] == ':' && s[1] == '\n' && BulletPrefix(s[2..]) > 0 then
      var g := BulletPrefix(s[2..]);
      ":\n\n" + s[2..2 + g] + OpenBulletLists(s[2 + g..])
    else [s[0]] + OpenBulletLists(s[1..])
  }

  /** `re.sub(r":\n\n(\s*[-*] )", r":\n\1", s)`: the blank line removed again. */
  function CloseBulletLists(s: string): string
    decreases |s|
  {
    if s == [] then []
    else if |s| >= 3 && s[..3] == ":\n\n" && BulletPrefix(s[3..]) > 0 then
      var g := BulletPrefix(s[3..]);
      ":\n" + s[3..3 + g] + CloseBulletLists(s[3 + g..])
    else [s[0]] + CloseBulletLists(s[1..])
  }

  lemma {:induction false} OpenFirst(s: string)
    requires s != []
    ensures OpenBulletLists(s) != [] && OpenBulletLists(s)[0] == s[0]
  {
  }

  /** The bullet prefix of a text is unaffected by whatever follows it. */
  lemma {:induction false} BulletPrefixAppend(s: string, rest: string)
    requires BulletPrefix(s) > 0
    ensures BulletPrefix(s[..BulletPrefix(s)] + rest) == BulletPrefix(s)
    decreases |s|
  {
    var g := BulletPrefix(s);
    var t := s[..g] + rest;
    if IsSpace(s[0]) {
      BulletPrefixAppend(s[1..], rest);
      assert t[1..] == s[1..][..g - 1] + rest;
    }
  }

  /** Opening bullet lists leaves the bullet prefix at the start of a text as it was. */
  lemma {:induction false} BulletPrefixOpen(s: string)
    ensures BulletPrefix(OpenBulletLists(s)) == BulletPrefix(s)
    decreases |s|
  {
    if s != [] && s[0] != ':' {
      assert OpenBulletLists(s) == [s[0]] + OpenBulletLists(s[1..]);
      var o := OpenBulletLists(s);
      assert o[1..] == OpenBulletLists(s[1..]);
      if IsSpace(s[0]) {
        BulletPrefixOpen(s[1..]);
      } else if |s| >= 2 {
        OpenFirst(s[1..]);
      }
    }
  }

  /** Without `newline_bullet_list`, the pass after rendering undoes the pass before
      parsing: every blank line the first inserts the second removes, and nothing else. */
  lemma {:induction false} BulletListsRoundTrip(s: string)
    ensures CloseBulletLists(OpenBulletLists(s)) == s
    decreases |s|
  {
    if s == [] {
    } else if |s| >= 2 && s[0] == ':' && s[1] == '\n' && BulletPrefix(s[2..]) > 0 {
      BulletListsRoundTrip(s[2 + BulletPrefix(s[2..])..]);
      RoundTripAtBullet(s);
    } else {
      BulletListsRoundTrip(s[1..]);
      RoundTripElsewhere(s);
    }
  }

  /** A blank line inserted before a bullet item is the one the second pass removes. */
  lemma {:induction false} RoundTripAtBullet(s: string)
    requires |s| >= 2 && s[0] == ':' && s[1] == '\n' && BulletPrefix(s[2..]) > 0
    requires CloseBulletLists(OpenBulletLists(s[2 + BulletPrefix(s[2..])..])) == s[2 + BulletPrefix(s[2..])..]
    ensures CloseBulletLists(OpenBulletLists(s)) == s
  {
    var g := BulletPrefix(s[2..]);
    var item, tail := s[2..2 + g], s[2 + g..];
    OpenAtBullet(s, g);
    CloseAtBullet(item, OpenBulletLists(tail));
    BulletSplit(s, g);
  }

  /** A text that starts with `:`, a newline and a bullet prefix of length `g`. */
  lemma BulletSplit(s: string, g: nat)
    requires 2 + g <= |s| && s[0] == ':' && s[1] == '\n'
    ensures s == ":\n" + s[2..2 + g] + s[2 + g..]
  {
    assert s == s[..2] + s[2..] && s[..2] == ":\n";
    assert s[2..] == s[2..2 + g] + s[2 + g..];
    AppendAssoc(":\n", s[2..2 + g], s[2 + g..]);
  }

  /** The first pass at a bullet item after a `:` line: the blank line, the item's prefix, and
      the rest passed through, which still starts with the same bullet prefix. */
  lemma OpenAtBullet(s: string, g: nat)
    requires |s| >= 2 && s[0] == ':' && s[1] == '\n' && g == BulletPrefix(s[2..]) > 0
    ensures OpenBulletLists(s) == ":\n\n" + s[2..2 + g] + OpenBulletLists(s[2 + g..])
    ensures s[2..2 + g] != [] && BulletPrefix(s[2..2 + g] + OpenBulletLists(s[2 + g..])) == g
  {
    var item, rest := s[2..2 + g], OpenBulletLists(s[2 + g..]);
    assert BulletPrefix(item + rest) == |item| by {
      assert s[2..][..g] == item;
      BulletPrefixAppend(s[2..], rest);
    }
  }

  /** The second pass at a blank line before a bullet prefix `item`. */
  lemma {:induction false} CloseAtBullet(item: string, rest: string)
    requires item != [] && BulletPrefix(item + rest) == |item|
    ensures CloseBulletLists(":\n\n" + item + rest) == ":\n" + item + CloseBulletLists(rest)
  {
    var o := ":\n\n" + item + rest;
    assert o[..3] == ":\n\n" && o[3..] == item + rest;
    assert o[3..3 + |item|] == item && o[3 + |item|..] == rest;
  }

  /** Where nothing was inserted the first character passes through both passes. */
  lemma {:induction false} RoundTripElsewhere(s: string)
    requires s != [] && !(|s| >= 2 && s[0] == ':' && s[1] == '\n' && BulletPrefix(s[2..]) > 0)
    requires CloseBulletLists(OpenBulletLists(s[1..])) == s[1..]
    ensures CloseBulletLists(OpenBulletLists(s)) == s
  {
    var o := OpenBulletLists(s);
    var tail := OpenBulletLists(s[1..]);
    assert o == [s[0]] + tail;
    NoCloseAfterKeptColon(s);
    assert o[1..] == tail;
  }

  /** Where the first pass did not insert a blank line, the second finds nothing to remove. */
  lemma {:induction false} NoCloseAfterKeptColon(s: string)
    requires s != []
    requires !(|s| >= 2 && s[0] == ':' && s[1] == '\n' && BulletPrefix(s[2..]) > 0)
    ensures var o := [s[0]] + OpenBulletLists(s[1..]);
      !(|o| >= 3 && o[..3] == ":\n\n" && BulletPrefix(o[3..]) > 0)
  {
    var o := [s[0]] + OpenBulletLists(s[1..]);
    if |s| >= 2 {
      OpenFirst(s[1..]);
    } else {
      assert OpenBulletLists(s[1..]) == [];
    }
    if s[0] == ':' && |s| >= 2 && s[1] == '\n' {
      assert OpenBulletLists(s[1..]) == ['\n'] + OpenBulletLists(s[2..]);
      if |s| >= 3 {
        OpenFirst(s[2..]);
        assert o[2] == s[2];
        if s[2] == '\n' {
          assert IsSpace(s[2]);
          assert OpenBulletLists(s[2..]) == ['\n'] + OpenBulletLists(s[3..]);
          assert o[3..] == OpenBulletLists(s[3..]);
          BulletPrefixOpen(s[3..]);
          assert s[2..][1..] == s[3..];
        }
      } else {
        assert OpenBulletLists(s[2..]) == [];
      }
    } else {
      assert o[0] == s[0];
      assert |o| >= 3 ==> o[1] == s[1];
    }
  }

  // ---------------------------------------------------------------------------
  // The blank line before a directive

  /** How the two dots of `\n.. ` are read: as written they are unescaped wildcards for
      any character but a newline; the evident intent is two literal dots. */
  datatype Dots = Wildcard | Literal

  /** A match of `([^\n])(\n.. )` at the start of `s`: a character that is not a newline,
      then a newline, two dots and a space. As written (Wildcard) the dots match any
      character but a newline, so any line whose third character is a space matches. */
  predicate DirectiveBreak(dots: Dots, s: string) {
    && |s| >= 5 && s[0] != '\n' && s[1] == '\n' && s[4] == ' '
    && match dots
       case Wildcard => s[2] != '\n' && s[3] != '\n'
       case Literal => s[2] == '.' && s[3] == '.'
  }

  /** `re.sub(r"([^\n])(\n.. )", r"\1\n\2", s)`, with the dots read as `dots`. */
  function SeparateDirectives(dots: Dots, s: string): string
    decreases |s|
  {
    if s == [] then []
    else if DirectiveBreak(dots, s) then [s[0]] + "\n" + s[1..5] + SeparateDirectives(dots, s[5..])
    else [s[0]] + SeparateDirectives(dots, s[1..])
  }

  /** As written, the pass splits the paragraph "Go to it" (written over two lines) into
      two paragraphs, because "to " matches ".. ". */
  lemma ParagraphSplitAsWritten()
    ensures SeparateDirectives(Wildcard, "Go\nto it") == "Go\n\nto it"
  {
    var s := "Go\nto it";
    assert SeparateDirectives(Wildcard, s[7..]) == "t";
    assert SeparateDirectives(Wildcard, s[6..]) == "it";
    assert DirectiveBreak(Wildcard, s[1..]) && s[1..][5..] == s[6..];
    assert SeparateDirectives(Wildcard, s[1..]) == "o\n\nto it";
    assert !DirectiveBreak(Wildcard, s);
  }

  /** With literal dots the same text is left alone. */
  lemma ParagraphKept()
    ensures SeparateDirectives(Literal, "Go\nto it") == "Go\nto it"
  {
    var s := "Go\nto it";
    forall i | 0 <= i < |s|
      ensures !DirectiveBreak(Literal, s[i..])
    {
      if |s[i..]| >= 5 {
        assert s[i..][3] == s[i + 3] != '.';
      }
    }
    SeparateDirectivesUnchanged(Literal, s);
  }

  /** Text without a match is left alone. */
  lemma {:induction false} SeparateDirectivesUnchanged(dots: Dots, s: string)
    requires forall i :: 0 <= i < |s| ==> !DirectiveBreak(dots, s[i..])
    ensures SeparateDirectives(dots, s) == s
    decreases |s|
  {
    if s != [] {
      assert !DirectiveBreak(dots, s[0..]);
      assert s[0..] == s;
      forall i | 0 <= i < |s| - 1
        ensures !DirectiveBreak(dots, s[1..][i..])
      {
        assert s[1..][i..] == s[i + 1..];
      }
      SeparateDirectivesUnchanged(dots, s[1..]);
    }
  }

  /** The text without its newlines. */
  function WithoutNewlines(s: string): string {
    if s == [] then [] else (if s[0] == '\n' then [] else [s[0]]) + WithoutNewlines(s[1..])
  }

  lemma {:induction false} WithoutNewlinesAppend(a: string, b: string)
    ensures WithoutNewlines(a + b) == WithoutNewlines(a) + WithoutNewlines(b)
    decreases |a|
  {
    if a == [] {
      assert a + b == b;
    } else {
      assert (a + b)[1..] == a[1..] + b;
      WithoutNewlinesAppend(a[1..], b);
    }
  }

  /** The pass only inserts newlines, whichever way the dots are read: every other
      character stays, in order. */
  lemma {:induction false} SeparateDirectivesKeepsText(dots: Dots, s: string)
    ensures WithoutNewlines(SeparateDirectives(dots, s)) == WithoutNewlines(s)
    decreases |s|
  {
    if s != [] {
      if DirectiveBreak(dots, s) {
        SeparateDirectivesKeepsText(dots, s[5..]);
        WithoutNewlinesAppend([s[0]] + "\n" + s[1..5], SeparateDirectives(dots, s[5..]));
        WithoutNewlinesAppend([s[0]] + "\n", s[1..5]);
        WithoutNewlinesAppend([s[0]], "\n");
        WithoutNewlinesAppend(s[..5], s[5..]);
        WithoutNewlinesAppend([s[0]], s[1..5]);
        assert s[..5] == [s[0]] + s[1..5];
        assert s == s[..5] + s[5..];
      } else {
        SeparateDirectivesKeepsText(dots, s[1..]);
        WithoutNewlinesAppend([s[0]], SeparateDirectives(dots, s[1..]));
        WithoutNewlinesAppend([s[0]], s[1..]);
        assert s == [s[0]] + s[1..];
      }
    }
  }

  /** A directive line right after a non-empty line gets a blank line before it, whichever
      way the dots are read. */
  lemma {:induction false} SeparateDirectivesInserts(dots: Dots, a: char, rest: string)
    requires a != '\n'
    ensures SeparateDirectives(dots, [a] + "\n.. " + rest) == [a] + "\n\n.. " + SeparateDirectives(dots, rest)
  {
    var s := [a] + "\n.. " + rest;
    assert DirectiveBreak(dots, s);
    assert s[1..5] == "\n.. " && s[5..] == rest;
  }

  /** The bullet-list pass before parsing only inserts newlines as well. */
  lemma {:induction false} OpenBulletListsKeepsText(s: string)
    ensures WithoutNewlines(OpenBulletLists(s)) == WithoutNewlines(s)
    decreases |s|
  {
    if s == [] {
    } else if |s| >= 2 && s[0] == ':' && s[1] == '\n' && BulletPrefix(s[2..]) > 0 {
      var g := BulletPrefix(s[2..]);
      var item, tail := s[2..2 + g], s[2 + g..];
      OpenBulletListsKeepsText(tail);
      OpenAtBullet(s, g);
      BulletSplit(s, g);
      KeepsTextAtBullet(item, tail, OpenBulletLists(tail));
    } else {
      OpenBulletListsKeepsText(s[1..]);
      KeepsTextElsewhere(s);
    }
  }

  lemma KeepsTextAtBullet(item: string, tail: string, rest: string)
    requires WithoutNewlines(rest) == WithoutNewlines(tail)
    ensures WithoutNewlines(":\n\n" + item + rest) == WithoutNewlines(":\n" + item + tail)
  {
    WithoutNewlinesAppend(":\n\n" + item, rest);
    WithoutNewlinesAppend(":\n\n", item);
    WithoutNewlinesAppend(":\n" + item, tail);
    WithoutNewlinesAppend(":\n", item);
    assert WithoutNewlines(":\n\n") == ":" == WithoutNewlines(":\n");
  }

  lemma KeepsTextElsewhere(s: string)
    requires s != [] && !(|s| >= 2 && s[0] == ':' && s[1] == '\n' && BulletPrefix(s[2..]) > 0)
    requires WithoutNewlines(OpenBulletLists(s[1..])) == WithoutNewlines(s[1..])
    ensures WithoutNewlines(OpenBulletLists(s)) == WithoutNewlines(s)
  {
    assert OpenBulletLists(s) == [s[0]] + OpenBulletLists(s[1..]);
    WithoutNewlinesAppend([s[0]], OpenBulletLists(s[1..]));
    WithoutNewlinesAppend([s[0]], s[1..]);
    assert s == [s[0]] + s[1..];
  }

  // ---------------------------------------------------------------------------
  // The final trim: `out.lstrip("\n").rstrip("\n")`

  /** The number of newlines the text starts with. */
  function LeadingNewlines(s: string): (n: nat)
    ensures n <= |s| && (n == |s| || s[n] != '\n')
    ensures forall i :: 0 <= i < n ==> s[i] == '\n'
    decreases |s|
  {
    if s != [] && s[0] == '\n' then 1 + LeadingNewlines(s[1..]) else 0
  }

  function StripTrailingNewlines(s: string): (r: string)
    ensures |r| <= |s| && r == s[..|r|]
    ensures r == [] || r[|r| - 1] != '\n'
    ensures forall i :: |r| <= i < |s| ==> s[i] == '\n'
    decreases |s|
  {
    if s != [] && s[|s| - 1] == '\n' then StripTrailingNewlines(s[..|s| - 1]) else s
  }

  /** The result of the trim neither starts nor ends with a newline, and it is what lies
      between the leading and the trailing newlines of the text. */
  function TrimNewlines(s: string): (r: string)
    ensures r == [] || (r[0] != '\n' && r[|r| - 1] != '\n')
    ensures var k := LeadingNewlines(s);
      && k + |r| <= |s| && r == s[k..k + |r|]
      && forall i :: k + |r| <= i < |s| ==> s[i] == '\n'
  {
    var k := LeadingNewlines(s);
    var r := StripTrailingNewlines(s[k..]);
    assert r == [] || r[0] == s[k];
    assert r == s[k..][..|r|];
    assert r == s[k..k + |r|];
    assert forall i :: k + |r| <= i < |s| ==> s[i] == s[k..][i - k];
    r
  }

  lemma TrimNewlinesIdempotent(s: string)
    ensures TrimNewlines(TrimNewlines(s)) == TrimNewlines(s)
  {
  }

  // ---------------------------------------------------------------------------
  // format_rst

  /** `format_rst(text, config)` with the document parser as a parameter: the passes before
      parsing (the directive pass with its dots as written), rendering, the pass after
      rendering and the trim. */
  function FormatRst(cfg: RenderSpec.Config, input: string, parse: string -> Node): Result<string> {
    var spaced := if cfg.newlineBulletList then input else OpenBulletLists(input);
    var separated := SeparateDirectives(Wildcard, spaced);
    var fixed := FixHeadings(cfg.titleOrder, separated);
    var out :- RenderSpec.Render(cfg, parse(fixed));
    var closed := if cfg.newlineBulletList then out else CloseBulletLists(out);
    Ok(TrimNewlines(closed))
  }

  /** `format_rst` fails exactly when rendering the parsed document fails; the parser is
      given the input with only newlines inserted by the bullet-list and directive passes
      (every other character kept in order, the directive pass read as written) and then its
      heading lines fixed; and the result neither
      starts nor ends with a newline. */
  lemma FormatRstLaw(cfg: RenderSpec.Config, input: string, parse: string -> Node)
    ensures var spaced := if cfg.newlineBulletList then input else OpenBulletLists(input);
      var separated := SeparateDirectives(Wildcard, spaced);
      var doc := parse(FixHeadings(cfg.titleOrder, separated));
      && WithoutNewlines(separated) == WithoutNewlines(input)
      && (FormatRst(cfg, input, parse).Err? <==> RenderSpec.Render(cfg, doc).Err?)
      && (FormatRst(cfg, input, parse).Ok? ==>
            var r := FormatRst(cfg, input, parse).value;
            r == [] || (r[0] != '\n' && r[|r| - 1] != '\n'))
  {
    var spaced := if cfg.newlineBulletList then input else OpenBulletLists(input);
    SeparateDirectivesKeepsText(Wildcard, spaced);
    OpenBulletListsKeepsText(input);
  }
}
