/** The output primitives both translators share: the renderer state, the word-wrapping
    `_append_word_wrap`, the routing `append`, the hold-space push and pop, and the deferred
    blank line. Each is a function from the old state to the new one. */
module Layout {
  import opened Strings
  import opened Results

  /** What one block nesting adds to the left margin (`self.indent`). */
  const IndentUnit: string := "  "

  /** The renderer's fields: `output`, `hold_space`, `line_length`, `indent_level`,
      `section_depth`, `bullet_char` and `need_newline_before_paragraph_start`. */
  datatype St = St(
    output: seq<string>,
    hold: seq<seq<string>>,
    lineLength: int,
    indentLevel: int,
    sectionDepth: int,
    bullets: seq<string>,
    needNewline: bool)

  /** The state a translator starts from. */
  const Initial: St := St([], [], 0, 0, 0, [], false)

  /** `self.indent * self.indent_level` (Python gives "" for a negative count). */
  function Indent(level: int): (r: string)
    ensures |r| == if level <= 0 then 0 else 2 * level
    ensures forall i :: 0 <= i < |r| ==> r[i] == ' '
    decreases level
  {
    if level <= 0 then "" else IndentUnit + Indent(level - 1)
  }

  /** `word.startswith(tuple(",."))` */
  predicate StartsWithPunct(word: string) {
    word != "" && (word[0] == ',' || word[0] == '.')
  }

  /** Nothing but `output` and `line_length` differs between `s` and `t`. */
  predicate OnlyCursorMoved(s: St, t: St) {
    t.hold == s.hold && t.indentLevel == s.indentLevel && t.sectionDepth == s.sectionDepth
    && t.bullets == s.bullets && t.needNewline == s.needNewline
  }

  // ---------------------------------------------------------------------------
  // _append_word_wrap

  /** One iteration of the loop of `_append_word_wrap`. After a non-empty word the cursor is
      within the maximum line length, unless the word sits alone (after the indentation) on
      its line; the output only grows. */
  function WrapWord(maxLen: int, s: St, word: string): (r: St)
    ensures OnlyCursorMoved(s, r)
    ensures s.output <= r.output
    ensures word != "" ==> r.lineLength <= maxLen || r.lineLength == |Indent(s.indentLevel)| + |word|
    ensures word == "" ==> r == s
  {
    if word == "" then s
    else
      var t := if s.lineLength + 1 + |word| > maxLen then s.(output := s.output + ["\n"], lineLength := 0) else s;
      if t.lineLength == 0 then
        var ind := Indent(t.indentLevel);
        t.(lineLength := t.lineLength + |ind| + |word|, output := t.output + [ind, word])
      else
        t.(lineLength := t.lineLength + 1 + |word|,
           output := t.output + (if StartsWithPunct(word) then [word] else [" ", word]))
  }

  /** `_append_word_wrap(words)`: WrapWord for each word in turn. */
  function WrapWords(maxLen: int, s: St, words: seq<string>): (r: St)
    ensures OnlyCursorMoved(s, r)
    ensures s.output <= r.output
    decreases |words|
  {
    if words == [] then s else WrapWords(maxLen, WrapWord(maxLen, s, words[0]), words[1..])
  }

  /** `append(words, newlines=n)` with an empty hold space: wrap the words, then end the line
      with `n` newline characters when `n > 0`. */
  function Emit(maxLen: int, s: St, words: seq<string>, newlines: int): (r: St)
    ensures OnlyCursorMoved(s, r)
    ensures s.output <= r.output
    ensures newlines > 0 ==> r.lineLength == 0
  {
    var t := WrapWords(maxLen, s, words);
    if newlines > 0 then t.(output := t.output + [Repeat('\n', newlines)], lineLength := 0) else t
  }

  /** `append(words, newlines=n)`. Outside a non-breakable element the words are wrapped
      into `output` (Emit). Inside one, the words go verbatim to the innermost hold list,
      `output` and the cursor are untouched, and asking for a newline is an error. */
  function Append(maxLen: int, s: St, words: seq<string>, newlines: int): (r: Result<St>)
    ensures s.hold == [] ==> r == Ok(Emit(maxLen, s, words, newlines))
    ensures s.hold != [] ==> (r.Err? <==> newlines != 0)
    ensures s.hold != [] && r.Ok? ==>
      && r.value.output == s.output && r.value.lineLength == s.lineLength
      && |r.value.hold| == |s.hold|
      && r.value.hold[..|s.hold| - 1] == s.hold[..|s.hold| - 1]
      && r.value.hold[|s.hold| - 1] == s.hold[|s.hold| - 1] + words
      && r.value.(hold := s.hold) == s
  {
    if s.hold == [] then Ok(Emit(maxLen, s, words, newlines))
    else if newlines != 0 then Err(NewlineInHoldSpace)
    else
      var k := |s.hold| - 1;
      Ok(s.(hold := s.hold[..k] + [s.hold[k] + words]))
  }

  // ---------------------------------------------------------------------------
  // enter/exit_nonbreakable_element and append_possible_newline

  /** `enter_nonbreakable_element`: push an empty hold list. */
  function Enter(s: St): St {
    s.(hold := s.hold + [[]])
  }

  /** `exit_nonbreakable_element`: pop the innermost hold list and return it joined with
      single spaces; popping an empty stack raises. */
  function Exit(s: St): Result<(string, St)> {
    if s.hold == [] then Err(PopFromEmptyList)
    else
      var k := |s.hold| - 1;
      Ok((Join(" ", s.hold[k]), s.(hold := s.hold[..k])))
  }

  /** `append_possible_newline`: emit the blank line a previous node asked for. */
  function PossibleNewline(maxLen: int, s: St): Result<St> {
    if s.needNewline then
      var t :- Append(maxLen, s, [], 1);
      Ok(t.(needNewline := false))
    else Ok(s)
  }

  /** Entering a non-breakable element, appending words inside it and leaving it again gives
      back the state before, together with the words joined by single spaces. */
  lemma HoldRoundTrip(maxLen: int, s: St, words: seq<string>)
    ensures Append(maxLen, Enter(s), words, 0).Ok?
    ensures Exit(Append(maxLen, Enter(s), words, 0).value) == Ok((Join(" ", words), s))
  {
    var e := Enter(s);
    assert e.hold[..|s.hold|] == s.hold;
    assert e.hold[|s.hold|] + words == words;
    var t := Append(maxLen, e, words, 0).value;
    assert t.hold == s.hold + [words];
    assert t.hold[..|s.hold|] == s.hold;
  }

  // ---------------------------------------------------------------------------
  // Content preservation: wrapping only adds whitespace around the words

  /** The fragments that are not pure whitespace, in order. */
  function Tokens(frags: seq<string>): seq<string> {
    if frags == [] then [] else (if IsBlank(frags[0]) then [] else [frags[0]]) + Tokens(frags[1..])
  }

  lemma {:induction false} TokensAppend(a: seq<string>, b: seq<string>)
    ensures Tokens(a + b) == Tokens(a) + Tokens(b)
    decreases |a|
  {
    if a == [] {
      assert a + b == b;
    } else {
      assert (a + b)[1..] == a[1..] + b;
      TokensAppend(a[1..], b);
    }
  }

  lemma WrapWordTokens(maxLen: int, s: St, word: string)
    ensures Tokens(WrapWord(maxLen, s, word).output) == Tokens(s.output) + Tokens([word])
  {
    var r := WrapWord(maxLen, s, word);
    if word != "" {
      var t := if s.lineLength + 1 + |word| > maxLen then s.(output := s.output + ["\n"], lineLength := 0) else s;
      TokensAppend(s.output, ["\n"]);
      assert Tokens(t.output) == Tokens(s.output);
      if t.lineLength == 0 {
        TokensAppend(t.output, [Indent(t.indentLevel), word]);
      } else if StartsWithPunct(word) {
        TokensAppend(t.output, [word]);
      } else {
        TokensAppend(t.output, [" ", word]);
      }
    }
  }

  /** Word wrapping neither drops, alters nor reorders a word: the non-blank fragments it
      adds to `output` are exactly the non-blank words it was given. */
  lemma {:induction false} WrapWordsTokens(maxLen: int, s: St, words: seq<string>)
    ensures Tokens(WrapWords(maxLen, s, words).output) == Tokens(s.output) + Tokens(words)
    decreases |words|
  {
    if words != [] {
      var t := WrapWord(maxLen, s, words[0]);
      WrapWordTokens(maxLen, s, words[0]);
      WrapWordsTokens(maxLen, t, words[1..]);
      assert words == [words[0]] + words[1..];
      TokensAppend([words[0]], words[1..]);
    }
  }

  /** The same for `append` outside a non-breakable element: the newlines it adds carry no
      token. */
  lemma EmitTokens(maxLen: int, s: St, words: seq<string>, newlines: int)
    ensures Tokens(Emit(maxLen, s, words, newlines).output) == Tokens(s.output) + Tokens(words)
  {
    var t := WrapWords(maxLen, s, words);
    WrapWordsTokens(maxLen, s, words);
    if newlines > 0 {
      TokensAppend(t.output, [Repeat('\n', newlines)]);
    }
  }

  // ---------------------------------------------------------------------------
  // The cursor: line_length never under-counts the real column

  /** Number of characters after the last newline of `text`. */
  function Column(text: string): nat {
    if text == [] then 0
    else if text[|text| - 1] == '\n' then 0
    else 1 + Column(text[..|text| - 1])
  }

  lemma {:induction false} ColumnAppend(a: string, b: string)
    ensures '\n' !in b ==> Column(a + b) == Column(a) + |b|
    ensures b != [] && b[|b| - 1] == '\n' ==> Column(a + b) == 0
    decreases |b|
  {
    if b == [] {
      assert a + b == a;
    } else {
      var c := b[..|b| - 1];
      assert (a + b)[..|a + b| - 1] == a + c;
      if '\n' !in b {
        assert '\n' !in c;
        ColumnAppend(a, c);
      }
    }
  }

  /** `line_length` is at least the number of characters on the current output line:
      equal, except that a word glued to the line by a leading ',' or '.' counts the space
      it did not get. */
  predicate CursorCovers(s: St) {
    Column(Concat(s.output)) <= s.lineLength
  }

  lemma ConcatPush(out: seq<string>, frags: seq<string>)
    ensures Concat(out + frags) == Concat(out) + Concat(frags)
    ensures |frags| == 1 ==> Concat(frags) == frags[0]
    ensures |frags| == 2 ==> Concat(frags) == frags[0] + frags[1]
  {
    ConcatAppend(out, frags);
    if |frags| == 1 {
      assert Concat(frags) == frags[0] + Concat([]);
    } else if |frags| == 2 {
      assert frags[1..] == [frags[1]];
      assert Concat(frags[1..]) == frags[1] + Concat([]);
    }
  }

  lemma WrapWordCursor(maxLen: int, s: St, word: string)
    requires CursorCovers(s)
    requires '\n' !in word
    ensures CursorCovers(WrapWord(maxLen, s, word))
  {
    if word != "" {
      var t := if s.lineLength + 1 + |word| > maxLen then s.(output := s.output + ["\n"], lineLength := 0) else s;
      if s.lineLength + 1 + |word| > maxLen {
        ConcatPush(s.output, ["\n"]);
        ColumnAppend(Concat(s.output), "\n");
      }
      assert CursorCovers(t);
      var ind := Indent(t.indentLevel);
      if t.lineLength == 0 {
        ConcatPush(t.output, [ind, word]);
        ColumnAppend(Concat(t.output), ind + word);
      } else if StartsWithPunct(word) {
        ConcatPush(t.output, [word]);
        ColumnAppend(Concat(t.output), word);
      } else {
        ConcatPush(t.output, [" ", word]);
        ColumnAppend(Concat(t.output), " " + word);
      }
    }
  }

  /** Wrapping newline-free words keeps `line_length` covering the current output line. */
  lemma {:induction false} WrapWordsCursor(maxLen: int, s: St, words: seq<string>)
    requires CursorCovers(s)
    requires forall k :: 0 <= k < |words| ==> '\n' !in words[k]
    ensures CursorCovers(WrapWords(maxLen, s, words))
    decreases |words|
  {
    if words != [] {
      WrapWordCursor(maxLen, s, words[0]);
      WrapWordsCursor(maxLen, WrapWord(maxLen, s, words[0]), words[1..]);
    }
  }

  /** The same for `append(words, newlines=n)`; after `n > 0` newlines the cursor is at 0. */
  lemma EmitCursor(maxLen: int, s: St, words: seq<string>, newlines: int)
    requires CursorCovers(s)
    requires forall k :: 0 <= k < |words| ==> '\n' !in words[k]
    ensures CursorCovers(Emit(maxLen, s, words, newlines))
  {
    WrapWordsCursor(maxLen, s, words);
    if newlines > 0 {
      var t := WrapWords(maxLen, s, words);
      var nl := Repeat('\n', newlines);
      ConcatPush(t.output, [nl]);
      ColumnAppend(Concat(t.output), nl);
    }
  }

  // ---------------------------------------------------------------------------
  // Line width: every line wrapping completes fits, unless it holds a single word

  /** The line the output currently ends in. */
  function LastLine(text: string): string {
    var ls := SplitLines(text);
    ls[|ls| - 1]
  }

  /** A line is within the maximum width, or is the indentation and one of `placed`. */
  predicate Fits(maxLen: int, level: int, placed: seq<string>, line: string) {
    |line| <= maxLen || exists k :: 0 <= k < |placed| && line == Indent(level) + placed[k]
  }

  lemma FitsMore(maxLen: int, level: int, placed: seq<string>, more: seq<string>, line: string)
    requires Fits(maxLen, level, placed, line)
    ensures Fits(maxLen, level, placed + more, line)
  {
    if |line| > maxLen {
      var k :| 0 <= k < |placed| && line == Indent(level) + placed[k];
      assert (placed + more)[k] == placed[k];
    }
  }

  /** The cursor column is the length of the last line. */
  lemma {:induction false} ColumnIsLastLine(text: string)
    ensures Column(text) == |LastLine(text)|
    decreases |text|
  {
    if text != [] {
      var a, c := text[..|text| - 1], text[|text| - 1];
      assert text == a + [c];
      ColumnIsLastLine(a);
      if c == '\n' {
        SplitLinesNewline(a);
      } else {
        SplitLinesAppend(a, [c]);
      }
    }
  }

  /** Appending newline-free fragments extends the last line; a line break before them
      completes it and starts a new one. */
  lemma AppendLines(text: string, brk: bool, piece: string)
    requires '\n' !in piece
    ensures var t1 := (if brk then text + "\n" else text) + piece;
      var l0, l1 := SplitLines(text), SplitLines(t1);
      && |l1| == |l0| + (if brk then 1 else 0)
      && l1[..|l0| - 1] == l0[..|l0| - 1]
      && (brk ==> l1[|l0| - 1] == LastLine(text) && LastLine(t1) == piece)
      && (!brk ==> LastLine(t1) == LastLine(text) + piece)
  {
    if brk {
      SplitLinesNewline(text);
      SplitLinesAppend(text + "\n", piece);
      var l0 := SplitLines(text);
      assert (l0 + [""])[..|l0|] == l0;
    } else {
      SplitLinesAppend(text, piece);
    }
  }

  /** The text one word adds: a line break when it does not fit, then the indentation and
      the word at the start of a line, else the word after a space (or directly after the
      last word when it starts with punctuation). */
  function WrapPiece(maxLen: int, s: St, word: string): string {
    if s.lineLength == 0 || s.lineLength + 1 + |word| > maxLen then Indent(s.indentLevel) + word
    else if StartsWithPunct(word) then word
    else " " + word
  }

  lemma WrapWordText(maxLen: int, s: St, word: string)
    requires word != "" && '\n' !in word
    ensures var brk := s.lineLength + 1 + |word| > maxLen;
      var t0 := Concat(s.output);
      && Concat(WrapWord(maxLen, s, word).output) == (if brk then t0 + "\n" else t0) + WrapPiece(maxLen, s, word)
      && '\n' !in WrapPiece(maxLen, s, word)
  {
    var t0 := Concat(s.output);
    var brk := s.lineLength + 1 + |word| > maxLen;
    var t := if brk then s.(output := s.output + ["\n"], lineLength := 0) else s;
    var ind := Indent(t.indentLevel);
    var frags := if t.lineLength == 0 then [ind, word] else if StartsWithPunct(word) then [word] else [" ", word];
    assert WrapWord(maxLen, s, word).output == t.output + frags;
    ConcatPush(t.output, frags);
    if brk {
      ConcatPush(s.output, ["\n"]);
    }
    assert Concat(frags) == WrapPiece(maxLen, s, word);
  }

  /** One word: the line it may complete is the line the output ended in, and the line it
      leaves the output in fits, or is the indentation and the word itself. */
  lemma WrapWordLines(maxLen: int, s: St, word: string, placed: seq<string>)
    requires '\n' !in word
    requires CursorCovers(s) && Fits(maxLen, s.indentLevel, placed, LastLine(Concat(s.output)))
    ensures var r := WrapWord(maxLen, s, word);
      var t0, t1 := Concat(s.output), Concat(r.output);
      var l0, l1 := SplitLines(t0), SplitLines(t1);
      && CursorCovers(r)
      && Fits(maxLen, s.indentLevel, placed + [word], LastLine(t1))
      && |l0| <= |l1| <= |l0| + 1
      && l1[..|l0| - 1] == l0[..|l0| - 1]
      && (|l1| > |l0| ==> l1[|l0| - 1] == LastLine(t0))
  {
    WrapWordCursor(maxLen, s, word);
    WrapWordKeepsLines(maxLen, s, word);
    WrapWordFits(maxLen, s, word, placed);
  }

  /** One word completes at most the line the output ended in and keeps the lines before. */
  lemma WrapWordKeepsLines(maxLen: int, s: St, word: string)
    requires '\n' !in word
    ensures var t0, t1 := Concat(s.output), Concat(WrapWord(maxLen, s, word).output);
      var l0, l1 := SplitLines(t0), SplitLines(t1);
      && |l0| <= |l1| <= |l0| + 1
      && l1[..|l0| - 1] == l0[..|l0| - 1]
      && (|l1| > |l0| ==> l1[|l0| - 1] == LastLine(t0))
  {
    if word != "" {
      WrapWordText(maxLen, s, word);
      AppendLines(Concat(s.output), s.lineLength + 1 + |word| > maxLen, WrapPiece(maxLen, s, word));
    }
  }

  /** The line one word leaves the output in fits, or is the indentation and the word. */
  lemma WrapWordFits(maxLen: int, s: St, word: string, placed: seq<string>)
    requires '\n' !in word
    requires CursorCovers(s) && Fits(maxLen, s.indentLevel, placed, LastLine(Concat(s.output)))
    ensures Fits(maxLen, s.indentLevel, placed + [word], LastLine(Concat(WrapWord(maxLen, s, word).output)))
  {
    var t0 := Concat(s.output);
    FitsMore(maxLen, s.indentLevel, placed, [word], LastLine(t0));
    if word != "" {
      var brk := s.lineLength + 1 + |word| > maxLen;
      var r := WrapWord(maxLen, s, word);
      var t1 := Concat(r.output);
      WrapWordText(maxLen, s, word);
      AppendLines(t0, brk, WrapPiece(maxLen, s, word));
      WrapWordCursor(maxLen, s, word);
      ColumnIsLastLine(t1);
      ColumnIsLastLine(t0);
      if s.lineLength == 0 || brk {
        assert LastLine(t1) == Indent(s.indentLevel) + word;
        assert (placed + [word])[|placed|] == word;
      } else {
        assert r.lineLength <= maxLen;
      }
    }
  }

  /** `l1` continues `l0`: the lines before the last line of `l0` are kept, and from that
      line onwards every line of `l1` fits. */
  predicate LinesFrom(maxLen: int, level: int, placed: seq<string>, l0: seq<string>, l1: seq<string>) {
    && 1 <= |l0| <= |l1|
    && l1[..|l0| - 1] == l0[..|l0| - 1]
    && forall i :: |l0| - 1 <= i < |l1| ==> Fits(maxLen, level, placed, l1[i])
  }

  lemma LinesCompose(maxLen: int, level: int, placed: seq<string>, l0: seq<string>, lm: seq<string>, l1: seq<string>)
    requires 1 <= |l0| <= |lm| <= |l0| + 1
    requires lm[..|l0| - 1] == l0[..|l0| - 1]
    requires |lm| > |l0| ==> Fits(maxLen, level, placed, lm[|l0| - 1])
    requires LinesFrom(maxLen, level, placed, lm, l1)
    ensures LinesFrom(maxLen, level, placed, l0, l1)
  {
    assert l1[..|l0| - 1] == l1[..|lm| - 1][..|l0| - 1];
    assert lm[..|l0| - 1] == lm[..|lm| - 1][..|l0| - 1];
    forall i | |l0| - 1 <= i < |l1|
      ensures Fits(maxLen, level, placed, l1[i])
    {
      if i < |lm| - 1 {
        assert l1[i] == l1[..|lm| - 1][i] == lm[i];
      }
    }
  }

  /** Every line from the one the output ended in onwards, up to and including the line
      wrapping leaves it in, fits within the maximum width or is the indentation and one
      word; the lines before are untouched. */
  lemma {:induction false} WrapWordsLines(maxLen: int, s: St, words: seq<string>, placed: seq<string>)
    requires forall k :: 0 <= k < |words| ==> '\n' !in words[k]
    requires CursorCovers(s) && Fits(maxLen, s.indentLevel, placed, LastLine(Concat(s.output)))
    ensures LinesFrom(maxLen, s.indentLevel, placed + words, SplitLines(Concat(s.output)),
                      SplitLines(Concat(WrapWords(maxLen, s, words).output)))
    decreases |words|
  {
    var l0 := SplitLines(Concat(s.output));
    if words == [] {
      assert placed + words == placed;
      assert l0[|l0| - 1] == LastLine(Concat(s.output));
    } else {
      var w, ws, lvl := words[0], words[1..], s.indentLevel;
      var s1 := WrapWord(maxLen, s, w);
      var lm := SplitLines(Concat(s1.output));
      var l1 := SplitLines(Concat(WrapWords(maxLen, s, words).output));
      WrapWordsFront(maxLen, s, words, placed, l0, lm);
      assert forall k :: 0 <= k < |ws| ==> '\n' !in ws[k] by {
        forall k | 0 <= k < |ws|
          ensures '\n' !in ws[k]
        {
          assert ws[k] == words[k + 1];
        }
      }
      WrapWordsLines(maxLen, s1, ws, placed + [w]);
      assert (placed + [w]) + ws == placed + words;
      assert WrapWords(maxLen, s, words) == WrapWords(maxLen, s1, ws);
      LinesCompose(maxLen, lvl, placed + words, l0, lm, l1);
    }
  }

  /** The first word of a wrap: the state it leaves can wrap the rest, and the lines up to
      it continue the lines before. */
  lemma WrapWordsFront(maxLen: int, s: St, words: seq<string>, placed: seq<string>,
                       l0: seq<string>, lm: seq<string>)
    requires words != [] && '\n' !in words[0]
    requires CursorCovers(s) && Fits(maxLen, s.indentLevel, placed, LastLine(Concat(s.output)))
    requires l0 == SplitLines(Concat(s.output))
    requires lm == SplitLines(Concat(WrapWord(maxLen, s, words[0]).output))
    ensures CursorCovers(WrapWord(maxLen, s, words[0]))
    ensures WrapWord(maxLen, s, words[0]).indentLevel == s.indentLevel
    ensures Fits(maxLen, s.indentLevel, placed + [words[0]], LastLine(Concat(WrapWord(maxLen, s, words[0]).output)))
    ensures 1 <= |l0| <= |lm| <= |l0| + 1 && lm[..|l0| - 1] == l0[..|l0| - 1]
    ensures |lm| > |l0| ==> Fits(maxLen, s.indentLevel, placed + words, lm[|l0| - 1])
  {
    WrapWordLines(maxLen, s, words[0], placed);
    FitsMore(maxLen, s.indentLevel, placed, words, LastLine(Concat(s.output)));
  }

  /** `_append_word_wrap` keeps to the maximum line length: when the line the output ends
      in fits, every line from it onwards fits after wrapping newline-free words, except a
      line that holds the indentation and a single word too long to fit anywhere. */
  lemma WrapWordsWidth(maxLen: int, s: St, words: seq<string>)
    requires forall k :: 0 <= k < |words| ==> '\n' !in words[k]
    requires CursorCovers(s) && |LastLine(Concat(s.output))| <= maxLen
    ensures var l0 := SplitLines(Concat(s.output));
      var l1 := SplitLines(Concat(WrapWords(maxLen, s, words).output));
      && |l0| <= |l1|
      && l1[..|l0| - 1] == l0[..|l0| - 1]
      && forall i :: |l0| - 1 <= i < |l1| ==>
           |l1[i]| <= maxLen || exists k :: 0 <= k < |words| && l1[i] == Indent(s.indentLevel) + words[k]
  {
    var l0 := SplitLines(Concat(s.output));
    var l1 := SplitLines(Concat(WrapWords(maxLen, s, words).output));
    assert Fits(maxLen, s.indentLevel, [], LastLine(Concat(s.output)));
    WrapWordsLines(maxLen, s, words, []);
    assert [] + words == words;
    assert LinesFrom(maxLen, s.indentLevel, words, l0, l1);
  }

  // ---------------------------------------------------------------------------
  // What a wrap writes from the start of a line

  /** The fragments `_append_word_wrap(words)` writes when it starts at the beginning of a
      line at indentation `level`. */
  function Wrapped(maxLen: int, level: int, words: seq<string>): seq<string> {
    WrapWords(maxLen, St([], [], 0, level, 0, [], false), words).output
  }

  /** One word depends on the cursor and the indentation only: whatever was written before
      stays in front. */
  lemma WrapWordShift(maxLen: int, s: St, t: St, pre: seq<string>, word: string)
    requires s.lineLength == t.lineLength && s.indentLevel == t.indentLevel && s.output == pre + t.output
    ensures WrapWord(maxLen, s, word).output == pre + WrapWord(maxLen, t, word).output
    ensures WrapWord(maxLen, s, word).lineLength == WrapWord(maxLen, t, word).lineLength
  {
    if word != "" {
      var brk := s.lineLength + 1 + |word| > maxLen;
      var nl: seq<string> := if brk then ["\n"] else [];
      var ind := Indent(s.indentLevel);
      var frags := if brk || s.lineLength == 0 then [ind, word] else if StartsWithPunct(word) then [word] else [" ", word];
      assert WrapWord(maxLen, s, word).output == s.output + nl + frags;
      assert WrapWord(maxLen, t, word).output == t.output + nl + frags;
      AppendAssoc(pre, t.output, nl);
      AppendAssoc(pre, t.output + nl, frags);
    }
  }

  lemma {:induction false} WrapWordsShift(maxLen: int, s: St, t: St, pre: seq<string>, words: seq<string>)
    requires s.lineLength == t.lineLength && s.indentLevel == t.indentLevel && s.output == pre + t.output
    ensures WrapWords(maxLen, s, words).output == pre + WrapWords(maxLen, t, words).output
    ensures WrapWords(maxLen, s, words).lineLength == WrapWords(maxLen, t, words).lineLength
    decreases |words|
  {
    if words != [] {
      WrapWordShift(maxLen, s, t, pre, words[0]);
      WrapWordsShift(maxLen, WrapWord(maxLen, s, words[0]), WrapWord(maxLen, t, words[0]), pre, words[1..]);
    }
  }

  /** From the start of a line, wrapping appends `Wrapped` to what was written before. */
  lemma WrapWordsFromStart(maxLen: int, s: St, words: seq<string>)
    requires s.lineLength == 0
    ensures WrapWords(maxLen, s, words).output == s.output + Wrapped(maxLen, s.indentLevel, words)
  {
    WrapWordsShift(maxLen, s, St([], [], 0, s.indentLevel, 0, [], false), s.output, words);
  }
}
