/** String operations the formatter takes from Python's `str` and `re`: repetition,
    concatenation, joining, the two word splitters, line splitting and string order. */
module Strings {

  /** Python's whitespace characters (`str.isspace()`), used by `str.split()`, `str.strip()`
      and the `\s` of a `str` pattern. */
  predicate IsSpace(c: char) {
    || c == ' ' || '\t' <= c <= '\r' || '\U{1C}' <= c <= '\U{1F}' || c == '\U{85}' || c == '\U{A0}'
    || c == '\U{1680}' || '\U{2000}' <= c <= '\U{200A}' || c == '\U{2028}' || c == '\U{2029}'
    || c == '\U{202F}' || c == '\U{205F}' || c == '\U{3000}'
  }

  predicate NoSpace(s: string) {
    forall i :: 0 <= i < |s| ==> !IsSpace(s[i])
  }

  predicate IsBlank(s: string) {
    forall i :: 0 <= i < |s| ==> IsSpace(s[i])
  }

  predicate StartsWith(s: string, prefix: string) {
    |prefix| <= |s| && s[..|prefix|] == prefix
  }

  /** `c * n` for a one-character string `c`; a negative count gives "" as in Python. */
  function Repeat(c: char, n: int): (r: string)
    ensures |r| == if n < 0 then 0 else n
    ensures forall i :: 0 <= i < |r| ==> r[i] == c
    decreases n
  {
    if n <= 0 then "" else [c] + Repeat(c, n - 1)
  }

  /** `"".join(parts)` */
  function Concat(parts: seq<string>): string {
    if parts == [] then "" else parts[0] + Concat(parts[1..])
  }

  lemma {:induction false} ConcatAppend(a: seq<string>, b: seq<string>)
    ensures Concat(a + b) == Concat(a) + Concat(b)
    decreases |a|
  {
    if a == [] {
      assert a + b == b;
    } else {
      assert (a + b)[1..] == a[1..] + b;
      ConcatAppend(a[1..], b);
    }
  }

  /** `sep.join(parts)` */
  function Join(sep: string, parts: seq<string>): string {
    if parts == [] then ""
    else if |parts| == 1 then parts[0]
    else parts[0] + sep + Join(sep, parts[1..])
  }

  // ---------------------------------------------------------------------------
  // re.split(r"[ \n]+", text): the splitter of text nodes

  predicate IsBreak(c: char) { c == ' ' || c == '\n' }

  /** Length of the run of spaces and newlines that starts `s`. */
  function BreakRun(s: string): (n: nat)
    ensures n <= |s|
    ensures forall i :: 0 <= i < n ==> IsBreak(s[i])
    ensures n < |s| ==> !IsBreak(s[n])
  {
    if s != [] && IsBreak(s[0]) then 1 + BreakRun(s[1..]) else 0
  }

  /** The pieces `re.split(r"[ \n]+", text)` returns: empty first and last pieces
      when `text` starts or ends with a separator, never an empty piece in between. */
  function SplitText(text: string): (r: seq<string>)
    ensures |r| >= 1
  {
    SplitFrom(text, "")
  }

  /** SplitText with the characters of the current piece already collected in `cur`. */
  function SplitFrom(text: string, cur: string): (r: seq<string>)
    ensures |r| >= 1
    decreases |text|
  {
    if text == [] then [cur]
    else if IsBreak(text[0]) then [cur] + SplitFrom(text[BreakRun(text)..], "")
    else SplitFrom(text[1..], cur + [text[0]])
  }

  /** `text` with every run of spaces and newlines replaced by one space. */
  function Squeeze(text: string): string
    decreases |text|
  {
    if text == [] then ""
    else if IsBreak(text[0]) then " " + Squeeze(text[BreakRun(text)..])
    else [text[0]] + Squeeze(text[1..])
  }

  lemma {:induction false} JoinSplitFrom(text: string, cur: string)
    ensures Join(" ", SplitFrom(text, cur)) == cur + Squeeze(text)
    decreases |text|
  {
    if text == [] {
    } else if IsBreak(text[0]) {
      var rest := text[BreakRun(text)..];
      JoinSplitFrom(rest, "");
    } else {
      JoinSplitFrom(text[1..], cur + [text[0]]);
      assert cur + [text[0]] + Squeeze(text[1..]) == cur + ([text[0]] + Squeeze(text[1..]));
    }
  }

  lemma {:induction false} SplitFromPieces(text: string, cur: string)
    requires forall i :: 0 <= i < |cur| ==> !IsBreak(cur[i])
    ensures forall k :: 0 <= k < |SplitFrom(text, cur)| ==>
              forall i :: 0 <= i < |SplitFrom(text, cur)[k]| ==> !IsBreak(SplitFrom(text, cur)[k][i])
    ensures forall k :: 0 < k < |SplitFrom(text, cur)| - 1 ==> SplitFrom(text, cur)[k] != ""
    decreases |text|
  {
    if text == [] {
    } else if IsBreak(text[0]) {
      var rest := text[BreakRun(text)..];
      SplitFromPieces(rest, "");
      var tail := SplitFrom(rest, "");
      if |tail| > 1 {
        // the piece after a separator run starts with a non-separator character
        assert rest != [] && !IsBreak(rest[0]);
        SplitFromStartsWith(rest, "");
      }
    } else {
      SplitFromPieces(text[1..], cur + [text[0]]);
    }
  }

  /** A piece that is being collected and is followed by a non-separator is non-empty. */
  lemma {:induction false} SplitFromStartsWith(text: string, cur: string)
    requires text != [] && !IsBreak(text[0])
    ensures SplitFrom(text, cur)[0] != ""
    decreases |text|
  {
    var next := cur + [text[0]];
    SplitFromFirstKeeps(text[1..], next);
  }

  lemma {:induction false} SplitFromFirstKeeps(text: string, cur: string)
    requires cur != ""
    ensures SplitFrom(text, cur)[0] != ""
    decreases |text|
  {
    if text != [] && !IsBreak(text[0]) {
      SplitFromFirstKeeps(text[1..], cur + [text[0]]);
    }
  }

  /** The word splitter of text nodes: joining its pieces with single spaces gives the text
      with every run of spaces and newlines squeezed to one space; no piece holds a space or
      a newline; only the first and the last piece can be empty. */
  lemma SplitTextLaw(text: string)
    ensures Join(" ", SplitText(text)) == Squeeze(text)
    ensures forall k :: 0 <= k < |SplitText(text)| ==>
              forall i :: 0 <= i < |SplitText(text)[k]| ==> !IsBreak(SplitText(text)[k][i])
    ensures forall k :: 0 < k < |SplitText(text)| - 1 ==> SplitText(text)[k] != ""
  {
    JoinSplitFrom(text, "");
    SplitFromPieces(text, "");
  }

  // ---------------------------------------------------------------------------
  // str.split() with no argument: the splitter of directive arguments

  function SpaceRun(s: string): (n: nat)
    ensures n <= |s|
    ensures forall i :: 0 <= i < n ==> IsSpace(s[i])
    ensures n < |s| ==> !IsSpace(s[n])
  {
    if s != [] && IsSpace(s[0]) then 1 + SpaceRun(s[1..]) else 0
  }

  function WordRun(s: string): (n: nat)
    ensures n <= |s|
    ensures forall i :: 0 <= i < n ==> !IsSpace(s[i])
    ensures n < |s| ==> IsSpace(s[n])
  {
    if s != [] && !IsSpace(s[0]) then 1 + WordRun(s[1..]) else 0
  }

  /** The non-whitespace characters of `s`, in order. */
  function RemoveSpaces(s: string): string {
    if s == [] then "" else (if IsSpace(s[0]) then "" else [s[0]]) + RemoveSpaces(s[1..])
  }

  lemma {:induction false} RemoveSpacesAppend(a: string, b: string)
    ensures RemoveSpaces(a + b) == RemoveSpaces(a) + RemoveSpaces(b)
    decreases |a|
  {
    if a == [] {
      assert a + b == b;
    } else {
      assert (a + b)[1..] == a[1..] + b;
      RemoveSpacesAppend(a[1..], b);
    }
  }

  lemma {:induction false} RemoveSpacesOfBlank(s: string)
    requires IsBlank(s)
    ensures RemoveSpaces(s) == ""
    decreases |s|
  {
    if s != [] { RemoveSpacesOfBlank(s[1..]); }
  }

  lemma {:induction false} RemoveSpacesOfWord(s: string)
    requires NoSpace(s)
    ensures RemoveSpaces(s) == s
    decreases |s|
  {
    if s != [] { RemoveSpacesOfWord(s[1..]); }
  }

  /** `s.strip().split()`: the maximal runs of non-whitespace characters of `s`, in order;
      every piece is non-empty and whitespace-free. */
  function SplitWhitespace(s: string): (r: seq<string>)
    ensures forall k :: 0 <= k < |r| ==> r[k] != "" && NoSpace(r[k])
    decreases |s|
  {
    var t := s[SpaceRun(s)..];
    if t == [] then []
    else
      var w := WordRun(t);
      [t[..w]] + SplitWhitespace(t[w..])
  }

  lemma RemoveSpacesSkip(s: string)
    ensures RemoveSpaces(s) == RemoveSpaces(s[SpaceRun(s)..])
  {
    var lead := SpaceRun(s);
    assert s == s[..lead] + s[lead..];
    RemoveSpacesAppend(s[..lead], s[lead..]);
    RemoveSpacesOfBlank(s[..lead]);
  }

  lemma RemoveSpacesWord(t: string)
    ensures RemoveSpaces(t) == t[..WordRun(t)] + RemoveSpaces(t[WordRun(t)..])
  {
    var w := WordRun(t);
    assert t == t[..w] + t[w..];
    RemoveSpacesAppend(t[..w], t[w..]);
    RemoveSpacesOfWord(t[..w]);
  }

  /** Together the pieces of SplitWhitespace hold exactly the non-whitespace characters of `s`. */
  lemma {:induction false} SplitWhitespaceKeeps(s: string)
    ensures Concat(SplitWhitespace(s)) == RemoveSpaces(s)
    decreases |s|
  {
    var t := s[SpaceRun(s)..];
    RemoveSpacesSkip(s);
    if t != [] {
      var w := WordRun(t);
      var rest := SplitWhitespace(t[w..]);
      assert SplitWhitespace(s) == [t[..w]] + rest;
      RemoveSpacesWord(t);
      SplitWhitespaceKeeps(t[w..]);
      assert Concat([t[..w]] + rest) == t[..w] + Concat(rest) by {
        ConcatAppend([t[..w]], rest);
      }
    }
  }

  /** `s` with every run of whitespace replaced by one space. */
  function SqueezeSpaces(s: string): string
    decreases |s|
  {
    if s == [] then ""
    else if IsSpace(s[0]) then " " + SqueezeSpaces(s[SpaceRun(s)..])
    else [s[0]] + SqueezeSpaces(s[1..])
  }

  /** `t` without one leading and one trailing space. */
  function StripSpace(t: string): string {
    var a := if t != [] && t[0] == ' ' then t[1..] else t;
    if a != [] && a[|a| - 1] == ' ' then a[..|a| - 1] else a
  }

  predicate EndsInSpace(s: string) {
    s != [] && IsSpace(s[|s| - 1])
  }

  lemma {:induction false} SqueezeWord(t: string, w: nat)
    requires w <= |t| && forall i :: 0 <= i < w ==> !IsSpace(t[i])
    ensures SqueezeSpaces(t) == t[..w] + SqueezeSpaces(t[w..])
    decreases w
  {
    if w > 0 {
      SqueezeWord(t[1..], w - 1);
      assert t[1..][w - 1..] == t[w..];
      assert t[..w] == [t[0]] + t[1..][..w - 1];
    }
  }

  /** Joining non-empty whitespace-free pieces with single spaces neither starts nor ends
      with whitespace. */
  lemma {:induction false} JoinWordsEnds(ws: seq<string>)
    requires ws != [] && forall k :: 0 <= k < |ws| ==> ws[k] != "" && NoSpace(ws[k])
    ensures var j := Join(" ", ws); j != [] && !IsSpace(j[0]) && !IsSpace(j[|j| - 1])
    decreases |ws|
  {
    if |ws| > 1 {
      JoinWordsEnds(ws[1..]);
    }
  }

  lemma SplitWhitespaceSkip(s: string)
    ensures SplitWhitespace(s) == SplitWhitespace(s[SpaceRun(s)..])
  {
    var t := s[SpaceRun(s)..];
    if t != [] {
      assert SpaceRun(t) == 0;
      assert t[SpaceRun(t)..] == t;
    }
  }

  lemma SplitWhitespaceWord(t: string)
    requires t != [] && !IsSpace(t[0])
    ensures SplitWhitespace(t) == [t[..WordRun(t)]] + SplitWhitespace(t[WordRun(t)..])
  {
    assert SpaceRun(t) == 0;
    assert t[SpaceRun(t)..] == t;
  }

  lemma SqueezeLead(s: string)
    ensures SqueezeSpaces(s) == (if SpaceRun(s) > 0 then " " else "") + SqueezeSpaces(s[SpaceRun(s)..])
  {
    if SpaceRun(s) == 0 {
      assert s[SpaceRun(s)..] == s;
    }
  }

  /** On a text that does not start with whitespace, squeezing the whitespace gives the
      words joined by single spaces, and one more space when the text ends in whitespace. */
  lemma {:induction false} SqueezeSplit(t: string)
    requires t == [] || !IsSpace(t[0])
    ensures SqueezeSpaces(t) == Join(" ", SplitWhitespace(t)) + (if EndsInSpace(t) then " " else "")
    decreases |t|
  {
    if t != [] {
      var w := WordRun(t);
      var rest := t[w..];
      if rest == [] {
        SqueezeWord(t, w);
        SplitWhitespaceWord(t);
        SplitWhitespaceSkip(rest);
        assert w == |t| && t[..w] == t;
        assert SplitWhitespace(t) == [t];
        assert !EndsInSpace(t);
        assert SqueezeSpaces(t) == t + "";
      } else {
        var u := rest[SpaceRun(rest)..];
        assert SqueezeSpaces(t) == t[..w] + " " + SqueezeSpaces(u) by {
          SqueezeWord(t, w);
          assert SpaceRun(rest) > 0;
          SqueezeLead(rest);
          AppendAssoc(t[..w], " ", SqueezeSpaces(u));
        }
        assert SplitWhitespace(t) == [t[..w]] + SplitWhitespace(u) by {
          SplitWhitespaceWord(t);
          SplitWhitespaceSkip(rest);
        }
        SqueezeSplit(u);
        SqueezeSplitStep(t, w, u);
      }
    }
  }

  lemma AppendAssoc<T>(a: seq<T>, b: seq<T>, c: seq<T>)
    ensures a + (b + c) == (a + b) + c
  {
  }

  /** The step of SqueezeSplit over one word followed by a whitespace run. */
  lemma SqueezeSplitStep(t: string, w: nat, u: string)
    requires 0 < w < |t|
    requires var rest := t[w..]; u == rest[SpaceRun(rest)..] && (u == [] || !IsSpace(u[0]))
    requires SqueezeSpaces(t) == t[..w] + " " + SqueezeSpaces(u)
    requires SplitWhitespace(t) == [t[..w]] + SplitWhitespace(u)
    requires SqueezeSpaces(u) == Join(" ", SplitWhitespace(u)) + (if EndsInSpace(u) then " " else "")
    ensures SqueezeSpaces(t) == Join(" ", SplitWhitespace(t)) + (if EndsInSpace(t) then " " else "")
  {
    var rest := t[w..];
    var n := SpaceRun(rest);
    var parts := [t[..w]] + SplitWhitespace(u);
    assert parts[1..] == SplitWhitespace(u);
    if u == [] {
      assert SplitWhitespace(u) == [];
      assert Join(" ", parts) == t[..w];
      assert n == |rest| && IsSpace(rest[|rest| - 1]);
      assert t[|t| - 1] == rest[|rest| - 1];
      assert EndsInSpace(t);
    } else {
      assert SplitWhitespace(u) != [] by {
        assert SpaceRun(u) == 0;
      }
      assert Join(" ", parts) == t[..w] + " " + Join(" ", SplitWhitespace(u));
      assert u == t[w + n..];
      assert t[|t| - 1] == u[|u| - 1];
      assert EndsInSpace(t) == EndsInSpace(u);
      var J := Join(" ", SplitWhitespace(u));
      var e: string := if EndsInSpace(u) then " " else "";
      assert SqueezeSpaces(u) == J + e;
      assert SqueezeSpaces(t) == t[..w] + " " + (J + e);
      assert Join(" ", SplitWhitespace(t)) == t[..w] + " " + J;
      assert (if EndsInSpace(t) then " " else "") == e;
      AppendAssoc(t[..w] + " ", J, e);
    }
  }

  /** `str.split()` cuts exactly at the whitespace runs: its pieces joined by single spaces
      are the text with every whitespace run squeezed to one space and the ends stripped. */
  lemma {:induction false} SplitWhitespaceRuns(s: string)
    ensures Join(" ", SplitWhitespace(s)) == StripSpace(SqueezeSpaces(s))
  {
    var t := s[SpaceRun(s)..];
    var pre: string := if SpaceRun(s) > 0 then " " else "";
    var e: string := if EndsInSpace(t) then " " else "";
    SplitWhitespaceSkip(s);
    SqueezeFrame(s, t, pre, e);
    if t == [] {
      assert SplitWhitespace(t) == [] && e == "";
      assert pre + (Join(" ", SplitWhitespace(t)) + e) == pre;
    } else {
      StripJoinedWords(t, pre, e);
    }
  }

  /** A text squeezed: its leading run, its words joined by single spaces, its trailing run. */
  lemma SqueezeFrame(s: string, t: string, pre: string, e: string)
    requires t == s[SpaceRun(s)..]
    requires pre == (if SpaceRun(s) > 0 then " " else "") && e == (if EndsInSpace(t) then " " else "")
    ensures SqueezeSpaces(s) == pre + (Join(" ", SplitWhitespace(t)) + e)
  {
    SqueezeLead(s);
    SqueezeSplit(t);
  }

  /** Stripping the single spaces around joined words leaves the joined words. */
  lemma StripJoinedWords(t: string, pre: string, e: string)
    requires t != [] && !IsSpace(t[0])
    requires (pre == "" || pre == " ") && (e == "" || e == " ")
    ensures StripSpace(pre + (Join(" ", SplitWhitespace(t)) + e)) == Join(" ", SplitWhitespace(t))
  {
    var ws := SplitWhitespace(t);
    SplitWhitespaceWord(t);
    JoinWordsEnds(ws);
    StripSpaceFrame(pre, Join(" ", ws), e);
  }

  lemma StripSpaceFrame(pre: string, j: string, e: string)
    requires pre == "" || pre == " "
    requires e == "" || e == " "
    requires j != [] && !IsSpace(j[0]) && !IsSpace(j[|j| - 1])
    ensures StripSpace(pre + (j + e)) == j
  {
    var a := j + e;
    assert pre + a != [] && (pre + a)[0] == ' ' <==> pre == " ";
    assert pre == " " ==> (pre + a)[1..] == a;
    assert a[|a| - 1] == ' ' <==> e == " ";
    assert e == " " ==> a[..|a| - 1] == j;
  }

  // ---------------------------------------------------------------------------
  // Lines: text.split("\n") and "\n".join(lines)

  function NewlineAt(s: string): (k: nat)
    requires '\n' in s
    ensures k < |s| && s[k] == '\n' && '\n' !in s[..k]
  {
    if s[0] == '\n' then 0
    else
      assert '\n' in s[1..] by { var j :| 0 <= j < |s| && s[j] == '\n'; assert s[1..][j - 1] == '\n'; }
      1 + NewlineAt(s[1..])
  }

  /** `s.split("\n")` */
  function SplitLines(s: string): (r: seq<string>)
    ensures |r| >= 1
    decreases |s|
  {
    if '\n' !in s then [s]
    else
      var k := NewlineAt(s);
      [s[..k]] + SplitLines(s[k + 1..])
  }

  /** No line of a split text holds a newline. */
  lemma {:induction false} SplitLinesNoNewline(s: string)
    ensures forall k :: 0 <= k < |SplitLines(s)| ==> '\n' !in SplitLines(s)[k]
    decreases |s|
  {
    if '\n' !in s {
      assert SplitLines(s) == [s];
    } else {
      var k := NewlineAt(s);
      var r := SplitLines(s[k + 1..]);
      SplitLinesNoNewline(s[k + 1..]);
      assert SplitLines(s) == [s[..k]] + r;
      forall j | 0 <= j < |r| + 1
        ensures '\n' !in ([s[..k]] + r)[j]
      {
        if j > 0 {
          assert ([s[..k]] + r)[j] == r[j - 1];
        } else {
          assert ([s[..k]] + r)[j] == s[..k];
        }
      }
    }
  }

  /** Splitting at newlines and joining with newlines gives the text back. */
  lemma {:induction false} JoinSplitLines(s: string)
    ensures Join("\n", SplitLines(s)) == s
    decreases |s|
  {
    if '\n' in s {
      var k := NewlineAt(s);
      var r := SplitLines(s[k + 1..]);
      JoinSplitLines(s[k + 1..]);
      var lines := [s[..k]] + r;
      assert SplitLines(s) == lines;
      assert |lines| >= 2 && lines[0] == s[..k] && lines[1..] == r;
      assert Join("\n", lines) == s[..k] + "\n" + Join("\n", r);
      assert s == s[..k] + "\n" + s[k + 1..];
    } else {
      assert SplitLines(s) == [s];
    }
  }

  lemma {:induction false} NewlineAtFirst(a: string, b: string)
    requires '\n' !in a
    ensures '\n' in a + "\n" + b && NewlineAt(a + "\n" + b) == |a|
    decreases |a|
  {
    var s := a + "\n" + b;
    assert s[|a|] == '\n';
    if a != [] {
      assert s[1..] == a[1..] + "\n" + b;
      NewlineAtFirst(a[1..], b);
    }
  }

  /** Joining newline-free lines with newlines and splitting again gives the lines back. */
  lemma {:induction false} SplitJoinLines(lines: seq<string>)
    requires |lines| >= 1
    requires forall k :: 0 <= k < |lines| ==> '\n' !in lines[k]
    ensures SplitLines(Join("\n", lines)) == lines
    decreases |lines|
  {
    if |lines| > 1 {
      var rest := Join("\n", lines[1..]);
      var s := lines[0] + "\n" + rest;
      assert Join("\n", lines) == s;
      NewlineAtFirst(lines[0], rest);
      assert s[..|lines[0]|] == lines[0];
      assert s[|lines[0]| + 1..] == rest;
      SplitJoinLines(lines[1..]);
    } else {
      assert Join("\n", lines) == lines[0];
    }
  }

  /** Appending newline-free text extends the last line. */
  lemma {:induction false} SplitLinesAppend(a: string, x: string)
    requires '\n' !in x
    ensures var la := SplitLines(a);
      SplitLines(a + x) == la[..|la| - 1] + [la[|la| - 1] + x]
    decreases |a|
  {
    if '\n' !in a {
      SplitLinesAppendLast(a, x);
    } else {
      var k := NewlineAt(a);
      var b := a[k + 1..];
      var r := SplitLines(b);
      SplitLinesAfter(a, x, k);
      SplitLinesAppend(b, x);
      ConsLastAppend(a[..k], r, SplitLines(b + x), x);
    }
  }

  lemma SplitLinesAppendLast(a: string, x: string)
    requires '\n' !in a && '\n' !in x
    ensures SplitLines(a + x) == [a + x] && SplitLines(a) == [a]
  {
    assert '\n' !in a + x;
  }

  /** Text appended after the first newline only changes the lines after it. */
  lemma SplitLinesAfter(a: string, x: string, k: nat)
    requires '\n' in a && k == NewlineAt(a)
    ensures SplitLines(a) == [a[..k]] + SplitLines(a[k + 1..])
    ensures SplitLines(a + x) == [a[..k]] + SplitLines(a[k + 1..] + x)
  {
    NewlineAtPrefix(a, x);
    assert (a + x)[..k] == a[..k];
    assert (a + x)[k + 1..] == a[k + 1..] + x;
  }

  /** Putting `h` in front commutes with appending `t` at the end. */
  lemma ConsSnoc<T>(h: T, c: seq<T>, d: seq<T>, t: seq<T>)
    requires d == c + t
    ensures [h] + d == ([h] + c) + t
  {
    AppendAssoc([h], c, t);
  }

  /** Putting a line in front commutes with extending the last line. */
  lemma ConsLastAppend(h: string, r: seq<string>, d: seq<string>, x: string)
    requires |r| >= 1 && d == r[..|r| - 1] + [r[|r| - 1] + x]
    ensures var l := [h] + r; [h] + d == l[..|l| - 1] + [l[|l| - 1] + x]
  {
    ConsLast(h, r);
    AppendAssoc([h], r[..|r| - 1], [r[|r| - 1] + x]);
  }

  /** The front and the last element of a non-empty sequence with one more element in front. */
  lemma ConsLast<T>(h: T, r: seq<T>)
    requires |r| >= 1
    ensures ([h] + r)[..|r|] == [h] + r[..|r| - 1]
    ensures ([h] + r)[|r|] == r[|r| - 1]
  {
  }

  /** Appending a newline starts an empty last line. */
  lemma {:induction false} SplitLinesNewline(a: string)
    ensures SplitLines(a + "\n") == SplitLines(a) + [""]
    decreases |a|
  {
    if '\n' !in a {
      SplitLinesNewlineLast(a);
    } else {
      var k := NewlineAt(a);
      var b := a[k + 1..];
      SplitLinesAfter(a, "\n", k);
      SplitLinesNewline(b);
      ConsSnoc(a[..k], SplitLines(b), SplitLines(b + "\n"), [""]);
    }
  }

  lemma SplitLinesNewlineLast(a: string)
    requires '\n' !in a
    ensures SplitLines(a + "\n") == SplitLines(a) + [""]
  {
    var t := a + "\n";
    assert t[..|a|] == a;
    NewlineAtUnique(t, |a|);
    assert t[|a| + 1..] == "";
    assert SplitLines("") == [""];
    assert SplitLines(a) == [a];
  }

  /** The first newline of `a` is the first newline of `a + x`. */
  lemma NewlineAtPrefix(a: string, x: string)
    requires '\n' in a
    ensures '\n' in a + x && NewlineAt(a + x) == NewlineAt(a)
  {
    var k := NewlineAt(a);
    assert (a + x)[k] == '\n';
    assert (a + x)[..k] == a[..k];
    NewlineAtUnique(a + x, k);
  }

  lemma {:induction false} NewlineAtUnique(s: string, k: nat)
    requires k < |s| && s[k] == '\n' && '\n' !in s[..k]
    ensures '\n' in s && NewlineAt(s) == k
    decreases k
  {
    if k > 0 {
      assert s[0] == s[..k][0];
      assert s[1..][k - 1] == '\n';
      assert s[1..][..k - 1] == s[..k][1..];
      NewlineAtUnique(s[1..], k - 1);
    }
  }

  // ---------------------------------------------------------------------------
  // Python's ordering of strings: lexicographic by code point

  predicate StrLe(a: string, b: string)
    decreases |a|
  {
    a == [] || (b != [] && (a[0] < b[0] || (a[0] == b[0] && StrLe(a[1..], b[1..]))))
  }

  lemma {:induction false} StrLeTotal(a: string, b: string)
    ensures StrLe(a, b) || StrLe(b, a)
    decreases |a|
  {
    if a != [] && b != [] && a[0] == b[0] {
      StrLeTotal(a[1..], b[1..]);
    }
  }
}
