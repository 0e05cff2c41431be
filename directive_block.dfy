/** `forgiving_parse_directive_block` (src/rst_formatter.py): split the indented block of a
    directive into its arguments, its options and its content lines, without knowing which
    directive it is. */
module DirectiveBlock {
  import opened Strings
  import opened Results
  import opened DocTree

  // ---------------------------------------------------------------------------
  // Field markers: `:name:` followed by spaces or by the end of the line

  /** A field name as recognised here: not empty, no colon or backslash, and neither
      starting nor ending with a space. */
  predicate IsFieldName(name: string) {
    && name != []
    && name[0] != ' ' && name[|name| - 1] != ' '
    && forall i :: 0 <= i < |name| ==> name[i] != ':' && name[i] != '\\'
  }

  /** A matched field marker: the name between the colons and the number of spaces after. */
  datatype Marker = Marker(name: string, spaces: nat)

  /** The text the pattern matched (`option_match.group()`). */
  function MarkerText(m: Marker): string {
    ":" + m.name + ":" + Repeat(' ', m.spaces)
  }

  /** Index of the first ':' of `s`, or |s|. */
  function ColonAt(s: string): (k: nat)
    ensures k <= |s| && (k < |s| ==> s[k] == ':')
    ensures forall i :: 0 <= i < k ==> s[i] != ':'
  {
    if s == [] || s[0] == ':' then 0 else 1 + ColonAt(s[1..])
  }

  /** Number of ' ' characters that start `s`. */
  function Blanks(s: string): (n: nat)
    ensures n <= |s| && (n < |s| ==> s[n] != ' ')
    ensures forall i :: 0 <= i < n ==> s[i] == ' '
  {
    if s != [] && s[0] == ' ' then 1 + Blanks(s[1..]) else 0
  }

  /** The field marker at the start of `line`, if any: a colon, a field name, a colon, and
      then all the spaces that follow, of which there must be one at least unless the line
      ends there. */
  function FieldMarker(line: string): (r: Option<Marker>)
    ensures r.Some? ==> && IsFieldName(r.value.name)
                        && StartsWith(line, MarkerText(r.value))
                        && (r.value.spaces == 0 ==> line == MarkerText(r.value))
                        && (|MarkerText(r.value)| < |line| ==> line[|MarkerText(r.value)|] != ' ')
  {
    if line == [] || line[0] != ':' then None
    else
      var j := 1 + ColonAt(line[1..]);
      if j == |line| || !IsFieldName(line[1..j]) then None
      else
        var n := Blanks(line[j + 1..]);
        if n == 0 && j + 1 < |line| then None
        else
          var m := Marker(line[1..j], n);
          assert line[..|MarkerText(m)|] == MarkerText(m) by {
            assert line[..j + 1] == ":" + m.name + ":";
            assert line[j + 1..j + 1 + n] == Repeat(' ', n);
            assert line[..j + 1 + n] == line[..j + 1] + line[j + 1..j + 1 + n];
          }
          Some(m)
  }

  /** Every marker is recognised on any line it starts, whatever follows its spaces. */
  lemma FieldMarkerComplete(m: Marker, rest: string)
    requires IsFieldName(m.name)
    requires m.spaces == 0 ==> rest == ""
    requires rest == "" || rest[0] != ' '
    ensures FieldMarker(MarkerText(m) + rest) == Some(m)
  {
    var line := MarkerText(m) + rest;
    var j := |m.name| + 1;
    assert line[1..][..|m.name|] == m.name;
    assert line[1..][|m.name|] == ':';
    ColonAtExact(line[1..], |m.name|);
    assert line[1..j] == m.name;
    assert line[j + 1..] == Repeat(' ', m.spaces) + rest;
    var after := line[j + 1..];
    assert forall i :: 0 <= i < m.spaces ==> after[i] == ' ';
    assert m.spaces < |after| ==> after[m.spaces] == rest[0];
    BlanksExact(after, m.spaces);
  }

  lemma {:induction false} ColonAtExact(s: string, k: nat)
    requires k < |s| && s[k] == ':' && forall i :: 0 <= i < k ==> s[i] != ':'
    ensures ColonAt(s) == k
    decreases k
  {
    if k > 0 {
      ColonAtExact(s[1..], k - 1);
    }
  }

  lemma {:induction false} BlanksExact(s: string, k: nat)
    requires k <= |s| && forall i :: 0 <= i < k ==> s[i] == ' '
    requires k < |s| ==> s[k] != ' '
    ensures Blanks(s) == k
    decreases k
  {
    if k > 0 {
      BlanksExact(s[1..], k - 1);
    }
  }

  // ---------------------------------------------------------------------------
  // The option key

  /** `key[1:-2]` as written: the marker text without its first and its last two
      characters (Python gives "" when fewer than three characters are left to slice). */
  function AsWrittenKey(markerText: string): string {
    if |markerText| >= 3 then markerText[1..|markerText| - 2] else ""
  }

  /** The text between the colons, which is what `key[1:-2]` yields for `:name: value`. */
  function OptionKey(m: Marker): string {
    m.name
  }

  /** Which key an option line is stored under: `key[1:-2]` of the matched marker, as the
      splitter is written, or the field name between the colons. */
  datatype KeyRule = AsWritten | FieldName

  function KeyOf(rule: KeyRule, m: Marker): string {
    match rule
    case AsWritten => AsWrittenKey(MarkerText(m))
    case FieldName => OptionKey(m)
  }

  /** `key[1:-2]` is the field name exactly when one space follows the marker; a marker that
      ends its line (a flag option such as `:hidden:`) loses the last character of its
      name, and a marker followed by several spaces keeps its colon and all but two of them. */
  lemma AsWrittenKeyLaw(m: Marker)
    requires IsFieldName(m.name)
    ensures AsWrittenKey(MarkerText(m)) == OptionKey(m) <==> m.spaces == 1
    ensures m.spaces == 0 ==> AsWrittenKey(MarkerText(m)) == m.name[..|m.name| - 1]
    ensures m.spaces >= 2 ==> AsWrittenKey(MarkerText(m)) == m.name + ":" + Repeat(' ', m.spaces - 2)
  {
    var t := MarkerText(m);
    var k := AsWrittenKey(t);
    if m.spaces == 0 {
      assert k == m.name[..|m.name| - 1];
      assert |k| != |m.name|;
    } else if m.spaces == 1 {
      assert k == m.name;
    } else {
      assert Repeat(' ', m.spaces) == [' ', ' '] + Repeat(' ', m.spaces - 2) by {
        assert Repeat(' ', m.spaces)[..2] == [' ', ' '];
      }
      assert k == m.name + ":" + Repeat(' ', m.spaces - 2);
      assert k[|m.name|] == ':';
      assert |k| > |m.name|;
    }
  }

  /** The flag option `:hidden:` becomes the key "hidde" as written, and the option block
      holding only that line stores its empty value under "hidde". */
  lemma FlagOptionLosesCharacter()
    ensures FieldMarker(":hidden:") == Some(Marker("hidden", 0))
    ensures AsWrittenKey(MarkerText(Marker("hidden", 0))) == "hidde"
    ensures OptionKey(Marker("hidden", 0)) == "hidden"
    ensures ReadOptions(AsWritten, [], [":hidden:"]) == ([("hidde", "")], [])
    ensures ReadOptions(FieldName, [], [":hidden:"]) == ([("hidden", "")], [])
  {
    HiddenMarker();
    assert AsWrittenKey(":hidden:") == "hidde";
    ReadHidden(AsWritten);
    ReadHidden(FieldName);
  }

  lemma HiddenMarker()
    ensures MarkerText(Marker("hidden", 0)) == ":hidden:"
    ensures FieldMarker(":hidden:") == Some(Marker("hidden", 0))
  {
    FieldMarkerComplete(Marker("hidden", 0), "");
    assert MarkerText(Marker("hidden", 0)) == ":hidden:";
  }

  /** The options a lone `:hidden:` line yields, under either key rule. */
  lemma ReadHidden(rule: KeyRule)
    ensures ReadOptions(rule, [], [":hidden:"]) == ([(KeyOf(rule, Marker("hidden", 0)), "")], [])
  {
    HiddenMarker();
    var k := KeyOf(rule, Marker("hidden", 0));
    assert ":hidden:"[8..] == "";
    assert Put([], k, "") == [(k, "")];
    var none: seq<string> := [];
    assert [":hidden:"][1..] == none;
    assert ReadOptions(rule, [], [":hidden:"]) == ReadOptions(rule, [(k, "")], none);
  }

  // ---------------------------------------------------------------------------
  // The options dictionary

  function Lookup(opts: seq<(string, string)>, key: string): Option<string> {
    if opts == [] then None
    else if opts[0].0 == key then Some(opts[0].1)
    else Lookup(opts[1..], key)
  }

  function Keys(opts: seq<(string, string)>): seq<string> {
    if opts == [] then [] else [opts[0].0] + Keys(opts[1..])
  }

  /** `options[key] = value`: the key takes the new value and every other key keeps its
      value (where the key goes: PutKeys). */
  function Put(opts: seq<(string, string)>, key: string, value: string): (r: seq<(string, string)>)
    ensures Lookup(r, key) == Some(value)
    ensures forall k :: k != key ==> Lookup(r, k) == Lookup(opts, k)
  {
    if opts == [] then [(key, value)]
    else if opts[0].0 == key then [(key, value)] + opts[1..]
    else [opts[0]] + Put(opts[1..], key, value)
  }

  /** A new key goes last; an existing key keeps its place. */
  lemma {:induction false} PutKeys(opts: seq<(string, string)>, key: string, value: string)
    ensures Keys(Put(opts, key, value)) == if Lookup(opts, key).Some? then Keys(opts) else Keys(opts) + [key]
    decreases |opts|
  {
    var r := Put(opts, key, value);
    if opts == [] {
      assert Keys(r) == [key] + Keys([]);
    } else if opts[0].0 == key {
      assert r[1..] == opts[1..];
    } else {
      var rest := Put(opts[1..], key, value);
      assert r[1..] == rest;
      PutKeys(opts[1..], key, value);
      AppendAssoc([opts[0].0], Keys(opts[1..]), [key]);
    }
  }

  /** `options[key] = value` keeps the keys distinct. */
  lemma {:induction false} PutDistinct(opts: seq<(string, string)>, key: string, value: string)
    requires DistinctKeys(opts)
    ensures DistinctKeys(Put(opts, key, value))
    decreases |opts|
  {
    var r := Put(opts, key, value);
    if opts != [] && opts[0].0 != key {
      var rest := Put(opts[1..], key, value);
      assert r == [opts[0]] + rest;
      assert DistinctKeys(opts[1..]) by {
        forall i, j | 0 <= i < j < |opts[1..]|
          ensures opts[1..][i].0 != opts[1..][j].0
        {
          assert opts[1..][i] == opts[i + 1] && opts[1..][j] == opts[j + 1];
        }
      }
      PutDistinct(opts[1..], key, value);
      forall i | 0 <= i < |rest|
        ensures rest[i].0 != opts[0].0
      {
        KeysIndex(rest, i);
        PutKeys(opts[1..], key, value);
        forall t | 0 <= t < |opts[1..]|
          ensures opts[1..][t].0 != opts[0].0
        {
          assert opts[1..][t] == opts[t + 1];
        }
        KeysNotIn(opts[1..], opts[0].0);
      }
      forall i, j | 0 <= i < j < |r|
        ensures r[i].0 != r[j].0
      {
        if i > 0 {
          assert r[i] == rest[i - 1] && r[j] == rest[j - 1];
        } else {
          assert r[j] == rest[j - 1];
        }
      }
    } else if opts != [] {
      forall i, j | 0 <= i < j < |r|
        ensures r[i].0 != r[j].0
      {
        assert r[j] == opts[j];
        if i > 0 {
          assert r[i] == opts[i];
        }
      }
    }
  }

  lemma KeysIndex(opts: seq<(string, string)>, i: nat)
    requires i < |opts|
    ensures |Keys(opts)| == |opts| && Keys(opts)[i] == opts[i].0
  {
    if i > 0 {
      KeysIndex(opts[1..], i - 1);
    }
  }

  lemma KeysNotIn(opts: seq<(string, string)>, key: string)
    requires forall i :: 0 <= i < |opts| ==> opts[i].0 != key
    ensures key !in Keys(opts) && Lookup(opts, key).None?
  {
    if opts != [] {
      KeysNotIn(opts[1..], key);
    }
  }

  // ---------------------------------------------------------------------------
  // The splitter

  datatype Block = Block(arguments: seq<string>, options: seq<(string, string)>, content: seq<string>)

  /** The options read from the leading field-marker lines of `lines`, added to `opts`
      under the keys `rule` gives, and the lines after them. */
  function ReadOptions(rule: KeyRule, opts: seq<(string, string)>, lines: seq<string>)
    : (r: (seq<(string, string)>, seq<string>))
    ensures |r.1| <= |lines|
    ensures r.1 != [] ==> FieldMarker(r.1[0]).None?
    decreases |lines|
  {
    if lines == [] then (opts, lines)
    else
      match FieldMarker(lines[0])
      case None => (opts, lines)
      case Some(m) => ReadOptions(rule, Put(opts, KeyOf(rule, m), lines[0][|MarkerText(m)|..]), lines[1..])
  }

  /** The option loop keeps the keys distinct. */
  lemma {:induction false} ReadOptionsDistinct(rule: KeyRule, opts: seq<(string, string)>, lines: seq<string>)
    requires DistinctKeys(opts)
    ensures DistinctKeys(ReadOptions(rule, opts, lines).0)
    decreases |lines|
  {
    if lines == [] || Entry(rule, lines[0]).None? {
      ReadOptionsStops(rule, opts, lines);
    } else {
      var e := Entry(rule, lines[0]).value;
      ReadOptionsFront(rule, opts, lines);
      PutDistinct(opts, e.0, e.1);
      ReadOptionsDistinct(rule, Put(opts, e.0, e.1), lines[1..]);
    }
  }

  /** What `ReadOptions` leaves is the tail of `lines` after the lines it consumed. */
  lemma {:induction false} ReadOptionsRest(rule: KeyRule, opts: seq<(string, string)>, lines: seq<string>)
    ensures ReadOptions(rule, opts, lines).1 == lines[|lines| - |ReadOptions(rule, opts, lines).1|..]
    decreases |lines|
  {
    if lines == [] || Entry(rule, lines[0]).None? {
      ReadOptionsStops(rule, opts, lines);
    } else {
      var e := Entry(rule, lines[0]).value;
      var next := Put(opts, e.0, e.1);
      var r := ReadOptions(rule, next, lines[1..]);
      ReadOptionsFront(rule, opts, lines);
      assert r.1 == lines[|lines| - |r.1|..] by {
        ReadOptionsRest(rule, next, lines[1..]);
        assert lines[1..][|lines| - 1 - |r.1|..] == lines[|lines| - |r.1|..];
      }
    }
  }

  /** Every line `ReadOptions` consumes is a field-marker line. */
  lemma {:induction false} ReadOptionsConsumed(rule: KeyRule, opts: seq<(string, string)>, lines: seq<string>)
    ensures var r := ReadOptions(rule, opts, lines);
      forall i :: 0 <= i < |lines| - |r.1| ==> FieldMarker(lines[i]).Some?
    decreases |lines|
  {
    if lines != [] && FieldMarker(lines[0]).Some? {
      var m := FieldMarker(lines[0]).value;
      var next := Put(opts, KeyOf(rule, m), lines[0][|MarkerText(m)|..]);
      ReadOptionsConsumed(rule, next, lines[1..]);
      var r := ReadOptions(rule, next, lines[1..]);
      forall i | 1 <= i < |lines| - |r.1|
        ensures FieldMarker(lines[i]).Some?
      {
        assert lines[i] == lines[1..][i - 1];
      }
    }
  }

  /** `while indented and len(indented[-1].strip()) == 0: indented.trim_end()` */
  function TrimTrailingBlank(lines: seq<string>): (r: seq<string>)
    ensures |r| <= |lines| && r == lines[..|r|]
    ensures forall i :: |r| <= i < |lines| ==> IsBlank(lines[i])
    ensures r == [] || !IsBlank(r[|r| - 1])
    decreases |lines|
  {
    if lines != [] && IsBlank(lines[|lines| - 1]) then TrimTrailingBlank(lines[..|lines| - 1]) else lines
  }

  /** `if indented and len(indented[0].strip()) == 0: indented.trim_start()` */
  function DropLeadingBlank(lines: seq<string>): (r: seq<string>)
    ensures r == lines || (lines != [] && IsBlank(lines[0]) && r == lines[1..])
    ensures lines != [] && IsBlank(lines[0]) ==> r == lines[1..]
  {
    if lines != [] && IsBlank(lines[0]) then lines[1..] else lines
  }

  /** What forgiving_parse_directive_block returns for the block `indented`, whose first
      line is the rest of the directive line, with the options keyed by `rule`. */
  function SplitBlock(rule: KeyRule, indented: seq<string>): Result<Block> {
    if indented == [] then Err(EmptyDirectiveBlock)
    else
      var read := ReadOptions(rule, [], indented[1..]);
      Ok(Block(SplitWhitespace(indented[0]), read.0, DropLeadingBlank(TrimTrailingBlank(read.1))))
  }

  /** `content` is what is left of `body` after `lead` (at most one) leading blank lines,
      followed by only blank lines, and it does not end with a blank line. */
  predicate ContentOf(body: seq<string>, lead: int, content: seq<string>) {
    && (lead == 0 || (lead == 1 && body != [] && IsBlank(body[0])))
    && lead + |content| <= |body|
    && content == body[lead..lead + |content|]
    && (forall i :: lead + |content| <= i < |body| ==> IsBlank(body[i]))
    && (content == [] || !IsBlank(content[|content| - 1]))
  }

  lemma ContentLaw(body: seq<string>)
    ensures ContentOf(body, |TrimTrailingBlank(body)| - |DropLeadingBlank(TrimTrailingBlank(body))|,
                      DropLeadingBlank(TrimTrailingBlank(body)))
  {
    var t := TrimTrailingBlank(body);
    var c := DropLeadingBlank(t);
    if c != t {
      assert c == t[1..];
      assert t[0] == body[0];
    }
  }

  /** The options come from the field-marker lines that follow the first line, up to the
      first line that is not one. */
  lemma OptionLinesLaw(rule: KeyRule, indented: seq<string>)
    requires indented != []
    ensures var k := |indented| - 1 - |ReadOptions(rule, [], indented[1..]).1|;
      && ReadOptions(rule, [], indented[1..]).1 == indented[1 + k..]
      && (forall i :: 1 <= i <= k ==> FieldMarker(indented[i]).Some?)
      && (1 + k < |indented| ==> FieldMarker(indented[1 + k]).None?)
      && DistinctKeys(ReadOptions(rule, [], indented[1..]).0)
  {
    var lines := indented[1..];
    var read := ReadOptions(rule, [], lines);
    var k := |indented| - 1 - |read.1|;
    ReadOptionsRest(rule, [], lines);
    assert read.1 == indented[1 + k..] by {
      assert lines[|lines| - |read.1|..] == indented[1 + k..];
    }
    ReadOptionsConsumed(rule, [], lines);
    ReadOptionsDistinct(rule, [], lines);
    forall i | 1 <= i <= k
      ensures FieldMarker(indented[i]).Some?
    {
      assert indented[i] == lines[i - 1];
    }
  }

  /** The key and value an option line assigns under `rule`, if it is one. */
  function Entry(rule: KeyRule, line: string): Option<(string, string)> {
    match FieldMarker(line)
    case None => None
    case Some(m) => Some((KeyOf(rule, m), line[|MarkerText(m)|..]))
  }

  /** The entry of each of `lines`. */
  function Entries(rule: KeyRule, lines: seq<string>): seq<Option<(string, string)>> {
    if lines == [] then [] else [Entry(rule, lines[0])] + Entries(rule, lines[1..])
  }

  /** The value the last assignment to `key` among `entries` gives it, if any does: an entry
      decides only a key none of the entries after it assigns. */
  function LastValue(entries: seq<Option<(string, string)>>, key: string): Option<string> {
    if entries == [] then None
    else
      var later := LastValue(entries[1..], key);
      if later.Some? then later
      else if entries[0].Some? && entries[0].value.0 == key then Some(entries[0].value.1)
      else None
  }

  lemma EntriesFront(rule: KeyRule, lines: seq<string>, n: nat)
    requires 1 <= n <= |lines|
    ensures Entries(rule, lines[..n]) == [Entry(rule, lines[0])] + Entries(rule, lines[1..][..n - 1])
  {
    assert lines[..n][1..] == lines[1..][..n - 1];
  }

  /** A line that is not an option line ends the options. */
  lemma ReadOptionsStops(rule: KeyRule, opts: seq<(string, string)>, lines: seq<string>)
    requires lines == [] || Entry(rule, lines[0]).None?
    ensures ReadOptions(rule, opts, lines) == (opts, lines)
  {
    assert lines != [] ==> FieldMarker(lines[0]).None?;
  }

  /** An option line is consumed: `ReadOptions` stores its entry and goes on with the rest. */
  lemma ReadOptionsFront(rule: KeyRule, opts: seq<(string, string)>, lines: seq<string>)
    requires lines != [] && Entry(rule, lines[0]).Some?
    ensures var e := Entry(rule, lines[0]).value;
      var r := ReadOptions(rule, opts, lines);
      && r == ReadOptions(rule, Put(opts, e.0, e.1), lines[1..])
      && |r.1| < |lines|
  {
  }

  /** The value under `key` after `ReadOptions`: the last consumed line's for that key, else
      the value it had in `opts`. */
  predicate ReadsLastValue(rule: KeyRule, opts: seq<(string, string)>, lines: seq<string>, key: string) {
    var r := ReadOptions(rule, opts, lines);
    var last := LastValue(Entries(rule, lines[..|lines| - |r.1|]), key);
    Lookup(r.0, key) == if last.Some? then last else Lookup(opts, key)
  }

  /** Each option read holds the value of the last consumed line for its key, as repeated
      `options[key] = value` assignments leave it; a key no consumed line sets keeps the
      value it had in `opts`. */
  lemma {:induction false} ReadOptionsValues(rule: KeyRule, opts: seq<(string, string)>, lines: seq<string>,
                                             key: string)
    ensures ReadsLastValue(rule, opts, lines, key)
    decreases |lines|
  {
    if lines == [] || Entry(rule, lines[0]).None? {
      ReadOptionsStops(rule, opts, lines);
      var none: seq<string> := [];
      assert lines[..0] == none;
      assert Entries(rule, none) == [];
    } else {
      var e := Entry(rule, lines[0]).value;
      ReadOptionsValues(rule, Put(opts, e.0, e.1), lines[1..], key);
      ReadOptionsValuesStep(rule, opts, lines, key);
    }
  }

  /** The step of `ReadOptionsValues` over one option line. */
  lemma ReadOptionsValuesStep(rule: KeyRule, opts: seq<(string, string)>, lines: seq<string>, key: string)
    requires lines != [] && Entry(rule, lines[0]).Some?
    requires var e := Entry(rule, lines[0]).value;
      ReadsLastValue(rule, Put(opts, e.0, e.1), lines[1..], key)
    ensures ReadsLastValue(rule, opts, lines, key)
  {
    var e := Entry(rule, lines[0]).value;
    var next := Put(opts, e.0, e.1);
    var rest := lines[1..];
    var r := ReadOptions(rule, opts, lines);
    var r' := ReadOptions(rule, next, rest);
    ReadOptionsFront(rule, opts, lines);
    var n := |lines| - |r.1|;
    assert n - 1 == |rest| - |r'.1|;
    EntriesFront(rule, lines, n);
    var tail := Entries(rule, rest[..n - 1]);
    var later := LastValue(tail, key);
    assert Lookup(r'.0, key) == if later.Some? then later else Lookup(next, key);
    var all := [Some(e)] + tail;
    assert Entries(rule, lines[..n]) == all;
    assert all[1..] == tail;
    assert LastValue(all, key) == if later.Some? then later else if e.0 == key then Some(e.1) else None;
    if later.None? && e.0 != key {
      assert Lookup(next, key) == Lookup(opts, key);
    }
  }

  /** When exactly one space follows every field marker, `key[1:-2]` and the field name
      store the same options. */
  lemma {:induction false} ReadOptionsRulesAgree(opts: seq<(string, string)>, lines: seq<string>)
    requires forall i :: 0 <= i < |lines| && FieldMarker(lines[i]).Some? ==> FieldMarker(lines[i]).value.spaces == 1
    ensures ReadOptions(AsWritten, opts, lines) == ReadOptions(FieldName, opts, lines)
    decreases |lines|
  {
    if lines != [] && FieldMarker(lines[0]).Some? {
      var m := FieldMarker(lines[0]).value;
      AsWrittenKeyLaw(m);
      forall i | 0 <= i < |lines[1..]| && FieldMarker(lines[1..][i]).Some?
        ensures FieldMarker(lines[1..][i]).value.spaces == 1
      {
        assert lines[1..][i] == lines[i + 1];
      }
      ReadOptionsRulesAgree(Put(opts, OptionKey(m), lines[0][|MarkerText(m)|..]), lines[1..]);
    }
  }

  /** The block is its first line, the option lines, at most one blank line, the content
      and blank lines: no other line is dropped, the content does not end with a blank line,
      the options have distinct keys, and each key holds the value of the last option line
      that assigns it while a key no option line assigns is absent. */
  lemma SplitBlockLaw(rule: KeyRule, indented: seq<string>)
    ensures SplitBlock(rule, indented).Err? <==> indented == []
    ensures indented != [] ==>
      var b := SplitBlock(rule, indented).value;
      var body := ReadOptions(rule, [], indented[1..]).1;
      var k := |indented| - 1 - |body|;
      && body == indented[1 + k..]
      && b.arguments == SplitWhitespace(indented[0])
      && (forall i :: 1 <= i <= k ==> FieldMarker(indented[i]).Some?)
      && (1 + k < |indented| ==> FieldMarker(indented[1 + k]).None?)
      && DistinctKeys(b.options)
      && (forall key :: Lookup(b.options, key) == LastValue(Entries(rule, indented[1..1 + k]), key))
      && ContentOf(body, |TrimTrailingBlank(body)| - |b.content|, b.content)
  {
    if indented != [] {
      OptionLinesLaw(rule, indented);
      SplitBlockContent(rule, indented);
      SplitBlockValues(rule, indented);
    }
  }

  lemma SplitBlockContent(rule: KeyRule, indented: seq<string>)
    requires indented != []
    ensures var b := SplitBlock(rule, indented).value;
      var body := ReadOptions(rule, [], indented[1..]).1;
      ContentOf(body, |TrimTrailingBlank(body)| - |b.content|, b.content)
  {
    var body := ReadOptions(rule, [], indented[1..]).1;
    assert SplitBlock(rule, indented).value.content == DropLeadingBlank(TrimTrailingBlank(body));
    ContentLaw(body);
  }

  lemma SplitBlockValues(rule: KeyRule, indented: seq<string>)
    requires indented != []
    ensures var b := SplitBlock(rule, indented).value;
      var k := |indented| - 1 - |ReadOptions(rule, [], indented[1..]).1|;
      && b.arguments == SplitWhitespace(indented[0])
      && DistinctKeys(b.options)
      && forall key :: Lookup(b.options, key) == LastValue(Entries(rule, indented[1..1 + k]), key)
  {
    ReadOptionsDistinct(rule, [], indented[1..]);
    forall key {
      OptionValuesLaw(rule, indented, key);
    }
  }

  /** Each key of the block holds the value of the last option line that assigns it, and
      a key no option line assigns is absent. */
  lemma {:induction false} OptionValuesLaw(rule: KeyRule, indented: seq<string>, key: string)
    requires indented != []
    ensures var k := |indented| - 1 - |ReadOptions(rule, [], indented[1..]).1|;
      Lookup(SplitBlock(rule, indented).value.options, key) == LastValue(Entries(rule, indented[1..1 + k]), key)
  {
    OptionLinesValues(rule, indented, key);
  }

  /** The same for the option loop run on the lines after the first. */
  lemma {:induction false} OptionLinesValues(rule: KeyRule, indented: seq<string>, key: string)
    requires indented != []
    ensures var k := |indented| - 1 - |ReadOptions(rule, [], indented[1..]).1|;
      Lookup(ReadOptions(rule, [], indented[1..]).0, key) == LastValue(Entries(rule, indented[1..1 + k]), key)
  {
    var lines := indented[1..];
    var k := |lines| - |ReadOptions(rule, [], lines).1|;
    ReadOptionsFromEmpty(rule, lines, key);
    assert Entries(rule, lines[..k]) == Entries(rule, indented[1..1 + k]) by {
      assert lines[..k] == indented[1..1 + k];
    }
  }

  /** Reading options into an empty dict: each key holds the value of the last consumed
      line for it, and no other key is present. */
  lemma {:induction false} ReadOptionsFromEmpty(rule: KeyRule, lines: seq<string>, key: string)
    ensures var r := ReadOptions(rule, [], lines);
      Lookup(r.0, key) == LastValue(Entries(rule, lines[..|lines| - |r.1|]), key)
  {
    var e: seq<(string, string)> := [];
    ReadOptionsValues(rule, e, lines, key);
    assert Lookup(e, key) == None;
    assert ReadsLastValue(rule, e, lines, key);
  }

  /** A rendered option line, `:key:` and the value separated by one space (or `:key:` alone
      for an empty value), is read back as that key and value. */
  lemma OptionLineRoundTrip(key: string, value: string)
    requires IsFieldName(key)
    requires value == "" || value[0] != ' '
    ensures var line := if value == "" then ":" + key + ":" else ":" + key + ": " + value;
      ReadOptions(FieldName, [], [line]) == ([(key, value)], [])
  {
    var m := Marker(key, if value == "" then 0 else 1);
    assert MarkerText(m) == if value == "" then ":" + key + ":" else ":" + key + ": ";
    var line := MarkerText(m) + value;
    FieldMarkerComplete(m, value);
    assert line[|MarkerText(m)|..] == value;
    var none: seq<string> := [];
    assert [line][1..] == none;
  }

  /** `forgiving_parse_directive_block`: the arguments are the words of the first line; each
      following field-marker line sets an option; trailing blank lines, and then one
      leading blank line, are dropped from what remains. */
  method ForgivingParseDirectiveBlock(indented: seq<string>) returns (r: Result<Block>)
    ensures r == SplitBlock(AsWritten, indented)
  {
    if indented == [] {
      return Err(EmptyDirectiveBlock);
    }
    var arguments := SplitWhitespace(indented[0]);
    var lines := indented[1..];
    var options: seq<(string, string)> := [];
    while lines != []
      invariant ReadOptions(AsWritten, [], indented[1..]) == ReadOptions(AsWritten, options, lines)
      decreases |lines|
    {
      var optionMatch := FieldMarker(lines[0]);
      if optionMatch.None? {
        break;
      }
      var key := MarkerText(optionMatch.value);
      var value := lines[0][|key|..];
      options := Put(options, AsWrittenKey(key), value);
      lines := lines[1..];
    }
    ghost var body := lines;
    while lines != [] && IsBlank(lines[|lines| - 1])
      invariant TrimTrailingBlank(body) == TrimTrailingBlank(lines)
      decreases |lines|
    {
      lines := lines[..|lines| - 1];
    }
    if lines != [] && IsBlank(lines[0]) {
      lines := lines[1..];
    }
    r := Ok(Block(arguments, options, lines));
  }
}
