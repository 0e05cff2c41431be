# rst_formatter in Dafny

This project models the reStructuredText re-formatter `rst_formatter`. The formatter
parses an rst text with docutils. It then walks the document tree with a visitor,
`RstTranslator`, and writes the text back:

- prose is re-wrapped to a maximum line length;
- titles are underlined (and overlined) by section depth;
- bullet lists and directives are re-indented;
- directive options are sorted.

A few text passes run around the parse and the walk:

- before parsing, heading lines are normalised to four characters;
- a blank line is inserted before a bullet list that follows a `:` line, and removed again after rendering;
- a blank line is inserted before a directive that follows a non-empty line;
- at the end, leading and trailing newlines are trimmed.

Two versions are modelled:

- the current one, `src/rst_formatter.py`;
- the earlier prototype, the root `rst_formatter.py`.

## Layout of the model

The renderer is stateful in the source, so each translator is a class, and each class sits
on top of pure specification functions:

- `Layout` holds the renderer state `St` and the output primitives both versions share:
  - word wrapping;
  - `append`;
  - the hold-space push and pop;
  - the deferred blank line.
- `RenderSpec` and `PrototypeSpec` give one function per `visit_`/`depart_` rule, plus the
  dispatch over node kinds and the depth-first walk.
- `Render.Translator` and `Prototype.Translator` are the classes. Each method is proved to
  report the same exception as its specification function and, when it returns, to leave
  exactly the state that function computes.
- `RenderLaws` and `PrototypeLaws` prove what the renderers guarantee:
  - every node restores the stacks and counters it found;
  - prose keeps its words;
  - the exact lines a title and a directive produce;
  - when a directive fails;
  - where the two versions agree and where they differ.
- `DirectiveBlock` models `forgiving_parse_directive_block`. `OptionOrder` models the sorted
  option order.
- `Normalize` models the text passes and `format_rst`.
- Docutils is a parameter. `format_rst` takes the parser as a function from text to document
  tree (`DocTree.Node`), and the model starts from that tree.

Exceptions are values of `Results.Error`, one constructor per exception the source raises.
Operations that can raise return `Result<T>`, and methods report an `Outcome`.

## Model

| member | source | states |
|---|---|---|
| Strings.Repeat | src/rst_formatter.py:227-229 | `c * n` has `max(n, 0)` characters, all equal to `c` (negative counts give the empty string, as in Python) |
| Strings.SplitTextLaw | src/rst_formatter.py:240-242 | the pieces of `re.split(r"[ \n]+", text)` joined by single spaces are the text with every run of spaces and newlines squeezed to one space; no piece holds a space or newline; only the first and last piece can be empty |
| Strings.SplitWhitespace | src/rst_formatter.py:346 | `str.strip().split()` yields only non-empty pieces free of Python whitespace |
| Strings.SplitWhitespaceRuns | src/rst_formatter.py:346 | `split()` cuts exactly at the whitespace runs: its pieces joined by single spaces are the line with every whitespace run squeezed to one space and both ends stripped |
| Strings.SplitWhitespaceKeeps | src/rst_formatter.py:346 | together the pieces of `split()` hold exactly the non-whitespace characters of the line, in order |
| Strings.SplitLines | src/rst_formatter.py:404-407 | splitting at newlines yields at least one line |
| Strings.SplitLinesNoNewline | src/rst_formatter.py:404-407 | no line of a text split at newlines contains a newline |
| Strings.JoinSplitLines | src/rst_formatter.py:404-407 | splitting a text at newlines and joining the lines with newlines gives the text back |
| Strings.SplitJoinLines | src/rst_formatter.py:404-407 | joining newline-free lines with newlines and splitting again gives the same lines back |
| Strings.SplitLinesAppend | src/rst_formatter.py:404-407 | appending newline-free text to a text extends its last line and keeps the others |
| Strings.SplitLinesNewline | src/rst_formatter.py:404-407 | appending a newline to a text keeps its lines and starts an empty last line |
| Layout.Indent | src/rst_formatter.py:153-156 | `self.indent * self.indent_level` is two spaces per level, and empty for a level of zero or below |
| Layout.WrapWord | src/rst_formatter.py:148-161 | placing one word moves only the output and the cursor; the output only grows; a non-empty word ends within the maximum line length unless it sits alone on its line after the indentation; an empty word is skipped |
| Layout.WrapWords | src/rst_formatter.py:147-161 | wrapping a word list changes only the output and cursor, and the output only grows |
| Layout.Emit | src/rst_formatter.py:165-170 | writing to the output changes only output and cursor, and a positive newline count leaves the cursor at column 0 |
| Layout.Append | src/rst_formatter.py:163-175 | with an empty hold space the words go to the output; inside a non-breakable element a newline count raises, and the words go to the innermost held list with nothing else changed |
| Layout.HoldRoundTrip | src/rst_formatter.py:177-183 | entering a non-breakable element, appending words and leaving it gives back the previous state and the words joined by single spaces |
| Layout.WrapWordTokens | src/rst_formatter.py:148-161 | placing a word adds exactly that word to the non-blank output fragments |
| Layout.WrapWordsTokens | src/rst_formatter.py:147-161 | word wrapping adds exactly the non-blank words, in order, to the non-blank output fragments: it inserts only whitespace |
| Layout.EmitTokens | src/rst_formatter.py:163-170 | `append` outside any non-breakable element adds exactly its non-blank words to the non-blank output fragments |
| Layout.WrapWordsCursor | src/rst_formatter.py:147-161 | wrapping newline-free words keeps `line_length` at least the length of the last output line |
| Layout.EmitCursor | src/rst_formatter.py:163-170 | the same for `append`, and after newlines the cursor is at column 0 |
| Layout.ColumnIsLastLine | src/rst_formatter.py:147-161 | the column the cursor tracks is the length of the last output line |
| Layout.WrapWordLines | src/rst_formatter.py:148-161 | placing one word without a newline completes at most the line the output ended in, keeps the earlier lines, and leaves the output in a line that fits or is the indentation and that word |
| Layout.WrapWordFits | src/rst_formatter.py:148-161 | after one word without a newline is placed, the line the output ends in fits within the maximum width or is the indentation and one of the words placed |
| Layout.WrapWordsLines | src/rst_formatter.py:147-161 | the same over a list of words without newlines: every line from the one the output ended in onwards fits or is the indentation and one placed word |
| Layout.WrapWordsWidth | src/rst_formatter.py:147-161 | for words without a newline: when the current line fits, every output line `_append_word_wrap` completes or leaves open is within `max_line_length`, except the indentation followed by one word too long to fit |
| Layout.WrapWordShift | src/rst_formatter.py:148-161 | one word's wrapping depends only on the cursor and the indentation: what was written before stays in front and the cursor ends in the same column |
| Layout.WrapWordsShift | src/rst_formatter.py:147-161 | the same for a word list |
| Layout.WrapWordsFromStart | src/rst_formatter.py:147-161 | from the start of a line, wrapping appends the same fragments (`Wrapped`) whatever was written before |
| OptionOrder.SortByKey | src/rst_formatter.py:289 | `sorted(node.options.items())` is ordered by key and is a permutation of the options |
| OptionOrder.InsertPermutes | src/rst_formatter.py:289 | one insertion step adds the option and keeps every other one |
| OptionOrder.InsertSorted | src/rst_formatter.py:289 | one insertion step keeps the options sorted |
| RenderSpec.TitleChars | src/rst_formatter.py:222-225 | `title_order[section_depth - 1]` succeeds exactly for the Python index range: depth `d` in `1..len` reads entry `d-1`, depth 0 and negative depths down to `1 - len` read from the end as Python's negative indices do, and a depth outside `1 - len..len` raises NotEnoughTitleChars |
| Render.Translator.constructor | src/rst_formatter.py:127-145 | a new translator has the configured settings and the initial state: empty output, stacks and counters, no pending blank line |
| Render.Translator.AppendWordWrap | src/rst_formatter.py:147-161 | the loop of `_append_word_wrap` leaves exactly the state of WrapWords |
| Render.Translator.AppendWord | src/rst_formatter.py:148-161 | one iteration of the loop, including the line break it may request, leaves exactly the state of WrapWord |
| Render.Translator.Append | src/rst_formatter.py:163-175 | `append` raises exactly when Layout.Append does, and otherwise leaves its state; after newlines the hold space is empty |
| Render.Translator.EnterNonbreakable | src/rst_formatter.py:177-179 | pushes an empty held list |
| Render.Translator.ExitNonbreakable | src/rst_formatter.py:181-183 | raises exactly on an empty hold space; otherwise returns the popped words joined by spaces and the state without them |
| Render.Translator.AppendPossibleNewline | src/rst_formatter.py:185-189 | emits the pending blank line and clears the request, as PossibleNewline says |
| Render.Translator.VisitSection | src/rst_formatter.py:210-211 | one section deeper, nothing else changed |
| Render.Translator.DepartSection | src/rst_formatter.py:213-214 | one section shallower, nothing else changed |
| Render.Translator.VisitTitle | src/rst_formatter.py:216-218 | flushes a pending blank line and enters a non-breakable element, as RenderSpec.Visit says for a title |
| Render.Translator.DepartTitle | src/rst_formatter.py:220-231 | agrees with RenderSpec.DepartTitle, whose output and errors RenderLaws.TitleLaw states |
| Render.Translator.VisitParagraph | src/rst_formatter.py:233-234 | flushes a pending blank line |
| Render.Translator.DepartParagraph | src/rst_formatter.py:236-238 | ends the line and requests a blank line before the next paragraph |
| Render.Translator.VisitText | src/rst_formatter.py:240-242 | appends the pieces of `re.split(r"[ \n]+", text)` |
| Render.Translator.VisitBulletList | src/rst_formatter.py:247-250 | a newline before a nested list or a pending blank line, then the bullet pushed |
| Render.Translator.DepartBulletList | src/rst_formatter.py:252-253 | pops the bullet, raising on an empty stack |
| Render.Translator.VisitListItem | src/rst_formatter.py:255-258 | writes the innermost bullet and indents one level, raising outside any bullet list |
| Render.Translator.DepartListItem | src/rst_formatter.py:260-261 | one indentation level less, nothing else changed |
| Render.Translator.VisitCitation | src/rst_formatter.py:263-265 | flushes a pending blank line and writes `..` |
| Render.Translator.DepartCitation | src/rst_formatter.py:267-268 | requests a blank line, nothing else changed |
| Render.Translator.DepartTarget | src/rst_formatter.py:195-208 | pops the held text; a hyperlink target is written on a line of its own followed by a blank line, a target with children in the running text, anything else not at all |
| Render.Translator.DepartLabel | src/rst_formatter.py:273-275 | writes the held label text in square brackets |
| Render.Translator.VisitDirective | src/rst_formatter.py:283-296 | agrees with RenderSpec.VisitDirective, whose behaviour RenderLaws.DirectiveIndentedFails, DirectiveHeadLines, DirectiveHeadLaw and DirectiveContentLaw state line by line |
| Render.Translator.VisitDirectiveHead | src/rst_formatter.py:284-290 | the directive visit up to the options, as RenderSpec.DirectiveHead; on success nothing is held |
| Render.Translator.OpenDirective | src/rst_formatter.py:285-288 | raises DirectiveWhileIndented off column 0, otherwise writes the directive line and indents one level |
| Render.Translator.AppendOptions | src/rst_formatter.py:289-290 | the options loop agrees with RenderSpec.EmitOptions, which from the start of a line writes one `:key: value` line per option in the given order (RenderLaws.EmitOptionsLines, OneOptionLine) |
| Render.Translator.AppendLines | src/rst_formatter.py:295-296 | the content loop writes one line per content line |
| Render.Translator.DepartDirective | src/rst_formatter.py:298-300 | one indentation level less, and a blank line requested |
| Render.Translator.UnknownVisit | src/rst_formatter.py:302-311 | the document and transitions are ignored, inline spans enter a non-breakable element, any other kind raises |
| Render.Translator.UnknownDeparture | src/rst_formatter.py:313-323 | an inline span is replaced by its source text; any other kind without a rule raises |
| Render.Translator.DispatchVisit | src/rst_formatter.py:191-323 | runs the visit rule of the node's kind; only a system message skips its children |
| Render.Translator.DispatchDeparture | src/rst_formatter.py:191-323 | runs the departure rule of the node's kind |
| Render.Translator.Walk | src/rst_formatter.py:112-323 | the depth-first walk: visit, children in order, departure; the first exception aborts it |
| Render.Translate | src/rst_formatter.py:334-338 | the writer's output is the concatenated fragments of walking the document from the initial state, or the exception the walk raised |
| RenderLaws.AppendSteady | src/rst_formatter.py:163-175 | a successful `append` changes no stack or counter, nor the blank-line request; it writes nothing while something is held |
| RenderLaws.PossibleNewlineSteady | src/rst_formatter.py:185-189 | flushing a pending blank line changes no stack or counter |
| RenderLaws.EmitOptionsMoves | src/rst_formatter.py:289-290 | the option lines move only the output and the cursor |
| RenderLaws.EmitLinesMoves | src/rst_formatter.py:295-296 | the content lines move only the output and the cursor |
| RenderLaws.DirectiveOpenSteady | src/rst_formatter.py:285-288 | the directive line changes no stack or counter other than one more indentation level |
| RenderLaws.DirectiveOpenLaw | src/rst_formatter.py:285-288 | at column 0 and outside any non-breakable element the directive line succeeds, writes the header and arguments and ends at column 0 one level deeper |
| RenderLaws.DirectiveSteady | src/rst_formatter.py:283-296 | a directive succeeds only outside every non-breakable element, and changes no stack or counter but the indentation |
| RenderLaws.VisitLaw | src/rst_formatter.py:191-323 | every successful visit pushes a held list for a non-breakable kind, a bullet for a list, a level for a list item or directive, a section depth for a section, and nothing else; it writes nothing while something is held |
| RenderLaws.TitleVisitLaw | src/rst_formatter.py:216-218 | the title visit has the effect VisitLaw states |
| RenderLaws.BulletListVisitLaw | src/rst_formatter.py:247-250 | the bullet-list visit has the effect VisitLaw states |
| RenderLaws.ListItemVisitLaw | src/rst_formatter.py:255-258 | the list-item visit has the effect VisitLaw states |
| RenderLaws.CitationVisitLaw | src/rst_formatter.py:263-265 | the citation visit changes no stack or counter |
| RenderLaws.ExitThenSteady | src/rst_formatter.py:181-183 | popping a held list and then only writing text undoes the visit of a non-breakable kind |
| RenderLaws.DepartTargetSteady | src/rst_formatter.py:195-208 | after the pop, depart_target changes no stack or counter |
| RenderLaws.DepartHoldLaw | src/rst_formatter.py:195-231 | departing a non-breakable kind pops exactly the list its visit pushed |
| RenderLaws.DepartLaw | src/rst_formatter.py:191-323 | every successful departure reverses exactly what the visit of the same kind did to the stacks and counters |
| RenderLaws.TitleSteady | src/rst_formatter.py:220-231 | depart_title needs a held title and, after the pop, changes no stack or counter |
| RenderLaws.WalkNodeBalanced | src/rst_formatter.py:112-323 | rendering any node that succeeds leaves the bullet stack, indentation and section depth as they were and the hold stack at the same height with its outer lists unchanged (the innermost held list may grow), and the output only grows |
| RenderLaws.WalkChildrenBalanced | src/rst_formatter.py:112-323 | the same for a sequence of sibling nodes |
| RenderLaws.HeldChildren | src/rst_formatter.py:177-183 | inside a non-breakable element the children leave the output, cursor, stacks and counters as the element found them, holding one list |
| RenderLaws.InlineSpanLaw | src/rst_formatter.py:302-323 | a generic non-breakable span writes its stored `rawsource` as one word and none of the text its children held |
| RenderLaws.LabelLaw | src/rst_formatter.py:270-275 | a label writes the text its children held, joined by spaces, between `[` and `]` |
| RenderLaws.TargetLaw | src/rst_formatter.py:191-208 | a target writes its stored `rawsource` and none of its held text: a hyperlink target on its own line after any pending blank line and with a blank line requested, an inline target in the running text, any other target nothing |
| RenderLaws.EmitLine | src/rst_formatter.py:163-170 | a word appended with one newline at column 0 becomes one indented line, preceded by a line break when it exceeds the maximum |
| RenderLaws.EmitLinesLaw | src/rst_formatter.py:295-296 | content lines written at column 0 each become a line of their own at the current indentation |
| RenderLaws.TitleLaw | src/rst_formatter.py:220-231 | the exact lines of a title: an overline for a two-character entry, the text, an underline, each as long as the text; it fails exactly when the depth has no entry (NotEnoughTitleChars) or the entry is empty (EmptyTitleChars); a blank line is requested up to `newline_after_title` |
| RenderLaws.EmitOptionsLaw | src/rst_formatter.py:289-290 | the option lines add exactly the `:key:` and value words in order, and end at column 0 |
| RenderLaws.EmitOptionLine | src/rst_formatter.py:290 | one option appended with one newline at column 0 writes exactly its `OptionLine`: the `:key:` marker after the indentation, the value after a space (directly after the marker for a `,`/`.` value, on a line of its own when it does not fit, nothing when empty), then the end of the line |
| RenderLaws.EmitOptionsLines | src/rst_formatter.py:289-290 | options written at column 0 each become a line of their own, in the given order: the output grows by exactly the options' `OptionLine`s and nothing else changes |
| RenderLaws.OneOptionLine | src/rst_formatter.py:290 | an option that fits, with a value not starting with `,` or `.`, is the single text line `:key: value` after the indentation |
| RenderLaws.DirectiveOpenLines | src/rst_formatter.py:287-288 | the directive line at column 0: the header and the arguments wrapped from the start of the line, a newline, and one more level of indentation |
| RenderLaws.FlushAtStart | src/rst_formatter.py:185-189 | at the start of a line, `append_possible_newline` writes exactly the pending newline, if any, and clears the request |
| RenderLaws.DirectiveHeadLines | src/rst_formatter.py:284-290 | the exact output up to the options: the pending blank line if any, the directive line, then one line per option sorted by key, one level deeper |
| RenderLaws.DirectiveIndentedFails | src/rst_formatter.py:283-287 | outside non-breakable elements a directive raises "Directive found while indented" exactly when the cursor is off column 0 and no pending blank line moves it there |
| RenderLaws.DirectiveHeadLaw | src/rst_formatter.py:284-290 | otherwise the exact lines of DirectiveHeadLines, which keep all the words of the header, the arguments and the sorted options in that order, ending at column 0 one level deeper with no blank line pending |
| RenderLaws.DirectiveContentLaw | src/rst_formatter.py:292-296 | after the options come a blank line exactly when there are both options and content, then each content line on its own line one level deeper |
| RenderLaws.ProseVisit | src/rst_formatter.py:210-242 | visiting a section, paragraph or text outside non-breakable elements succeeds and adds exactly the text's own words |
| RenderLaws.ProseDepart | src/rst_formatter.py:210-245 | departing a section, paragraph or text adds no word |
| RenderLaws.ProseKeepsWords | src/rst_formatter.py:147-245 | rendering prose (sections, paragraphs, text) never fails and keeps every word of the text in order: wrapping, indentation and blank lines add only whitespace |
| RenderLaws.AllProseKeepWords | src/rst_formatter.py:147-245 | the same for a sequence of sibling prose nodes |
| DirectiveBlock.ColonAt | src/rst_formatter.py:352 | the position of the first colon of a line, or its length |
| DirectiveBlock.Blanks | src/rst_formatter.py:352 | the number of spaces a line starts with |
| DirectiveBlock.FieldMarker | src/rst_formatter.py:351-354 | a recognised marker has a valid field name, is a prefix of the line, takes all spaces after the closing colon, and without spaces is the whole line |
| DirectiveBlock.FieldMarkerComplete | src/rst_formatter.py:351-354 | every marker with a valid name is recognised on any line it starts, whatever follows its spaces |
| DirectiveBlock.AsWrittenKeyLaw | src/rst_formatter.py:355-357 | `key[1:-2]` equals the field name exactly when one space follows the marker; a flag option loses its last character and a wider gap keeps the colon and extra spaces |
| DirectiveBlock.FlagOptionLosesCharacter | src/rst_formatter.py:355-357 | the line `:hidden:` gives the key "hidde" as written and "hidden" with the corrected key |
| DirectiveBlock.Put | src/rst_formatter.py:357 | `options[key] = value`: the key maps to the new value and every other key keeps its value |
| DirectiveBlock.PutKeys | src/rst_formatter.py:357 | `options[key] = value` adds a new key at the end and leaves an existing key in its place |
| DirectiveBlock.PutDistinct | src/rst_formatter.py:357 | `options[key] = value` keeps the keys of the dict distinct |
| DirectiveBlock.ReadOptions | src/rst_formatter.py:351-358 | the option loop consumes no more lines than it is given and stops only at the end or at a line that is not a field marker (what it leaves: ReadOptionsRest; the values it stores: ReadOptionsValues) |
| DirectiveBlock.ReadOptionsDistinct | src/rst_formatter.py:349-358 | the dict the option loop fills keeps its keys distinct |
| DirectiveBlock.ReadOptionsRest | src/rst_formatter.py:350-358 | what the option loop leaves is the tail of the block after the lines it consumed |
| DirectiveBlock.ReadOptionsStops | src/rst_formatter.py:353-354 | a line that is not an option line ends the loop and stores nothing |
| DirectiveBlock.ReadOptionsFront | src/rst_formatter.py:351-358 | an option line is consumed: its key and value are assigned and the loop goes on with the next line |
| DirectiveBlock.ReadOptionsValues | src/rst_formatter.py:351-358 | after the loop each key holds the value of the last consumed line that assigns it, and a key no consumed line assigns keeps its earlier value |
| DirectiveBlock.ReadOptionsValuesStep | src/rst_formatter.py:351-358 | the induction step of ReadOptionsValues over one option line |
| DirectiveBlock.ReadOptionsRulesAgree | src/rst_formatter.py:355-357 | when exactly one space follows every field marker, `key[1:-2]` and the field name store the same options |
| DirectiveBlock.TrimTrailingBlank | src/rst_formatter.py:360-361 | removes exactly the trailing blank lines |
| DirectiveBlock.DropLeadingBlank | src/rst_formatter.py:363-364 | removes the first line exactly when it is blank |
| DirectiveBlock.ContentLaw | src/rst_formatter.py:360-364 | the content is the body without its trailing blank lines and at most one leading blank line, and does not end with a blank line |
| DirectiveBlock.OptionLinesLaw | src/rst_formatter.py:351-358 | on a whole block, the option lines are exactly the field-marker lines after the argument line |
| DirectiveBlock.SplitBlockLaw | src/rst_formatter.py:341-366 | the splitter raises exactly on an empty block; otherwise the arguments are the words of the first line, the option lines are the field-marker lines that follow it, each key holds the value of the last option line that assigns it and no other key is present, and the content is the rest trimmed of blank lines |
| DirectiveBlock.SplitBlockContent | src/rst_formatter.py:360-364 | the block's content is the lines after the options without their trailing blank lines and at most one leading blank line |
| DirectiveBlock.SplitBlockValues | src/rst_formatter.py:346-358 | the block's arguments are the words of its first line, and each option key holds the value of the last option line that assigns it |
| DirectiveBlock.ReadOptionsFromEmpty | src/rst_formatter.py:349-358 | reading into an empty dict, each key holds the value of the last consumed line for it and no other key is present |
| DirectiveBlock.OptionValuesLaw | src/rst_formatter.py:349-358 | on a whole block, each key holds the value of the last option line that assigns it, and a key no option line assigns is absent |
| DirectiveBlock.OptionLinesValues | src/rst_formatter.py:349-358 | the option loop run on the lines after the first stores, for each key, the value of the last option line that assigns it, and no other key |
| DirectiveBlock.OptionLineRoundTrip | src/rst_formatter.py:351-358 | the line `:key: value` (or `:key:` for an empty value) is read back as exactly the option (key, value) |
| DirectiveBlock.ForgivingParseDirectiveBlock | src/rst_formatter.py:341-366 | the method with its loops returns exactly SplitBlock of the block with the keys as written (`key[1:-2]`), so SplitBlockLaw gives its arguments, option values and content |
| Normalize.FixHeadingLine | src/rst_formatter.py:397-407 | a line of three or more heading characters becomes four copies of its last character; any other line is kept |
| Normalize.FixHeadingLineIdempotent | src/rst_formatter.py:397-407 | fixing a fixed line changes nothing |
| Normalize.FixHeadingsLines | src/rst_formatter.py:397-407 | the fixed text has the same lines, each heading line now exactly four copies of its last character and every other line unchanged |
| Normalize.FixHeadingsIdempotent | src/rst_formatter.py:397-407 | normalising heading lines a second time changes nothing |
| Normalize.BulletPrefixAppend | src/rst_formatter.py:416 | the bullet prefix of a text does not depend on what follows it |
| Normalize.BulletPrefixOpen | src/rst_formatter.py:416 | inserting the blank lines does not change the bullet prefix at the start of a text |
| Normalize.BulletListsRoundTrip | src/rst_formatter.py:415-416 | without `newline_bullet_list`, the pass after rendering removes exactly the blank lines the pass before parsing inserted |
| Normalize.RoundTripAtBullet | src/rst_formatter.py:415-416 | the round trip at a `:` line followed by a bullet item |
| Normalize.CloseAtBullet | src/rst_formatter.py:453-454 | the pass after rendering removes the blank line before a bullet prefix |
| Normalize.RoundTripElsewhere | src/rst_formatter.py:415-416 | the round trip where nothing was inserted |
| Normalize.NoCloseAfterKeptColon | src/rst_formatter.py:453-454 | where the first pass inserted nothing, the second finds nothing to remove |
| Normalize.ParagraphSplitAsWritten | src/rst_formatter.py:419 | as written (dots as wildcards), the pass turns "Go\nto it" into two paragraphs |
| Normalize.ParagraphKept | src/rst_formatter.py:419 | with literal dots the same text is left alone |
| Normalize.SeparateDirectivesUnchanged | src/rst_formatter.py:419 | with either reading of the dots, a text without a match is left alone |
| Normalize.SeparateDirectivesKeepsText | src/rst_formatter.py:419 | with either reading of the dots, the directive pass only inserts newlines: every other character stays, in order |
| Normalize.SeparateDirectivesInserts | src/rst_formatter.py:419 | with either reading of the dots, a `.. ` line right after a non-empty line gets a blank line before it |
| Normalize.OpenBulletListsKeepsText | src/rst_formatter.py:415-416 | the bullet-list pass before parsing only inserts newlines: every other character stays, in order |
| Normalize.OpenAtBullet | src/rst_formatter.py:415-416 | at a `:` line followed by a bullet item the pass before parsing inserts one blank line, and what follows still starts with the same bullet prefix |
| Normalize.LeadingNewlines | src/rst_formatter.py:455 | the number of leading newlines: all of them are newlines, and the character after them is not one |
| Normalize.StripTrailingNewlines | src/rst_formatter.py:455 | `rstrip("\n")` is a prefix that does not end with a newline, and everything it removed is newlines |
| Normalize.TrimNewlines | src/rst_formatter.py:455 | the trimmed text neither starts nor ends with a newline, and it is exactly what lies between the leading and trailing newlines |
| Normalize.TrimNewlinesIdempotent | src/rst_formatter.py:455 | trimming twice is trimming once |
| Normalize.FixHeadings | src/rst_formatter.py:397-407 | no contract of its own: the MULTILINE substitution applied line by line; FixHeadingsLines and FixHeadingsIdempotent state it |
| Normalize.OpenBulletLists | src/rst_formatter.py:416 | no contract of its own: the leftmost non-overlapping `:\n(\s*[-*] )` substitution; OpenAtBullet, OpenBulletListsKeepsText and BulletListsRoundTrip state it |
| Normalize.SeparateDirectives | src/rst_formatter.py:419 | no contract of its own: the `([^\n])(\n.. )` substitution, with wildcard dots as written or literal dots as intended; ParagraphSplitAsWritten, ParagraphKept, SeparateDirectivesUnchanged, SeparateDirectivesKeepsText and SeparateDirectivesInserts state it |
| Normalize.CloseBulletLists | src/rst_formatter.py:454 | no contract of its own: the `:\n\n(\s*[-*] )` substitution; CloseAtBullet, NoCloseAfterKeptColon and BulletListsRoundTrip state it |
| Normalize.FormatRst | src/rst_formatter.py:410-455 | no contract of its own: the passes, the render and the trimming in the source's order; FormatRstLaw states it |
| Normalize.FormatRstLaw | src/rst_formatter.py:410-455 | `format_rst`, with the directive pass as written, hands the parser the input with only newlines inserted before its heading lines are fixed; it fails exactly when rendering the parsed document fails, and its result neither starts nor ends with a newline |
| Prototype.Translator.constructor | rst_formatter.py:102-120 | a new prototype translator has the configured settings and the initial state |
| Prototype.Translator.VisitDirective | rst_formatter.py:222-233 | agrees with PrototypeSpec.VisitDirective, whose behaviour PrototypeLaws.DirectiveLaw and DirectiveLines state |
| Prototype.Translator.DepartDirective | rst_formatter.py:235-236 | one indentation level less; unlike the current version, no blank line is requested |
| Prototype.Translator.UnknownVisit | rst_formatter.py:238-246 | the document is ignored, a span of the delimiter table enters a non-breakable element, anything else is walked into unchanged |
| Prototype.Translator.UnknownDeparture | rst_formatter.py:248-258 | a span of the table is written as its held text between its delimiters, raising when nothing is held |
| Prototype.Translator.DispatchVisit | rst_formatter.py:162-246 | runs the prototype's visit rule of the node's kind; only a system message skips its children |
| Prototype.Translator.DispatchDeparture | rst_formatter.py:165-258 | runs the prototype's departure rule of the node's kind |
| Prototype.Translator.Walk | rst_formatter.py:90-258 | the prototype's depth-first walk; the first exception aborts it |
| Prototype.Translate | rst_formatter.py:266-269 | the prototype writer's output is the concatenated fragments of walking the document, or the exception the walk raised |
| PrototypeLaws.SharedWalkAgrees | rst_formatter.py:162-220 | on sections, paragraphs, text, bullet lists, list items, system messages and transitions, the prototype renders exactly as the current renderer from any state: same output, state and errors |
| PrototypeLaws.SharedChildrenAgree | rst_formatter.py:162-220 | the same for a sequence of sibling nodes |
| PrototypeLaws.ProseIsShared | rst_formatter.py:162-198 | prose is among the kinds both versions share |
| PrototypeLaws.AllProseIsShared | rst_formatter.py:162-198 | the same for a sequence of sibling nodes |
| PrototypeLaws.ProseKeepsWords | rst_formatter.py:122-198 | the prototype renders prose without failing and keeps every word in order |
| PrototypeLaws.DelimitedSpan | rst_formatter.py:94-100 | a span of the delimiter table collects its words while held and is written back as the words joined by single spaces between its delimiters |
| PrototypeLaws.StrongSpan | rst_formatter.py:95 | strong emphasis is written back as `**text**` |
| PrototypeLaws.ReferenceSpan | rst_formatter.py:98 | a reference is written back as `` `text`_ `` |
| PrototypeLaws.TargetSpan | rst_formatter.py:99 | an inline target is written back as ``_`text` `` |
| PrototypeLaws.UnknownWalkedThrough | rst_formatter.py:238-258 | a node kind without a rule in the prototype is walked through as if its children stood in its place; on a kind neither version has a rule for (`Other`) the current renderer raises |
| PrototypeLaws.DirectiveLaw | rst_formatter.py:222-233 | outside non-breakable elements the prototype's directive fails exactly when the cursor is off column 0 (a pending blank line is not flushed first); otherwise it writes the exact lines of DirectiveLines (the blank line after options or content included), keeps the header, sorted options and content words in order and ends at column 0 one level deeper |
| PrototypeLaws.DirectiveLines | rst_formatter.py:222-233 | the prototype's exact directive output at column 0: the directive line, one line per option sorted by key one level deeper, a blank line when there are options or content, then all content lines wrapped together as words one level deeper and one newline |
| PrototypeLaws.BlankLine | rst_formatter.py:229-230 | `append(newlines=1)` writes one newline and leaves the cursor at column 0 |
| PrototypeLaws.ContentWrapped | rst_formatter.py:232-233 | the prototype's content at column 0 is all its lines wrapped together as words, then one newline; no content writes nothing |
| PrototypeLaws.NoCloseAtKeptChar | rst_formatter.py:304 | where the text does not start with `:\n-` or `:\n\n-`, the first pass creates no `:\n\n-` at its start |
| PrototypeLaws.RoundTripAtColon | rst_formatter.py:303-304 | the round trip at a `:\n-` occurrence |
| PrototypeLaws.RoundTripAtOther | rst_formatter.py:303-304 | the round trip where the first character is copied |
| PrototypeLaws.BulletBlankRoundTrip | rst_formatter.py:303-304 | unless the text already contains `:\n\n-`, the pass after rendering (lines 336-337) removes exactly the blank lines the pass before parsing inserted |
| PrototypeLaws.BulletBlankLost | rst_formatter.py:336-337 | a blank line the author wrote between a `:` line and a list is removed all the same |
| PrototypeSpec.ReplaceAll | rst_formatter.py:304 | no contract of its own: `str.replace`, leftmost non-overlapping occurrences, also used at :337; RoundTripAtColon, RoundTripAtOther, BulletBlankRoundTrip and BulletBlankLost state it |
| PrototypeSpec.FormatRst | rst_formatter.py:298-338 | no contract of its own: the prototype's replace passes around the render and the trimming; FormatRstLaw states it |
| PrototypeLaws.FormatRstLaw | rst_formatter.py:298-338 | the prototype's `format_rst` fails exactly when rendering fails, and its result neither starts nor ends with a newline |

## Left out

- Docutils itself is not part of this model. This covers the parser, `RstParser`, the reader, `publish_doctree` and `publish_from_doctree`, the writer class and the directive-handler monkeypatch. `format_rst` takes the parser as a parameter `parse` from text to document tree.
- Layout.WrapWordsWidth, Layout.WrapWordsLines, Layout.WrapWordFits, Layout.WrapWordLines: the line-width laws cover only words without a newline. Inline source that spans lines (the `rawsource` of a target or a reference written across two lines, appended by `depart_target` and `unknown_departure`) is one word holding a newline. The line after that newline can exceed `max_line_length`, and the source's `line_length` then miscounts the column as well.
- The CLI (`main`), file I/O and `print` output are not modelled. This includes the prototype's printing of the doctree and of unknown nodes.
- `no_line_break_regexes` and the `NoLineBreakNode` factory are not modelled. Their result is the inline kind `NoLineBreak`.
- `print_node_tree` is not modelled, because it only prints.
- DirectiveBlock.FieldMarker: the docutils `field_marker` pattern is modelled on names without colons or backslashes that neither start nor end with a space. Escaped characters and inner colons in field names are not covered.
- Normalize.FixHeadings: the heading characters are a set, not a regular-expression character class. Characters the source leaves unescaped are not modelled: `]`, `\`, a newline in `title_order`, or an empty `title_order` that makes an invalid pattern.
- The prototype's `no_newline_bulletlist` is a class attribute that is always set, so its two replace passes always run.
- Both `NotImplementedError` (current) and `AssertionError` (prototype) for newlines inside a non-breakable element are the one error NewlineInHoldSpace. Under `python -O` the prototype's assertion would be skipped, and this is not modelled.
- Prototype.Translator.VisitDirective: the prototype's `assert self.line_length == 0` at the start of a directive (rst_formatter.py:223) raises `AssertionError`; the model reports it as DirectiveWhileIndented, the error the current version raises for the same condition. Under `python -O` this assertion would be skipped, and this is not modelled.
- `RuntimeError`, `IndexError` and `KeyError` are distinguished only by the `Error` constructor, not by the Python exception class.
- OptionOrder.SortByKey: `sorted(items)` compares (key, value) pairs. The model sorts by key, which gives the same order because the keys of a dict are distinct.
- Prototype.Translator: the prototype shares the current translator's fields and its common rules. In the model it holds a Render.Translator as `core` and delegates those rules to it.
- DirectiveBlock.ForgivingParseDirectiveBlock: the `parent_offset` it returns is not modelled. The `StringList` is modelled as a sequence of lines. The docutils parser calls the splitter through the monkeypatch, which is not part of this model; the directive placeholder in the document tree carries the arguments, options and content it produced.
- The prototype's identity `escape` method is not modelled, because nothing calls it.

## Findings

| source | as written | input that shows it | evidently intended | confidence | as-written member | corrected member |
|---|---|---|---|---|---|---|
| src/rst_formatter.py:357 | `options[key[1:-2]]` drops the first character and the last two characters of the matched marker, which is right only when exactly one space follows the closing colon | the flag option line `:hidden:` (the marker matches up to the end of the line) gives the key `hidde`; `:width:  10` gives the key `width:` | the key is the field name between the colons | not executed | DirectiveBlock.ForgivingParseDirectiveBlock, DirectiveBlock.AsWrittenKeyLaw, DirectiveBlock.FlagOptionLosesCharacter | DirectiveBlock.OptionLineRoundTrip, DirectiveBlock.ReadOptionsRulesAgree |
| src/rst_formatter.py:419 | `re.sub(r"([^\n])(\n.. )", ...)` leaves the dots unescaped, so any line whose third character is a space counts as a directive | the paragraph "Go\nto it" becomes "Go\n\nto it", two paragraphs | only a line that starts with `.. ` gets the blank line | not executed | Normalize.FormatRstLaw, Normalize.ParagraphSplitAsWritten | Normalize.ParagraphKept, Normalize.SeparateDirectivesInserts |
