# htmlTranslator in Dafny

A model of `htmlTranslator`, the Java class that turns a document in a small
content-management notation into HTML. A document is an optional title line
(`title: ` followed by the title text), then a body of blocks separated by
blank lines. A block whose first line starts with `-` is an unordered list
(`<ul>`); any other block is a paragraph (`<p>`). Every body line is copied to
the output verbatim. The translator keeps two fields: the block status
(`NoPart`, `InParagraph`, `InUnorderedList`) and a stack of the open block
tags. `closeTextTags` empties the stack and writes one close tag per entry.

The project has five modules:

- `Wrappers` (`wrappers.dfy`): `Option`, which stands for Java's nullable
  references (the `null` that `readLine` returns at end of file).
- `Markup` (`markup.dfy`): the two markers, the block kinds and states, the
  classifiers `IsTitleLine` and `IsListItem`, and the title text. It also has
  `Emit`, an output line tagged with its role (skeleton, title, open tag,
  close tag, copied body line), and `Render`/`RenderAll`, which give the text
  each line has on standard output.
- `Semantics` (`semantics.dfy`): the behaviour as functions on values.
  `BodyLine` is `translateBodyLine`. `LoopLine` is one pass of the body loop.
  `RunBody` is the body loop as a fold over the lines. `FirstContent` is the
  leading-blank-line loop. `Translate` is a whole `translateFile` call, from a
  given state, on a file that is either a sequence of lines or `None` (could
  not be opened). The module also defines the predicates the properties use:
  `Balanced` (tags open and close in matching pairs), `Texts`/`NonBlank` (the
  copied lines) and `OpensClassified` (each open tag fits its line).
- `Translator` (`translator.dfy`): the class itself. `HtmlTranslator` has the
  fields `blockStatus` and `tagList`, plus `out`, which stands for standard
  output as a sequence of lines. `LineSource` stands for the `BufferedReader`
  over the opened file. Each method has the Java method's loops and branches.
  Each is proved against the `Semantics` functions: its new state is the
  function's state, and `out` grows by the rendering of what the function
  emits.
- `Properties` (`properties.dfy`) and `Scenarios` (`scenarios.dfy`): what the
  translator promises, proved about the `Semantics` functions. This covers the
  classifiers, tag balance, copying every non-empty body line once and in
  order, leading blank lines, the document frame, and when a translation
  completes. `Scenarios` works through documents of given shapes.

### Where the code and its intended design differ

The model follows the code in each case:

- **A file with no non-empty line.** The intended design gives such a file
  an empty but well-formed document. In the code, the leading-blank loop stops
  with `inputLine == null`. `isTitleLine(null)` then throws
  (`htmlTranslator.java:118-128`). The exception is caught at line 165, so
  only `<html>` is written, followed by the exception's message.
  `Translate` returns `Failed(NoContentLine)` with `<html>` as the only
  emitted line (`Properties.TranslateCompletesIff`, `Scenarios.EmptyFile`).
- **State after a translation.** By design a translation leaves the
  status at `NoPart`. The final `closeTextTags` (line 160) empties the
  stack but does not reset `blockStatus`. `translateFile` also does not reset
  its fields on entry. So when the first translation ends inside a block and
  the second file's first body line is non-empty, a second `translateFile` on
  the same object copies that line without opening a block for it
  (`Properties.StaleBlockCopiesFirst`, `Scenarios.ReuseOmitsOpenTag`). A first
  file that ends with a blank line leaves `NoPart`, and a second body that
  starts with a blank line resets the status (lines 147-149), so neither shows
  the effect. In the model the stack is always empty after a completed
  translation, so tag balance still holds for any later call
  (`Properties.TranslateBalanced` only needs an empty stack).

## Model

| member | source | states |
|---|---|---|
| Markup.RenderAll | htmlTranslator.java:46-164 | one output line per emitted line, in order, each the text of its role (title lines as `<title>`…`</title>`, tags as `<p>`/`<ul>` and their closers) |
| Semantics.Closers | htmlTranslator.java:53-57 | one close tag per stack entry, and the i-th written is the entry i places from the top (pop order) |
| Semantics.FirstContent | htmlTranslator.java:118-121 | the index the leading-blank loop stops at: every earlier line is empty, and the line there, if any, is non-empty |
| Translator.LineSource.constructor | htmlTranslator.java:110 | a reader over the file's lines, positioned before the first line |
| Translator.LineSource.ReadLine | htmlTranslator.java:118 | returns the next line and advances, or returns `None` (null) once every line has been read |
| Translator.HtmlTranslator.constructor | htmlTranslator.java:18-19 | a new translator is in `NoPart` with an empty stack, and nothing has been written |
| Translator.HtmlTranslator.TranslateTitleLine | htmlTranslator.java:45-49 | writes `<head>`, `<title>` + the text after the marker + `</title>`, `</head>` |
| Translator.HtmlTranslator.CloseTextTags | htmlTranslator.java:53-57 | empties the stack, leaves the status unchanged, and writes exactly the close tags of the old stack, top first |
| Translator.HtmlTranslator.TranslateBodyLine | htmlTranslator.java:78-100 | the new fields and the written lines are those of `BodyLine`: an empty line changes nothing; from `NoPart` the line opens a list or paragraph by its first character and is copied; inside a block it is only copied |
| Translator.HtmlTranslator.SkipBlankLines | htmlTranslator.java:116-121 | stops at the first non-empty line (`FirstContent`) with the reader just past it, or returns `None` with the reader exhausted |
| Translator.HtmlTranslator.TranslateHead | htmlTranslator.java:128-131 | writes the head section exactly when the first non-empty line is a title line, and returns the line the body starts at (`BodyStart`) |
| Translator.HtmlTranslator.TranslateLoopLine | htmlTranslator.java:146-153 | the new fields and the written lines are those of `LoopLine`: a blank line inside a block closes it and returns to `NoPart`, a blank line in `NoPart` does nothing, any other line is a body line |
| Translator.HtmlTranslator.TranslateNextLine | htmlTranslator.java:141-156 | after one more pass, the fields and output equal the body loop run over one more line |
| Translator.HtmlTranslator.TranslateBody | htmlTranslator.java:141-156 | after the body loop, the fields are `RunBody`'s state over the remaining lines, and it has written what `RunBody` emits |
| Translator.HtmlTranslator.TranslateContent | htmlTranslator.java:128-164 | after the first non-empty line: writes the head section, `<body>`, the body, the close tags of the open block, then `</body>`, `</html>`; leaves the stack empty and the status as the body left it |
| Translator.HtmlTranslator.TranslateFile | htmlTranslator.java:105-176 | the new fields, the written lines and the outcome are those of `Translate`: nothing written if the file cannot be opened, only `<html>` if no line is non-empty, otherwise the whole document |
| Properties.DocumentRendered | htmlTranslator.java:114-164 | the output lines of a document are those pieces written one after another |
| Properties.TitleLineIff | htmlTranslator.java:25-36 | a line is a title line if and only if it is the marker `title: ` followed by some text |
| Properties.TitleVerbatim | htmlTranslator.java:45-49 | the title text of `title: ` + t is exactly t, written as `<title>t</title>` between `<head>` and `</head>` |
| Properties.TitleBoundaries | htmlTranslator.java:31 | `title: ` alone is a title line with empty text; `title:`, `Title: Hi` and the empty line are not title lines |
| Properties.ListItemIff | htmlTranslator.java:61-72 | a non-empty line is a list item if and only if its first character is `-` |
| Properties.OpenFromNoPart | htmlTranslator.java:81-98 | outside a block, a non-empty line pushes one tag and enters the list state if and only if it starts with `-` (paragraph state otherwise); it writes the open tag, then the line |
| Properties.InBlockCopiesOnly | htmlTranslator.java:79-98 | inside a block, a non-empty line leaves the fields unchanged and writes only itself, even when it starts with `-` |
| Properties.EmptyBodyLineIgnored | htmlTranslator.java:79 | `translateBodyLine` on an empty line changes nothing and writes nothing |
| Properties.BlankInNoPart | htmlTranslator.java:146-150 | a blank line outside any block changes nothing and writes no tag (the flush is idempotent) |
| Properties.BlankClosesBlock | htmlTranslator.java:146-150 | a blank line inside a block writes exactly that block's close tag and returns to the initial state |
| Properties.LoopLineConsistent | htmlTranslator.java:141-156 | one loop pass keeps the invariant: the stack holds at most one entry, of the kind the status names, and is empty exactly in `NoPart` |
| Properties.RunBodyConsistent | htmlTranslator.java:141-156 | the whole body loop keeps that invariant |
| Properties.StaleBlockCopiesFirst | htmlTranslator.java:141-156 | a body loop started in a block status with an empty stack writes its non-empty first line first, with no open tag before it |
| Properties.BlankRunCollapses | htmlTranslator.java:142-150 | from any coherent state, a reused translator's stale block status included, a run of blank lines writes the close tags of the stack once and leaves the initial state |
| Properties.LoopLineScan | htmlTranslator.java:146-153 | one loop pass writes only tags that take the block open before it to the block open after it |
| Properties.RunBodyScan | htmlTranslator.java:141-156 | the body loop's tags never nest blocks and never close a block that is not open; they end with the loop's open block |
| Properties.TranslateBalanced | htmlTranslator.java:105-176 | from an empty stack, every translation writes its open tags and close tags in matching pairs, never nested, and leaves the stack empty |
| Properties.LoopLineKeepsText | htmlTranslator.java:146-153 | one loop pass copies its line exactly when the line is non-empty |
| Properties.RunBodyKeepsText | htmlTranslator.java:141-156 | the body loop copies exactly the non-empty lines, in order, each once |
| Properties.TranslateTexts | htmlTranslator.java:114-164 | a completed document copies exactly the lines its body loop copies: the head, skeleton and close tags copy none |
| Properties.TranslateKeepsText | htmlTranslator.java:105-176 | a completed translation copies exactly the non-empty lines after the title line, in order, each once |
| Properties.LoopLineOpensClassified | htmlTranslator.java:81-98 | every open tag one loop pass writes is followed by its line, and it is `<ul>` if and only if that line starts with `-` |
| Properties.RunBodyOpensClassified | htmlTranslator.java:141-156 | the same holds for every open tag of the body loop |
| Properties.TranslateOpensClassified | htmlTranslator.java:105-176 | the same holds for every open tag of any translation |
| Properties.TranslateCompletesIff | htmlTranslator.java:118-136 | an opened file's translation completes if and only if some line is non-empty; otherwise it writes only `<html>` and fails |
| Properties.OpenFailureWritesNothing | htmlTranslator.java:109-110 | a file that cannot be opened writes no document line and leaves the fields unchanged |
| Properties.TranslateFrame | htmlTranslator.java:114-164 | a completed translation writes `<html>` first and `</body>`, `</html>` last, and leaves the stack empty |
| Properties.TranslateHead | htmlTranslator.java:128-136 | after `<html>` comes the title's head section when the first non-empty line is a title line, and `<body>` directly otherwise |
| Properties.LeadingBlanksIgnored | htmlTranslator.java:116-121 | blank lines before the first non-empty line do not change the translation |
| Scenarios.TitledParagraph | htmlTranslator.java:105-176 | title line, blank line, two body lines: head section with the title, one paragraph holding both lines, closed before `</body>` |
| Scenarios.TwoItemList | htmlTranslator.java:105-176 | two lines starting with `-`: no head section, one `<ul>` holding both |
| Scenarios.EmptyFile | htmlTranslator.java:114-128 | a file with no lines: only `<html>` is written and the translation fails |
| Scenarios.TwoParagraphs | htmlTranslator.java:141-160 | two lines separated by a blank line give two separate paragraphs |
| Scenarios.ReuseOmitsOpenTag | htmlTranslator.java:141-160 | a one-paragraph translation leaves `InParagraph`; a second translation from there copies its first body line with no `<p>` |

## Left out

- Opening the file (`new FileReader`, line 110) is a parameter: the file is
  its lines, or `None` when it cannot be opened. Lines hold no line
  terminators. A read that fails partway through a file is not modelled.
- Closing the reader in the `finally` block (lines 167-175) is not modelled.
  It writes nothing on success. When the file could not be opened,
  `userfile.close()` on `null` writes a second exception message.
- Exception message texts (lines 166 and 173) are not modelled. The run's
  `Outcome` names the failure instead.
- Standard output is a sequence of lines. `print("<head>\n<title>")` and
  `println("</body>\n</html>")` each become two lines. The title line's three
  `print` calls become one line.
- The integer codes (`PARAGRAPH`, `NoPart`, …) are datatype constructors.
  `Map.of` is the total function `TagName`. `Stack<Integer>` is a sequence
  with the top last.
- `IsListItem` requires a non-empty line. Java's `substring(0, 1)` would throw
  on an empty line, and the only caller (line 86) never passes one.
- `Properties.TranslateBalanced` requires an empty stack at the start. Every
  state the model can reach before a `translateFile` call has one. In Java a
  read that throws at line 155 inside a block skips line 160 and leaves an
  entry on `tagList`; such read failures are not modelled (see the first line
  of this section).
