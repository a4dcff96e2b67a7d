/** Small documents worked through the reference semantics: what `translateFile`
    writes for them, and what a second call on the same object writes. The lines
    are symbolic, so each lemma covers every document of its shape. */
module Scenarios {
  import opened Wrappers
  import opened Markup
  import opened Semantics
  import Properties

  /** A non-empty line that is neither a title line nor a list item. */
  predicate PlainLine(line: string)
  {
    |line| > 0 && !IsTitleLine(line) && line[0] != '-'
  }

  /** The body loop over two lines from a fresh state. */
  lemma RunBodyTwo(x: string, y: string)
    ensures RunBody(Fresh, [x, y]) == LoopLineAfter(LoopLine(Fresh, x), y)
  {
    assert [x, y][..1] == [x];
    assert [x][..0] == [];
    assert RunBody(Fresh, [x]) == LoopLineAfter(Step(Fresh, []), x);
  }

  /** Runs one more line after the step `s`. */
  function LoopLineAfter(s: Step, line: string): Step
  {
    var last := LoopLine(s.machine, line);
    Step(last.machine, s.emitted + last.emitted)
  }

  /** The body loop over three lines from a fresh state. */
  lemma RunBodyThree(x: string, y: string, z: string)
    ensures RunBody(Fresh, [x, y, z]) == LoopLineAfter(LoopLineAfter(LoopLine(Fresh, x), y), z)
  {
    assert [x, y, z][..2] == [x, y];
    RunBodyTwo(x, y);
  }

  /** A title, a blank line, then a two-line paragraph: the head section with the
      title, one paragraph holding both lines, closed before `</body>`. */
  lemma TitledParagraph(t: string, a: string, b: string)
    requires PlainLine(a) && |b| > 0
    ensures Translate(Fresh, Some([TitleMarker + t, "", a, b]))
         == Run(Document([Skeleton("<head>"), Title(t), Skeleton("</head>")],
                         [Open(Paragraph), Content(a), Content(b)], [Close(Paragraph)]),
                Machine(InParagraph, []), Completed)
  {
    var lines := [TitleMarker + t, "", a, b];
    Properties.TitleVerbatim(t);
    assert FirstContent(lines) == 0;
    assert lines[1..] == ["", a, b];
    RunBodyThree("", a, b);
    Properties.ListItemIff(a);
    Properties.TranslateDocument(Fresh, lines);
  }

  /** Two list items and nothing else: no head section, one list holding both. */
  lemma TwoItemList(a: string, b: string)
    requires |a| > 0 && a[0] == '-' && |b| > 0
    ensures Translate(Fresh, Some([a, b]))
         == Run(Document([], [Open(UnorderedList), Content(a), Content(b)], [Close(UnorderedList)]),
                Machine(InUnorderedList, []), Completed)
  {
    var lines := [a, b];
    assert !IsTitleLine(a) by {
      if |a| >= |TitleMarker| { assert a[..|TitleMarker|][0] == a[0] != TitleMarker[0]; }
    }
    assert FirstContent(lines) == 0;
    assert lines[0..] == lines;
    RunBodyTwo(a, b);
    Properties.ListItemIff(a);
    Properties.TranslateDocument(Fresh, lines);
  }

  /** A file with no lines at all: `<html>` is written and the title check fails
      on the missing line, so neither `<body>` nor `</html>` is written. */
  lemma EmptyFile(m: Machine)
    ensures Translate(m, Some([])) == Run([Skeleton("<html>")], m, Failed(NoContentLine))
  {
  }

  /** Two one-line paragraphs separated by a blank line: two separate paragraphs. */
  lemma TwoParagraphs(a: string, b: string)
    requires PlainLine(a) && PlainLine(b)
    ensures Translate(Fresh, Some([a, "", b]))
         == Run(Document([], [Open(Paragraph), Content(a), Close(Paragraph), Open(Paragraph), Content(b)],
                         [Close(Paragraph)]),
                Machine(InParagraph, []), Completed)
  {
    var lines := [a, "", b];
    assert FirstContent(lines) == 0;
    assert lines[0..] == lines;
    RunBodyThree(a, "", b);
    Properties.ListItemIff(a);
    Properties.ListItemIff(b);
    Properties.TranslateDocument(Fresh, lines);
  }

  /** `translateFile` does not reset `blockStatus` after its final flush, so a
      second call on the same object copies the first body line of the next file
      without opening a paragraph for it. */
  lemma ReuseOmitsOpenTag(a: string, b: string)
    requires PlainLine(a) && PlainLine(b)
    ensures Translate(Fresh, Some([a])).machine == Machine(InParagraph, [])
    ensures Translate(Machine(InParagraph, []), Some([b])).emitted == Document([], [Content(b)], [])
  {
    assert FirstContent([a]) == 0 && FirstContent([b]) == 0;
    assert [a][0..] == [a] && [b][0..] == [b];
    assert [a][..0] == [] && [b][..0] == [];
    Properties.ListItemIff(a);
    Properties.TranslateDocument(Fresh, [a]);
    Properties.TranslateDocument(Machine(InParagraph, []), [b]);
  }
}
