/** The `htmlTranslator` class: its two fields, standard output as a sequence of
    lines, and its methods, each proved against the functions of module Semantics. */
module Translator {
  import opened Wrappers
  import opened Markup
  import opened Semantics
  import Properties

  /** The `BufferedReader` over an opened file: hands out its lines in order,
      then `None` (Java's `null`) for every call after the last. */
  class LineSource {
    const lines: seq<string>
    var pos: nat

    constructor (lines: seq<string>)
      ensures this.lines == lines && pos == 0
    {
      this.lines := lines;
      pos := 0;
    }

    method ReadLine() returns (line: Option<string>)
      modifies this`pos
      ensures old(pos) < |lines| ==> line == Some(lines[old(pos)]) && pos == old(pos) + 1
      ensures old(pos) >= |lines| ==> line == None && pos == old(pos)
    {
      if pos < |lines| {
        line := Some(lines[pos]);
        pos := pos + 1;
      } else {
        line := None;
      }
    }
  }

  class HtmlTranslator {
    var blockStatus: BlockStatus
    var tagList: seq<BlockKind>
    /** Standard output, one element per line written. */
    var out: seq<string>

    constructor ()
      ensures blockStatus == NoPart && tagList == [] && out == []
    {
      blockStatus := NoPart;
      tagList := [];
      out := [];
    }

    /** The two fields as a value of the reference semantics. */
    function State(): Machine
      reads this
    {
      Machine(blockStatus, tagList)
    }

    /** `translateTitleLine`: writes the head section with the title text. */
    method TranslateTitleLine(line: string)
      requires |line| >= |TitleMarker|
      modifies this`out
      ensures out == old(out) + RenderAll(TitleLines(line))
    {
      out := out + ["<head>", "<title>" + line[|TitleMarker|..] + "</title>", "</head>"];
    }

    /** `closeTextTags`: pops the whole stack, writing one close tag per entry. */
    method CloseTextTags()
      modifies this`tagList, this`out
      ensures tagList == [] && blockStatus == old(blockStatus)
      ensures out == old(out) + RenderAll(Closers(old(tagList)))
    {
      while tagList != []
        invariant out + RenderAll(Closers(tagList)) == old(out) + RenderAll(Closers(old(tagList)))
        decreases |tagList|
      {
        var top := tagList[|tagList| - 1];
        Properties.RenderAllAppend([Close(top)], Closers(tagList[..|tagList| - 1]));
        tagList := tagList[..|tagList| - 1];
        out := out + ["</" + TagName(top) + ">"];
      }
    }

    /** `translateBodyLine`. */
    method TranslateBodyLine(line: string)
      modifies this
      ensures State() == BodyLine(old(State()), line).machine
      ensures out == old(out) + RenderAll(BodyLine(old(State()), line).emitted)
    {
      if |line| > 0 {
        if blockStatus == NoPart {
          var toStart := Paragraph;
          blockStatus := InParagraph;
          if IsListItem(line) {
            toStart := UnorderedList;
            blockStatus := InUnorderedList;
          }
          out := out + ["<" + TagName(toStart) + ">"];
          tagList := tagList + [toStart];
        }
        out := out + [line];
      }
    }

    /** The first loop of `translateFile`: reads past the leading blank lines of a
        reader that has not yet been read from, and returns the line it stopped at. */
    static method SkipBlankLines(reader: LineSource) returns (inputLine: Option<string>)
      requires reader.pos == 0
      modifies reader`pos
      ensures var i := FirstContent(reader.lines);
              inputLine == (if i < |reader.lines| then Some(reader.lines[i]) else None) &&
              reader.pos == (if i < |reader.lines| then i + 1 else |reader.lines|)
    {
      ghost var lines := reader.lines;
      inputLine := reader.ReadLine();
      ghost var cur := 0;   // the index of `inputLine`
      while inputLine.Some? && |inputLine.value| == 0
        invariant cur <= |lines|
        invariant inputLine == (if cur < |lines| then Some(lines[cur]) else None)
        invariant reader.pos == (if cur < |lines| then cur + 1 else |lines|)
        invariant forall j :: 0 <= j < cur ==> |lines[j]| == 0
        decreases |lines| - cur
      {
        inputLine := reader.ReadLine();
        cur := cur + 1;
      }
      assert cur == FirstContent(lines);
    }

    /** The title step of `translateFile`: given the first non-empty line, just
        read, writes the head section if it is a title line and reads on; returns
        the line the body loop starts at and, as a ghost, its index. */
    method TranslateHead(reader: LineSource, inputLine: string) returns (next: Option<string>, ghost start: nat)
      requires FirstContent(reader.lines) < |reader.lines|
      requires inputLine == reader.lines[FirstContent(reader.lines)]
      requires reader.pos == FirstContent(reader.lines) + 1
      modifies this`out, reader`pos
      ensures start == BodyStart(reader.lines) && start <= |reader.lines|
      ensures next == (if start < |reader.lines| then Some(reader.lines[start]) else None)
      ensures reader.pos == (if start < |reader.lines| then start + 1 else |reader.lines|)
      ensures out == old(out) + RenderAll(Head(reader.lines))
    {
      start := FirstContent(reader.lines);
      if IsTitleLine(inputLine) {
        TranslateTitleLine(inputLine);
        next := reader.ReadLine();
        start := start + 1;
      } else {
        next := Some(inputLine);
        assert out == old(out) + RenderAll([]);
      }
    }

    /** The body of the second loop of `translateFile`: a blank line closes the
        open block, if any; any other line goes to `translateBodyLine`. */
    method TranslateLoopLine(line: string)
      modifies this
      ensures State() == LoopLine(old(State()), line).machine
      ensures out == old(out) + RenderAll(LoopLine(old(State()), line).emitted)
    {
      if |line| == 0 {
        if blockStatus != NoPart {
          CloseTextTags();
          blockStatus := NoPart;
        }
      } else {
        TranslateBodyLine(line);
      }
    }

    /** One pass of the second loop of `translateFile`, on the line of index
        `cur`, keeping the output equal to the rendering of the body loop so far. */
    method TranslateNextLine(line: string, ghost m0: Machine, ghost lines: seq<string>,
                             ghost start: nat, ghost cur: nat, ghost prefix: seq<string>,
                             ghost done: Step) returns (ghost next: Step)
      requires start <= cur < |lines| && line == lines[cur]
      requires done == RunBody(m0, lines[start..cur])
      requires State() == done.machine && out == prefix + RenderAll(done.emitted)
      modifies this
      ensures next == RunBody(m0, lines[start..cur + 1])
      ensures State() == next.machine && out == prefix + RenderAll(next.emitted)
    {
      var step := LoopLine(done.machine, line);
      TranslateLoopLine(line);
      Properties.RunBodyNext(m0, lines, start, cur);
      Properties.RenderMore(prefix, done.emitted, step.emitted);
      next := Step(step.machine, done.emitted + step.emitted);
    }

    /** The second loop of `translateFile`: runs the block state machine over
        `inputLine`, the line of index `start`, and every line after it. */
    method TranslateBody(reader: LineSource, inputLine: Option<string>, ghost start: nat)
      requires start <= |reader.lines|
      requires inputLine == (if start < |reader.lines| then Some(reader.lines[start]) else None)
      requires reader.pos == (if start < |reader.lines| then start + 1 else |reader.lines|)
      modifies this, reader`pos
      ensures State() == RunBody(old(State()), reader.lines[start..]).machine
      ensures out == old(out) + RenderAll(RunBody(old(State()), reader.lines[start..]).emitted)
    {
      ghost var lines := reader.lines;
      ghost var m0 := State();
      ghost var prefix := out;
      var inputLine := inputLine;
      ghost var cur := start;   // the index of `inputLine`
      // `done` is the body loop so far, over `lines[start..cur]`.
      ghost var done := Step(m0, []);
      assert lines[start..cur] == [];
      while inputLine.Some?
        invariant start <= cur <= |lines|
        invariant inputLine == (if cur < |lines| then Some(lines[cur]) else None)
        invariant reader.pos == (if cur < |lines| then cur + 1 else |lines|)
        invariant done == RunBody(m0, lines[start..cur])
        invariant State() == done.machine
        invariant out == prefix + RenderAll(done.emitted)
        decreases |lines| - cur
      {
        done := TranslateNextLine(inputLine.value, m0, lines, start, cur, prefix, done);
        inputLine := reader.ReadLine();
        cur := cur + 1;
      }
      assert lines[start..cur] == lines[start..];
    }

    /** What `translateFile` does once it has found the first non-empty line:
        the title step, `<body>`, the body loop, the final `closeTextTags` and the
        closing lines. */
    method TranslateContent(reader: LineSource, inputLine: string)
      requires FirstContent(reader.lines) < |reader.lines|
      requires inputLine == reader.lines[FirstContent(reader.lines)]
      requires reader.pos == FirstContent(reader.lines) + 1
      modifies this, reader`pos
      ensures var body := RunBody(old(State()), reader.lines[BodyStart(reader.lines)..]);
              State() == Machine(body.machine.status, []) &&
              out == old(out) + RenderAll(Head(reader.lines)) + ["<body>"] + RenderAll(body.emitted)
                     + RenderAll(Closers(body.machine.tags)) + ["</body>", "</html>"]
    {
      var next;
      ghost var start;
      next, start := TranslateHead(reader, inputLine);
      out := out + ["<body>"];
      TranslateBody(reader, next, start);
      CloseTextTags();
      out := out + ["</body>", "</html>"];
    }

    /** `translateFile`, on a file whose lines are `file`, or that cannot be
        opened (`None`). */
    method TranslateFile(file: Option<seq<string>>) returns (outcome: Outcome)
      modifies this
      ensures State() == Translate(old(State()), file).machine
      ensures out == old(out) + RenderAll(Translate(old(State()), file).emitted)
      ensures outcome == Translate(old(State()), file).outcome
    {
      if file.None? {
        return Failed(OpenFailed);
      }
      var reader := new LineSource(file.value);
      ghost var lines := file.value;
      ghost var m0 := State();
      ghost var out0 := out;
      out := out + ["<html>"];

      var inputLine := SkipBlankLines(reader);
      if inputLine.None? {
        return Failed(NoContentLine);
      }
      TranslateContent(reader, inputLine.value);
      ghost var body := RunBody(m0, lines[BodyStart(lines)..]);
      Properties.TranslateDocument(m0, lines);
      Properties.DocumentRendered(Head(lines), body.emitted, Closers(body.machine.tags), out0);
      outcome := Completed;
    }
  }
}
