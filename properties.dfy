/** What the translator promises, proved about the reference semantics. */
module Properties {
  import opened Wrappers
  import opened Markup
  import opened Semantics

  /** Concatenation is associative. */
  lemma ConcatAssoc<T>(a: seq<T>, b: seq<T>, c: seq<T>)
    ensures a + b + c == a + (b + c)
  {
  }

  /** Rendering distributes over concatenation. */
  lemma RenderAllAppend(a: seq<Emit>, b: seq<Emit>)
    ensures RenderAll(a + b) == RenderAll(a) + RenderAll(b)
  {
    assert forall i :: 0 <= i < |a + b| ==> RenderAll(a + b)[i] == (RenderAll(a) + RenderAll(b))[i];
  }

  /** Writing the lines of `a`, then those of `b`, writes the lines of `a + b`. */
  lemma RenderMore(pre: seq<string>, a: seq<Emit>, b: seq<Emit>)
    ensures pre + RenderAll(a) + RenderAll(b) == pre + RenderAll(a + b)
  {
    RenderAllAppend(a, b);
    ConcatAssoc(pre, RenderAll(a), RenderAll(b));
  }

  /** The body loop over `lines[a..b + 1]` is the loop over `lines[a..b]` and one more line. */
  lemma RunBodyNext(m: Machine, lines: seq<string>, a: nat, b: nat)
    requires a <= b < |lines|
    ensures var before := RunBody(m, lines[a..b]);
            var last := LoopLine(before.machine, lines[b]);
            RunBody(m, lines[a..b + 1]) == Step(last.machine, before.emitted + last.emitted)
  {
    assert lines[a..b + 1][..b - a] == lines[a..b];
  }

  /** A completed translation is the document around the body loop over the
      lines after the title, and leaves the stack empty. */
  lemma TranslateDocument(m: Machine, lines: seq<string>)
    requires FirstContent(lines) < |lines|
    ensures var body := RunBody(m, lines[BodyStart(lines)..]);
            Translate(m, Some(lines))
              == Run(Document(Head(lines), body.emitted, Closers(body.machine.tags)),
                     Machine(body.machine.status, []), Completed)
  {
  }

  /** A document as it reaches standard output after the lines `pre` already there. */
  lemma DocumentRendered(head: seq<Emit>, body: seq<Emit>, closers: seq<Emit>, pre: seq<string>)
    ensures pre + RenderAll(Document(head, body, closers))
         == pre + ["<html>"] + RenderAll(head) + ["<body>"] + RenderAll(body)
            + RenderAll(closers) + ["</body>", "</html>"]
  {
    var h, o := [Skeleton("<html>")], [Skeleton("<body>")];
    var closing := [Skeleton("</body>"), Skeleton("</html>")];
    RenderAllAppend(h, head);
    RenderAllAppend(h + head, o);
    RenderAllAppend(h + head + o, body);
    RenderAllAppend(h + head + o + body, closers);
    RenderAllAppend(h + head + o + body + closers, closing);
    var rh, rt, ro, rb, rc := ["<html>"], RenderAll(head), ["<body>"], RenderAll(body), RenderAll(closers);
    var e := ["</body>", "</html>"];
    assert RenderAll(closing) == e;
    assert RenderAll(h) == rh && RenderAll(o) == ro;
    calc {
      pre + (rh + rt + ro + rb + rc + e);
      { ConcatAssoc(pre, rh + rt + ro + rb + rc, e); }
      pre + (rh + rt + ro + rb + rc) + e;
      { ConcatAssoc(pre, rh + rt + ro + rb, rc); }
      pre + (rh + rt + ro + rb) + rc + e;
      { ConcatAssoc(pre, rh + rt + ro, rb); }
      pre + (rh + rt + ro) + rb + rc + e;
      { ConcatAssoc(pre, rh + rt, ro); }
      pre + (rh + rt) + ro + rb + rc + e;
      { ConcatAssoc(pre, rh, rt); }
      pre + rh + rt + ro + rb + rc + e;
    }
  }

  // ---------------------------------------------------------------------------
  // Line classifiers and the title
  // ---------------------------------------------------------------------------

  /** A line is a title line exactly when it is the marker followed by some text. */
  lemma TitleLineIff(line: string)
    ensures IsTitleLine(line) <==> exists t :: line == TitleMarker + t
  {
    if IsTitleLine(line) {
      assert line == TitleMarker + TitleText(line);
    }
    forall t | line == TitleMarker + t
      ensures IsTitleLine(line)
    {
      assert line[..|TitleMarker|] == TitleMarker;
    }
  }

  /** The marker followed by any text is a title line whose title is that text,
      and the head section carries the text verbatim, without escaping. */
  lemma TitleVerbatim(t: string)
    ensures IsTitleLine(TitleMarker + t) && TitleText(TitleMarker + t) == t
    ensures RenderAll(TitleLines(TitleMarker + t)) == ["<head>", "<title>" + t + "</title>", "</head>"]
  {
    assert (TitleMarker + t)[..|TitleMarker|] == TitleMarker;
    assert (TitleMarker + t)[|TitleMarker|..] == t;
  }

  /** The boundaries of the title test: the bare marker is a title line with an
      empty title; one character short, or a different case, is not. */
  lemma TitleBoundaries()
    ensures IsTitleLine("title: ") && TitleText("title: ") == ""
    ensures !IsTitleLine("title:") && !IsTitleLine("Title: Hi") && !IsTitleLine("")
  {
    assert "Title: Hi"[..7] != TitleMarker by { assert "Title: Hi"[0] != TitleMarker[0]; }
  }

  /** On a non-empty line the list test is a test of the first character. */
  lemma ListItemIff(line: string)
    requires |line| > 0
    ensures IsListItem(line) <==> line[0] == '-'
  {
    if line[0] == '-' {
      assert line[..1] == ListStartMarker;
    }
  }

  // ---------------------------------------------------------------------------
  // One line through the block state machine
  // ---------------------------------------------------------------------------

  /** Outside a block, a non-empty line pushes exactly one tag, enters the list
      state exactly when the line starts with the list marker and the paragraph
      state otherwise, and writes the open tag and then the line. */
  lemma OpenFromNoPart(m: Machine, line: string)
    requires m.status == NoPart && |line| > 0
    ensures var r := BodyLine(m, line);
            var k := if line[0] == '-' then UnorderedList else Paragraph;
            r.machine.tags == m.tags + [k] &&
            (r.machine.status == InUnorderedList <==> line[0] == '-') &&
            (r.machine.status == InParagraph <==> line[0] != '-') &&
            RenderAll(r.emitted) == ["<" + TagName(k) + ">", line]
  {
    ListItemIff(line);
  }

  /** Inside a block a non-empty line is only copied: the state and the stack
      stay as they are, even when the line starts with the list marker. */
  lemma InBlockCopiesOnly(m: Machine, line: string)
    requires m.status != NoPart && |line| > 0
    ensures BodyLine(m, line) == Step(m, [Content(line)])
  {
  }

  /** `translateBodyLine` ignores an empty line. */
  lemma EmptyBodyLineIgnored(m: Machine)
    ensures BodyLine(m, "") == Step(m, [])
  {
  }

  /** A blank line outside a block writes nothing and changes nothing. */
  lemma BlankInNoPart(m: Machine)
    requires m.status == NoPart
    ensures LoopLine(m, "") == Step(m, [])
  {
  }

  /** A blank line inside a block closes it and returns to NoPart with an empty stack. */
  lemma BlankClosesBlock(m: Machine)
    requires Consistent(m) && m.status != NoPart
    ensures LoopLine(m, "") == Step(Fresh, [Close(m.tags[0])])
  {
  }

  /** Every pass of the body loop keeps the stack at most one deep, holding the
      kind the status names, and empty exactly when the status is NoPart. */
  lemma LoopLineConsistent(m: Machine, line: string)
    requires Consistent(m)
    ensures Consistent(LoopLine(m, line).machine)
    ensures |LoopLine(m, line).machine.tags| <= 1
  {
  }

  /** The body loop keeps that invariant over any number of lines. */
  lemma {:induction false} RunBodyConsistent(m: Machine, lines: seq<string>)
    requires Consistent(m)
    ensures Consistent(RunBody(m, lines).machine)
    decreases |lines|
  {
    if lines != [] {
      RunBodyConsistent(m, lines[..|lines| - 1]);
      LoopLineConsistent(RunBody(m, lines[..|lines| - 1]).machine, lines[|lines| - 1]);
    }
  }

  /** A run of blank lines closes the open block once, and only once, also from
      the stale block status a finished translation leaves behind. */
  lemma {:induction false} BlankRunCollapses(m: Machine, blanks: seq<string>)
    requires Coherent(m)
    requires |blanks| > 0 && forall i :: 0 <= i < |blanks| ==> |blanks[i]| == 0
    ensures RunBody(m, blanks) == Step(Fresh, Closers(m.tags))
    decreases |blanks|
  {
    var init := blanks[..|blanks| - 1];
    if init == [] {
      if m.status == NoPart {
        assert m.tags == [];
      }
    } else {
      BlankRunCollapses(m, init);
    }
  }

  /** A body loop that starts inside a block whose tag is no longer on the stack
      (where a finished translation leaves a reused translator) copies its first
      line, when that line is non-empty, without an open tag before it. */
  lemma {:induction false} StaleBlockCopiesFirst(m: Machine, line: string, rest: seq<string>)
    requires m.tags == [] && m.status != NoPart && |line| > 0
    ensures |RunBody(m, [line] + rest).emitted| > 0
    ensures RunBody(m, [line] + rest).emitted[0] == Content(line)
    decreases |rest|
  {
    var lines := [line] + rest;
    if rest == [] {
      assert lines[..0] == [];
    } else {
      assert lines[..|lines| - 1] == [line] + rest[..|rest| - 1];
      StaleBlockCopiesFirst(m, line, rest[..|rest| - 1]);
    }
  }

  // ---------------------------------------------------------------------------
  // Tag balance
  // ---------------------------------------------------------------------------

  /** Reading `a + b` is reading `a`, then `b` from where `a` left off. */
  lemma {:induction false} ScanAppend(open: Option<BlockKind>, a: seq<Emit>, b: seq<Emit>)
    ensures Scan(open, a + b) == match Scan(open, a)
                                 case None => None
                                 case Some(o) => Scan(o, b)
    decreases |a|
  {
    if a == [] {
      assert a + b == b;
    } else {
      assert (a + b)[0] == a[0];
      assert (a + b)[1..] == a[1..] + b;
      match a[0]
      case Open(k) =>
        if open.None? { ScanAppend(Some(k), a[1..], b); }
      case Close(k) =>
        if open == Some(k) { ScanAppend(None, a[1..], b); }
      case _ =>
        ScanAppend(open, a[1..], b);
    }
  }

  /** Lines that are not block tags leave the open block as it is. */
  lemma {:induction false} ScanUntagged(open: Option<BlockKind>, es: seq<Emit>)
    requires forall i :: 0 <= i < |es| ==> !es[i].Open? && !es[i].Close?
    ensures Scan(open, es) == Some(open)
    decreases |es|
  {
    if es != [] {
      ScanUntagged(open, es[1..]);
    }
  }

  /** One pass of the body loop, from a coherent state, writes tags that take the
      block open before it to the block open after it. */
  lemma LoopLineScan(m: Machine, line: string)
    requires Coherent(m)
    ensures var r := LoopLine(m, line);
            Coherent(r.machine) && Scan(OpenBlock(m), r.emitted) == Some(OpenBlock(r.machine))
  {
    var r := LoopLine(m, line);
    if |line| == 0 {
      if m.status != NoPart {
        if m.tags != [] {
          assert r.emitted == [Close(m.tags[0])];
          assert Scan(OpenBlock(m), r.emitted) == Scan(None, []);
        }
      }
    } else if m.status == NoPart {
      assert m.tags == [];
      var k := r.machine.tags[0];
      assert r.emitted == [Open(k), Content(line)];
      assert Scan(None, r.emitted) == Scan(Some(k), [Content(line)]);
      assert Scan(Some(k), [Content(line)]) == Scan(Some(k), []);
    } else {
      assert Scan(OpenBlock(m), [Content(line)]) == Scan(OpenBlock(m), []);
    }
  }

  lemma {:induction false} RunBodyScan(m: Machine, lines: seq<string>)
    requires Coherent(m)
    ensures var r := RunBody(m, lines);
            Coherent(r.machine) && Scan(OpenBlock(m), r.emitted) == Some(OpenBlock(r.machine))
    decreases |lines|
  {
    if lines != [] {
      var before := RunBody(m, lines[..|lines| - 1]);
      RunBodyScan(m, lines[..|lines| - 1]);
      LoopLineScan(before.machine, lines[|lines| - 1]);
      ScanAppend(OpenBlock(m), before.emitted, LoopLine(before.machine, lines[|lines| - 1]).emitted);
    }
  }

  /** A document whose body opens and closes its blocks in matching pairs and
      whose closing tags close what the body left open is balanced. */
  lemma DocumentBalanced(head: seq<Emit>, body: seq<Emit>, closers: seq<Emit>, open: Option<BlockKind>)
    requires forall i :: 0 <= i < |head| ==> !head[i].Open? && !head[i].Close?
    requires Scan(None, body) == Some(open) && Scan(open, closers) == Some(None)
    ensures Balanced(Document(head, body, closers))
  {
    var opening := [Skeleton("<html>")] + head + [Skeleton("<body>")];
    var closing := [Skeleton("</body>"), Skeleton("</html>")];
    ScanUntagged(None, opening);
    ScanUntagged(None, closing);
    ScanAppend(None, opening, body);
    ScanAppend(None, opening + body, closers);
    ScanAppend(None, opening + body + closers, closing);
  }

  /** Whatever `translateFile` writes from a state with an empty stack (a new
      translator, or one a previous translation has finished with) opens and
      closes its blocks in matching pairs and never nests them; a completed
      translation leaves the stack empty again. */
  lemma TranslateBalanced(m: Machine, file: Option<seq<string>>)
    requires m.tags == []
    ensures Balanced(Translate(m, file).emitted)
    ensures Translate(m, file).machine.tags == []
  {
    if file.Some? && FirstContent(file.value) < |file.value| {
      var lines := file.value;
      var body := RunBody(m, lines[BodyStart(lines)..]);
      var closers := Closers(body.machine.tags);
      RunBodyScan(m, lines[BodyStart(lines)..]);
      if body.machine.tags != [] {
        assert Scan(Some(body.machine.tags[0]), closers) == Scan(None, []);
      }
      DocumentBalanced(Head(lines), body.emitted, closers, OpenBlock(body.machine));
    }
  }

  // ---------------------------------------------------------------------------
  // Nothing lost, nothing invented: the body text
  // ---------------------------------------------------------------------------

  lemma {:induction false} TextsAppend(a: seq<Emit>, b: seq<Emit>)
    ensures Texts(a + b) == Texts(a) + Texts(b)
    decreases |a|
  {
    if a != [] {
      assert (a + b)[1..] == a[1..] + b;
      TextsAppend(a[1..], b);
    } else {
      assert a + b == b;
    }
  }

  lemma {:induction false} NonBlankAppend(a: seq<string>, b: seq<string>)
    ensures NonBlank(a + b) == NonBlank(a) + NonBlank(b)
    decreases |a|
  {
    if a != [] {
      assert (a + b)[1..] == a[1..] + b;
      NonBlankAppend(a[1..], b);
    } else {
      assert a + b == b;
    }
  }

  /** Lines that are not body text contribute nothing to the text. */
  lemma {:induction false} TextsOfUntagged(es: seq<Emit>)
    requires forall i :: 0 <= i < |es| ==> !es[i].Content?
    ensures Texts(es) == []
    decreases |es|
  {
    if es != [] {
      TextsOfUntagged(es[1..]);
    }
  }

  /** One pass of the body loop copies its line when it is not empty, and writes
      no other text. */
  lemma LoopLineKeepsText(m: Machine, line: string)
    ensures Texts(LoopLine(m, line).emitted) == NonBlank([line])
  {
    var es := LoopLine(m, line).emitted;
    assert NonBlank([line]) == (if |line| > 0 then [line] else []) + NonBlank([]);
    if |line| == 0 {
      TextsOfUntagged(es);
    } else {
      var c := [Content(line)];
      assert Texts(c) == [line] by { assert c[1..] == []; }
      if m.status == NoPart {
        assert es[1..] == c;
      }
    }
  }

  /** The body loop copies every non-empty line, in order, and writes no other text. */
  lemma {:induction false} RunBodyKeepsText(m: Machine, lines: seq<string>)
    ensures Texts(RunBody(m, lines).emitted) == NonBlank(lines)
    decreases |lines|
  {
    if lines != [] {
      var init, line := lines[..|lines| - 1], lines[|lines| - 1];
      var before := RunBody(m, init);
      var last := LoopLine(before.machine, line);
      RunBodyKeepsText(m, init);
      LoopLineKeepsText(before.machine, line);
      TextsAppend(before.emitted, last.emitted);
      assert lines == init + [line];
      NonBlankAppend(init, [line]);
    }
  }

  /** The head section holds neither block tags nor body text. */
  lemma HeadUntagged(lines: seq<string>)
    requires FirstContent(lines) < |lines|
    ensures forall i :: 0 <= i < |Head(lines)| ==> Head(lines)[i].Skeleton? || Head(lines)[i].Title?
  {
  }

  /** The text of a document is the text of its body. */
  lemma DocumentTexts(head: seq<Emit>, body: seq<Emit>, closers: seq<Emit>)
    requires forall i :: 0 <= i < |head| ==> !head[i].Content?
    requires forall i :: 0 <= i < |closers| ==> !closers[i].Content?
    ensures Texts(Document(head, body, closers)) == Texts(body)
  {
    var opening := [Skeleton("<html>")] + head + [Skeleton("<body>")];
    var closing := [Skeleton("</body>"), Skeleton("</html>")];
    TextsOfUntagged(opening);
    TextsOfUntagged(closers);
    TextsOfUntagged(closing);
    TextsAppend(opening, body);
    TextsAppend(opening + body, closers);
    TextsAppend(opening + body + closers, closing);
  }

  /** The text of a completed translation is the text its body loop wrote. */
  lemma TranslateTexts(m: Machine, lines: seq<string>)
    requires FirstContent(lines) < |lines|
    ensures Texts(Translate(m, Some(lines)).emitted) == Texts(RunBody(m, lines[BodyStart(lines)..]).emitted)
  {
    var body := RunBody(m, lines[BodyStart(lines)..]);
    TranslateDocument(m, lines);
    HeadUntagged(lines);
    DocumentTexts(Head(lines), body.emitted, Closers(body.machine.tags));
  }

  /** The text of the document is exactly the non-empty lines after the title. */
  lemma TranslateKeepsText(m: Machine, lines: seq<string>)
    requires FirstContent(lines) < |lines|
    ensures Texts(Translate(m, Some(lines)).emitted) == NonBlank(lines[BodyStart(lines)..])
  {
    TranslateTexts(m, lines);
    RunBodyKeepsText(m, lines[BodyStart(lines)..]);
  }

  // ---------------------------------------------------------------------------
  // Each block is classified by its first line
  // ---------------------------------------------------------------------------

  lemma OpensClassifiedAppend(a: seq<Emit>, b: seq<Emit>)
    requires OpensClassified(a) && OpensClassified(b)
    ensures OpensClassified(a + b)
  {
    forall i | 0 <= i < |a + b| && (a + b)[i].Open?
      ensures i + 1 < |a + b| && (a + b)[i + 1].Content? && |(a + b)[i + 1].text| > 0 &&
              ((a + b)[i].kind == UnorderedList <==> (a + b)[i + 1].text[0] == '-')
    {
      if i < |a| {
        assert a[i].Open?;
      } else {
        assert b[i - |a|].Open?;
      }
    }
  }

  /** Lines without open tags classify nothing wrongly. */
  lemma OpensClassifiedUnopened(es: seq<Emit>)
    requires forall i :: 0 <= i < |es| ==> !es[i].Open?
    ensures OpensClassified(es)
  {
  }

  /** One pass of the body loop opens a list exactly when its line starts with `-`. */
  lemma LoopLineOpensClassified(m: Machine, line: string)
    ensures OpensClassified(LoopLine(m, line).emitted)
  {
    if |line| > 0 {
      ListItemIff(line);
    }
  }

  lemma {:induction false} RunBodyOpensClassified(m: Machine, lines: seq<string>)
    ensures OpensClassified(RunBody(m, lines).emitted)
    decreases |lines|
  {
    if lines != [] {
      var before := RunBody(m, lines[..|lines| - 1]);
      var last := LoopLine(before.machine, lines[|lines| - 1]);
      RunBodyOpensClassified(m, lines[..|lines| - 1]);
      LoopLineOpensClassified(before.machine, lines[|lines| - 1]);
      OpensClassifiedAppend(before.emitted, last.emitted);
    }
  }

  lemma DocumentOpensClassified(head: seq<Emit>, body: seq<Emit>, closers: seq<Emit>)
    requires forall i :: 0 <= i < |head| ==> !head[i].Open?
    requires forall i :: 0 <= i < |closers| ==> !closers[i].Open?
    requires OpensClassified(body)
    ensures OpensClassified(Document(head, body, closers))
  {
    var opening := [Skeleton("<html>")] + head + [Skeleton("<body>")];
    var closing := [Skeleton("</body>"), Skeleton("</html>")];
    OpensClassifiedUnopened(opening);
    OpensClassifiedUnopened(closers);
    OpensClassifiedUnopened(closing);
    OpensClassifiedAppend(opening, body);
    OpensClassifiedAppend(opening + body, closers);
    OpensClassifiedAppend(opening + body + closers, closing);
  }

  /** Every block of the document is a list exactly when its first line starts
      with `-`, and that line follows its open tag directly. */
  lemma TranslateOpensClassified(m: Machine, file: Option<seq<string>>)
    ensures OpensClassified(Translate(m, file).emitted)
  {
    if file.Some? && FirstContent(file.value) < |file.value| {
      var lines := file.value;
      var body := RunBody(m, lines[BodyStart(lines)..]);
      TranslateDocument(m, lines);
      HeadUntagged(lines);
      RunBodyOpensClassified(m, lines[BodyStart(lines)..]);
      DocumentOpensClassified(Head(lines), body.emitted, Closers(body.machine.tags));
    }
  }

  // ---------------------------------------------------------------------------
  // The document as a whole
  // ---------------------------------------------------------------------------

  /** The first non-empty line is determined by the lines before it being empty. */
  lemma FirstContentUnique(lines: seq<string>, i: nat)
    requires i <= |lines|
    requires forall j :: 0 <= j < i ==> |lines[j]| == 0
    requires i < |lines| ==> |lines[i]| > 0
    ensures FirstContent(lines) == i
  {
  }

  /** A translation of an opened file completes exactly when the file has a
      non-empty line; otherwise only `<html>` is written before the failure. */
  lemma TranslateCompletesIff(m: Machine, lines: seq<string>)
    ensures Translate(m, Some(lines)).outcome == Completed
        <==> exists i :: 0 <= i < |lines| && |lines[i]| > 0
    ensures Translate(m, Some(lines)).outcome != Completed ==>
              Translate(m, Some(lines)) == Run([Skeleton("<html>")], m, Failed(NoContentLine))
  {
    var f := FirstContent(lines);
    if f < |lines| {
      assert |lines[f]| > 0;
    }
  }

  /** A file that cannot be opened writes nothing and changes nothing. */
  lemma OpenFailureWritesNothing(m: Machine)
    ensures Translate(m, None) == Run([], m, Failed(OpenFailed))
  {
  }

  /** The first and last lines of a document. */
  lemma DocumentFrame(head: seq<Emit>, body: seq<Emit>, closers: seq<Emit>)
    ensures var out := RenderAll(Document(head, body, closers));
            |out| >= 4 && out[0] == "<html>" &&
            out[|out| - 2] == "</body>" && out[|out| - 1] == "</html>"
  {
  }

  /** A document starts with `<html>`, its head section and `<body>`. */
  lemma DocumentHead(head: seq<Emit>, body: seq<Emit>, closers: seq<Emit>)
    ensures var es := Document(head, body, closers);
            |es| > |head| + 1 && es[1..|head| + 1] == head && es[|head| + 1] == Skeleton("<body>")
  {
    var opening := [Skeleton("<html>")] + head + [Skeleton("<body>")];
    var es := Document(head, body, closers);
    assert es == opening + body + closers + [Skeleton("</body>"), Skeleton("</html>")];
    assert es[1..|head| + 1] == opening[1..|head| + 1];
  }

  /** A completed translation writes `<html>` first and `</body>`, `</html>` last,
      and leaves the stack empty. */
  lemma TranslateFrame(m: Machine, lines: seq<string>)
    requires FirstContent(lines) < |lines|
    ensures var out := RenderAll(Translate(m, Some(lines)).emitted);
            |out| >= 4 && out[0] == "<html>" &&
            out[|out| - 2] == "</body>" && out[|out| - 1] == "</html>"
    ensures Translate(m, Some(lines)).machine.tags == []
  {
    var body := RunBody(m, lines[BodyStart(lines)..]);
    TranslateDocument(m, lines);
    DocumentFrame(Head(lines), body.emitted, Closers(body.machine.tags));
  }

  /** After `<html>` comes the head section holding the title when the first
      non-empty line is a title line, and `<body>` straight away otherwise. */
  lemma TranslateHead(m: Machine, lines: seq<string>)
    requires FirstContent(lines) < |lines|
    ensures var es := Translate(m, Some(lines)).emitted;
            var first := lines[FirstContent(lines)];
            if IsTitleLine(first)
            then |es| > 4 && es[1..4] == TitleLines(first) && es[4] == Skeleton("<body>")
            else |es| > 1 && es[1] == Skeleton("<body>")
  {
    var body := RunBody(m, lines[BodyStart(lines)..]);
    TranslateDocument(m, lines);
    DocumentHead(Head(lines), body.emitted, Closers(body.machine.tags));
  }

  /** Blank lines before the first non-empty line write nothing. */
  lemma LeadingBlanksIgnored(m: Machine, blanks: seq<string>, rest: seq<string>)
    requires forall i :: 0 <= i < |blanks| ==> |blanks[i]| == 0
    ensures Translate(m, Some(blanks + rest)) == Translate(m, Some(rest))
  {
    var lines := blanks + rest;
    var f := FirstContent(rest);
    FirstContentUnique(lines, |blanks| + f);
    if f < |rest| {
      assert lines[|blanks| + f] == rest[f];
      assert lines[BodyStart(lines)..] == rest[BodyStart(rest)..];
    }
  }
}
