/** The translator's behaviour as functions on values: the block state machine
    one line at a time, the body loop as a fold over the lines, and the whole
    `translateFile` run. The class in module Translator is proved against these. */
module Semantics {
  import opened Wrappers
  import opened Markup

  /** The translator's two fields: `blockStatus` and `tagList` (bottom first, top last). */
  datatype Machine = Machine(status: BlockStatus, tags: seq<BlockKind>)

  /** The state of a newly constructed translator. */
  const Fresh: Machine := Machine(NoPart, [])

  /** The state after some lines, with the lines emitted meanwhile. */
  datatype Step = Step(machine: Machine, emitted: seq<Emit>)

  /** Why a translation stopped early: the file could not be opened, or it holds
      no non-empty line, so `isTitleLine(null)` throws. */
  datatype Failure = OpenFailed | NoContentLine

  datatype Outcome = Completed | Failed(failure: Failure)

  /** A whole `translateFile` call: what it emitted, the state it left, how it ended. */
  datatype Run = Run(emitted: seq<Emit>, machine: Machine, outcome: Outcome)

  /** The close tags `closeTextTags` writes for the stack `tags`: one per entry, top first. */
  function Closers(tags: seq<BlockKind>): (r: seq<Emit>)
    ensures |r| == |tags|
    ensures forall i :: 0 <= i < |r| ==> r[i] == Close(tags[|tags| - 1 - i])
    decreases |tags|
  {
    if tags == [] then [] else [Close(tags[|tags| - 1])] + Closers(tags[..|tags| - 1])
  }

  /** `translateBodyLine`: an empty line does nothing; outside a block a line opens
      a list if it is a list item and a paragraph otherwise; inside a block it is
      only copied. */
  function BodyLine(m: Machine, line: string): Step
  {
    if |line| == 0 then Step(m, [])
    else if m.status == NoPart then
      var k := if IsListItem(line) then UnorderedList else Paragraph;
      Step(Machine(StatusOf(k), m.tags + [k]), [Open(k), Content(line)])
    else Step(m, [Content(line)])
  }

  /** One pass of the body loop of `translateFile`: a blank line closes the open
      block, if any; any other line goes to `translateBodyLine`. */
  function LoopLine(m: Machine, line: string): Step
  {
    if |line| == 0 then
      if m.status != NoPart then Step(Machine(NoPart, []), Closers(m.tags)) else Step(m, [])
    else BodyLine(m, line)
  }

  /** The body loop over `lines`, in order, from state `m`. */
  function RunBody(m: Machine, lines: seq<string>): Step
    decreases |lines|
  {
    if lines == [] then Step(m, [])
    else
      var before := RunBody(m, lines[..|lines| - 1]);
      var last := LoopLine(before.machine, lines[|lines| - 1]);
      Step(last.machine, before.emitted + last.emitted)
  }

  /** Where the leading-blank-line loop stops: the index of the first non-empty
      line, or `|lines|` when there is none. */
  function FirstContent(lines: seq<string>): (i: nat)
    ensures i <= |lines|
    ensures forall j :: 0 <= j < i ==> |lines[j]| == 0
    ensures i < |lines| ==> |lines[i]| > 0
  {
    if lines == [] then 0
    else if |lines[0]| > 0 then 0
    else 1 + FirstContent(lines[1..])
  }

  /** Where the body starts: after the title line when the first non-empty line is one. */
  function BodyStart(lines: seq<string>): nat
    requires FirstContent(lines) < |lines|
  {
    var s := FirstContent(lines);
    if IsTitleLine(lines[s]) then s + 1 else s
  }

  /** What the title step writes: the head section when the first non-empty
      line is a title line, nothing otherwise. */
  function Head(lines: seq<string>): seq<Emit>
    requires FirstContent(lines) < |lines|
  {
    var s := FirstContent(lines);
    if IsTitleLine(lines[s]) then TitleLines(lines[s]) else []
  }

  /** The lines of a completed document around its head, body and final close tags. */
  function Document(head: seq<Emit>, body: seq<Emit>, closers: seq<Emit>): seq<Emit>
  {
    [Skeleton("<html>")] + head + [Skeleton("<body>")] + body + closers
      + [Skeleton("</body>"), Skeleton("</html>")]
  }

  /** `translateFile` from state `m` on a file whose lines are `file`, or that
      cannot be opened (`None`). The fields are not reset on entry, and after the
      final `closeTextTags` the stack is empty but `blockStatus` is left as it was. */
  function Translate(m: Machine, file: Option<seq<string>>): Run
  {
    match file
    case None => Run([], m, Failed(OpenFailed))
    case Some(lines) =>
      if FirstContent(lines) == |lines| then Run([Skeleton("<html>")], m, Failed(NoContentLine))
      else
        var body := RunBody(m, lines[BodyStart(lines)..]);
        Run(Document(Head(lines), body.emitted, Closers(body.machine.tags)),
            Machine(body.machine.status, []), Completed)
  }

  /** The block, if any, whose open tag is on the stack. */
  function OpenBlock(m: Machine): Option<BlockKind>
  {
    if m.tags == [] then None else Some(m.tags[0])
  }

  /** The stack agrees with the status: at most one entry, of the kind the status
      names. A finished translation leaves an empty stack under a stale status,
      which still satisfies this. */
  ghost predicate Coherent(m: Machine)
  {
    m.tags == [] || (|m.tags| == 1 && m.status == StatusOf(m.tags[0]))
  }

  /** The invariant of the body loop: coherent, and the stack is empty exactly
      when the status is NoPart. */
  ghost predicate Consistent(m: Machine)
  {
    Coherent(m) && (m.tags == [] <==> m.status == NoPart)
  }

  /** Reads emitted lines in order with the block left open by the ones before:
      an open tag is accepted only when no block is open, a close tag only when
      it closes the open block. `None` when a tag is out of place, otherwise the
      block left open at the end. */
  function Scan(open: Option<BlockKind>, es: seq<Emit>): Option<Option<BlockKind>>
    decreases |es|
  {
    if es == [] then Some(open)
    else match es[0]
      case Open(k) => if open.None? then Scan(Some(k), es[1..]) else None
      case Close(k) => if open == Some(k) then Scan(None, es[1..]) else None
      case _ => Scan(open, es[1..])
  }

  /** Every open tag is closed by exactly one later close tag of its kind before
      the next open tag, and no close tag stands alone. */
  predicate Balanced(es: seq<Emit>)
  {
    Scan(None, es) == Some(None)
  }

  /** The body lines copied to the output, in order. */
  function Texts(es: seq<Emit>): seq<string>
  {
    if es == [] then []
    else (if es[0].Content? then [es[0].text] else []) + Texts(es[1..])
  }

  /** The non-empty lines of `lines`, in order. */
  function NonBlank(lines: seq<string>): seq<string>
  {
    if lines == [] then []
    else (if |lines[0]| > 0 then [lines[0]] else []) + NonBlank(lines[1..])
  }

  /** Every open tag is directly followed by the body line that opened it, and
      its kind is the list kind exactly when that line starts with `-`. */
  ghost predicate OpensClassified(es: seq<Emit>)
  {
    forall i :: 0 <= i < |es| && es[i].Open? ==>
      i + 1 < |es| && es[i + 1].Content? && |es[i + 1].text| > 0 &&
      (es[i].kind == UnorderedList <==> es[i + 1].text[0] == '-')
  }
}
