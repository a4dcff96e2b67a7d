/** The vocabulary shared by the translator: the two line markers of the CMS
    notation, the block kinds and block states, the two line classifiers, the
    title formatter, and the lines the translator writes. */
module Markup {

  /** The literal prefix of a title line (`titleMarker`). */
  const TitleMarker: string := "title: "

  /** The literal prefix of a list item (`listStartMarker`). */
  const ListStartMarker: string := "-"

  /** What the tag stack records: PARAGRAPH (code 1) or UNORDEREDLIST (code 2). */
  datatype BlockKind = Paragraph | UnorderedList

  /** The translator's block state: NoPart (1), InParagraph (2), InUnorderedList (3). */
  datatype BlockStatus = NoPart | InParagraph | InUnorderedList

  /** The `tagConvert` map, total on the two kinds the stack can hold. */
  function TagName(k: BlockKind): string
  {
    match k
    case Paragraph => "p"
    case UnorderedList => "ul"
  }

  /** The block state that opening a block of kind `k` enters. */
  function StatusOf(k: BlockKind): BlockStatus
  {
    match k
    case Paragraph => InParagraph
    case UnorderedList => InUnorderedList
  }

  /** `isTitleLine`: the line starts with the title marker (case-sensitive, no trimming). */
  predicate IsTitleLine(line: string)
  {
    |line| >= |TitleMarker| && line[..|TitleMarker|] == TitleMarker
  }

  /** The title text: everything after the marker, untouched. */
  function TitleText(line: string): string
    requires |line| >= |TitleMarker|
  {
    line[|TitleMarker|..]
  }

  /** `isListItem`: the first character is the list marker. Java's
      `line.substring(0, 1)` throws on an empty line, so the line must not be
      empty; the only caller checks that first. */
  predicate IsListItem(line: string)
    requires |line| > 0
  {
    line[..1] == ListStartMarker
  }

  /** One line the translator writes, tagged with its role so that properties
      can speak of the tags the translator emits apart from the text it copies. */
  datatype Emit =
    | Skeleton(text: string)     // <html>, <head>, </head>, <body>, </body>, </html>
    | Title(text: string)        // <title>text</title>
    | Open(kind: BlockKind)      // <p> or <ul>
    | Close(kind: BlockKind)     // </p> or </ul>
    | Content(text: string)      // a body line, copied verbatim

  /** The text of an emitted line as it appears on standard output. */
  function Render(e: Emit): string
  {
    match e
    case Skeleton(s) => s
    case Title(t) => "<title>" + t + "</title>"
    case Open(k) => "<" + TagName(k) + ">"
    case Close(k) => "</" + TagName(k) + ">"
    case Content(s) => s
  }

  /** The output lines of a sequence of emitted lines, one for one. */
  function RenderAll(es: seq<Emit>): (r: seq<string>)
    ensures |r| == |es|
    ensures forall i :: 0 <= i < |es| ==> r[i] == Render(es[i])
  {
    if es == [] then [] else [Render(es[0])] + RenderAll(es[1..])
  }

  /** `translateTitleLine`: the head section holding the title text. Java's
      `substring(7, length)` needs the line to be at least as long as the marker. */
  function TitleLines(line: string): seq<Emit>
    requires |line| >= |TitleMarker|
  {
    [Skeleton("<head>"), Title(TitleText(line)), Skeleton("</head>")]
  }
}
