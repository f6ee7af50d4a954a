/**
  The input document tree: the block and inline nodes of a parsed Markdown
  document, in the shape the converter receives them (tag `t`, content `c`).
  Only the parts of each node's content that the converter reads are kept.
 */
module DocTree {

  /** Character-format flags threaded through nested inline nodes. */
  datatype Format = BOLD | ITALIC | UNDERLINE | COLOR_BLUE | SUPERSCRIPT | SUBSCRIPT

  datatype Inline =
    | Str(text: string)
    | Space
    | Strong(content: seq<Inline>)
    | Emph(content: seq<Inline>)
    | Underline(content: seq<Inline>)
    | Strikeout(content: seq<Inline>)
    | Superscript(content: seq<Inline>)
    | Subscript(content: seq<Inline>)
    | SmallCaps(content: seq<Inline>)
    | Quoted(content: seq<Inline>)
    | Link(content: seq<Inline>, target: string)
    | Image(caption: seq<Inline>, target: string)
    | Code(code: string)
    | Note(blocks: seq<Block>)
    | SoftBreak
    | LineBreak
    | OtherInline(tag: string)

  datatype Block =
    | Header(level: int, inlines: seq<Inline>)
    | Para(inlines: seq<Inline>)
    | Plain(inlines: seq<Inline>)
    | BulletList(items: seq<ListItem>)
    | OrderedList(start: int, items: seq<ListItem>)
    | CodeBlock(code: string)
    | Table(colSpecs: nat, head: seq<Row>, bodies: seq<TableBody>, foot: seq<Row>)
    | BlockQuote(blocks: seq<Block>)
    | HorizontalRule
    | OtherBlock(tag: string)

  /** One item of a bullet or ordered list: a sequence of blocks. */
  datatype ListItem = ListItem(blocks: seq<Block>)

  /** A table body: its intermediate header rows and its main rows. */
  datatype TableBody = TableBody(interHeaders: seq<Row>, mainRows: seq<Row>)

  datatype Row = Row(cells: seq<Cell>)

  datatype Cell = Cell(rowSpan: nat, colSpan: nat, blocks: seq<Block>)

  /**
    Plain text of a run of inlines: text of Str, a blank for Space, the text
    of the children of the wrapping kinds, link text, image caption, code,
    and quoted text between double quotes; every other kind contributes nothing.
   */
  function PlainText(xs: seq<Inline>): string
    decreases xs
  {
    if xs == [] then "" else PlainTextOf(xs[0]) + PlainText(xs[1..])
  }

  function PlainTextOf(x: Inline): string
    decreases x
  {
    match x
    case Str(t) => t
    case Space => " "
    case Strong(c) => PlainText(c)
    case Emph(c) => PlainText(c)
    case Underline(c) => PlainText(c)
    case Strikeout(c) => PlainText(c)
    case Superscript(c) => PlainText(c)
    case Subscript(c) => PlainText(c)
    case SmallCaps(c) => PlainText(c)
    case Link(c, _) => PlainText(c)
    case Image(c, _) => PlainText(c)
    case Code(t) => t
    case Quoted(c) => "\"" + PlainText(c) + "\""
    case Note(_) => ""
    case SoftBreak => ""
    case LineBreak => ""
    case OtherInline(_) => ""
  }

  /** Plain text of a concatenation is the concatenation of the plain texts. */
  lemma {:induction false} PlainTextAppend(xs: seq<Inline>, ys: seq<Inline>)
    ensures PlainText(xs + ys) == PlainText(xs) + PlainText(ys)
    decreases |xs|
  {
    if xs == [] {
      assert xs + ys == ys;
    } else {
      assert (xs + ys)[0] == xs[0];
      assert (xs + ys)[1..] == xs[1..] + ys;
      PlainTextAppend(xs[1..], ys);
    }
  }
}
