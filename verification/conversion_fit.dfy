/**
  How the converter's output corresponds to the document tree all the way
  down: the runs of every inline (footnote bodies included), the fragment
  of every written block (nested lists and table cell content included),
  and the order in which images are registered.
 */
module ConversionFit {
  import opened Wrappers
  import opened DocTree
  import opened TextHelpers
  import opened HeaderModel
  import opened InlineWalk
  import opened TableLayout
  import opened ConversionSpec

  // ---------------------------------------------------------------------
  // Image registry order

  /** The images an inline registers, in the order the walk reaches them. */
  function InlineImages(x: Inline): seq<ImageEntry>
    decreases x, 0
  {
    match x
    case Strong(c) => InlinesImages(c)
    case Emph(c) => InlinesImages(c)
    case Underline(c) => InlinesImages(c)
    case Superscript(c) => InlinesImages(c)
    case Subscript(c) => InlinesImages(c)
    case Link(c, _) => InlinesImages(c)
    case Note(bs) => BlocksImages(bs)
    case Image(_, url) => [ImageEntry(url, ImageExt(url))]
    case _ => []
  }

  function InlinesImages(xs: seq<Inline>): seq<ImageEntry>
    decreases xs, 1
  {
    if xs == [] then [] else InlineImages(xs[0]) + InlinesImages(xs[1..])
  }

  function BlocksImages(bs: seq<Block>): seq<ImageEntry>
    decreases bs, 1
  {
    if bs == [] then [] else BlockImages(bs[0]) + BlocksImages(bs[1..])
  }

  /** The images a block registers: those of its inlines, of its items' blocks, or of its cells row by row. */
  function BlockImages(b: Block): seq<ImageEntry>
    decreases b, 2
  {
    match b
    case Header(_, xs) => InlinesImages(xs)
    case Para(xs) => InlinesImages(xs)
    case Plain(xs) => InlinesImages(xs)
    case BulletList(items) => ItemsImages(items)
    case OrderedList(_, items) => ItemsImages(items)
    case Table(_, head, bodies, foot) => RowsImages(head) + BodiesImages(bodies) + RowsImages(foot)
    case _ => []
  }

  function ItemsImages(items: seq<ListItem>): seq<ImageEntry>
    decreases items, 1
  {
    if items == [] then [] else BlocksImages(items[0].blocks) + ItemsImages(items[1..])
  }

  function RowsImages(rows: seq<Row>): seq<ImageEntry>
    decreases rows, 1
  {
    if rows == [] then [] else CellsImages(rows[0].cells) + RowsImages(rows[1..])
  }

  function CellsImages(cells: seq<Cell>): seq<ImageEntry>
    decreases cells, 1
  {
    if cells == [] then [] else BlocksImages(cells[0].blocks) + CellsImages(cells[1..])
  }

  /** The images of the bodies' rows, body by body: intermediate header rows, then main rows. */
  function BodiesImages(bodies: seq<TableBody>): seq<ImageEntry>
    decreases bodies, 1
  {
    if bodies == [] then []
    else
      var last := bodies[|bodies| - 1];
      BodiesImages(bodies[..|bodies| - 1]) + RowsImages(last.interHeaders) + RowsImages(last.mainRows)
  }

  lemma {:induction false} InlinesImagesAppend(a: seq<Inline>, b: seq<Inline>)
    ensures InlinesImages(a + b) == InlinesImages(a) + InlinesImages(b)
    decreases |a|
  {
    if a == [] {
      assert a + b == b;
    } else {
      assert (a + b)[0] == a[0] && (a + b)[1..] == a[1..] + b;
      InlinesImagesAppend(a[1..], b);
    }
  }

  lemma {:induction false} BlocksImagesAppend(a: seq<Block>, b: seq<Block>)
    ensures BlocksImages(a + b) == BlocksImages(a) + BlocksImages(b)
    decreases |a|
  {
    if a == [] {
      assert a + b == b;
    } else {
      assert (a + b)[0] == a[0] && (a + b)[1..] == a[1..] + b;
      BlocksImagesAppend(a[1..], b);
    }
  }

  lemma {:induction false} ItemsImagesAppend(a: seq<ListItem>, b: seq<ListItem>)
    ensures ItemsImages(a + b) == ItemsImages(a) + ItemsImages(b)
    decreases |a|
  {
    if a == [] {
      assert a + b == b;
    } else {
      assert (a + b)[0] == a[0] && (a + b)[1..] == a[1..] + b;
      ItemsImagesAppend(a[1..], b);
    }
  }

  lemma {:induction false} RowsImagesAppend(a: seq<Row>, b: seq<Row>)
    ensures RowsImages(a + b) == RowsImages(a) + RowsImages(b)
    decreases |a|
  {
    if a == [] {
      assert a + b == b;
    } else {
      assert (a + b)[0] == a[0] && (a + b)[1..] == a[1..] + b;
      RowsImagesAppend(a[1..], b);
    }
  }

  lemma {:induction false} CellsImagesAppend(a: seq<Cell>, b: seq<Cell>)
    ensures CellsImages(a + b) == CellsImages(a) + CellsImages(b)
    decreases |a|
  {
    if a == [] {
      assert a + b == b;
    } else {
      assert (a + b)[0] == a[0] && (a + b)[1..] == a[1..] + b;
      CellsImagesAppend(a[1..], b);
    }
  }

  lemma {:induction false} BodyRowsImages(bodies: seq<TableBody>)
    ensures RowsImages(BodyRows(bodies)) == BodiesImages(bodies)
    decreases |bodies|
  {
    if bodies != [] {
      var init, last := bodies[..|bodies| - 1], bodies[|bodies| - 1];
      BodyRowsImages(init);
      RowsImagesAppend(BodyRows(init) + last.interHeaders, last.mainRows);
      RowsImagesAppend(BodyRows(init), last.interHeaders);
    }
  }

  /** Walking a table's flattened rows registers the table's images. */
  lemma TableImagesFlat(b: Block)
    requires b.Table?
    ensures RowsImages(b.head + BodyRows(b.bodies) + b.foot) == BlockImages(b)
  {
    BodyRowsImages(b.bodies);
    RowsImagesAppend(b.head + BodyRows(b.bodies), b.foot);
    RowsImagesAppend(b.head, BodyRows(b.bodies));
  }

  // ---------------------------------------------------------------------
  // Runs against inlines

  /**
    The runs written for inline `x` under base character property `base`
    and active formats `fmts`: a wrapping node's children with its flag
    added; a link's text with underline and blue, between a field begin and
    a field end; one footnote run whose body fits the note's blocks;
    otherwise the runs of its pieces (none for kinds that are not written).
   */
  ghost predicate InlineFit(tpl: Template, runs: seq<Run>, x: Inline, base: nat, fmts: set<Format>, s: ConverterState)
    decreases x, 0
  {
    match x
    case Strong(c) => InlinesFit(tpl, runs, c, base, fmts + WrapperFlag(x), s)
    case Emph(c) => InlinesFit(tpl, runs, c, base, fmts + WrapperFlag(x), s)
    case Underline(c) => InlinesFit(tpl, runs, c, base, fmts + WrapperFlag(x), s)
    case Superscript(c) => InlinesFit(tpl, runs, c, base, fmts + WrapperFlag(x), s)
    case Subscript(c) => InlinesFit(tpl, runs, c, base, fmts + WrapperFlag(x), s)
    case Link(c, url) =>
      && 2 <= |runs| && runs[0] == FieldBeginRun(url, LinkCommand(url)) && runs[|runs| - 1] == FieldEndRun
      && InlinesFit(tpl, runs[1..|runs| - 1], c, base, fmts + WrapperFlag(x), s)
    case Note(bs) => |runs| == 1 && runs[0].FootnoteRun? && BlocksFit(tpl, runs[0].body, bs, s)
    case _ => RunsFit(tpl, runs, PiecesOf(x, fmts), base, s.charPrCache, s.images)
  }

  /** The runs of a sequence of inlines: those of the first, then those of the rest. */
  ghost predicate InlinesFit(tpl: Template, runs: seq<Run>, xs: seq<Inline>, base: nat, fmts: set<Format>, s: ConverterState)
    decreases xs, 1
  {
    if xs == [] then runs == []
    else
      var n := |PiecesOf(xs[0], fmts)|;
      && n <= |runs|
      && InlineFit(tpl, runs[..n], xs[0], base, fmts, s)
      && InlinesFit(tpl, runs[n..], xs[1..], base, fmts, s)
  }

  // ---------------------------------------------------------------------
  // Fragments against blocks

  /** One fragment per written block, in order; blocks of other kinds leave nothing. */
  ghost predicate BlocksFit(tpl: Template, fs: seq<Fragment>, bs: seq<Block>, s: ConverterState)
    decreases bs, 1
  {
    if bs == [] then fs == []
    else if Handles(bs[0]) then |fs| >= 1 && BlockFit(tpl, fs[0], bs[0], s) && BlocksFit(tpl, fs[1..], bs[1..], s)
    else BlocksFit(tpl, fs, bs[1..], s)
  }

  /**
    The fragment of a written block. A heading: a paragraph with its
    target's style and paragraph property, a column break exactly when it
    starts with a line break (which is dropped), and the runs of the rest
    under the target's character property. A paragraph or plain block: the
    body target, no column break, its runs. Code: its text in one run of
    character property 0. A list: its output at level 0. A table without
    rows: the empty text; otherwise the laid-out table, every cell holding
    its own blocks' fragments.
   */
  ghost predicate BlockFit(tpl: Template, f: Fragment, b: Block, s: ConverterState)
    decreases b, 3
  {
    if b.Header? then
      && HeaderTarget(tpl, b.level).Success?
      && var t := HeaderTarget(tpl, b.level).value;
         var columnBreak := |b.inlines| > 0 && b.inlines[0].LineBreak?;
         && f.ParaFrag? && f.styleId == t.styleId && f.paraPrId == t.paraPrId && f.columnBreak == columnBreak
         && InlinesFit(tpl, f.runs, if columnBreak then b.inlines[1..] else b.inlines, t.charPrId, {}, s)
    else if b.Para? || b.Plain? then
      var t := BodyTarget(tpl);
      && f.ParaFrag? && f.styleId == t.styleId && f.paraPrId == t.paraPrId && !f.columnBreak
      && InlinesFit(tpl, f.runs, b.inlines, t.charPrId, {}, s)
    else if b.CodeBlock? then
      f == ParaFrag(tpl.normalStyleId, tpl.normalParaPrId, false, [TextRun(b.code, 0)])
    else if b.BulletList? || b.OrderedList? then
      ListFit(tpl, f, b, 0, 0, s)
    else if b.Table? then
      var rows := b.head + BodyRows(b.bodies) + b.foot;
      if rows == [] then f == EmptyFrag
      else
        && f.TableFrag? && f.styleId == tpl.normalStyleId && f.paraPrId == tpl.normalParaPrId
        && TableFits(tpl, f.table, rows, b.colSpecs)
        && TableContentFits(tpl, f.table.rows, b, rows, s)
    else false
  }

  /** The numbering a list starts from: its own start for an ordered list, 1 for a bullet list. */
  function ListStart(b: Block): int
    requires b.BulletList? || b.OrderedList?
  {
    if b.OrderedList? then b.start else 1
  }

  /**
    The output of a list at nesting `level`: the group of its items'
    fragments, written against a numbering of the list's kind and start
    whose id exceeds `above` (the enclosing list's numbering, 0 at top level).
   */
  ghost predicate ListFit(tpl: Template, f: Fragment, b: Block, level: nat, above: nat, s: ConverterState)
    requires b.BulletList? || b.OrderedList?
    decreases b, 2
  {
    && f.GroupFrag?
    && exists numId: nat ::
      && above < numId
      && NewNumbering(numId, b.OrderedList?, ListStart(b)) in s.numberings
      && ItemsFit(tpl, f.items, b.items, numId, level, s)
  }

  /** The fragments of a list's items: every block of the first item, then those of the rest. */
  ghost predicate ItemsFit(tpl: Template, fs: seq<Fragment>, items: seq<ListItem>, numId: nat, level: nat, s: ConverterState)
    decreases items, 1
  {
    if items == [] then fs == []
    else
      var n := |items[0].blocks|;
      && n <= |fs|
      && ListFragsFit(tpl, fs[..n], items[0].blocks, numId, level, s)
      && ItemsFit(tpl, fs[n..], items[1..], numId, level, s)
  }

  ghost predicate ListFragsFit(tpl: Template, fs: seq<Fragment>, bs: seq<Block>, numId: nat, level: nat, s: ConverterState)
    decreases bs, 1
  {
    |fs| == |bs| && forall k :: 0 <= k < |fs| ==> ListFragFit(tpl, fs[k], bs[k], numId, level, s)
  }

  /**
    What a block inside a list item turns into: for a paragraph or plain
    block, a paragraph of the normal style with the list paragraph property
    of the numbering and level and the runs of its inlines from character
    property 0 without formats; for a nested list, its output one level
    deeper with a numbering of its own; otherwise the group of the block's
    top-level fragment, empty when the block is not written.
   */
  ghost predicate ListFragFit(tpl: Template, f: Fragment, blk: Block, numId: nat, level: nat, s: ConverterState)
    decreases blk, 4
  {
    if blk.Para? || blk.Plain? then
      && f.ParaFrag? && f.styleId == tpl.normalStyleId && !f.columnBreak
      && ListParaPrFits(tpl, f.paraPrId, numId, level, s.paraPrs)
      && InlinesFit(tpl, f.runs, blk.inlines, 0, {}, s)
    else if blk.BulletList? || blk.OrderedList? then
      ListFit(tpl, f, blk, level + 1, numId, s)
    else
      && f.GroupFrag?
      && if Handles(blk) then |f.items| == 1 && BlockFit(tpl, f.items[0], blk, s) else f.items == []
  }

  /** Every written cell of the flattened rows of table `b` holds its own blocks' fragments. */
  ghost predicate TableContentFits(tpl: Template, out: seq<seq<TableCell>>, b: Block, rows: seq<Row>, s: ConverterState)
    requires b.Table?
    decreases b, 2
  {
    forall i :: 0 <= i < |rows| && i < |out| ==> RowContentFits(tpl, out[i], b, rows[i], s)
  }

  ghost predicate RowContentFits(tpl: Template, cs: seq<TableCell>, b: Block, row: Row, s: ConverterState)
    requires b.Table?
    decreases b, 1
  {
    forall j :: 0 <= j < |row.cells| && j < |cs| ==> CellContentFit(tpl, cs[j].content, b, row, row.cells[j], s)
  }

  /** A cell of a row of table `b` holds the fragments of its blocks. */
  ghost predicate CellContentFit(tpl: Template, content: seq<Fragment>, b: Block, row: Row, c: Cell, s: ConverterState)
    requires b.Table? && c in row.cells
    decreases b, 0
  {
    && InTable(row, b.head, b.bodies, b.foot)
    && BlocksFit(tpl, content, c.blocks, s)
  }

  // ---------------------------------------------------------------------
  // Fitting output keeps fitting as the state grows

  lemma {:induction false} InlineFitStable(tpl: Template, runs: seq<Run>, x: Inline, base: nat, fmts: set<Format>,
                                            s0: ConverterState, s1: ConverterState)
    requires InlineFit(tpl, runs, x, base, fmts, s0) && Grows(tpl, s0, s1)
    ensures InlineFit(tpl, runs, x, base, fmts, s1)
    decreases x, 0
  {
    match x
    case Strong(c) => InlinesFitStable(tpl, runs, c, base, fmts + WrapperFlag(x), s0, s1);
    case Emph(c) => InlinesFitStable(tpl, runs, c, base, fmts + WrapperFlag(x), s0, s1);
    case Underline(c) => InlinesFitStable(tpl, runs, c, base, fmts + WrapperFlag(x), s0, s1);
    case Superscript(c) => InlinesFitStable(tpl, runs, c, base, fmts + WrapperFlag(x), s0, s1);
    case Subscript(c) => InlinesFitStable(tpl, runs, c, base, fmts + WrapperFlag(x), s0, s1);
    case Link(c, _) => InlinesFitStable(tpl, runs[1..|runs| - 1], c, base, fmts + WrapperFlag(x), s0, s1);
    case Note(bs) => BlocksFitStable(tpl, runs[0].body, bs, s0, s1);
    case _ => RunsFitMono(tpl, runs, PiecesOf(x, fmts), base, s0.charPrCache, s1.charPrCache, s0.images, s1.images);
  }

  lemma {:induction false} InlinesFitStable(tpl: Template, runs: seq<Run>, xs: seq<Inline>, base: nat, fmts: set<Format>,
                                             s0: ConverterState, s1: ConverterState)
    requires InlinesFit(tpl, runs, xs, base, fmts, s0) && Grows(tpl, s0, s1)
    ensures InlinesFit(tpl, runs, xs, base, fmts, s1)
    decreases xs, 1
  {
    if xs != [] {
      var n := |PiecesOf(xs[0], fmts)|;
      InlineFitStable(tpl, runs[..n], xs[0], base, fmts, s0, s1);
      InlinesFitStable(tpl, runs[n..], xs[1..], base, fmts, s0, s1);
    }
  }

  lemma {:induction false} BlocksFitStable(tpl: Template, fs: seq<Fragment>, bs: seq<Block>, s0: ConverterState, s1: ConverterState)
    requires BlocksFit(tpl, fs, bs, s0) && Grows(tpl, s0, s1)
    ensures BlocksFit(tpl, fs, bs, s1)
    decreases bs, 1
  {
    if bs != [] {
      if Handles(bs[0]) {
        BlockFitStable(tpl, fs[0], bs[0], s0, s1);
        BlocksFitStable(tpl, fs[1..], bs[1..], s0, s1);
      } else {
        BlocksFitStable(tpl, fs, bs[1..], s0, s1);
      }
    }
  }

  lemma {:induction false} BlockFitStable(tpl: Template, f: Fragment, b: Block, s0: ConverterState, s1: ConverterState)
    requires BlockFit(tpl, f, b, s0) && Grows(tpl, s0, s1)
    ensures BlockFit(tpl, f, b, s1)
    decreases b, 3
  {
    if b.Header? {
      var t := HeaderTarget(tpl, b.level).value;
      var columnBreak := |b.inlines| > 0 && b.inlines[0].LineBreak?;
      InlinesFitStable(tpl, f.runs, if columnBreak then b.inlines[1..] else b.inlines, t.charPrId, {}, s0, s1);
    } else if b.Para? || b.Plain? {
      InlinesFitStable(tpl, f.runs, b.inlines, BodyTarget(tpl).charPrId, {}, s0, s1);
    } else if b.BulletList? || b.OrderedList? {
      ListFitStable(tpl, f, b, 0, 0, s0, s1);
    } else if b.Table? && b.head + BodyRows(b.bodies) + b.foot != [] {
      TableContentStable(tpl, f.table.rows, b, b.head + BodyRows(b.bodies) + b.foot, s0, s1);
    }
  }

  lemma {:induction false} ListFitStable(tpl: Template, f: Fragment, b: Block, level: nat, above: nat,
                                          s0: ConverterState, s1: ConverterState)
    requires b.BulletList? || b.OrderedList?
    requires ListFit(tpl, f, b, level, above, s0) && Grows(tpl, s0, s1)
    ensures ListFit(tpl, f, b, level, above, s1)
    decreases b, 2
  {
    var numId: nat :| above < numId && NewNumbering(numId, b.OrderedList?, ListStart(b)) in s0.numberings
                      && ItemsFit(tpl, f.items, b.items, numId, level, s0);
    var k :| 0 <= k < |s0.numberings| && s0.numberings[k] == NewNumbering(numId, b.OrderedList?, ListStart(b));
    assert s1.numberings[k] == s0.numberings[k];
    ItemsFitStable(tpl, f.items, b.items, numId, level, s0, s1);
  }

  lemma {:induction false} ItemsFitStable(tpl: Template, fs: seq<Fragment>, items: seq<ListItem>, numId: nat, level: nat,
                                           s0: ConverterState, s1: ConverterState)
    requires ItemsFit(tpl, fs, items, numId, level, s0) && Grows(tpl, s0, s1)
    ensures ItemsFit(tpl, fs, items, numId, level, s1)
    decreases items, 1
  {
    if items != [] {
      var n := |items[0].blocks|;
      ListFragsFitStable(tpl, fs[..n], items[0].blocks, numId, level, s0, s1);
      ItemsFitStable(tpl, fs[n..], items[1..], numId, level, s0, s1);
    }
  }

  lemma {:induction false} ListFragsFitStable(tpl: Template, fs: seq<Fragment>, bs: seq<Block>, numId: nat, level: nat,
                                               s0: ConverterState, s1: ConverterState)
    requires ListFragsFit(tpl, fs, bs, numId, level, s0) && Grows(tpl, s0, s1)
    ensures ListFragsFit(tpl, fs, bs, numId, level, s1)
    decreases bs, 1
  {
    forall k | 0 <= k < |fs|
      ensures ListFragFit(tpl, fs[k], bs[k], numId, level, s1)
    {
      ListFragFitStable(tpl, fs[k], bs[k], numId, level, s0, s1);
    }
  }

  lemma {:induction false} ListFragFitStable(tpl: Template, f: Fragment, blk: Block, numId: nat, level: nat,
                                              s0: ConverterState, s1: ConverterState)
    requires ListFragFit(tpl, f, blk, numId, level, s0) && Grows(tpl, s0, s1)
    ensures ListFragFit(tpl, f, blk, numId, level, s1)
    decreases blk, 4
  {
    if blk.Para? || blk.Plain? {
      ListParaPrStable(tpl, f.paraPrId, numId, level, s0.paraPrs, s1.paraPrs);
      InlinesFitStable(tpl, f.runs, blk.inlines, 0, {}, s0, s1);
    } else if blk.BulletList? || blk.OrderedList? {
      ListFitStable(tpl, f, blk, level + 1, numId, s0, s1);
    } else if Handles(blk) {
      BlockFitStable(tpl, f.items[0], blk, s0, s1);
    }
  }

  lemma {:induction false} TableContentStable(tpl: Template, out: seq<seq<TableCell>>, b: Block, rows: seq<Row>,
                                               s0: ConverterState, s1: ConverterState)
    requires b.Table? && TableContentFits(tpl, out, b, rows, s0) && Grows(tpl, s0, s1)
    ensures TableContentFits(tpl, out, b, rows, s1)
    decreases b, 2
  {
    forall i | 0 <= i < |rows| && i < |out|
      ensures RowContentFits(tpl, out[i], b, rows[i], s1)
    {
      RowContentStable(tpl, out[i], b, rows[i], s0, s1);
    }
  }

  lemma {:induction false} RowContentStable(tpl: Template, cs: seq<TableCell>, b: Block, row: Row,
                                             s0: ConverterState, s1: ConverterState)
    requires b.Table? && RowContentFits(tpl, cs, b, row, s0) && Grows(tpl, s0, s1)
    ensures RowContentFits(tpl, cs, b, row, s1)
    decreases b, 1
  {
    forall j | 0 <= j < |row.cells| && j < |cs|
      ensures CellContentFit(tpl, cs[j].content, b, row, row.cells[j], s1)
    {
      CellContentStable(tpl, cs[j].content, b, row, row.cells[j], s0, s1);
    }
  }

  lemma {:induction false} CellContentStable(tpl: Template, content: seq<Fragment>, b: Block, row: Row, c: Cell,
                                              s0: ConverterState, s1: ConverterState)
    requires b.Table? && c in row.cells
    requires CellContentFit(tpl, content, b, row, c, s0) && Grows(tpl, s0, s1)
    ensures CellContentFit(tpl, content, b, row, c, s1)
    decreases b, 0
  {
    if row in b.head || row in b.foot {
      BlocksFitStable(tpl, content, c.blocks, s0, s1);
    } else {
      var k :| 0 <= k < |b.bodies| && (row in b.bodies[k].interHeaders || row in b.bodies[k].mainRows);
      if row in b.bodies[k].interHeaders {
        BlocksFitStable(tpl, content, c.blocks, s0, s1);
      } else {
        BlocksFitStable(tpl, content, c.blocks, s0, s1);
      }
    }
  }

  // ---------------------------------------------------------------------
  // Fitting output grows one element at a time. The lemmas without a body
  // are kept apart from the walking methods that call them so that each
  // method's proof stays within the resource budget.

  lemma {:induction false} InlinesFitSnoc(tpl: Template, runs: seq<Run>, xs: seq<Inline>, more: seq<Run>, x: Inline,
                                           base: nat, fmts: set<Format>, s: ConverterState)
    requires InlinesFit(tpl, runs, xs, base, fmts, s) && InlineFit(tpl, more, x, base, fmts, s)
    ensures InlinesFit(tpl, runs + more, xs + [x], base, fmts, s)
    decreases |xs|
  {
    if xs == [] {
      InlineFitPieces(tpl, more, x, base, fmts, s);
      assert runs + more == more && (runs + more)[..|more|] == more && (runs + more)[|more|..] == [];
      assert xs + [x] == [x] && [x][1..] == [];
    } else {
      var n := |PiecesOf(xs[0], fmts)|;
      assert (xs + [x])[0] == xs[0] && (xs + [x])[1..] == xs[1..] + [x];
      assert (runs + more)[..n] == runs[..n] && (runs + more)[n..] == runs[n..] + more;
      InlinesFitSnoc(tpl, runs[n..], xs[1..], more, x, base, fmts, s);
    }
  }

  lemma {:induction false} BlocksFitSnoc(tpl: Template, fs: seq<Fragment>, bs: seq<Block>, f: Option<Fragment>, b: Block,
                                          s: ConverterState)
    requires BlocksFit(tpl, fs, bs, s)
    requires (f.Some? <==> Handles(b)) && (f.Some? ==> BlockFit(tpl, f.value, b, s))
    ensures BlocksFit(tpl, fs + (if f.Some? then [f.value] else []), bs + [b], s)
    decreases |bs|
  {
    var more := if f.Some? then [f.value] else [];
    if bs == [] {
      assert fs + more == more && bs + [b] == [b] && [b][1..] == [];
      if f.Some? {
        assert more[1..] == [];
      }
    } else {
      assert (bs + [b])[0] == bs[0] && (bs + [b])[1..] == bs[1..] + [b];
      if Handles(bs[0]) {
        assert (fs + more)[0] == fs[0] && (fs + more)[1..] == fs[1..] + more;
        BlocksFitSnoc(tpl, fs[1..], bs[1..], f, b, s);
      } else {
        BlocksFitSnoc(tpl, fs, bs[1..], f, b, s);
      }
    }
  }

  lemma {:induction false} ItemsFitSnoc(tpl: Template, fs: seq<Fragment>, items: seq<ListItem>, more: seq<Fragment>,
                                         item: ListItem, numId: nat, level: nat, s: ConverterState)
    requires ItemsFit(tpl, fs, items, numId, level, s) && ListFragsFit(tpl, more, item.blocks, numId, level, s)
    ensures ItemsFit(tpl, fs + more, items + [item], numId, level, s)
    decreases |items|
  {
    if items == [] {
      assert fs + more == more && (fs + more)[..|more|] == more && (fs + more)[|more|..] == [];
      assert items + [item] == [item] && [item][1..] == [];
    } else {
      var n := |items[0].blocks|;
      assert (items + [item])[0] == items[0] && (items + [item])[1..] == items[1..] + [item];
      assert (fs + more)[..n] == fs[..n] && (fs + more)[n..] == fs[n..] + more;
      ItemsFitSnoc(tpl, fs[n..], items[1..], more, item, numId, level, s);
    }
  }

  lemma ListFragsFitSnoc(tpl: Template, fs: seq<Fragment>, bs: seq<Block>, f: Fragment, b: Block,
                         numId: nat, level: nat, s: ConverterState)
    requires ListFragsFit(tpl, fs, bs, numId, level, s) && ListFragFit(tpl, f, b, numId, level, s)
    ensures ListFragsFit(tpl, fs + [f], bs + [b], numId, level, s)
  {
    forall k | 0 <= k < |fs| + 1
      ensures ListFragFit(tpl, (fs + [f])[k], (bs + [b])[k], numId, level, s)
    {
      if k < |fs| {
        assert (fs + [f])[k] == fs[k] && (bs + [b])[k] == bs[k];
      }
    }
  }

  lemma RowContentSnoc(tpl: Template, cs: seq<TableCell>, c: TableCell, b: Block, row: Row, s: ConverterState)
    requires b.Table? && |cs| < |row.cells| && RowContentFits(tpl, cs, b, row, s)
    requires CellContentFit(tpl, c.content, b, row, row.cells[|cs|], s)
    ensures RowContentFits(tpl, cs + [c], b, row, s)
  {
    forall j | 0 <= j < |row.cells| && j < |cs| + 1
      ensures CellContentFit(tpl, (cs + [c])[j].content, b, row, row.cells[j], s)
    {
      if j < |cs| {
        assert (cs + [c])[j] == cs[j];
      }
    }
  }

  lemma TableContentSnoc(tpl: Template, out: seq<seq<TableCell>>, cs: seq<TableCell>, b: Block, rows: seq<Row>, s: ConverterState)
    requires b.Table? && |out| < |rows| && TableContentFits(tpl, out, b, rows, s)
    requires RowContentFits(tpl, cs, b, rows[|out|], s)
    ensures TableContentFits(tpl, out + [cs], b, rows, s)
  {
    forall i | 0 <= i < |rows| && i < |out| + 1
      ensures RowContentFits(tpl, (out + [cs])[i], b, rows[i], s)
    {
      if i < |out| {
        assert (out + [cs])[i] == out[i];
      }
    }
  }

  // ---------------------------------------------------------------------
  // One step of each walking loop: what fitted before still fits in the
  // grown state, the new output fits the next element, and the images of
  // the longer prefix are those of the shorter one followed by the element's.
  // Split from the walking methods, like the lemmas above, to keep each
  // method's proof small.

  lemma InlinesFitStep(tpl: Template, runs: seq<Run>, xs: seq<Inline>, i: nat, more: seq<Run>,
                       base: nat, fmts: set<Format>, s0: ConverterState, s1: ConverterState)
    requires i < |xs| && Grows(tpl, s0, s1)
    requires InlinesFit(tpl, runs, xs[..i], base, fmts, s0) && InlineFit(tpl, more, xs[i], base, fmts, s1)
    ensures InlinesFit(tpl, runs + more, xs[..i + 1], base, fmts, s1)
  {
    InlinesFitStable(tpl, runs, xs[..i], base, fmts, s0, s1);
    InlinesFitSnoc(tpl, runs, xs[..i], more, xs[i], base, fmts, s1);
    assert xs[..i + 1] == xs[..i] + [xs[i]];
  }

  lemma BlocksFitStep(tpl: Template, fs: seq<Fragment>, bs: seq<Block>, i: nat, f: Option<Fragment>,
                      s0: ConverterState, s1: ConverterState)
    requires i < |bs| && Grows(tpl, s0, s1) && BlocksFit(tpl, fs, bs[..i], s0)
    requires (f.Some? <==> Handles(bs[i])) && (f.Some? ==> BlockFit(tpl, f.value, bs[i], s1))
    ensures BlocksFit(tpl, fs + (if f.Some? then [f.value] else []), bs[..i + 1], s1)
  {
    BlocksFitStable(tpl, fs, bs[..i], s0, s1);
    BlocksFitSnoc(tpl, fs, bs[..i], f, bs[i], s1);
    assert bs[..i + 1] == bs[..i] + [bs[i]];
  }

  lemma ItemsFitStep(tpl: Template, fs: seq<Fragment>, items: seq<ListItem>, i: nat, more: seq<Fragment>,
                     numId: nat, level: nat, s0: ConverterState, s1: ConverterState)
    requires i < |items| && Grows(tpl, s0, s1) && ItemsFit(tpl, fs, items[..i], numId, level, s0)
    requires ListFragsFit(tpl, more, items[i].blocks, numId, level, s1)
    ensures ItemsFit(tpl, fs + more, items[..i + 1], numId, level, s1)
  {
    ItemsFitStable(tpl, fs, items[..i], numId, level, s0, s1);
    ItemsFitSnoc(tpl, fs, items[..i], more, items[i], numId, level, s1);
    assert items[..i + 1] == items[..i] + [items[i]];
  }

  lemma ListFragsFitStep(tpl: Template, fs: seq<Fragment>, bs: seq<Block>, i: nat, f: Fragment,
                         numId: nat, level: nat, s0: ConverterState, s1: ConverterState)
    requires i < |bs| && Grows(tpl, s0, s1) && ListFragsFit(tpl, fs, bs[..i], numId, level, s0)
    requires ListFragFit(tpl, f, bs[i], numId, level, s1)
    ensures ListFragsFit(tpl, fs + [f], bs[..i + 1], numId, level, s1)
  {
    ListFragsFitStable(tpl, fs, bs[..i], numId, level, s0, s1);
    ListFragsFitSnoc(tpl, fs, bs[..i], f, bs[i], numId, level, s1);
    assert bs[..i + 1] == bs[..i] + [bs[i]];
  }

  lemma RowContentStep(tpl: Template, cs: seq<TableCell>, c: TableCell, b: Block, row: Row,
                       s0: ConverterState, s1: ConverterState)
    requires b.Table? && |cs| < |row.cells| && Grows(tpl, s0, s1) && RowContentFits(tpl, cs, b, row, s0)
    requires CellContentFit(tpl, c.content, b, row, row.cells[|cs|], s1)
    ensures RowContentFits(tpl, cs + [c], b, row, s1)
  {
    RowContentStable(tpl, cs, b, row, s0, s1);
    RowContentSnoc(tpl, cs, c, b, row, s1);
  }

  lemma TableContentStep(tpl: Template, out: seq<seq<TableCell>>, cs: seq<TableCell>, b: Block, rows: seq<Row>,
                         s0: ConverterState, s1: ConverterState)
    requires b.Table? && |out| < |rows| && Grows(tpl, s0, s1) && TableContentFits(tpl, out, b, rows, s0)
    requires RowContentFits(tpl, cs, b, rows[|out|], s1)
    ensures TableContentFits(tpl, out + [cs], b, rows, s1)
  {
    TableContentStable(tpl, out, b, rows, s0, s1);
    TableContentSnoc(tpl, out, cs, b, rows, s1);
  }

  // The registry after one more element: the images registered before the
  // loop, then those of the longer prefix

  lemma InlinesImagesStep(xs: seq<Inline>, i: nat, before: seq<ImageEntry>, mid: seq<ImageEntry>, after: seq<ImageEntry>)
    requires i < |xs| && mid == before + InlinesImages(xs[..i]) && after == mid + InlineImages(xs[i])
    ensures after == before + InlinesImages(xs[..i + 1])
  {
    InlinesImagesAppend(xs[..i], [xs[i]]);
    assert [xs[i]][1..] == [];
    assert xs[..i + 1] == xs[..i] + [xs[i]];
  }

  lemma BlocksImagesStep(xs: seq<Block>, i: nat, before: seq<ImageEntry>, mid: seq<ImageEntry>, after: seq<ImageEntry>)
    requires i < |xs| && mid == before + BlocksImages(xs[..i]) && after == mid + BlockImages(xs[i])
    ensures after == before + BlocksImages(xs[..i + 1])
  {
    BlocksImagesAppend(xs[..i], [xs[i]]);
    assert [xs[i]][1..] == [];
    assert xs[..i + 1] == xs[..i] + [xs[i]];
  }

  lemma ItemsImagesStep(xs: seq<ListItem>, i: nat, before: seq<ImageEntry>, mid: seq<ImageEntry>, after: seq<ImageEntry>)
    requires i < |xs| && mid == before + ItemsImages(xs[..i]) && after == mid + BlocksImages(xs[i].blocks)
    ensures after == before + ItemsImages(xs[..i + 1])
  {
    ItemsImagesAppend(xs[..i], [xs[i]]);
    assert [xs[i]][1..] == [];
    assert xs[..i + 1] == xs[..i] + [xs[i]];
  }

  lemma RowsImagesStep(xs: seq<Row>, i: nat, before: seq<ImageEntry>, mid: seq<ImageEntry>, after: seq<ImageEntry>)
    requires i < |xs| && mid == before + RowsImages(xs[..i]) && after == mid + CellsImages(xs[i].cells)
    ensures after == before + RowsImages(xs[..i + 1])
  {
    RowsImagesAppend(xs[..i], [xs[i]]);
    assert [xs[i]][1..] == [];
    assert xs[..i + 1] == xs[..i] + [xs[i]];
  }

  lemma CellsImagesStep(xs: seq<Cell>, i: nat, before: seq<ImageEntry>, mid: seq<ImageEntry>, after: seq<ImageEntry>)
    requires i < |xs| && mid == before + CellsImages(xs[..i]) && after == mid + BlocksImages(xs[i].blocks)
    ensures after == before + CellsImages(xs[..i + 1])
  {
    CellsImagesAppend(xs[..i], [xs[i]]);
    assert [xs[i]][1..] == [];
    assert xs[..i + 1] == xs[..i] + [xs[i]];
  }

  // ---------------------------------------------------------------------
  // What fitting output implies

  /** The runs of a link's text, bracketed by the field begin and end runs, fit the link's pieces. */
  lemma LinkRunsFit(tpl: Template, x: Inline, fmts: set<Format>, runs: seq<Run>, base: nat,
                    cache: map<CacheKey, nat>, images: seq<ImageEntry>)
    requires x.Link?
    requires RunsFit(tpl, runs, Pieces(x.content, fmts + {UNDERLINE, COLOR_BLUE}), base, cache, images)
    ensures RunsFit(tpl, [FieldBeginRun(x.target, LinkCommand(x.target))] + runs + [FieldEndRun], PiecesOf(x, fmts), base, cache, images)
  {
    var begin := [FieldBeginRun(x.target, LinkCommand(x.target))];
    var ps := Pieces(x.content, fmts + {UNDERLINE, COLOR_BLUE});
    RunsFitAppend(tpl, begin, [FieldBeginPiece(x.target)], runs, ps, base, cache, images);
    RunsFitAppend(tpl, begin + runs, [FieldBeginPiece(x.target)] + ps, [FieldEndRun], [FieldEndPiece], base, cache, images);
  }

  /**
    Runs that fit an inline are the runs of its pieces in the inline walk:
    one run per piece, in order, each with the character property chosen
    for the piece's formats.
   */
  lemma {:induction false} InlineFitPieces(tpl: Template, runs: seq<Run>, x: Inline, base: nat, fmts: set<Format>, s: ConverterState)
    requires InlineFit(tpl, runs, x, base, fmts, s)
    ensures RunsFit(tpl, runs, PiecesOf(x, fmts), base, s.charPrCache, s.images)
    decreases x, 0
  {
    if x.Strong? || x.Emph? || x.Underline? || x.Superscript? || x.Subscript? {
      InlinesFitPieces(tpl, runs, x.content, base, fmts + WrapperFlag(x), s);
    } else if x.Link? {
      var mid := runs[1..|runs| - 1];
      InlinesFitPieces(tpl, mid, x.content, base, fmts + WrapperFlag(x), s);
      LinkRunsFit(tpl, x, fmts, mid, base, s.charPrCache, s.images);
      assert runs == [FieldBeginRun(x.target, LinkCommand(x.target))] + mid + [FieldEndRun];
    }
  }

  lemma {:induction false} InlinesFitPieces(tpl: Template, runs: seq<Run>, xs: seq<Inline>, base: nat, fmts: set<Format>, s: ConverterState)
    requires InlinesFit(tpl, runs, xs, base, fmts, s)
    ensures RunsFit(tpl, runs, Pieces(xs, fmts), base, s.charPrCache, s.images)
    decreases xs, 1
  {
    if xs != [] {
      var n := |PiecesOf(xs[0], fmts)|;
      InlineFitPieces(tpl, runs[..n], xs[0], base, fmts, s);
      InlinesFitPieces(tpl, runs[n..], xs[1..], base, fmts, s);
      RunsFitAppend(tpl, runs[..n], PiecesOf(xs[0], fmts), runs[n..], Pieces(xs[1..], fmts), base, s.charPrCache, s.images);
      assert runs == runs[..n] + runs[n..];
    }
  }

  /**
    Bold text whose base has a template record to derive from (the base,
    else record 0) is written as one text run with a character property
    that is recorded and shows bold.
   */
  lemma BoldRunShowsBold(tpl: Template, runs: seq<Run>, t: string, base: nat, s: ConverterState)
    requires Consistent(tpl, s) && tpl.hasCharProperties && CloneSource(tpl.charPrs, base).Some?
    requires InlineFit(tpl, runs, Strong([Str(t)]), base, {}, s)
    ensures |runs| == 1 && runs[0].TextRun? && runs[0].text == t
    ensures ShowsVariant(s.charPrs, runs[0].charPrId, {BOLD})
  {
    var x := Strong([Str(t)]);
    InlineFitPieces(tpl, runs, x, base, {}, s);
    assert Pieces([Str(t)], {BOLD}) == [TextPiece(t, {BOLD})];
    assert PiecesOf(x, {}) == [TextPiece(t, {BOLD})];
    assert RunFits(tpl, runs[0], TextPiece(t, {BOLD}), base, s.charPrCache, s.images);
    assert tpl.hasHeader;
    assert (base, {BOLD}) in s.charPrCache && s.charPrCache[(base, {BOLD})] == runs[0].charPrId;
    CachedVariantShows(tpl, s, (base, {BOLD}));
  }

  /** A cached variant is recorded and shows its key's formats. */
  lemma CachedVariantShows(tpl: Template, s: ConverterState, key: CacheKey)
    requires Consistent(tpl, s) && tpl.hasCharProperties && key in s.charPrCache
    ensures ShowsVariant(s.charPrs, s.charPrCache[key], key.1)
  {
    assert CacheSound(tpl, s.charPrs, s.maxCharPrId, s.charPrCache);
  }

  /** A fitting fragment is of the kind its block calls for. */
  lemma BlockFitKind(tpl: Template, f: Fragment, b: Block, s: ConverterState)
    requires BlockFit(tpl, f, b, s)
    ensures KindMatches(f, b)
  {
  }

  /** Fitting fragments match the written blocks one for one, each of the kind its block calls for. */
  lemma {:induction false} BlocksFitKinds(tpl: Template, fs: seq<Fragment>, bs: seq<Block>, s: ConverterState)
    requires BlocksFit(tpl, fs, bs, s)
    ensures FragsMatch(fs, Handled(bs))
    decreases |bs|
  {
    if bs != [] {
      if Handles(bs[0]) {
        BlockFitKind(tpl, fs[0], bs[0], s);
        BlocksFitKinds(tpl, fs[1..], bs[1..], s);
        assert fs == [fs[0]] + fs[1..];
      } else {
        BlocksFitKinds(tpl, fs, bs[1..], s);
      }
    }
  }
}
