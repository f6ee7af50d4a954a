/**
  What the converter writes and when it fails: output runs and fragments,
  the resolved template it works from, the style a heading or body
  paragraph is written with, and the conditions under which converting a
  document tree succeeds.
 */
module ConversionSpec {
  import opened Wrappers
  import opened DocTree
  import opened TextHelpers
  import opened HeaderModel
  import opened StyleResolver
  import opened Placeholders
  import opened InlineWalk
  import opened TableLayout

  /** An entry of the image registry: the image's path and the extension chosen for it. */
  datatype ImageEntry = ImageEntry(path: string, ext: string)

  /** A run of a paragraph. Field, footnote runs use character property 0. */
  datatype Run =
    | TextRun(text: string, charPrId: nat)
    | LineBreakRun(charPrId: nat)
    | FieldBeginRun(path: string, command: string)
    | FieldEndRun
    | FootnoteRun(body: seq<Fragment>)
    | PictureRun(charPrId: nat, image: nat)

  datatype TableCell = TableCell(place: Placement, width: nat, borderFillId: nat, content: seq<Fragment>)

  datatype TableOut = TableOut(rowCnt: nat, colCnt: nat, width: nat, height: nat, borderFillId: nat, rows: seq<seq<TableCell>>)

  /**
    What a block turns into: a paragraph, a table (inside a paragraph with
    one run), the joined output of a list, or the empty text of a table
    without rows.
   */
  datatype Fragment =
    | ParaFrag(styleId: int, paraPrId: nat, columnBreak: bool, runs: seq<Run>)
    | TableFrag(styleId: int, paraPrId: nat, table: TableOut)
    | GroupFrag(items: seq<Fragment>)
    | EmptyFrag

  /** Why converting the document fails. */
  datatype ConvError =
    | HeaderLevelMissing(level: int)
    | ZeroColumns
    | HeaderTemplateMissing

  /** The table border fill id the cells refer to. */
  const TABLE_BORDER_FILL_REF: nat := 3

  /**
    Everything read from the templates at start-up that stays fixed while
    converting. Without a header template there are no styles, no outline
    map, no placeholders and no table border fill. `charPrs` are the
    character properties the header template brings.
   */
  datatype Template = Template(
    hasHeader: bool,
    hasCharProperties: bool,
    hasParaProperties: bool,
    styles: seq<Style>,
    normalStyleId: nat,
    normalParaPrId: nat,
    dynamicStyleMap: map<int, OutlineStyle>,
    outlineStyleIds: map<int, nat>,
    placeholders: map<string, PlaceholderStyle>,
    tableBorderFillId: Option<nat>,
    maxCharPrId: nat,
    charPrs: seq<CharPr>)

  /** Style, paragraph property and base character property a paragraph is written with. */
  datatype Target = Target(styleId: int, paraPrId: nat, charPrId: nat)

  function FindStyleAt(styles: seq<Style>, id: int): Option<Style>
  {
    if id < 0 then None else FindStyle(styles, id)
  }

  /**
    How a heading of `level` is written: its placeholder if the template has
    one; otherwise it needs outline level `level - 1` in the outline map, and
    takes the style listed for outline level `level` (or style `level`),
    with that style's paragraph and character properties.
   */
  function HeaderTarget(tpl: Template, level: int): (r: Result<Target, ConvError>)
    ensures r.Failure? ==> r.error == HeaderLevelMissing(level)
    ensures "H" + IntToDecimal(level) in tpl.placeholders ==> r.Success? && r.value.styleId == tpl.normalStyleId
  {
    var name := "H" + IntToDecimal(level);
    if name in tpl.placeholders then
      Success(Target(tpl.normalStyleId, tpl.placeholders[name].paraPrId, tpl.placeholders[name].charPrId))
    else if level - 1 !in tpl.dynamicStyleMap then
      Failure(HeaderLevelMissing(level))
    else
      var styleId: int := if level in tpl.outlineStyleIds then tpl.outlineStyleIds[level] else level;
      match FindStyleAt(tpl.styles, styleId)
      case Some(s) => Success(Target(styleId, s.paraPrRef, s.charPrRef))
      case None => Success(Target(styleId, tpl.normalParaPrId, 0))
  }

  /** How body text (a paragraph or plain block outside lists) is written. */
  function BodyTarget(tpl: Template): (r: Target)
    ensures r.styleId == tpl.normalStyleId
    ensures "BODY" !in tpl.placeholders ==> r.paraPrId == tpl.normalParaPrId
  {
    if "BODY" in tpl.placeholders then
      Target(tpl.normalStyleId, tpl.placeholders["BODY"].paraPrId, tpl.placeholders["BODY"].charPrId)
    else
      Target(tpl.normalStyleId, tpl.normalParaPrId,
        match FindStyle(tpl.styles, tpl.normalStyleId) { case Some(s) => s.charPrRef case None => 0 })
  }

  /**
    On a template whose outline levels are exactly 0 to n-1 and which has
    no heading placeholder, heading level L is accepted exactly for 1 <= L <= n,
    and is written with the style of outline level L, one below the level
    that was checked (the last level, L = n, falls back to style id n).
   */
  lemma HeaderStyleQuirk(tpl: Template, level: int)
    requires Contiguous(tpl.dynamicStyleMap.Keys)
    requires tpl.outlineStyleIds.Keys == tpl.dynamicStyleMap.Keys
    requires "H" + IntToDecimal(level) !in tpl.placeholders
    ensures HeaderTarget(tpl, level).Success? <==> 1 <= level <= |tpl.dynamicStyleMap.Keys|
    ensures 1 <= level < |tpl.dynamicStyleMap.Keys| ==>
      level in tpl.outlineStyleIds && HeaderTarget(tpl, level).value.styleId == tpl.outlineStyleIds[level]
    ensures level == |tpl.dynamicStyleMap.Keys| >= 1 ==> HeaderTarget(tpl, level).value.styleId == level
  {
    ContiguousIsRange(tpl.dynamicStyleMap.Keys);
    assert level - 1 in tpl.dynamicStyleMap.Keys <==> 0 <= level - 1 < |tpl.dynamicStyleMap.Keys|;
    assert level in tpl.outlineStyleIds.Keys <==> 0 <= level < |tpl.dynamicStyleMap.Keys|;
  }

  // ---------------------------------------------------------------------
  // When conversion succeeds

  predicate InlinesOk(tpl: Template, xs: seq<Inline>)
    decreases xs, 1
  {
    forall i :: 0 <= i < |xs| ==> InlineOk(tpl, xs[i])
  }

  /** Inline content fails only through a footnote body. */
  predicate InlineOk(tpl: Template, x: Inline)
    decreases x
  {
    match x
    case Strong(c) => InlinesOk(tpl, c)
    case Emph(c) => InlinesOk(tpl, c)
    case Underline(c) => InlinesOk(tpl, c)
    case Superscript(c) => InlinesOk(tpl, c)
    case Subscript(c) => InlinesOk(tpl, c)
    case Link(c, _) => InlinesOk(tpl, c)
    case Note(bs) => BlocksOk(tpl, bs)
    case _ => true
  }

  predicate BlocksOk(tpl: Template, bs: seq<Block>)
    decreases bs, 1
  {
    forall i :: 0 <= i < |bs| ==> BlockOk(tpl, bs[i])
  }

  /**
    A heading needs a placeholder or its outline level; a list needs a
    header template; a table needs, for every cell, a column specification
    when the cell spans a column, a header template for the border fill,
    and convertible content.
   */
  predicate BlockOk(tpl: Template, b: Block)
    decreases b
  {
    match b
    case Header(level, xs) => HeaderTarget(tpl, level).Success? && InlinesOk(tpl, xs)
    case Para(xs) => InlinesOk(tpl, xs)
    case Plain(xs) => InlinesOk(tpl, xs)
    case BulletList(items) => tpl.hasHeader && ItemsOk(tpl, items)
    case OrderedList(_, items) => tpl.hasHeader && ItemsOk(tpl, items)
    case Table(colCnt, head, bodies, foot) =>
      && RowsOk(tpl, colCnt, head)
      && (forall k :: 0 <= k < |bodies| ==> RowsOk(tpl, colCnt, bodies[k].interHeaders) && RowsOk(tpl, colCnt, bodies[k].mainRows))
      && RowsOk(tpl, colCnt, foot)
    case _ => true
  }

  predicate ItemsOk(tpl: Template, items: seq<ListItem>)
    decreases items
  {
    forall i, j :: 0 <= i < |items| && 0 <= j < |items[i].blocks| ==> BlockOk(tpl, items[i].blocks[j])
  }

  predicate RowsOk(tpl: Template, colCnt: nat, rows: seq<Row>)
    decreases rows
  {
    forall i :: 0 <= i < |rows| ==> RowCellsOk(tpl, colCnt, rows[i])
  }

  predicate RowCellsOk(tpl: Template, colCnt: nat, row: Row)
    decreases row
  {
    forall j :: 0 <= j < |row.cells| ==> CellOk(tpl, colCnt, row.cells[j])
  }

  predicate CellOk(tpl: Template, colCnt: nat, cell: Cell)
    decreases cell
  {
    (colCnt > 0 || cell.colSpan == 0) && tpl.hasHeader && BlocksOk(tpl, cell.blocks)
  }

  lemma {:induction false} RowsOkAppend(tpl: Template, colCnt: nat, a: seq<Row>, b: seq<Row>)
    ensures RowsOk(tpl, colCnt, a + b) <==> RowsOk(tpl, colCnt, a) && RowsOk(tpl, colCnt, b)
  {
    if RowsOk(tpl, colCnt, a) && RowsOk(tpl, colCnt, b) {
      forall i | 0 <= i < |a + b|
        ensures RowCellsOk(tpl, colCnt, (a + b)[i])
      {
        if i < |a| { assert (a + b)[i] == a[i]; } else { assert (a + b)[i] == b[i - |a|]; }
      }
    }
    if RowsOk(tpl, colCnt, a + b) {
      forall i | 0 <= i < |a|
        ensures RowCellsOk(tpl, colCnt, a[i])
      {
        assert (a + b)[i] == a[i];
      }
      forall i | 0 <= i < |b|
        ensures RowCellsOk(tpl, colCnt, b[i])
      {
        assert (a + b)[|a| + i] == b[i];
      }
    }
  }

  lemma {:induction false} BodyRowsOk(tpl: Template, colCnt: nat, bodies: seq<TableBody>)
    ensures RowsOk(tpl, colCnt, BodyRows(bodies)) <==>
      forall k :: 0 <= k < |bodies| ==> RowsOk(tpl, colCnt, bodies[k].interHeaders) && RowsOk(tpl, colCnt, bodies[k].mainRows)
    decreases |bodies|
  {
    if bodies != [] {
      var init := bodies[..|bodies| - 1];
      var last := bodies[|bodies| - 1];
      BodyRowsOk(tpl, colCnt, init);
      RowsOkAppend(tpl, colCnt, BodyRows(init) + last.interHeaders, last.mainRows);
      RowsOkAppend(tpl, colCnt, BodyRows(init), last.interHeaders);
      assert forall k :: 0 <= k < |init| ==> init[k] == bodies[k];
    }
  }

  /** A table succeeds exactly when every cell of its flattened rows does. */
  lemma TableOkFlat(tpl: Template, colCnt: nat, head: seq<Row>, bodies: seq<TableBody>, foot: seq<Row>)
    ensures BlockOk(tpl, Table(colCnt, head, bodies, foot)) <==> RowsOk(tpl, colCnt, head + BodyRows(bodies) + foot)
  {
    BodyRowsOk(tpl, colCnt, bodies);
    RowsOkAppend(tpl, colCnt, head + BodyRows(bodies), foot);
    RowsOkAppend(tpl, colCnt, head, BodyRows(bodies));
  }

  // ---------------------------------------------------------------------
  // Fragments against blocks

  /** The kinds of block the converter writes; every other kind is skipped. */
  predicate Handles(b: Block)
  {
    b.Header? || b.Para? || b.Plain? || b.BulletList? || b.OrderedList? || b.CodeBlock? || b.Table?
  }

  /** The blocks of `bs` that are written, in order. */
  function Handled(bs: seq<Block>): (r: seq<Block>)
    ensures |r| <= |bs|
    ensures forall k :: 0 <= k < |r| ==> Handles(r[k]) && r[k] in bs
    ensures forall b :: b in bs && Handles(b) ==> b in r
    decreases |bs|
  {
    if bs == [] then []
    else
      var rest := Handled(bs[1..]);
      assert forall b :: b in bs[1..] ==> b in bs;
      if Handles(bs[0]) then [bs[0]] + rest else rest
  }

  /**
    The kind of fragment a written block turns into: a paragraph for
    headings, paragraphs, plain blocks and code; the joined output of a
    list; a table, or the empty text of a table without rows.
   */
  predicate KindMatches(f: Fragment, b: Block)
  {
    match b
    case Header(_, _) => f.ParaFrag?
    case Para(_) => f.ParaFrag? && !f.columnBreak
    case Plain(_) => f.ParaFrag? && !f.columnBreak
    case CodeBlock(_) => f.ParaFrag? && !f.columnBreak
    case BulletList(_) => f.GroupFrag?
    case OrderedList(_, _) => f.GroupFrag?
    case Table(_, head, bodies, foot) => if head + BodyRows(bodies) + foot == [] then f == EmptyFrag else f.TableFrag?
    case _ => false
  }

  predicate FragsMatch(fs: seq<Fragment>, bs: seq<Block>)
  {
    |fs| == |bs| && forall k :: 0 <= k < |fs| ==> KindMatches(fs[k], bs[k])
  }

  /**
    `id` is the paragraph property of a list paragraph for numbering `numId`
    at `level`: the normal one when the template lacks it, and otherwise a
    list clone of it that is recorded in `paraPrs` whenever the paragraph
    property container exists.
   */
  predicate ListParaPrFits(tpl: Template, id: nat, numId: nat, level: nat, paraPrs: seq<ParaPr>)
  {
    match FindParaPr(paraPrs, tpl.normalParaPrId)
    case None => id == tpl.normalParaPrId
    case Some(base) => tpl.hasParaProperties ==> FindParaPr(paraPrs, id) == Some(ListParaPr(base, id, numId, level))
  }

  /** Does some record of `ps` have id `id`? */
  predicate HasParaPrId(ps: seq<ParaPr>, id: nat)
    decreases |ps|
  {
    ps != [] && (ps[0].id == id || HasParaPrId(ps[1..], id))
  }

  lemma {:induction false} HasParaPrIdFind(ps: seq<ParaPr>, id: nat)
    ensures HasParaPrId(ps, id) <==> FindParaPr(ps, id).Some?
    decreases |ps|
  {
    if ps != [] {
      HasParaPrIdFind(ps[1..], id);
    }
  }

  /** Paragraph properties only grow, and never appear while the normal one is missing. */
  predicate ParaPrsGrow(tpl: Template, p0: seq<ParaPr>, p1: seq<ParaPr>)
  {
    p0 <= p1 && (p1 != p0 ==> HasParaPrId(p0, tpl.normalParaPrId))
  }

  lemma ListParaPrStable(tpl: Template, id: nat, numId: nat, level: nat, p0: seq<ParaPr>, p1: seq<ParaPr>)
    requires ListParaPrFits(tpl, id, numId, level, p0) && ParaPrsGrow(tpl, p0, p1)
    ensures ListParaPrFits(tpl, id, numId, level, p1)
  {
    HasParaPrIdFind(p0, tpl.normalParaPrId);
    if FindParaPr(p0, tpl.normalParaPrId).Some? {
      FirstKeyedGrow(p0, p1, ParaPrKey, tpl.normalParaPrId);
      if tpl.hasParaProperties {
        FirstKeyedGrow(p0, p1, ParaPrKey, id);
      }
    }
  }

  /** The placements of a table's cells, row by row. */
  function Places(rows: seq<seq<TableCell>>): (r: seq<seq<Placement>>)
    ensures |r| == |rows| && forall i :: 0 <= i < |rows| ==> |r[i]| == |rows[i]|
  {
    seq(|rows|, i requires 0 <= i < |rows| => seq(|rows[i]|, j requires 0 <= j < |rows[i]| => rows[i][j].place))
  }

  /**
    A written cell: placed at `p`, as wide as the columns it spans at the
    even column width, with the table border fill.
   */
  predicate CellFits(tpl: Template, c: TableCell, cell: Cell, p: Placement, colCnt: nat)
  {
    && c.place == p
    && c.width == p.colSpan * (if colCnt == 0 then 0 else TOTAL_TABLE_WIDTH / colCnt)
    && tpl.tableBorderFillId == Some(c.borderFillId)
  }

  predicate RowFits(tpl: Template, cs: seq<TableCell>, row: Row, rowPs: seq<Placement>, colCnt: nat)
  {
    && |cs| == |row.cells| == |rowPs|
    && forall j :: 0 <= j < |cs| ==> CellFits(tpl, cs[j], row.cells[j], rowPs[j], colCnt)
  }

  /**
    A written table for the flattened `rows`: as many rows as were
    flattened, one column per specification, the fixed width, 1000 per row
    of height, border fill 3, and its cells laid out as the placement rules
    say.
   */
  ghost predicate TableFits(tpl: Template, t: TableOut, rows: seq<Row>, colCnt: nat)
  {
    && t.rowCnt == |rows| && t.colCnt == colCnt
    && t.width == TOTAL_TABLE_WIDTH && t.height == |rows| * ROW_HEIGHT
    && t.borderFillId == TABLE_BORDER_FILL_REF
    && |t.rows| == |rows|
    && IsLayout(rows, Places(t.rows))
    && forall i :: 0 <= i < |rows| ==> RowFits(tpl, t.rows[i], rows[i], Places(t.rows)[i], colCnt)
  }

  // ---------------------------------------------------------------------
  // Runs against pieces

  type CacheKey = (nat, set<Format>)

  /** The record a variant is derived from: the base, or else record 0. */
  function CloneSource(charPrs: seq<CharPr>, base: nat): Option<CharPr>
  {
    match FindCharPr(charPrs, base)
    case Some(c) => Some(c)
    case None => FindCharPr(charPrs, 0)
  }

  /** A record to derive from stays available as records are appended. */
  lemma CloneSourceGrow(a: seq<CharPr>, b: seq<CharPr>, base: nat)
    requires a <= b && CloneSource(a, base).Some?
    ensures CloneSource(b, base).Some?
  {
    if FindCharPr(a, base).Some? {
      FirstKeyedGrow(a, b, CharPrKey, base);
    } else {
      FirstKeyedGrow(a, b, CharPrKey, 0);
    }
  }

  /**
    A run's character property for base `base` under formats `fmts`: the
    base itself with no formats. With formats, where the header template
    holds a record to derive from (the base, else record 0), exactly the
    variant cached for the pair; elsewhere the base (nothing to derive
    from) or the variant cached for the pair (the base is a variant id
    handed out earlier).
   */
  predicate IdFits(tpl: Template, id: nat, base: nat, fmts: set<Format>, cache: map<CacheKey, nat>)
  {
    if fmts == {} then id == base
    else if tpl.hasHeader && CloneSource(tpl.charPrs, base).Some? then (base, fmts) in cache && cache[(base, fmts)] == id
    else id == base || ((base, fmts) in cache && cache[(base, fmts)] == id)
  }

  /** The run written for a piece. */
  predicate RunFits(tpl: Template, run: Run, p: Piece, base: nat, cache: map<CacheKey, nat>, images: seq<ImageEntry>)
  {
    match p
    case TextPiece(t, fmts) => run.TextRun? && run.text == t && IdFits(tpl, run.charPrId, base, fmts, cache)
    case BreakPiece(fmts) => run.LineBreakRun? && IdFits(tpl, run.charPrId, base, fmts, cache)
    case FieldBeginPiece(url) => run == FieldBeginRun(url, LinkCommand(url))
    case FieldEndPiece => run == FieldEndRun
    case NotePiece(_) => run.FootnoteRun?
    case PicturePiece(url, fmts) =>
      && run.PictureRun? && IdFits(tpl, run.charPrId, base, fmts, cache)
      && run.image < |images| && images[run.image] == ImageEntry(url, ImageExt(url))
  }

  predicate RunsFit(tpl: Template, runs: seq<Run>, ps: seq<Piece>, base: nat, cache: map<CacheKey, nat>, images: seq<ImageEntry>)
  {
    |runs| == |ps| && forall k :: 0 <= k < |runs| ==> RunFits(tpl, runs[k], ps[k], base, cache, images)
  }

  /** A single fitting run; named so that the leaf case states its one run in one call. */
  lemma RunsFitOne(tpl: Template, run: Run, p: Piece, base: nat, cache: map<CacheKey, nat>, images: seq<ImageEntry>)
    requires RunFits(tpl, run, p, base, cache, images)
    ensures RunsFit(tpl, [run], [p], base, cache, images)
  {
  }

  /** The cache only ever gains entries. */
  predicate CacheExtends(c0: map<CacheKey, nat>, c1: map<CacheKey, nat>)
  {
    forall key :: key in c0 ==> key in c1 && c1[key] == c0[key]
  }

  /** What runs fit keeps fitting as the cache and the image registry grow. */
  lemma RunsFitMono(tpl: Template, runs: seq<Run>, ps: seq<Piece>, base: nat,
                    c0: map<CacheKey, nat>, c1: map<CacheKey, nat>, i0: seq<ImageEntry>, i1: seq<ImageEntry>)
    requires RunsFit(tpl, runs, ps, base, c0, i0)
    requires CacheExtends(c0, c1) && i0 <= i1
    ensures RunsFit(tpl, runs, ps, base, c1, i1)
  {
    forall k | 0 <= k < |runs|
      ensures RunFits(tpl, runs[k], ps[k], base, c1, i1)
    {
      assert RunFits(tpl, runs[k], ps[k], base, c0, i0);
      match ps[k]
      case PicturePiece(url, fmts) => assert i1[runs[k].image] == i0[runs[k].image];
      case _ =>
    }
  }

  lemma RunsFitAppend(tpl: Template, r0: seq<Run>, p0: seq<Piece>, r1: seq<Run>, p1: seq<Piece>, base: nat,
                      cache: map<CacheKey, nat>, images: seq<ImageEntry>)
    requires RunsFit(tpl, r0, p0, base, cache, images) && RunsFit(tpl, r1, p1, base, cache, images)
    ensures RunsFit(tpl, r0 + r1, p0 + p1, base, cache, images)
  {
    forall k | 0 <= k < |r0 + r1|
      ensures RunFits(tpl, (r0 + r1)[k], (p0 + p1)[k], base, cache, images)
    {
      if k < |r0| {
        assert (r0 + r1)[k] == r0[k] && (p0 + p1)[k] == p0[k];
      } else {
        assert (r0 + r1)[k] == r1[k - |r0|] && (p0 + p1)[k] == p1[k - |r0|];
      }
    }
  }

  /** The placements of rows of cells that fit their rows are the placements they were written for. */
  lemma PlacesOfFits(tpl: Template, out: seq<seq<TableCell>>, rows: seq<Row>, grid: seq<seq<Placement>>, colCnt: nat)
    requires |out| == |rows| == |grid|
    requires forall i :: 0 <= i < |rows| ==> RowFits(tpl, out[i], rows[i], grid[i], colCnt)
    ensures Places(out) == grid
  {
    forall i | 0 <= i < |out|
      ensures Places(out)[i] == grid[i]
    {
      assert RowFits(tpl, out[i], rows[i], grid[i], colCnt);
    }
  }

  // ---------------------------------------------------------------------
  // The converter's changing state

  /**
    What the converter changes while converting: the header's records, the
    largest ids handed out, the cache of character property variants and
    the image registry.
   */
  datatype ConverterState = ConverterState(
    charPrs: seq<CharPr>, paraPrs: seq<ParaPr>, numberings: seq<Numbering>, borderFills: seq<BorderFill>,
    maxCharPrId: nat, maxParaPrId: nat, charPrCache: map<CacheKey, nat>, images: seq<ImageEntry>)

  /** A template read from a header has a table border fill, and record containers only come with a header. */
  predicate TemplateShape(tpl: Template)
  {
    && (tpl.hasHeader <==> tpl.tableBorderFillId.Some?)
    && (tpl.hasCharProperties || tpl.hasParaProperties ==> tpl.hasHeader)
  }

  /** The record with id `id` exists and shows `fmts`. */
  predicate ShowsVariant(charPrs: seq<CharPr>, id: nat, fmts: set<Format>)
  {
    FindCharPr(charPrs, id).Some? && ShowsFormats(FindCharPr(charPrs, id).value, fmts)
  }

  /**
    Every cached variant has a key with formats and an id above the
    template's ids, up to the largest id handed out, that no other key
    shares; where character properties are recorded, its record shows the
    key's formats.
   */
  predicate CacheSound(tpl: Template, charPrs: seq<CharPr>, maxCharPrId: nat, cache: map<CacheKey, nat>)
  {
    && (forall key :: key in cache ==> key.1 != {} && tpl.maxCharPrId < cache[key] <= maxCharPrId)
    && (forall k1, k2 :: k1 in cache && k2 in cache && cache[k1] == cache[k2] ==> k1 == k2)
    && (tpl.hasCharProperties ==> forall key :: key in cache ==> ShowsVariant(charPrs, cache[key], key.1))
  }

  /** Some cached variant has id `id`. */
  predicate IsCachedId(cache: map<CacheKey, nat>, id: nat)
  {
    exists key :: key in cache && cache[key] == id
  }

  /**
    The running largest ids bound every record id, and the cache is sound
    (and empty without a header). Where character properties are recorded,
    the records after the template's are exactly one per cache entry, each
    the variant of a cached key; elsewhere none is added.
   */
  predicate Consistent(tpl: Template, s: ConverterState)
  {
    && TemplateShape(tpl)
    && CharPrsConsistent(tpl, s.charPrs, s.maxCharPrId, s.charPrCache)
    && (forall k :: 0 <= k < |s.paraPrs| ==> s.paraPrs[k].id <= s.maxParaPrId)
  }

  /** The character property part of Consistent. */
  predicate CharPrsConsistent(tpl: Template, charPrs: seq<CharPr>, maxCharPrId: nat, cache: map<CacheKey, nat>)
  {
    && (!tpl.hasHeader ==> cache == map[])
    && tpl.charPrs <= charPrs
    && |charPrs| == |tpl.charPrs| + (if tpl.hasCharProperties then |cache| else 0)
    && (forall k :: |tpl.charPrs| <= k < |charPrs| ==> IsCachedId(cache, charPrs[k].id))
    && tpl.maxCharPrId <= maxCharPrId
    && (forall k :: 0 <= k < |charPrs| ==> charPrs[k].id <= maxCharPrId)
    && CacheSound(tpl, charPrs, maxCharPrId, cache)
  }

  /** Records, ids, cache entries and images are only ever added; border fills stay as they were. */
  predicate Grows(tpl: Template, s0: ConverterState, s1: ConverterState)
  {
    && s0.charPrs <= s1.charPrs
    && ParaPrsGrow(tpl, s0.paraPrs, s1.paraPrs)
    && s0.numberings <= s1.numberings
    && s1.borderFills == s0.borderFills
    && s0.images <= s1.images
    && s0.maxCharPrId <= s1.maxCharPrId
    && s0.maxParaPrId <= s1.maxParaPrId
    && CacheExtends(s0.charPrCache, s1.charPrCache)
  }

  /**
    The state after caching a new variant under `key`: the variant's id is
    the new largest id, and the variant is recorded when character
    properties are.
   */
  function AddVariant(tpl: Template, s: ConverterState, key: CacheKey, variant: CharPr): ConverterState
  {
    s.(charPrs := if tpl.hasCharProperties then s.charPrs + [variant] else s.charPrs,
       maxCharPrId := variant.id,
       charPrCache := s.charPrCache[key := variant.id])
  }

  /** Caching a variant with the next id that shows the key's formats keeps the state consistent and only adds to it. */
  lemma AddVariantConsistent(tpl: Template, s: ConverterState, key: CacheKey, variant: CharPr)
    requires Consistent(tpl, s) && tpl.hasHeader && key.1 != {} && key !in s.charPrCache
    requires variant.id == s.maxCharPrId + 1 && ShowsFormats(variant, key.1)
    ensures Consistent(tpl, AddVariant(tpl, s, key, variant))
    ensures Grows(tpl, s, AddVariant(tpl, s, key, variant))
  {
    if tpl.hasCharProperties {
      AddVariantShows(tpl, s, key, variant);
      AddVariantRecords(tpl, s, key, variant);
    }
    AddVariantCacheBounds(tpl, s, key, variant);
  }

  /** The appended variant keeps the template's records in front and is the record of the new cache entry. */
  lemma AddVariantRecords(tpl: Template, s: ConverterState, key: CacheKey, variant: CharPr)
    requires CharPrsConsistent(tpl, s.charPrs, s.maxCharPrId, s.charPrCache) && tpl.hasCharProperties
    requires key !in s.charPrCache
    ensures tpl.charPrs <= s.charPrs + [variant]
    ensures |s.charPrs + [variant]| == |tpl.charPrs| + |s.charPrCache[key := variant.id]|
    ensures forall k :: |tpl.charPrs| <= k < |s.charPrs + [variant]| ==>
      IsCachedId(s.charPrCache[key := variant.id], (s.charPrs + [variant])[k].id)
  {
    var rs, c := s.charPrs + [variant], s.charPrCache[key := variant.id];
    assert rs[..|tpl.charPrs|] == s.charPrs[..|tpl.charPrs|];
    forall k | |tpl.charPrs| <= k < |rs|
      ensures IsCachedId(c, rs[k].id)
    {
      if k < |s.charPrs| {
        var key0 :| key0 in s.charPrCache && s.charPrCache[key0] == s.charPrs[k].id;
        assert c[key0] == rs[k].id;
      } else {
        assert c[key] == rs[k].id;
      }
    }
  }

  /** The new entry's id is above every cached id, so the extended cache stays within bounds and injective. */
  lemma AddVariantCacheBounds(tpl: Template, s: ConverterState, key: CacheKey, variant: CharPr)
    requires Consistent(tpl, s) && key.1 != {} && key !in s.charPrCache && variant.id == s.maxCharPrId + 1
    ensures var c := s.charPrCache[key := variant.id];
      && (forall k :: k in c ==> k.1 != {} && tpl.maxCharPrId < c[k] <= variant.id)
      && (forall k1, k2 :: k1 in c && k2 in c && c[k1] == c[k2] ==> k1 == k2)
  {
  }

  /** Once the variant is recorded, every cached id, old and new, resolves to a record showing its key's formats. */
  lemma AddVariantShows(tpl: Template, s: ConverterState, key: CacheKey, variant: CharPr)
    requires Consistent(tpl, s) && tpl.hasCharProperties && key !in s.charPrCache
    requires variant.id == s.maxCharPrId + 1 && ShowsFormats(variant, key.1)
    ensures forall k :: k in s.charPrCache[key := variant.id] ==>
      ShowsVariant(s.charPrs + [variant], s.charPrCache[key := variant.id][k], k.1)
  {
    var c := s.charPrCache[key := variant.id];
    forall k | k in c
      ensures ShowsVariant(s.charPrs + [variant], c[k], k.1)
    {
      if k == key {
        FirstKeyedAppend(s.charPrs, variant, CharPrKey, variant.id);
      } else {
        assert ShowsVariant(s.charPrs, s.charPrCache[k], k.1);
        FirstKeyedPrefix(s.charPrs, [variant], CharPrKey, s.charPrCache[k]);
      }
    }
  }

  /**
    The state after adding list paragraph property `p`: its id is the new
    largest paragraph property id, and it is recorded when paragraph
    properties are.
   */
  function AddParaPr(tpl: Template, s: ConverterState, p: ParaPr): ConverterState
  {
    s.(paraPrs := if tpl.hasParaProperties then s.paraPrs + [p] else s.paraPrs, maxParaPrId := p.id)
  }

  /**
    Adding the list clone of the normal paragraph property under the next
    id keeps the state consistent, only adds to it, and makes the new id the
    list paragraph property of its numbering and level.
   */
  lemma AddListParaPrConsistent(tpl: Template, s: ConverterState, base: ParaPr, numId: nat, level: nat)
    requires Consistent(tpl, s) && FindParaPr(s.paraPrs, tpl.normalParaPrId) == Some(base)
    ensures var p := ListParaPr(base, s.maxParaPrId + 1, numId, level);
      && Consistent(tpl, AddParaPr(tpl, s, p))
      && Grows(tpl, s, AddParaPr(tpl, s, p))
      && ListParaPrFits(tpl, p.id, numId, level, AddParaPr(tpl, s, p).paraPrs)
  {
    var p := ListParaPr(base, s.maxParaPrId + 1, numId, level);
    HasParaPrIdFind(s.paraPrs, tpl.normalParaPrId);
    if tpl.hasParaProperties {
      ListParaPrRecorded(tpl, s.paraPrs, base, p, numId, level);
    }
  }

  /** Recording the list clone keeps the normal paragraph property in place and makes the new id resolve to the clone. */
  lemma ListParaPrRecorded(tpl: Template, paraPrs: seq<ParaPr>, base: ParaPr, p: ParaPr, numId: nat, level: nat)
    requires FindParaPr(paraPrs, tpl.normalParaPrId) == Some(base) && tpl.hasParaProperties
    requires p == ListParaPr(base, p.id, numId, level) && FindParaPr(paraPrs, p.id).None?
    ensures FindParaPr(paraPrs + [p], tpl.normalParaPrId) == Some(base)
    ensures ListParaPrFits(tpl, p.id, numId, level, paraPrs + [p])
  {
    FirstKeyedPrefix(paraPrs, [p], ParaPrKey, tpl.normalParaPrId);
    FirstKeyedAppend(paraPrs, p, ParaPrKey, p.id);
  }

  // ---------------------------------------------------------------------
  // Helpers for one step of the walking loops. Several of them the solver
  // proves unaided; they are separate lemmas because calling them keeps
  // each converter method's own proof within the resource budget.

  /** Growth composes across the calls made in one step. */
  lemma GrowsTrans(tpl: Template, s0: ConverterState, s1: ConverterState, s2: ConverterState)
    requires Grows(tpl, s0, s1) && Grows(tpl, s1, s2)
    ensures Grows(tpl, s0, s2)
  {
  }

  /** The items before `i + 1` convert exactly when those before `i` and item `i` do. */
  lemma ItemsOkSnoc(tpl: Template, items: seq<ListItem>, i: nat)
    requires i < |items|
    ensures ItemsOk(tpl, items[..i + 1]) <==> ItemsOk(tpl, items[..i]) && BlocksOk(tpl, items[i].blocks)
    ensures ItemsOk(tpl, items) ==> BlocksOk(tpl, items[i].blocks)
  {
    var pre, pre' := items[..i], items[..i + 1];
    assert pre'[i] == items[i];
    assert forall i' :: 0 <= i' < i ==> pre'[i'] == pre[i'];
    if ItemsOk(tpl, items) {
      forall j | 0 <= j < |items[i].blocks|
        ensures BlockOk(tpl, items[i].blocks[j])
      {
      }
    }
  }

  /** The prefix one longer is the prefix followed by the next element. */
  lemma PrefixSnoc<T>(s: seq<T>, i: nat)
    requires i < |s|
    ensures s[..i + 1] == s[..i] + [s[i]]
  {
  }

  /** A numbering id stays an id when numberings are only appended. */
  lemma NumberingIdKept(a: seq<Numbering>, b: seq<Numbering>, id: nat)
    requires a <= b && id in NumberingIds(a)
    ensures id in NumberingIds(b)
  {
    var k :| 0 <= k < |a| && NumberingIds(a)[k] == id;
    assert NumberingIds(b)[k] == id;
  }

  /** The blocks before `j + 1` convert exactly when those before `j` and block `j` do. */
  lemma BlocksOkSnoc(tpl: Template, bs: seq<Block>, j: nat)
    requires j < |bs|
    ensures BlocksOk(tpl, bs[..j + 1]) <==> BlocksOk(tpl, bs[..j]) && BlockOk(tpl, bs[j])
    ensures BlocksOk(tpl, bs) ==> BlockOk(tpl, bs[j])
  {
    assert bs[..j + 1][j] == bs[j];
    assert forall k :: 0 <= k < j ==> bs[..j + 1][k] == bs[..j][k];
  }

  /** One step of a block loop: a success extends the converting prefix, a failure fails the whole. */
  lemma BlocksStep(tpl: Template, bs: seq<Block>, j: nat, ok: bool)
    requires j < |bs| && BlocksOk(tpl, bs[..j]) && (ok <==> BlockOk(tpl, bs[j]))
    ensures ok ==> BlocksOk(tpl, bs[..j + 1])
    ensures !ok ==> !BlocksOk(tpl, bs)
  {
    BlocksOkSnoc(tpl, bs, j);
  }

  /** One step of an inline loop, as BlocksStep. */
  lemma InlinesStep(tpl: Template, xs: seq<Inline>, j: nat, ok: bool)
    requires j < |xs| && InlinesOk(tpl, xs[..j]) && (ok <==> InlineOk(tpl, xs[j]))
    ensures ok ==> InlinesOk(tpl, xs[..j + 1])
    ensures !ok ==> !InlinesOk(tpl, xs)
  {
    InlinesOkSnoc(tpl, xs, j);
  }

  /** The inlines before `j + 1` convert exactly when those before `j` and inline `j` do. */
  lemma InlinesOkSnoc(tpl: Template, xs: seq<Inline>, j: nat)
    requires j < |xs|
    ensures InlinesOk(tpl, xs[..j + 1]) <==> InlinesOk(tpl, xs[..j]) && InlineOk(tpl, xs[j])
    ensures InlinesOk(tpl, xs) ==> InlineOk(tpl, xs[j])
  {
    assert xs[..j + 1][j] == xs[j];
    assert forall k :: 0 <= k < j ==> xs[..j + 1][k] == xs[..j][k];
  }

  /** The rows before `i + 1` convert exactly when those before `i` and row `i` do. */
  lemma RowsOkSnoc(tpl: Template, colCnt: nat, rows: seq<Row>, i: nat)
    requires i < |rows|
    ensures RowsOk(tpl, colCnt, rows[..i + 1]) <==> RowsOk(tpl, colCnt, rows[..i]) && RowCellsOk(tpl, colCnt, rows[i])
    ensures RowsOk(tpl, colCnt, rows) ==> RowCellsOk(tpl, colCnt, rows[i])
  {
    assert rows[..i + 1][i] == rows[i];
    assert forall k :: 0 <= k < i ==> rows[..i + 1][k] == rows[..i][k];
  }

  /** One step of a row loop, as BlocksStep. */
  lemma RowsStep(tpl: Template, colCnt: nat, rows: seq<Row>, i: nat, ok: bool)
    requires i < |rows| && RowsOk(tpl, colCnt, rows[..i]) && (ok <==> RowCellsOk(tpl, colCnt, rows[i]))
    ensures ok ==> RowsOk(tpl, colCnt, rows[..i + 1])
    ensures !ok ==> !RowsOk(tpl, colCnt, rows)
  {
    RowsOkSnoc(tpl, colCnt, rows, i);
  }

  /** The cells written for row `|out|` follow those written for the rows before it. */
  lemma RowsFitSnoc(tpl: Template, out: seq<seq<TableCell>>, cs: seq<TableCell>, rows: seq<Row>, grid: seq<seq<Placement>>, colCnt: nat)
    requires |out| < |rows| && |out| < |grid|
    requires forall k :: 0 <= k < |out| ==> RowFits(tpl, out[k], rows[k], grid[k], colCnt)
    requires RowFits(tpl, cs, rows[|out|], grid[|out|], colCnt)
    ensures forall k :: 0 <= k < |out + [cs]| ==> RowFits(tpl, (out + [cs])[k], rows[k], grid[k], colCnt)
  {
    forall k | 0 <= k < |out + [cs]|
      ensures RowFits(tpl, (out + [cs])[k], rows[k], grid[k], colCnt)
    {
      if k < |out| {
        assert (out + [cs])[k] == out[k];
      }
    }
  }

  /** The cell written for cell `j` of a row follows those written for the cells before it. */
  lemma RowFitsSnoc(tpl: Template, cs: seq<TableCell>, c: TableCell, row: Row, rowPs: seq<Placement>, j: nat, colCnt: nat)
    requires j < |row.cells| == |rowPs|
    requires RowFits(tpl, cs, Row(row.cells[..j]), rowPs[..j], colCnt)
    requires CellFits(tpl, c, row.cells[j], rowPs[j], colCnt)
    ensures RowFits(tpl, cs + [c], Row(row.cells[..j + 1]), rowPs[..j + 1], colCnt)
  {
    forall k | 0 <= k < j + 1
      ensures CellFits(tpl, (cs + [c])[k], row.cells[..j + 1][k], rowPs[..j + 1][k], colCnt)
    {
      if k < j {
        assert (cs + [c])[k] == cs[k] && row.cells[..j + 1][k] == row.cells[..j][k] && rowPs[..j + 1][k] == rowPs[..j][k];
      }
    }
  }

  /** The cells of a row before `j + 1` convert exactly when those before `j` and cell `j` do. */
  lemma RowCellsOkSnoc(tpl: Template, colCnt: nat, row: Row, j: nat)
    requires j < |row.cells|
    ensures RowCellsOk(tpl, colCnt, Row(row.cells[..j + 1])) <==>
      RowCellsOk(tpl, colCnt, Row(row.cells[..j])) && CellOk(tpl, colCnt, row.cells[j])
    ensures RowCellsOk(tpl, colCnt, row) ==> CellOk(tpl, colCnt, row.cells[j])
  {
    assert row.cells[..j + 1][j] == row.cells[j];
    assert forall k :: 0 <= k < j ==> row.cells[..j + 1][k] == row.cells[..j][k];
  }
}
